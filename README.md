# AI Lawyer: collection naming, chunk stamping, retrieval glue, report layout and base-corpus ingestion

AI Lawyer is a retrieval-augmented legal assistant. A user uploads a PDF,
which is split into chunks. Each chunk is stamped with the file it came
from and stored in a Chroma collection named after the file. A question is
answered from the five nearest chunks of that collection: the chunks are
joined into a context, the context is bound into a prompt template, and a
language model is asked. The conversation can be exported as a PDF report.
A separate script loads a fixed folder of base legal documents into a
shared `legal_corpus` collection, skipping files that are already there.

This Dafny project models the parts of that system that are decided by the
code itself and not by a library:

- `CollectionName`: `sanitize_collection_name`. The POSIX
  `os.path.splitext` root, ASCII `lower()`, `re.sub(r'[^a-z0-9._-]', '-')`,
  `strip("-")` and the cut to 63 characters, plus `os.path.basename`.
- `Chunking`: `create_chunks`. The splitter is a parameter. Chunks are
  objects, and the stamping loop updates their metadata in place.
- `VectorStore`: the persistent client as a map from collection names to
  records. `index_pdf` appends the stamped chunks to the collection of the
  sanitised base name. `retrieve_docs` opens (or creates) the collection of
  the sanitised file name and returns at most 5 records, in the order of a
  ranking parameter.
- `Context`: `get_context`, the chunk texts joined by a blank line.
- `Prompt`: a chat prompt template as text and `{name}` slots, and the
  variable binding of `answer_query` (history defaults to `""`) and
  `summarize_document`.
- `Report`: `generate_report`. The reportlab canvas is a log of drawn
  strings with page and position. `simpleSplit` is the parameter `wrap`.
  The inner loop moves the pen 15 points down per line and starts a new
  page below y = 50.
- `Ingestion`: the base-corpus script. The collection is an object whose
  records are appended by `add`. The loop skips a file that some record
  already names as its source. Otherwise it adds the file's chunks under
  ids `<filename>_<i>` with metadata `{"source": filename}`.
- `Documents` and `Decimal` are shared value types: a LangChain document,
  and `str(i)` with its inverse.

Main results:

- A sanitised name is at most 63 characters, all in `[a-z0-9._-]`, and
  never starts with `-`.
- Any valid stem is kept unchanged. The extension does not matter when the
  stem's last path component is not made only of dots; when it is (".pdf"),
  the extension stays part of the name.
- Directory parts, dot files, a repeated pass and the cut all behave as
  the concrete lemmas show.
- Indexed chunks are found by any file name that sanitises to the same
  collection name.
- The joined context holds every text at a computable offset, with exactly
  one separator between neighbours.
- The answer prompt is never missing a variable, and its text is given in
  closed form.
- The report draws every wrapped line of every pair in `zip` order. The
  first page holds at most 44 transcript lines and every later page at
  most 47.
- Ingestion only appends. A file that is already present is never
  re-added. A second run over the same files adds nothing. Ids never
  collide, within one file or across files.

## Model

| member | source | states |
|---|---|---|
| Decimal.Str | backend/ingestion/ingest_base_docs.py:35 | `str(i)`: a non-empty string of decimal digits with no leading zero |
| Decimal.ParseStr | backend/ingestion/ingest_base_docs.py:35 | reading the digits of `str(n)` back gives `n` |
| Decimal.StrInjective | backend/ingestion/ingest_base_docs.py:35 | distinct chunk positions have distinct decimal suffixes |
| Documents.Texts | backend/ingestion/ingest_base_docs.py:36 | the list of `page_content`s has one entry per document, in order |
| CollectionName.Basename | vector_database.py:50 | `os.path.basename`: a suffix of the path without '/', and the character before it is '/' whenever it is shorter than the path |
| CollectionName.SplitExtRoot | vector_database.py:44 | root of POSIX `splitext`: a prefix; when it drops something, that starts at a '.' whose remainder has no '.' or '/', and the root's last component is not only dots; when it drops nothing, there is no such '.' |
| CollectionName.Lower | vector_database.py:44 | same length, no ASCII upper-case letter left, each upper-case letter becomes its own lower-case letter (code point + 32), every other character kept |
| CollectionName.Substitute | vector_database.py:45 | same length, every character in `[a-z0-9._-]`, allowed characters kept, each other character becomes one '-', identity on allowed strings |
| CollectionName.Strip | vector_database.py:46 | the slice between the leading and the trailing run of '-', which itself neither starts nor ends with '-' |
| CollectionName.StrippedStem | vector_database.py:44-46 | the stem after lower-casing, substitution and stripping is all allowed characters, with no '-' at either end |
| CollectionName.Sanitize | vector_database.py:43-47 | at most 63 characters, all in `[a-z0-9._-]`, no leading '-'; the first min(63, n) characters of the stripped stem; no trailing '-' when nothing was cut |
| CollectionName.CleanIsFixed | vector_database.py:44-46 | a string of allowed characters without '-' at either end passes lower-casing, substitution and stripping unchanged |
| CollectionName.RootOfStemAndExtension | vector_database.py:44 | `splitext` drops exactly the last extension when the stem's last component is not only dots |
| CollectionName.DotsAreNotAStem | vector_database.py:44 | a last component of only dots before the extension keeps the extension (".pdf", "..pdf") |
| CollectionName.CleanStemIsKept | vector_database.py:43-47 | a stem that already is a valid name (non-empty, allowed characters, no '/', no '-' at either end, no leading '.', at most 63) is returned unchanged for any extension |
| CollectionName.SameStemSameName | vector_database.py:44 | two file names that differ only in their extension get the same collection name, provided the stem's last path component is not made only of dots (".pdf" and ".txt" give different names) |
| CollectionName.AllDisallowedGivesEmpty | vector_database.py:45-47 | no minimum length: a stem with no allowed character gives the empty name |
| CollectionName.ExampleCaseFolded | vector_database.py:43-47 | "Contract.PDF" gives "contract" |
| CollectionName.ExampleDotFile | vector_database.py:43-47 | ".pdf" gives ".pdf" |
| CollectionName.ExampleDirectoryMatters | vector_database.py:43-47 | a path with a directory, "docs/a.pdf", gives "docs-a", not "a" |
| CollectionName.ExampleBasename | vector_database.py:50-51 | after `basename`, "docs/a.pdf" gives "a" |
| CollectionName.NotIdempotent | vector_database.py:44 | sanitising twice drops a second extension: "a.b.pdf" gives "a.b", which gives "a" |
| CollectionName.CutCanLeaveTrailingDash | vector_database.py:46-47 | stripping before cutting lets a 63-character name end with '-' |
| Chunking.Stamped | vector_database.py:31-32 | the same chunks in the same order, the same text, `metadata["source"]` equal to the file name, every other key and value untouched |
| Chunking.StampedTwice | vector_database.py:32 | stamping again with another name keeps only the last name |
| Chunking.SplitDocuments | vector_database.py:30 | the chunk objects are new and hold exactly the splitter's output |
| Chunking.StampSource | vector_database.py:31-32 | after the loop, the chunks' values are the stamped values they had before |
| Chunking.CreateChunks | vector_database.py:28-33 | the result is the splitter's output stamped with the file name, in new objects |
| VectorStore.Client.GetOrCreate | vector_database.py:66-70 | an existing collection is kept as it is; a missing one is created empty |
| VectorStore.Client.Add | vector_database.py:55-60 | the documents are appended after the collection's records; other collections are unchanged |
| VectorStore.Client.AddDocuments | vector_database.py:55-60 | `from_documents`: open or create the collection, then append |
| VectorStore.IndexPdf | vector_database.py:49-62 | the chunks are the split pages stamped with the base name, appended to the collection named `Sanitize(basename)` and nowhere else |
| VectorStore.IndexedChunksAreFindable | vector_database.py:49-72 | after indexing, a retrieval for any file name with the same sanitised name reads a collection ending with the new chunks; other collections read as before |
| VectorStore.Nearest | vector_database.py:72 | exactly min(k, number of ranking positions inside the collection) records, each one a record of the collection |
| VectorStore.RetrieveDocs | vector_database.py:64-72 | at most 5 documents, all from the collection of `Sanitize(file_name)`; a missing collection is created empty and gives no documents |
| Context.Join | rag_pipeline.py:18 | `"\n\n".join`: empty for no texts, the text itself for one, and total length plus 2 per gap |
| Context.JoinHasText | rag_pipeline.py:18 | the i-th text appears unchanged at offset (lengths of the earlier texts + 2·i) |
| Context.JoinHasSeparator | rag_pipeline.py:18 | exactly "\n\n" lies between the i-th and the (i+1)-th text |
| Context.GetContext | rag_pipeline.py:17-18 | the page contents joined: "" for no documents, the content itself for one, and the length formula otherwise |
| Prompt.Format | rag_pipeline.py:35-37 | filling a template succeeds exactly when every slot has a value |
| Prompt.QaTemplateVariables | rag_pipeline.py:20-31 | the question-answering template's variables are exactly history, question and context |
| Prompt.QaVariables | rag_pipeline.py:33-37 | the bound variables are exactly the template's, with question = query, context = `get_context(documents)`, history = the given or default "" |
| Prompt.AnswerPrompt | rag_pipeline.py:33-37 | the filled prompt never fails, and is the template text with history, question and context in their places |
| Prompt.AnswerQuery | rag_pipeline.py:33-37 | the reply is the model applied to the template text with history, question and context in their places |
| Prompt.SummaryPrompt | rag_pipeline.py:39-52 | the summary prompt never fails, and is its template text with the context in its place |
| Prompt.SummarizeDocument | rag_pipeline.py:39-52 | the reply is the model applied to the summary template text with the context in its place |
| Report.Canvas.constructor | rag_pipeline.py:56 | a new canvas is on page 1, has drawn nothing and is not saved |
| Report.Canvas.DrawString | rag_pipeline.py:67 | one string is logged at the current page and the given position |
| Report.Canvas.ShowPage | rag_pipeline.py:70 | the page number goes up by one and nothing is drawn |
| Report.Canvas.Save | rag_pipeline.py:72 | the canvas is saved, with its drawing unchanged |
| Report.ReportLines | rag_pipeline.py:63-66 | no pairs give no lines; every line comes from the wrapped question or answer of one of the first min(len(queries), len(responses)) pairs |
| Report.ZipDropsExtra | rag_pipeline.py:63 | `zip`: only the first min(len(queries), len(responses)) pairs are reported |
| Report.ReportLinesNext | rag_pipeline.py:63-65 | one more pair appends its question's wrapped lines, then its answer's |
| Report.Layout | rag_pipeline.py:66-71 | one draw per line, in order, with that line's text, at x = 100 |
| Report.LayoutNeverGoesBack | rag_pipeline.py:66-71 | no line is drawn on a page before the pen's |
| Report.LayoutWithinMargins | rag_pipeline.py:66-71 | from a pen within [50, 750] every line is drawn with y within [50, 750] |
| Report.LayoutSteps | rag_pipeline.py:66-71 | each next line is 15 lower on the same page, or at y = 750 on the next page when 15 lower is under 50 |
| Report.Advance | rag_pipeline.py:68-71 | the pen either stays on its page 15 lower, still at or above 50, or moves to the next page at y = 750 exactly when 15 lower is under 50; a pen within [50, 750] stays within it |
| Report.PenAfter | rag_pipeline.py:66-71 | the pen never moves to an earlier page and stays within [50, 750] |
| Report.LayoutNext | rag_pipeline.py:66-71 | after the first j lines, line j is drawn where the pen stands and the pen advances once |
| Report.LayoutAppend | rag_pipeline.py:66-71 | drawing one more line puts it where the pen stands after the earlier lines |
| Report.LayoutConcat | rag_pipeline.py:66-71 | laying out two runs of lines is laying out the first, then the second from where the first left the pen |
| Report.PageCapacity | rag_pipeline.py:68-71 | no line lands on an earlier page; the current page gets at most (y − 50)/15 + 1 lines, a later page at most 47 |
| Report.ReportPageCapacity | rag_pipeline.py:62-71 | from y = 700 the first page holds at most 44 transcript lines, every later page at most 47 |
| Report.DrawLines | rag_pipeline.py:66-71 | the inner loop draws exactly the layout of its lines from the current pen and leaves the pen after them |
| Report.GenerateReport | rag_pipeline.py:54-73 | returns "AI_Lawyer_Report.pdf", and a saved canvas holding the title, the subtitle, then the layout of every zipped pair's lines from y = 700 on page 1 |
| Ingestion.SourceIds | backend/ingestion/ingest_base_docs.py:26-27 | `get(where={"source": f})["ids"]`: exactly the ids of the records tagged f, empty exactly when no record is tagged f |
| Ingestion.Records | backend/ingestion/ingest_base_docs.py:40 | the added records pair ids, texts and metadatas position by position |
| Ingestion.Collection.Get | backend/ingestion/ingest_base_docs.py:26 | returns the ids of the records tagged with the source, empty exactly when there are none |
| Ingestion.Collection.Add | backend/ingestion/ingest_base_docs.py:40 | the records of the batch are appended after the existing ones |
| Ingestion.ChunkIds | backend/ingestion/ingest_base_docs.py:35 | n ids, the i-th being `<filename>_<i>` |
| Ingestion.ChunkIdShape | backend/ingestion/ingest_base_docs.py:35 | a chunk id is the file name, '_', then the digits of i |
| Ingestion.IdDeterminesFile | backend/ingestion/ingest_base_docs.py:35 | an id of the shape `<file>_<digits>` names exactly one file |
| Ingestion.ChunkIdInjective | backend/ingestion/ingest_base_docs.py:35 | equal ids come from the same file and the same position, even when file names contain '_' |
| Ingestion.ChunkIdsDistinct | backend/ingestion/ingest_base_docs.py:35 | the ids of one file's chunks are pairwise distinct |
| Ingestion.SourceTags | backend/ingestion/ingest_base_docs.py:37 | n metadata entries, each `{"source": filename}` |
| Ingestion.NewRecords | backend/ingestion/ingest_base_docs.py:35-40 | one record per chunk: id `<filename>_<i>`, the chunk's text, metadata exactly `{"source": filename}` |
| Ingestion.Step | backend/ingestion/ingest_base_docs.py:26-40 | a file some record already names is skipped; otherwise exactly its new records are appended |
| Ingestion.Ingest | backend/ingestion/ingest_base_docs.py:23-41 | the records before the run are kept as a prefix |
| Ingestion.IngestBaseDocs | backend/ingestion/ingest_base_docs.py:23-41 | the loop leaves the collection holding the fold of the skip-or-append step over the files, in order |
| Ingestion.IngestCovers | backend/ingestion/ingest_base_docs.py:26-40 | after a run, every listed file has a record or split into no chunks |
| Ingestion.IngestCoveredChangesNothing | backend/ingestion/ingest_base_docs.py:26-40 | a run over files that all have records, or split into nothing, changes nothing |
| Ingestion.IngestTwice | backend/ingestion/ingest_base_docs.py:23-41 | a second run over the same files adds nothing |
| Ingestion.StepKeepsSourceIds | backend/ingestion/ingest_base_docs.py:26-40 | one pass of the loop leaves the ids of a file that already has records unchanged |
| Ingestion.IngestedFileIsSkipped | backend/ingestion/ingest_base_docs.py:26-29 | a file that already has records ends the run with exactly the same ids for it |
| Ingestion.NewRecordsValid | backend/ingestion/ingest_base_docs.py:35-37 | one file's new records each name the file, carry an id of its shape, and have distinct ids |
| Ingestion.NewIdsAreFresh | backend/ingestion/ingest_base_docs.py:26-35 | a file no record names gets ids that no existing record of a valid collection has |
| Ingestion.StepKeepsValid | backend/ingestion/ingest_base_docs.py:35-40 | one step keeps every record tagged with an id of its file's shape, and keeps all ids distinct |
| Ingestion.IngestKeepsValid | backend/ingestion/ingest_base_docs.py:23-41 | a run keeps the collection valid; in particular it never adds an id the collection already holds |

## Left out

- Text extraction from PDFs (`load_pdf`, `load_pdf_as_documents`) and the upload (`upload_pdf`) are file I/O. The loaded pages are a parameter: `pages` in `IndexPdf`, `load` in `IngestBaseDocs`.
- The folder glob of the ingestion script is file I/O. The model takes the sequence of file names it yields.
- `RecursiveCharacterTextSplitter` is library code. It is the parameter `split`, and no chunk size or overlap property is claimed.
- Embeddings, similarity search and the persistence of the store are library code with floating-point ranking. The ranking is the parameter `rank` of `RetrieveDocs`, and `Nearest` takes its first 5 valid positions.
- Chroma's own validation is library code and not part of this model. For collection names, that is a minimum length and alphanumeric first and last characters. The `CollectionName` lemmas show which names the code produces that such validation would refuse: an empty name, a leading '.', a trailing '-'. A name containing ".." is refused too, and the code does not prevent it.
- Chroma ids are unique per collection. The `VectorStore` collections are append-only sequences of documents, so indexing the same file twice stores its chunks twice, which is how the code behaves.
- Ingestion.Collection.Add: the model accepts an empty batch as a no-op, so a file that splits into no chunks (a scanned PDF without a text layer, say) is passed over, and the loop goes on. Chroma refuses an `add` with an empty id list with a `ValueError`. The script has no handler, so the real run stops at such a file and the later files are never ingested. `IngestCovers` and `IngestCoveredChangesNothing` describe the model's behaviour, not that failure. Chroma's other checks on a batch, equal lengths and distinct ids, are the requires of `Add`.
- VectorStore.RetrieveDocs: a file name that was never indexed gives no documents, not an error. The `Chroma` constructor creates a missing collection, and the model follows that.
- CollectionName.Lower: only ASCII letters are lower-cased. Python's `str.lower()` also maps other letters, but all of them except the Kelvin sign (U+212A) and U+0130 then become '-' through the substitution, so only those two differ.
- Metadata values are modelled as strings. The loaders' other values, such as the integer `page`, pass through `create_chunks` into the store unchanged; the model does not distinguish their types.
- The language-model calls (`chain.invoke`) are a parameter `model`. `Prompt.AnswerQuery` and `Prompt.SummarizeDocument` apply it to the proved prompt text and state nothing else about the reply. The model name and temperature are not modelled.
- Fonts and font sizes (`setFont`), the page size, and the rendering of the report file are reportlab internals. `simpleSplit` (wrapping at 450 points) is the parameter `wrap`. Writing the file is the canvas's `saved` flag.
- Logging (`logger.py`), the Streamlit interface (`app.py`), the `.env` loading, the `rag_pipeline.retrieve_docs` wrapper (a direct call) and the test script are outside this model. The `print` calls of the ingestion script are omitted.
