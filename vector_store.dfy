/** `index_pdf` and `retrieve_docs` in vector_database.py: both address the
    persistent store through the collection name derived from the file
    name, and retrieval asks for the 5 nearest chunks. Embeddings and the
    similarity ranking belong to the store and are parameters here. */
module VectorStore {
  import opened Documents
  import opened CollectionName
  import opened Chunking

  /** The number of chunks a retrieval asks for (`k=5`). */
  const TopK: nat := 5

  /** The records of collection `name`; a collection not yet created reads as empty. */
  function Stored(store: map<string, seq<Document>>, name: string): seq<Document>
  {
    if name in store then store[name] else []
  }

  /** The persistent client: one collection of chunks per name. */
  class Client {
    var collections: map<string, seq<Document>>

    /** `get_or_create_collection(name)`: an existing collection is kept. */
    method GetOrCreate(name: string)
      modifies this
      ensures name in collections
      ensures collections == if name in old(collections) then old(collections)
                             else old(collections)[name := []]
    {
      if name !in collections {
        collections := collections[name := []];
      }
    }

    /** Adding documents to a collection appends them after what it holds. */
    method Add(name: string, docs: seq<Document>)
      modifies this
      ensures collections == old(collections)[name := Stored(old(collections), name) + docs]
    {
      collections := collections[name := Stored(collections, name) + docs];
    }

    /** `Chroma.from_documents(docs, collection_name=name, client=...)`:
        open or create the collection, then add the documents to it. */
    method AddDocuments(name: string, docs: seq<Document>)
      modifies this
      ensures collections == old(collections)[name := Stored(old(collections), name) + docs]
    {
      GetOrCreate(name);
      Add(name, docs);
    }
  }

  /** Appending `chunks` to collection `name` leaves a collection ending
      with them, and every other collection as it was. */
  lemma AppendedChunksAreFindable(store: map<string, seq<Document>>, name: string,
                                  chunks: seq<Document>, other: string)
    ensures var found := Stored(store[name := Stored(store, name) + chunks], other);
      if other == name then
        |found| >= |chunks| && found[|found| - |chunks|..] == chunks
      else
        found == Stored(store, other)
  {
    if other == name {
      var found := Stored(store, name) + chunks;
      assert found[|found| - |chunks|..] == chunks;
    }
  }

  /** Indexing `filePath` appends `chunks` to the collection of its
      sanitised base name: a retrieval with any file name that sanitises to
      the same name (the base name itself among them) reads a collection
      ending with those chunks, and every other collection is unchanged. */
  lemma IndexedChunksAreFindable(store: map<string, seq<Document>>, filePath: string,
                                 chunks: seq<Document>, fileName: string)
    ensures var name := Sanitize(Basename(filePath));
      var after := store[name := Stored(store, name) + chunks];
      var found := Stored(after, Sanitize(fileName));
      if Sanitize(fileName) == name then
        |found| >= |chunks| && found[|found| - |chunks|..] == chunks
      else
        found == Stored(store, Sanitize(fileName))
  {
    AppendedChunksAreFindable(store, Sanitize(Basename(filePath)), chunks, Sanitize(fileName));
  }

  /** `index_pdf(file_path)`: chunks of the loaded pages, stamped with the
      base name, appended to the collection named after that base name.
      Loading the PDF is the parameter `pages`. */
  method IndexPdf(client: Client, filePath: string, pages: seq<Document>,
                  split: seq<Document> -> seq<Document>)
    returns (chunks: seq<Chunk>)
    modifies client
    ensures forall c :: c in chunks ==> fresh(c)
    ensures Values(chunks) == Stamped(split(pages), Basename(filePath))
    ensures client.collections == old(client.collections)[Sanitize(Basename(filePath)) :=
              Stored(old(client.collections), Sanitize(Basename(filePath))) + Values(chunks)]
  {
    var fileName := Basename(filePath);
    var collectionName := Sanitize(fileName);
    chunks := CreateChunks(pages, fileName, split);
    var docs := Values(chunks);
    client.AddDocuments(collectionName, docs);
    assert Values(chunks) == docs;
  }

  /** How many positions of the ranking fall inside the collection. */
  function InRange(records: seq<Document>, ranking: seq<nat>): nat
  {
    if ranking == [] then 0
    else (if ranking[0] < |records| then 1 else 0) + InRange(records, ranking[1..])
  }

  /** The first `k` records picked by the store's ranking, which lists
      positions in the collection best match first. */
  function Nearest(records: seq<Document>, ranking: seq<nat>, k: nat): (r: seq<Document>)
    ensures |r| == if InRange(records, ranking) < k then InRange(records, ranking) else k
    ensures forall d :: d in r ==> d in records
  {
    if k == 0 || ranking == [] then []
    else if ranking[0] < |records| then [records[ranking[0]]] + Nearest(records, ranking[1..], k - 1)
    else Nearest(records, ranking[1..], k)
  }

  /** `retrieve_docs(query, file_name)`: open (creating it if absent) the
      collection named after `file_name` and return at most 5 of its chunks,
      ranked by `rank`. A file that was never indexed gives an empty
      collection and so no chunks, not an error. */
  method RetrieveDocs(client: Client, query: string, fileName: string,
                      rank: (string, seq<Document>) -> seq<nat>)
    returns (docs: seq<Document>)
    modifies client
    ensures client.collections ==
      if Sanitize(fileName) in old(client.collections) then old(client.collections)
      else old(client.collections)[Sanitize(fileName) := []]
    ensures var records := Stored(client.collections, Sanitize(fileName));
      docs == Nearest(records, rank(query, records), TopK)
    ensures |docs| <= TopK
    ensures forall d :: d in docs ==> d in Stored(old(client.collections), Sanitize(fileName))
  {
    var collectionName := Sanitize(fileName);
    client.GetOrCreate(collectionName);
    var records := client.collections[collectionName];
    docs := Nearest(records, rank(query, records), TopK);
  }
}
