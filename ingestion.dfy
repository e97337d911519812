/** The base-corpus ingestion script (backend/ingestion/ingest_base_docs.py):
    every PDF of the persistent folder is split into chunks and added to the
    `legal_corpus` collection under ids `<filename>_<i>`, unless some record
    of the collection already names that file as its source. Loading a file
    and splitting its pages are the parameters `load` and `split`. */
module Ingestion {
  import opened Documents
  import opened Decimal

  /** One record of a Chroma collection: its id, its text and its metadata. */
  datatype Record = Record(id: string, document: string, metadata: map<string, string>)

  /** The record's metadata names `source` as the file it came from. */
  predicate Tagged(r: Record, source: string)
  {
    SourceKey in r.metadata && r.metadata[SourceKey] == source
  }

  /** Some record of the collection came from `source`. */
  predicate HasSource(records: seq<Record>, source: string)
  {
    exists k :: 0 <= k < |records| && Tagged(records[k], source)
  }

  /** The ids that `collection.get(where={"source": source})` reports, in
      insertion order. */
  function SourceIds(records: seq<Record>, source: string): (r: seq<string>)
    ensures |r| <= |records|
    ensures r == [] <==> !HasSource(records, source)
    ensures forall id :: id in r <==>
      exists k :: 0 <= k < |records| && Tagged(records[k], source) && records[k].id == id
  {
    if records == [] then []
    else
      var init, last := records[..|records| - 1], records[|records| - 1];
      assert forall k :: 0 <= k < |init| ==> init[k] == records[k];
      SourceIds(init, source) + (if Tagged(last, source) then [last.id] else [])
  }

  /** Records of the collection with the same id appear once. */
  predicate DistinctIds(records: seq<Record>)
  {
    forall k, l :: 0 <= k < l < |records| ==> records[k].id != records[l].id
  }

  /** The records of `collection.add(documents=…, metadatas=…, ids=…)`:
      the three lists taken position by position. */
  function Records(ids: seq<string>, documents: seq<string>, metadatas: seq<map<string, string>>):
    (r: seq<Record>)
    requires |ids| == |documents| == |metadatas|
    ensures |r| == |ids|
    ensures forall i :: 0 <= i < |r| ==> r[i] == Record(ids[i], documents[i], metadatas[i])
  {
    seq(|ids|, i requires 0 <= i < |ids| => Record(ids[i], documents[i], metadatas[i]))
  }

  /** A Chroma collection, reduced to its records in insertion order. */
  class Collection {
    var records: seq<Record>

    /** The ids of the records whose source is `source`. */
    method Get(source: string) returns (ids: seq<string>)
      ensures ids == SourceIds(records, source)
      ensures ids == [] <==> !HasSource(records, source)
    {
      ids := SourceIds(records, source);
    }

    /** Appends one record per position of the three parallel lists; Chroma
        refuses lists of different lengths and a batch that repeats an id. */
    method Add(documents: seq<string>, metadatas: seq<map<string, string>>, ids: seq<string>)
      requires |documents| == |metadatas| == |ids|
      requires forall i, j :: 0 <= i < j < |ids| ==> ids[i] != ids[j]
      modifies this
      ensures records == old(records) + Records(ids, documents, metadatas)
    {
      records := records + Records(ids, documents, metadatas);
    }
  }

  /** The id of chunk `i` of file `filename`. */
  function ChunkId(filename: string, i: nat): string
  {
    filename + "_" + Str(i)
  }

  /** `id` has the shape `filename + "_" + digits`. */
  predicate IsChunkIdOf(id: string, filename: string)
  {
    |filename| + 1 < |id| && id[..|filename|] == filename && id[|filename|] == '_'
    && AllDigits(id[|filename| + 1..])
  }

  lemma ChunkIdShape(filename: string, i: nat)
    ensures IsChunkIdOf(ChunkId(filename, i), filename)
    ensures ChunkId(filename, i)[|filename| + 1..] == Str(i)
  {
    var id := ChunkId(filename, i);
    assert id == filename + ("_" + Str(i));
    assert id[..|filename|] == filename;
    assert id[|filename| + 1..] == Str(i);
  }

  /** The digits after `filename + "_"` contain no '_'. */
  lemma UnderscoreEndsFileName(id: string, filename: string)
    requires IsChunkIdOf(id, filename)
    ensures forall p :: |filename| < p < |id| ==> id[p] != '_'
  {
    forall p | |filename| < p < |id|
      ensures id[p] != '_'
    {
      assert id[p] == id[|filename| + 1..][p - |filename| - 1];
    }
  }

  /** The '_' before the digits is the id's last one, so an id of this
      shape names exactly one file. */
  lemma IdDeterminesFile(id1: string, id2: string, f: string, g: string)
    requires IsChunkIdOf(id1, f) && IsChunkIdOf(id2, g)
    ensures id1 == id2 ==> f == g
  {
    UnderscoreEndsFileName(id1, f);
    UnderscoreEndsFileName(id2, g);
  }

  /** Distinct (file, position) pairs give distinct ids, within a file and
      across files. */
  lemma ChunkIdInjective(f: string, i: nat, g: string, j: nat)
    requires ChunkId(f, i) == ChunkId(g, j)
    ensures f == g && i == j
  {
    ChunkIdShape(f, i);
    ChunkIdShape(g, j);
    IdDeterminesFile(ChunkId(f, i), ChunkId(g, j), f, g);
    StrInjective(i, j);
  }

  /** `[f"{filename}_{i}" for i in range(n)]`. */
  function ChunkIds(filename: string, n: nat): (r: seq<string>)
    ensures |r| == n
    ensures forall i :: 0 <= i < n ==> r[i] == ChunkId(filename, i)
  {
    seq(n, i requires 0 <= i < n => ChunkId(filename, i))
  }

  /** The ids of one file's chunks are pairwise distinct. */
  lemma ChunkIdsDistinct(filename: string, n: nat)
    ensures forall i, j :: 0 <= i < j < n ==> ChunkIds(filename, n)[i] != ChunkIds(filename, n)[j]
  {
    forall i, j | 0 <= i < j < n
      ensures ChunkIds(filename, n)[i] != ChunkIds(filename, n)[j]
    {
      if ChunkId(filename, i) == ChunkId(filename, j) {
        ChunkIdInjective(filename, i, filename, j);
      }
    }
  }

  /** `[{"source": filename}] * n`. */
  function SourceTags(filename: string, n: nat): (r: seq<map<string, string>>)
    ensures |r| == n
    ensures forall i :: 0 <= i < n ==> r[i] == map[SourceKey := filename]
  {
    seq(n, i => map[SourceKey := filename])
  }

  /** What one processed file adds: chunk i under id `<filename>_<i>`, with
      its text and the metadata `{"source": filename}` and nothing else. */
  function NewRecords(filename: string, chunks: seq<Document>): (r: seq<Record>)
    ensures |r| == |chunks|
    ensures forall i :: 0 <= i < |r| ==>
      r[i] == Record(ChunkId(filename, i), chunks[i].pageContent, map[SourceKey := filename])
    ensures forall i :: 0 <= i < |r| ==> Tagged(r[i], filename) && r[i].metadata.Keys == {SourceKey}
  {
    Records(ChunkIds(filename, |chunks|), Texts(chunks), SourceTags(filename, |chunks|))
  }

  /** One pass of the loop body: a file some record already names is
      skipped; otherwise its chunks are appended. */
  function Step(records: seq<Record>, filename: string, chunks: seq<Document>): (r: seq<Record>)
    ensures HasSource(records, filename) ==> r == records
    ensures !HasSource(records, filename) ==> r == records + NewRecords(filename, chunks)
  {
    if SourceIds(records, filename) != [] then records
    else records + NewRecords(filename, chunks)
  }

  /** The collection after the loop has handled `filenames`, in order. */
  function Ingest(records: seq<Record>, filenames: seq<string>,
                  load: string -> seq<Document>, split: seq<Document> -> seq<Document>):
    (r: seq<Record>)
    ensures |records| <= |r| && r[..|records|] == records
  {
    if filenames == [] then records
    else
      var f := filenames[|filenames| - 1];
      Step(Ingest(records, filenames[..|filenames| - 1], load, split), f, split(load(f)))
  }

  /** The script: for every file, ask the collection for records of that
      source, skip the file when there are some, and otherwise load, split
      and add its chunks. */
  method IngestBaseDocs(collection: Collection, filenames: seq<string>,
                        load: string -> seq<Document>, split: seq<Document> -> seq<Document>)
    modifies collection
    ensures collection.records == Ingest(old(collection.records), filenames, load, split)
  {
    for i := 0 to |filenames|
      invariant collection.records == Ingest(old(collection.records), filenames[..i], load, split)
    {
      var filename := filenames[i];
      assert filenames[..i + 1][..i] == filenames[..i];
      var existing := collection.Get(filename);
      if existing != [] {
        continue;
      }
      var documents := load(filename);
      var splitDocs := split(documents);
      var ids := ChunkIds(filename, |splitDocs|);
      var texts := Texts(splitDocs);
      var metadatas := SourceTags(filename, |splitDocs|);
      ChunkIdsDistinct(filename, |splitDocs|);
      collection.Add(texts, metadatas, ids);
    }
    assert filenames[..|filenames|] == filenames;
  }

  lemma HasSourceAppend(records: seq<Record>, more: seq<Record>, source: string)
    requires HasSource(records, source)
    ensures HasSource(records + more, source)
  {
    var k :| 0 <= k < |records| && Tagged(records[k], source);
    assert (records + more)[k] == records[k];
  }

  /** After a run, a file either has records or split into no chunks. */
  predicate Covered(records: seq<Record>, filename: string, chunks: seq<Document>)
  {
    HasSource(records, filename) || chunks == []
  }

  lemma {:induction false} IngestCovers(records: seq<Record>, filenames: seq<string>,
                                        load: string -> seq<Document>,
                                        split: seq<Document> -> seq<Document>, k: nat)
    requires k < |filenames|
    ensures Covered(Ingest(records, filenames, load, split), filenames[k], split(load(filenames[k])))
  {
    var n := |filenames|;
    var init := filenames[..n - 1];
    var before := Ingest(records, init, load, split);
    var f := filenames[n - 1];
    var after := Ingest(records, filenames, load, split);
    assert after == Step(before, f, split(load(f)));
    if k == n - 1 {
      if !HasSource(before, f) && split(load(f)) != [] {
        var added := NewRecords(f, split(load(f)));
        assert after == before + added;
        assert after[|before|] == added[0];
        assert Tagged(after[|before|], f);
      }
    } else {
      assert init[k] == filenames[k];
      IngestCovers(records, init, load, split, k);
      if HasSource(before, filenames[k]) && after != before {
        HasSourceAppend(before, NewRecords(f, split(load(f))), filenames[k]);
      }
    }
  }

  lemma {:induction false} IngestCoveredChangesNothing(records: seq<Record>, filenames: seq<string>,
                                                       load: string -> seq<Document>,
                                                       split: seq<Document> -> seq<Document>)
    requires forall k :: 0 <= k < |filenames| ==>
      Covered(records, filenames[k], split(load(filenames[k])))
    ensures Ingest(records, filenames, load, split) == records
  {
    if filenames != [] {
      var n := |filenames|;
      var init := filenames[..n - 1];
      assert forall k :: 0 <= k < |init| ==> init[k] == filenames[k];
      IngestCoveredChangesNothing(records, init, load, split);
      var f := filenames[n - 1];
      if !HasSource(records, f) {
        assert split(load(f)) == [];
        assert records + NewRecords(f, []) == records;
      }
    }
  }

  /** Running the script a second time over the same files adds nothing. */
  lemma IngestTwice(records: seq<Record>, filenames: seq<string>,
                    load: string -> seq<Document>, split: seq<Document> -> seq<Document>)
    ensures var once := Ingest(records, filenames, load, split);
      Ingest(once, filenames, load, split) == once
  {
    var once := Ingest(records, filenames, load, split);
    forall k | 0 <= k < |filenames|
      ensures Covered(once, filenames[k], split(load(filenames[k])))
    {
      IngestCovers(records, filenames, load, split, k);
    }
    IngestCoveredChangesNothing(once, filenames, load, split);
  }

  lemma {:induction false} SourceIdsAppend(records: seq<Record>, more: seq<Record>, source: string)
    ensures SourceIds(records + more, source) == SourceIds(records, source) + SourceIds(more, source)
  {
    if more == [] {
      assert records + more == records;
    } else {
      var all := records + more;
      var init, last := more[..|more| - 1], more[|more| - 1];
      var tail := if Tagged(last, source) then [last.id] else [];
      assert all[..|all| - 1] == records + init;
      assert all[|all| - 1] == last;
      assert SourceIds(all, source) == SourceIds(records + init, source) + tail;
      assert SourceIds(more, source) == SourceIds(init, source) + tail;
      SourceIdsAppend(records, init, source);
      assert SourceIds(all, source)
        == (SourceIds(records, source) + SourceIds(init, source)) + tail;
    }
  }

  /** A file's new records name only that file. */
  lemma NewRecordsOfOtherFile(filename: string, chunks: seq<Document>, source: string)
    requires filename != source
    ensures SourceIds(NewRecords(filename, chunks), source) == []
  {
    var added := NewRecords(filename, chunks);
    forall k | 0 <= k < |added| ensures !Tagged(added[k], source) {
      assert Tagged(added[k], filename);
    }
  }

  /** One pass of the loop leaves the ids of a file that already has
      records as they were. */
  lemma StepKeepsSourceIds(records: seq<Record>, filename: string, chunks: seq<Document>,
                           source: string)
    requires HasSource(records, source)
    ensures SourceIds(Step(records, filename, chunks), source) == SourceIds(records, source)
  {
    if !HasSource(records, filename) {
      assert filename != source;
      NewRecordsOfOtherFile(filename, chunks, source);
      SourceIdsAppend(records, NewRecords(filename, chunks), source);
      assert SourceIds(records, source) + [] == SourceIds(records, source);
    }
  }

  /** A file that already has records keeps exactly those: a later run
      skips it wherever it occurs, and other files' chunks name their own
      file as source. */
  lemma {:induction false} IngestedFileIsSkipped(records: seq<Record>, filenames: seq<string>,
                                                 load: string -> seq<Document>,
                                                 split: seq<Document> -> seq<Document>,
                                                 source: string)
    requires HasSource(records, source)
    ensures SourceIds(Ingest(records, filenames, load, split), source) == SourceIds(records, source)
  {
    if filenames != [] {
      var init := filenames[..|filenames| - 1];
      var f := filenames[|filenames| - 1];
      var before := Ingest(records, init, load, split);
      IngestedFileIsSkipped(records, init, load, split, source);
      assert SourceIds(before, source) != [];
      StepKeepsSourceIds(before, f, split(load(f)), source);
    }
  }

  /** Every record names its file, its id has the shape `<file>_<digits>`,
      and no id occurs twice. */
  predicate Valid(records: seq<Record>)
  {
    (forall k :: 0 <= k < |records| ==>
      SourceKey in records[k].metadata && IsChunkIdOf(records[k].id, records[k].metadata[SourceKey]))
    && DistinctIds(records)
  }

  /** A file's new records are valid on their own. */
  lemma NewRecordsValid(filename: string, chunks: seq<Document>)
    ensures Valid(NewRecords(filename, chunks))
  {
    var added := NewRecords(filename, chunks);
    forall k | 0 <= k < |added|
      ensures SourceKey in added[k].metadata && IsChunkIdOf(added[k].id, added[k].metadata[SourceKey])
    {
      ChunkIdShape(filename, k);
    }
    forall k, l | 0 <= k < l < |added|
      ensures added[k].id != added[l].id
    {
      if added[k].id == added[l].id {
        ChunkIdInjective(filename, k, filename, l);
      }
    }
  }

  /** A file no record names gets ids that no record has. */
  lemma NewIdsAreFresh(records: seq<Record>, filename: string, chunks: seq<Document>)
    requires Valid(records) && !HasSource(records, filename)
    ensures forall k, l :: 0 <= k < |records| && 0 <= l < |chunks| ==>
      records[k].id != ChunkId(filename, l)
  {
    forall k, l | 0 <= k < |records| && 0 <= l < |chunks|
      ensures records[k].id != ChunkId(filename, l)
    {
      assert !Tagged(records[k], filename);
      ChunkIdShape(filename, l);
      IdDeterminesFile(records[k].id, ChunkId(filename, l), records[k].metadata[SourceKey], filename);
    }
  }

  /** Two valid runs of records with no id in common make a valid whole. */
  lemma AppendValid(first: seq<Record>, second: seq<Record>)
    requires Valid(first) && Valid(second)
    requires forall k, l :: 0 <= k < |first| && 0 <= l < |second| ==> first[k].id != second[l].id
    ensures Valid(first + second)
  {
    var all := first + second;
    forall k | 0 <= k < |all|
      ensures SourceKey in all[k].metadata && IsChunkIdOf(all[k].id, all[k].metadata[SourceKey])
    {
      if k >= |first| {
        assert all[k] == second[k - |first|];
      }
    }
    forall k, l | 0 <= k < l < |all|
      ensures all[k].id != all[l].id
    {
      if |first| <= k {
        assert all[k] == second[k - |first|] && all[l] == second[l - |first|];
      } else if |first| <= l {
        assert all[l] == second[l - |first|];
      }
    }
  }

  lemma StepKeepsValid(records: seq<Record>, filename: string, chunks: seq<Document>)
    requires Valid(records)
    ensures Valid(Step(records, filename, chunks))
  {
    if !HasSource(records, filename) {
      NewRecordsValid(filename, chunks);
      NewIdsAreFresh(records, filename, chunks);
      AppendValid(records, NewRecords(filename, chunks));
    }
  }

  /** Ingestion keeps the collection valid: in particular it never adds an
      id the collection already holds. */
  lemma {:induction false} IngestKeepsValid(records: seq<Record>, filenames: seq<string>,
                                            load: string -> seq<Document>,
                                            split: seq<Document> -> seq<Document>)
    requires Valid(records)
    ensures Valid(Ingest(records, filenames, load, split))
  {
    if filenames != [] {
      var init := filenames[..|filenames| - 1];
      var f := filenames[|filenames| - 1];
      IngestKeepsValid(records, init, load, split);
      StepKeepsValid(Ingest(records, init, load, split), f, split(load(f)));
    }
  }
}
