/** `create_chunks` in vector_database.py: split the loaded pages into
    chunks, then stamp every chunk with the file it came from. */
module Chunking {
  import opened Documents

  /** A chunk as the splitter hands it back: a document object whose
      metadata is updated in place. */
  class Chunk {
    var pageContent: string
    var metadata: map<string, string>

    constructor (d: Document)
      ensures pageContent == d.pageContent && metadata == d.metadata
    {
      pageContent := d.pageContent;
      metadata := d.metadata;
    }
  }

  /** The current values of a sequence of chunk objects. */
  function Values(chunks: seq<Chunk>): (r: seq<Document>)
    reads set c | c in chunks
    ensures |r| == |chunks|
    ensures forall i :: 0 <= i < |chunks| ==>
      r[i] == Document(chunks[i].pageContent, chunks[i].metadata)
  {
    seq(|chunks|, i reads set c | c in chunks requires 0 <= i < |chunks| =>
      Document(chunks[i].pageContent, chunks[i].metadata))
  }

  /** One document with its source recorded. */
  function Stamp(d: Document, fileName: string): Document
  {
    d.(metadata := d.metadata[SourceKey := fileName])
  }

  /** What stamping does to a sequence of documents: the same documents, in
      the same order, each with `metadata["source"] == fileName` and its
      other metadata untouched. */
  function Stamped(docs: seq<Document>, fileName: string): (r: seq<Document>)
    ensures |r| == |docs|
    ensures forall i :: 0 <= i < |docs| ==> r[i] == Stamp(docs[i], fileName)
    ensures forall i :: 0 <= i < |docs| ==>
      && r[i].pageContent == docs[i].pageContent
      && SourceKey in r[i].metadata && r[i].metadata[SourceKey] == fileName
      && (forall key :: key != SourceKey && key in docs[i].metadata ==>
            key in r[i].metadata && r[i].metadata[key] == docs[i].metadata[key])
      && r[i].metadata.Keys == docs[i].metadata.Keys + {SourceKey}
  {
    if docs == [] then [] else [Stamp(docs[0], fileName)] + Stamped(docs[1..], fileName)
  }

  /** Stamping again with another name keeps only the last name. */
  lemma {:induction false} StampedTwice(docs: seq<Document>, first: string, second: string)
    ensures Stamped(Stamped(docs, first), second) == Stamped(docs, second)
  {
    if docs != [] {
      var d := docs[0];
      assert d.metadata[SourceKey := first][SourceKey := second] == d.metadata[SourceKey := second];
      assert Stamp(Stamp(d, first), second) == Stamp(d, second);
      StampedTwice(docs[1..], first, second);
      assert Stamped(docs, first)[1..] == Stamped(docs[1..], first);
    }
  }

  /** `splitter.split_documents(documents)`: the text splitter is the
      parameter `split`; the documents it returns are new objects. */
  method SplitDocuments(documents: seq<Document>, split: seq<Document> -> seq<Document>)
    returns (chunks: seq<Chunk>)
    ensures Values(chunks) == split(documents)
    ensures forall c :: c in chunks ==> fresh(c)
  {
    var parts := split(documents);
    chunks := [];
    for i := 0 to |parts|
      invariant |chunks| == i
      invariant forall c :: c in chunks ==> fresh(c)
      invariant Values(chunks) == parts[..i]
    {
      var c := new Chunk(parts[i]);
      chunks := chunks + [c];
    }
  }

  /** The loop of `create_chunks`: set `metadata["source"]` on every chunk. */
  method StampSource(chunks: seq<Chunk>, fileName: string)
    modifies set c | c in chunks
    ensures Values(chunks) == Stamped(old(Values(chunks)), fileName)
  {
    ghost var before := Values(chunks);
    for i := 0 to |chunks|
      invariant forall k :: 0 <= k < |chunks| ==> chunks[k].pageContent == before[k].pageContent
      invariant forall k :: 0 <= k < i ==>
        chunks[k].metadata == before[k].metadata[SourceKey := fileName]
      invariant forall k :: i <= k < |chunks| ==>
        chunks[k].metadata in {before[k].metadata, before[k].metadata[SourceKey := fileName]}
    {
      chunks[i].metadata := chunks[i].metadata[SourceKey := fileName];
    }
    ghost var after := Values(chunks);
    assert forall k :: 0 <= k < |chunks| ==> after[k] == Stamp(before[k], fileName);
  }

  /** `create_chunks(documents, file_name)`: the split chunks, in the order
      the splitter gives them, each stamped with `file_name`. */
  method CreateChunks(documents: seq<Document>, fileName: string,
                      split: seq<Document> -> seq<Document>)
    returns (chunks: seq<Chunk>)
    ensures Values(chunks) == Stamped(split(documents), fileName)
    ensures forall c :: c in chunks ==> fresh(c)
  {
    chunks := SplitDocuments(documents, split);
    StampSource(chunks, fileName);
  }
}
