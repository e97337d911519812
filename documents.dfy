/** The document value that the text splitter, the vector store and the
    context assembler exchange: a passage of text plus string metadata. */
module Documents {

  /** A LangChain `Document` as a value: `page_content` and `metadata`. */
  datatype Document = Document(pageContent: string, metadata: map<string, string>)

  /** The metadata key under which every chunk records the file it came from. */
  const SourceKey: string := "source"

  /** The texts of a sequence of documents, in order. */
  function Texts(docs: seq<Document>): (r: seq<string>)
    ensures |r| == |docs|
    ensures forall i :: 0 <= i < |docs| ==> r[i] == docs[i].pageContent
  {
    seq(|docs|, i requires 0 <= i < |docs| => docs[i].pageContent)
  }
}
