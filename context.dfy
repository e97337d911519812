/** `get_context` in rag_pipeline.py: the retrieved chunks' texts joined,
    in order, by a blank line. */
module Context {
  import opened Documents

  const Separator: string := "\n\n"

  /** The summed length of a sequence of texts. */
  function TotalLength(texts: seq<string>): nat
  {
    if texts == [] then 0 else |texts[0]| + TotalLength(texts[1..])
  }

  /** `"\n\n".join(texts)`. */
  function Join(texts: seq<string>): (r: string)
    ensures texts == [] ==> r == ""
    ensures |texts| == 1 ==> r == texts[0]
    ensures texts != [] ==> |r| == TotalLength(texts) + |Separator| * (|texts| - 1)
  {
    if texts == [] then ""
    else if |texts| == 1 then texts[0]
    else texts[0] + Separator + Join(texts[1..])
  }

  /** Where the `i`-th text starts in the joined string: after the earlier
      texts and one separator for each of them. */
  function Offset(texts: seq<string>, i: nat): nat
    requires i <= |texts|
  {
    TotalLength(texts[..i]) + |Separator| * i
  }

  lemma {:induction false} OffsetOfTail(texts: seq<string>, i: nat)
    requires 0 < i <= |texts|
    ensures Offset(texts, i) == |texts[0]| + |Separator| + Offset(texts[1..], i - 1)
  {
    assert texts[..i][0] == texts[0];
    assert texts[..i][1..] == texts[1..][..i - 1];
  }

  lemma {:induction false} TotalLengthAppend(texts: seq<string>, t: string)
    ensures TotalLength(texts + [t]) == TotalLength(texts) + |t|
  {
    if texts != [] {
      assert (texts + [t])[1..] == texts[1..] + [t];
      TotalLengthAppend(texts[1..], t);
    }
  }

  /** Consecutive texts start one text and one separator apart. */
  lemma OffsetNext(texts: seq<string>, i: nat)
    requires i < |texts|
    ensures Offset(texts, i + 1) == Offset(texts, i) + |texts[i]| + |Separator|
  {
    assert texts[..i + 1] == texts[..i] + [texts[i]];
    TotalLengthAppend(texts[..i], texts[i]);
  }

  lemma SliceOfPrefix(a: string, b: string)
    ensures (a + b)[0..|a|] == a
  {
  }

  lemma SliceOfSuffix(a: string, b: string, lo: nat, hi: nat)
    requires lo <= hi <= |b|
    ensures (a + b)[|a| + lo..|a| + hi] == b[lo..hi]
  {
  }

  /** The joined string holds each text, unchanged, at its offset. */
  lemma {:induction false} JoinHasText(texts: seq<string>, i: nat)
    requires i < |texts|
    ensures Offset(texts, i) + |texts[i]| <= |Join(texts)|
    ensures Join(texts)[Offset(texts, i)..Offset(texts, i) + |texts[i]|] == texts[i]
  {
    if i == 0 {
      assert texts[..0] == [];
      if |texts| > 1 {
        SliceOfPrefix(texts[0], Separator + Join(texts[1..]));
        assert Join(texts) == texts[0] + (Separator + Join(texts[1..]));
      }
    } else {
      var rest := texts[1..];
      var head := texts[0] + Separator;
      assert Join(texts) == head + Join(rest);
      JoinHasText(rest, i - 1);
      OffsetOfTail(texts, i);
      var o := Offset(rest, i - 1);
      SliceOfSuffix(head, Join(rest), o, o + |texts[i]|);
    }
  }

  /** Between neighbouring texts the joined string holds exactly one separator. */
  lemma {:induction false} JoinHasSeparator(texts: seq<string>, i: nat)
    requires i + 1 < |texts|
    ensures Offset(texts, i + 1) == Offset(texts, i) + |texts[i]| + |Separator|
    ensures Offset(texts, i + 1) <= |Join(texts)|
    ensures Join(texts)[Offset(texts, i) + |texts[i]|..Offset(texts, i + 1)] == Separator
  {
    OffsetNext(texts, i);
    var rest := texts[1..];
    var head := texts[0] + Separator;
    assert Join(texts) == texts[0] + (Separator + Join(rest));
    if i == 0 {
      assert texts[..0] == [];
      SliceOfSuffix(texts[0], Separator + Join(rest), 0, |Separator|);
    } else {
      assert Join(texts) == head + Join(rest);
      JoinHasSeparator(rest, i - 1);
      OffsetOfTail(texts, i);
      OffsetOfTail(texts, i + 1);
      var o := Offset(rest, i - 1) + |texts[i]|;
      SliceOfSuffix(head, Join(rest), o, Offset(rest, i));
    }
  }

  /** `get_context(documents)`: the page contents joined by "\n\n". */
  function GetContext(documents: seq<Document>): (r: string)
    ensures documents == [] ==> r == ""
    ensures |documents| == 1 ==> r == documents[0].pageContent
    ensures documents != [] ==>
      |r| == TotalLength(Texts(documents)) + |Separator| * (|documents| - 1)
  {
    Join(Texts(documents))
  }
}
