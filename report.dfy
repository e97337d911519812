/** `generate_report` in rag_pipeline.py: the question/answer transcript
    laid out as lines on PDF pages. The canvas is modelled as the log of
    the strings it draws, each with its page and position; wrapping a
    string into lines of at most 450 points (`simpleSplit`) is the
    parameter `wrap`, which depends on the font. */
module Report {

  const ReportPath: string := "AI_Lawyer_Report.pdf"
  const LeftMargin: int := 100
  const Title: string := "AI Lawyer Report"
  const TitleY: int := 750
  const Subtitle: string := "Below is a record of your conversation with AI Lawyer."
  const SubtitleY: int := 730
  /** Where the first transcript line is drawn. */
  const FirstLineY: int := 700
  /** How far down each drawn line moves the pen. */
  const LineStep: int := 15
  /** The pen may not go below this; it then moves to a new page. */
  const BottomMargin: int := 50
  /** Where the pen starts on every page after the first. */
  const PageTopY: int := 750

  datatype Font = Helvetica | HelveticaBold

  /** One `drawString` call, with the page it landed on (pages count from 1). */
  datatype Draw = Draw(page: nat, x: int, y: int, text: string)

  /** A reportlab canvas, reduced to its current page and what it has drawn. */
  class Canvas {
    var page: nat
    var drawn: seq<Draw>
    var saved: bool

    constructor ()
      ensures page == 1 && drawn == [] && !saved
    {
      page, drawn, saved := 1, [], false;
    }

    method DrawString(x: int, y: int, text: string)
      modifies this
      ensures drawn == old(drawn) + [Draw(page, x, y, text)]
      ensures page == old(page) && saved == old(saved)
    {
      drawn := drawn + [Draw(page, x, y, text)];
    }

    method ShowPage()
      modifies this
      ensures page == old(page) + 1
      ensures drawn == old(drawn) && saved == old(saved)
    {
      page := page + 1;
    }

    method Save()
      modifies this
      ensures saved
      ensures page == old(page) && drawn == old(drawn)
    {
      saved := true;
    }
  }

  /** The lines of one question/answer pair: the question's, then the answer's. */
  function PairLines(question: string, answer: string, wrap: (string, Font) -> seq<string>):
    seq<string>
  {
    wrap("Q: " + question, HelveticaBold) + wrap("A: " + answer, Helvetica)
  }

  function Min(a: nat, b: nat): nat { if a <= b then a else b }

  /** The lines of `zip(queries, responses)`, pair after pair in list order;
      a longer list's extra entries are dropped. */
  function ReportLines(queries: seq<string>, responses: seq<string>,
                       wrap: (string, Font) -> seq<string>): (r: seq<string>)
    ensures Min(|queries|, |responses|) == 0 ==> r == []
    ensures forall j :: 0 <= j < |r| ==>
      exists i :: 0 <= i < Min(|queries|, |responses|) && r[j] in PairLines(queries[i], responses[i], wrap)
    decreases |queries|
  {
    var n := Min(|queries|, |responses|);
    if n == 0 then []
    else ReportLines(queries[..n - 1], responses[..n - 1], wrap)
         + PairLines(queries[n - 1], responses[n - 1], wrap)
  }

  /** Only the first min(len(queries), len(responses)) pairs are reported. */
  lemma {:induction false} ZipDropsExtra(queries: seq<string>, responses: seq<string>,
                      wrap: (string, Font) -> seq<string>)
    ensures var n := Min(|queries|, |responses|);
      ReportLines(queries, responses, wrap) == ReportLines(queries[..n], responses[..n], wrap)
  {
    var n := Min(|queries|, |responses|);
    if n > 0 {
      assert queries[..n][..n - 1] == queries[..n - 1];
      assert responses[..n][..n - 1] == responses[..n - 1];
    }
  }

  /** One more pair appends its question's lines, then its answer's. */
  lemma {:induction false} ReportLinesNext(queries: seq<string>, responses: seq<string>, i: nat,
                        wrap: (string, Font) -> seq<string>)
    requires i < |queries| && i < |responses|
    ensures ReportLines(queries[..i + 1], responses[..i + 1], wrap) ==
      ReportLines(queries[..i], responses[..i], wrap) + PairLines(queries[i], responses[i], wrap)
  {
    assert queries[..i + 1][..i] == queries[..i];
    assert responses[..i + 1][..i] == responses[..i];
  }

  /** Where the next line goes: the page and the y coordinate. */
  datatype Pen = Pen(page: nat, y: int)

  /** The pen after drawing a line at `pen`: 15 lower, or the top of a new
      page when that is below the bottom margin. */
  function Advance(pen: Pen): (r: Pen)
    ensures r.page == pen.page ==> r.y == pen.y - LineStep && r.y >= BottomMargin
    ensures r.page != pen.page ==>
      r.page == pen.page + 1 && r.y == PageTopY && pen.y - LineStep < BottomMargin
    ensures BottomMargin <= pen.y <= PageTopY ==> BottomMargin <= r.y <= PageTopY
  {
    var y := pen.y - LineStep;
    if y < BottomMargin then Pen(pen.page + 1, PageTopY) else Pen(pen.page, y)
  }

  /** The strings drawn for `lines` starting at `pen`. */
  function Layout(lines: seq<string>, pen: Pen): (r: seq<Draw>)
    ensures |r| == |lines|
    ensures forall i :: 0 <= i < |r| ==> r[i].text == lines[i] && r[i].x == LeftMargin
  {
    if lines == [] then []
    else [Draw(pen.page, LeftMargin, pen.y, lines[0])] + Layout(lines[1..], Advance(pen))
  }

  /** The first line is drawn where the pen stands. */
  lemma LayoutStartsAtPen(lines: seq<string>, pen: Pen)
    ensures var r := Layout(lines, pen);
      r != [] ==> r[0].page == pen.page && r[0].y == pen.y
  {
  }

  /** No line is drawn on a page before the pen's. */
  lemma {:induction false} LayoutNeverGoesBack(lines: seq<string>, pen: Pen)
    ensures forall i :: 0 <= i < |lines| ==> Layout(lines, pen)[i].page >= pen.page
  {
    if lines != [] {
      var r := Layout(lines, pen);
      var rest := Layout(lines[1..], Advance(pen));
      LayoutNeverGoesBack(lines[1..], Advance(pen));
      assert forall i :: 1 <= i < |r| ==> r[i] == rest[i - 1];
    }
  }

  /** From a pen between the margins every line stays between them. */
  lemma {:induction false} LayoutWithinMargins(lines: seq<string>, pen: Pen)
    requires BottomMargin <= pen.y <= PageTopY
    ensures forall i :: 0 <= i < |lines| ==> BottomMargin <= Layout(lines, pen)[i].y <= PageTopY
  {
    if lines != [] {
      var r := Layout(lines, pen);
      var rest := Layout(lines[1..], Advance(pen));
      LayoutWithinMargins(lines[1..], Advance(pen));
      assert forall i :: 1 <= i < |r| ==> r[i] == rest[i - 1];
    }
  }

  /** Each next line is 15 lower on the same page, or at the top of the
      next page when 15 lower is under the bottom margin. */
  lemma {:induction false} LayoutSteps(lines: seq<string>, pen: Pen)
    ensures var r := Layout(lines, pen);
      forall i :: 0 <= i < |r| - 1 ==>
        if r[i].y - LineStep >= BottomMargin
        then r[i + 1].page == r[i].page && r[i + 1].y == r[i].y - LineStep
        else r[i + 1].page == r[i].page + 1 && r[i + 1].y == PageTopY
  {
    if lines != [] {
      var r := Layout(lines, pen);
      var rest := Layout(lines[1..], Advance(pen));
      LayoutSteps(lines[1..], Advance(pen));
      assert forall i :: 1 <= i < |r| ==> r[i] == rest[i - 1];
      if |r| > 1 {
        LayoutStartsAtPen(lines[1..], Advance(pen));
      }
    }
  }

  /** The pen after drawing `lines` from `pen`. */
  function PenAfter(lines: seq<string>, pen: Pen): (r: Pen)
    ensures r.page >= pen.page
    ensures BottomMargin <= pen.y <= PageTopY ==> BottomMargin <= r.y <= PageTopY
  {
    if lines == [] then pen else PenAfter(lines[1..], Advance(pen))
  }

  /** Drawing one more line puts it where the pen stands and moves the pen. */
  lemma {:induction false} LayoutAppend(lines: seq<string>, line: string, pen: Pen)
    ensures var p := PenAfter(lines, pen);
      Layout(lines + [line], pen) == Layout(lines, pen) + [Draw(p.page, LeftMargin, p.y, line)]
    ensures PenAfter(lines + [line], pen) == Advance(PenAfter(lines, pen))
  {
    if lines != [] {
      assert (lines + [line])[1..] == lines[1..] + [line];
      LayoutAppend(lines[1..], line, Advance(pen));
    } else {
      assert Layout([line], pen) == [Draw(pen.page, LeftMargin, pen.y, line)];
    }
  }

  /** `LayoutAppend` for the first `j + 1` of `lines`. */
  lemma LayoutNext(lines: seq<string>, j: nat, pen: Pen)
    requires j < |lines|
    ensures var p := PenAfter(lines[..j], pen);
      && Layout(lines[..j + 1], pen) == Layout(lines[..j], pen) + [Draw(p.page, LeftMargin, p.y, lines[j])]
      && PenAfter(lines[..j + 1], pen) == Advance(p)
  {
    LayoutAppend(lines[..j], lines[j], pen);
    assert lines[..j + 1] == lines[..j] + [lines[j]];
  }

  /** Laying out two runs of lines one after the other. */
  lemma {:induction false} LayoutConcat(first: seq<string>, second: seq<string>, pen: Pen)
    ensures Layout(first + second, pen) == Layout(first, pen) + Layout(second, PenAfter(first, pen))
    ensures PenAfter(first + second, pen) == PenAfter(second, PenAfter(first, pen))
  {
    if first == [] {
      assert first + second == second;
    } else {
      assert (first + second)[1..] == first[1..] + second;
      LayoutConcat(first[1..], second, Advance(pen));
    }
  }

  /** How many of `draws` landed on page `p`. */
  function CountOnPage(draws: seq<Draw>, p: nat): nat
  {
    if draws == [] then 0
    else (if draws[0].page == p then 1 else 0) + CountOnPage(draws[1..], p)
  }

  /** A page holds at most as many lines as fit between the pen and the
      bottom margin, 15 apart; later pages start at the top. */
  lemma {:induction false} PageCapacity(lines: seq<string>, pen: Pen, p: nat)
    requires BottomMargin <= pen.y <= PageTopY
    ensures p < pen.page ==> CountOnPage(Layout(lines, pen), p) == 0
    ensures p == pen.page ==>
      CountOnPage(Layout(lines, pen), p) <= (pen.y - BottomMargin) / LineStep + 1
    ensures p > pen.page ==>
      CountOnPage(Layout(lines, pen), p) <= (PageTopY - BottomMargin) / LineStep + 1
  {
    if lines != [] {
      var next := Advance(pen);
      PageCapacity(lines[1..], next, p);
      assert Layout(lines, pen)[1..] == Layout(lines[1..], next);
    }
  }

  /** The transcript's first page holds at most 44 lines, every later page
      at most 47. */
  lemma ReportPageCapacity(lines: seq<string>, p: nat)
    ensures CountOnPage(Layout(lines, Pen(1, FirstLineY)), p) <= if p <= 1 then 44 else 47
  {
    PageCapacity(lines, Pen(1, FirstLineY), p);
  }

  lemma Regroup(a: seq<Draw>, b: seq<Draw>, c: seq<Draw>)
    ensures (a + b) + c == a + (b + c)
  {
  }

  /** The title and the subtitle, drawn on the first page. */
  function Header(): seq<Draw>
  {
    [Draw(1, LeftMargin, TitleY, Title), Draw(1, LeftMargin, SubtitleY, Subtitle)]
  }

  /** The inner loop of `generate_report`: draw each line at the pen, move
      the pen down, and start a new page when it falls below the margin. */
  method DrawLines(c: Canvas, lines: seq<string>, y0: int) returns (y: int)
    modifies c
    ensures c.drawn == old(c.drawn) + Layout(lines, Pen(old(c.page), y0))
    ensures Pen(c.page, y) == PenAfter(lines, Pen(old(c.page), y0))
    ensures c.saved == old(c.saved)
  {
    ghost var start := Pen(c.page, y0);
    y := y0;
    for j := 0 to |lines|
      invariant c.drawn == old(c.drawn) + Layout(lines[..j], start)
      invariant Pen(c.page, y) == PenAfter(lines[..j], start)
      invariant c.saved == old(c.saved)
    {
      ghost var pen := PenAfter(lines[..j], start);
      LayoutNext(lines, j, start);
      c.DrawString(LeftMargin, y, lines[j]);
      Regroup(old(c.drawn), Layout(lines[..j], start), [Draw(pen.page, LeftMargin, pen.y, lines[j])]);
      assert c.drawn == old(c.drawn) + Layout(lines[..j + 1], start);
      y := y - LineStep;
      if y < BottomMargin {
        c.ShowPage();
        y := PageTopY;
      }
      assert Pen(c.page, y) == Advance(pen);
    }
    assert lines[..|lines|] == lines;
  }

  /** `generate_report(user_queries, ai_responses)`: the header, then every
      line of every pair laid out from y = 700 on the first page. */
  method GenerateReport(queries: seq<string>, responses: seq<string>,
                        wrap: (string, Font) -> seq<string>)
    returns (path: string, c: Canvas)
    ensures path == ReportPath && fresh(c) && c.saved
    ensures c.drawn == Header() + Layout(ReportLines(queries, responses, wrap), Pen(1, FirstLineY))
    ensures c.page == PenAfter(ReportLines(queries, responses, wrap), Pen(1, FirstLineY)).page
  {
    path := ReportPath;
    c := new Canvas();
    c.DrawString(LeftMargin, TitleY, Title);
    c.DrawString(LeftMargin, SubtitleY, Subtitle);
    var start := Pen(1, FirstLineY);
    var y := FirstLineY;
    var n := Min(|queries|, |responses|);
    for i := 0 to n
      invariant c.drawn == Header() + Layout(ReportLines(queries[..i], responses[..i], wrap), start)
      invariant Pen(c.page, y) == PenAfter(ReportLines(queries[..i], responses[..i], wrap), start)
      invariant !c.saved
    {
      ghost var done := ReportLines(queries[..i], responses[..i], wrap);
      ghost var before := c.drawn;
      var qLines := wrap("Q: " + queries[i], HelveticaBold);
      var aLines := wrap("A: " + responses[i], Helvetica);
      var lines := qLines + aLines;
      assert lines == PairLines(queries[i], responses[i], wrap);
      ghost var pen := Pen(c.page, y);
      y := DrawLines(c, lines, y);
      ghost var added := Layout(lines, pen);
      assert c.drawn == before + added;
      LayoutConcat(done, lines, start);
      ReportLinesNext(queries, responses, i, wrap);
      assert Layout(done + lines, start) == Layout(done, start) + added;
      ghost var header, body := Header(), Layout(done, start);
      assert before == header + body;
      Regroup(header, body, added);
    }
    ZipDropsExtra(queries, responses, wrap);
    c.Save();
  }
}
