/** Stray pieces of a patch: lines of a file that splitlines cuts, and what they do to the lines read. */
module DiffStrays {
  import opened Decimal
  import opened DiffLines
  import opened DiffRefusals
  import opened DiffHunks
  import opened Options

  /** As in a patch: a hunk starts after the end of the one before it, with a line between them. */
  ghost predicate Separated(hunks: seq<Hunk>) {
    forall i, j | 0 <= i < j < |hunks| :: hunks[i].newStart + NewCount(hunks[i].rows) < hunks[j].newStart
  }

  // ----- membership -----

  ghost predicate Shows(h: Hunk, n: nat) { h.newStart <= n < h.newStart + NewCount(h.rows) }

  ghost predicate ShownBySome(hunks: seq<Hunk>, n: nat) { exists j :: 0 <= j < |hunks| && Shows(hunks[j], n) }

  /** A stretch of some hunk holds the line. */
  ghost predicate Reached(hunks: seq<Hunk>, n: nat) {
    exists i, k :: 0 <= i < |hunks| && 0 <= k < |HunkStretches(hunks[i])| && n in LinesIn(HunkStretches(hunks[i])[k])
  }

  lemma {:induction false} InUnion(sts: seq<Stretch>, n: nat)
    ensures n in Union(sts) <==> exists k :: 0 <= k < |sts| && n in LinesIn(sts[k])
  {
    hide LinesIn;
    if sts != [] {
      InUnion(sts[1..], n);
      assert forall k | 0 <= k < |sts| - 1 :: sts[1..][k] == sts[k + 1];
      assert forall k | 0 < k < |sts| :: sts[k] == sts[1..][k - 1];
    }
  }

  lemma {:induction false} InSpans(hunks: seq<Hunk>, n: nat)
    ensures n in Spans(hunks) <==> exists i :: 0 <= i < |hunks| && n in Span(hunks[i])
    ensures n in NewSide(hunks) <==> ShownBySome(hunks, n)
  {
    hide Span, NewCount;
    if hunks != [] {
      InSpans(hunks[1..], n);
      assert Shows(hunks[0], n) <==> n in Interval(hunks[0].newStart, NewCount(hunks[0].rows));
      assert forall i | 0 <= i < |hunks| - 1 :: hunks[1..][i] == hunks[i + 1];
      assert forall i | 0 < i < |hunks| :: hunks[i] == hunks[1..][i - 1];
    }
  }

  lemma SpansAreReached(hunks: seq<Hunk>, n: nat)
    ensures n in Spans(hunks) <==> Reached(hunks, n)
  {
    InSpans(hunks, n);
    hide Spans, HunkStretches, LinesIn, Union;
    if n in Spans(hunks) {
      var i :| 0 <= i < |hunks| && n in Span(hunks[i]);
      InUnion(HunkStretches(hunks[i]), n);
      var k :| 0 <= k < |HunkStretches(hunks[i])| && n in LinesIn(HunkStretches(hunks[i])[k]);
    }
    if Reached(hunks, n) {
      var i, k :| 0 <= i < |hunks| && 0 <= k < |HunkStretches(hunks[i])| && n in LinesIn(HunkStretches(hunks[i])[k]);
      InUnion(HunkStretches(hunks[i]), n);
    }
  }

  // ----- the condition -----

  /** The k-th stretch of the i-th hunk reads something. */
  ghost predicate Live(hunks: seq<Hunk>, i: int, k: int) {
    && 0 <= i < |hunks| && 0 <= k < |HunkStretches(hunks[i])|
    && HunkStretches(hunks[i])[k].start != 0 && HunkStretches(hunks[i])[k].count > 0
  }

  /** The line after the stretch. */
  ghost function EndOf(st: Stretch): nat { st.start + st.count }

  ghost predicate Inside(st: Stretch, h: Hunk) {
    h.newStart <= st.start && EndOf(st) <= h.newStart + NewCount(h.rows)
  }

  ghost predicate SomeHunkHolds(hunks: seq<Hunk>, st: Stretch) { exists j :: 0 <= j < |hunks| && Inside(st, hunks[j]) }

  /** Whatever is read from a header on, a hunk's own or a stray one, lies inside one hunk. */
  ghost predicate StaysInside(hunks: seq<Hunk>) {
    forall i, k | Live(hunks, i, k) :: SomeHunkHolds(hunks, HunkStretches(hunks[i])[k])
  }

  /** Each hunk's first line is read, and where a stretch ends inside a hunk another one reads the next line. */
  ghost predicate Seamless(hunks: seq<Hunk>) {
    && (forall j | 0 <= j < |hunks| && NewCount(hunks[j].rows) > 0 :: Reached(hunks, hunks[j].newStart))
    && (forall i, k, j | Live(hunks, i, k) && 0 <= j < |hunks| && Shows(hunks[j], EndOf(HunkStretches(hunks[i])[k])) ::
          Reached(hunks, EndOf(HunkStretches(hunks[i])[k])))
  }

  /** Two lines in a row that hunks show are shown by one hunk. */
  lemma OneHunkShowsBoth(hunks: seq<Hunk>, i: nat, j: nat, n: nat)
    requires Separated(hunks) && i < |hunks| && j < |hunks| && Shows(hunks[i], n) && Shows(hunks[j], n + 1)
    ensures i == j
  {
    hide NewCount;
  }

  /** A stretch all of whose lines hunks show lies inside one hunk. */
  lemma {:induction false} ShownStretchIsInside(hunks: seq<Hunk>, st: Stretch)
    requires Separated(hunks) && st.count > 0
    requires forall n: nat | st.start <= n < EndOf(st) :: ShownBySome(hunks, n)
    ensures SomeHunkHolds(hunks, st)
    decreases st.count
  {
    hide NewCount, Separated;
    var last: nat := EndOf(st) - 1;
    assert ShownBySome(hunks, last);
    var j: nat :| j < |hunks| && Shows(hunks[j], last);
    if st.count == 1 {
      assert Inside(st, hunks[j]);
    } else {
      var shorter := st.(count := st.count - 1);
      ShownStretchIsInside(hunks, shorter);
      var i: nat :| i < |hunks| && Inside(shorter, hunks[i]);
      OneHunkShowsBoth(hunks, i, j, last - 1);
      assert Inside(st, hunks[j]);
    }
  }

  /** Where nothing is left out at the seams, every line of a hunk is read. */
  lemma {:induction false} SeamlessReaches(hunks: seq<Hunk>, j: nat, n: nat)
    requires Seamless(hunks) && j < |hunks| && Shows(hunks[j], n)
    ensures Reached(hunks, n)
    decreases n
  {
    hide NewCount, HunkStretches;
    if n > hunks[j].newStart {
      SeamlessReaches(hunks, j, n - 1);
      var i, k :| 0 <= i < |hunks| && 0 <= k < |HunkStretches(hunks[i])| && n - 1 in LinesIn(HunkStretches(hunks[i])[k]);
      var st := HunkStretches(hunks[i])[k];
      assert st.start != 0 && st.start <= n - 1 < EndOf(st) && Live(hunks, i, k);
      if n < EndOf(st) {
        assert n in LinesIn(HunkStretches(hunks[i])[k]);
      }
    }
  }

  lemma StretchIsReached(hunks: seq<Hunk>, i: int, k: int, n: nat)
    requires Live(hunks, i, k) && HunkStretches(hunks[i])[k].start <= n < EndOf(HunkStretches(hunks[i])[k])
    ensures Reached(hunks, n)
  {
    hide HunkStretches;
    assert n in LinesIn(HunkStretches(hunks[i])[k]);
  }

  lemma ExactStaysInside(hunks: seq<Hunk>)
    requires Separated(hunks) && Spans(hunks) == NewSide(hunks)
    ensures StaysInside(hunks)
  {
    hide HunkStretches, Spans, NewSide, Separated, ShownBySome, Reached;
    forall i, k | Live(hunks, i, k) ensures SomeHunkHolds(hunks, HunkStretches(hunks[i])[k]) {
      var st := HunkStretches(hunks[i])[k];
      forall n: nat | st.start <= n < EndOf(st) ensures ShownBySome(hunks, n) {
        StretchIsReached(hunks, i, k, n);
        SpansAreReached(hunks, n);
        InSpans(hunks, n);
      }
      ShownStretchIsInside(hunks, st);
    }
  }

  lemma ExactIsSeamless(hunks: seq<Hunk>)
    requires Spans(hunks) == NewSide(hunks)
    ensures Seamless(hunks)
  {
    hide HunkStretches, Spans, NewSide, Reached, NewCount;
    forall j, n: nat | 0 <= j < |hunks| && Shows(hunks[j], n) ensures Reached(hunks, n) {
      InSpans(hunks, n);
      SpansAreReached(hunks, n);
    }
    assert forall j | 0 <= j < |hunks| && NewCount(hunks[j].rows) > 0 :: Shows(hunks[j], hunks[j].newStart);
  }

  lemma InsideIsShown(hunks: seq<Hunk>, n: nat)
    requires StaysInside(hunks) && Reached(hunks, n)
    ensures ShownBySome(hunks, n)
  {
    hide HunkStretches, NewCount;
    var i, k :| 0 <= i < |hunks| && 0 <= k < |HunkStretches(hunks[i])| && n in LinesIn(HunkStretches(hunks[i])[k]);
    assert Live(hunks, i, k);
    var j :| 0 <= j < |hunks| && Inside(HunkStretches(hunks[i])[k], hunks[j]);
    assert Shows(hunks[j], n);
  }

  /**
   * For every patch, whatever its stray pieces: the answer is the lines shown exactly when every number is converted,
   * nothing that is read from a header on, a hunk's own or a stray one, leaves the hunks, and nothing is left out
   * where one stretch ends inside a hunk. The last two are questions about the ends of stretches only.
   */
  lemma ReadExactlyIff(hunks: seq<Hunk>, text: string)
    requires Separated(hunks) && (text == PatchText(hunks) || text + "\n" == PatchText(hunks))
    ensures Commentable(text) == Some(NewSide(hunks)) <==> Readable(hunks) && StaysInside(hunks) && Seamless(hunks)
  {
    hide Commentable, Readable, PatchText;
    PatchIsAnswered(hunks, text);
    SpansAreExactIff(hunks);
  }

  lemma SpansAreExactIff(hunks: seq<Hunk>)
    requires Separated(hunks)
    ensures Spans(hunks) == NewSide(hunks) <==> StaysInside(hunks) && Seamless(hunks)
  {
    hide StaysInside, Seamless, Spans, NewSide, Shows, Reached, Separated;
    if Spans(hunks) == NewSide(hunks) {
      ExactStaysInside(hunks);
      ExactIsSeamless(hunks);
    }
    if StaysInside(hunks) && Seamless(hunks) {
      forall n: nat ensures n in Spans(hunks) <==> n in NewSide(hunks) {
        SpansAreReached(hunks, n);
        InSpans(hunks, n);
        if Reached(hunks, n) {
          InsideIsShown(hunks, n);
        }
        if n in NewSide(hunks) {
          var j: nat :| j < |hunks| && Shows(hunks[j], n);
          SeamlessReaches(hunks, j, n);
        }
      }
      assert Spans(hunks) == NewSide(hunks);
    }
  }

  // ----- patches without stray headers -----

  lemma NotShown(hunks: seq<Hunk>, i: nat, n: nat)
    requires Separated(hunks) && i < |hunks| && n == hunks[i].newStart + NewCount(hunks[i].rows)
    ensures forall j | 0 <= j < |hunks| :: !Shows(hunks[j], n)
  {
    hide NewCount;
  }

  /** The line after a hunk with a shown stray piece is read as shown, and no hunk shows it. */
  lemma StrayIsSeen(hunks: seq<Hunk>, i: nat)
    requires Separated(hunks) && i < |hunks| && HeaderFree(hunks[i])
    requires hunks[i].newStart != 0 && Extras(HunkLines(hunks[i])) != 0
    ensures Spans(hunks) != NewSide(hunks)
  {
    hide Spans, NewSide, Span, NewCount, Extras, HunkLines, HeaderFree, Separated, HunkStretches;
    var n := hunks[i].newStart + NewCount(hunks[i].rows);
    InSpans(hunks, n);
    HeaderFreeSpan(hunks[i]);
    assert n in Span(hunks[i]);
    NotShown(hunks, i, n);
  }

  /**
   * When no stray piece passes for a header, the condition is that every hunk's start is converted and no hunk of a
   * file that still exists has a stray piece starting like a shown row: every such piece shifts the rest of its hunk
   * and adds a line.
   */
  lemma HeaderFreeReadExactlyIff(hunks: seq<Hunk>, text: string)
    requires Separated(hunks) && forall h <- hunks :: WellFormed(h) && HeaderFree(h)
    requires text == PatchText(hunks) || text + "\n" == PatchText(hunks)
    ensures Commentable(text) == Some(NewSide(hunks))
            <==> forall h <- hunks ::
                   |Digits(h.newStart)| <= MAX_DIGITS && (h.newStart == 0 || Extras(HunkLines(h)) == 0)
  {
    hide Commentable, StrayRefused, Digits;
    hide PatchText, HeaderFree, Extras, HunkLines, NewCount, Spans, NewSide, WellFormed, Separated;
    PatchIsAnswered(hunks, text);
    forall h <- hunks ensures !StrayRefused(h) {
      HeaderFreeIsNotRefused(h);
    }
    if forall h <- hunks :: h.newStart == 0 || Extras(HunkLines(h)) == 0 {
      SpansWithoutStrays(hunks);
    } else {
      var h :| h in hunks && h.newStart != 0 && Extras(HunkLines(h)) != 0;
      var i :| 0 <= i < |hunks| && hunks[i] == h;
      StrayIsSeen(hunks, i);
    }
  }

  // ----- a stray row -----

  const FORM_FEED: char := 12 as char

  const Fed: Row := Row(Added, ['a', FORM_FEED, ' ', 'b'])

  lemma FedPieces()
    ensures Strays(RowLine(Fed)) == [[' ', 'b']]
  {
    var line := RowLine(Fed);
    var t := line + "\n";
    assert t == ['+', 'a', FORM_FEED, ' ', 'b', '\n'];
    assert !Boundary(t[0]) && !Boundary(t[1]) && Boundary(t[2]);
    assert ToBoundary(t) == 2;
    var rest := Rest(t);
    assert rest == [' ', 'b', '\n'];
    assert !Boundary(rest[0]) && !Boundary(rest[1]) && Boundary(rest[2]);
    assert ToBoundary(rest) == 2 && Rest(rest) == "";
    LinesStep(rest, [' ', 'b'], "");
    LinesStep(t, ['+', 'a'], rest);
    assert Lines(t) == [['+', 'a'], [' ', 'b']];
  }

  lemma FedHunk(h: Hunk)
    requires h.heading == "" && h.rows == [Fed]
    ensures NewCount(h.rows) == 1 && HeaderFree(h) && Extras(HunkLines(h)) == 1
  {
    var row, header := RowLine(Fed), Header(h);
    PlainHeader(h);
    PlainIsWhole(header);
    FedPieces();
    NotAHeader([' ', 'b']);
    assert [Fed][1..] == [] && [row][1..] == [];
    assert RowLines(h.rows) == [row] && HunkLines(h) == [header, row];
    hide Strays, Header, RowLine, HunkStart, HunkLines, RowLines;
    assert [[' ', 'b']][..0] == [];
    assert ShownCount([[' ', 'b']]) == 1;
    assert [header, row][1..] == [row];
    assert Extra(row) == 1 && Extras([row]) == 1;
    assert Extras([header, row]) == 1;
    assert NoHeader([[' ', 'b']]) && NoHeader([]);
  }

  /** A patch of one hunk that starts at line 1. */
  lemma OneHunk(h: Hunk)
    requires h.newStart == 1 && !StrayRefused(h)
    ensures Commentable(PatchText([h])) == Some(Span(h)) && NewSide([h]) == Interval(1, NewCount(h.rows))
  {
    hide StrayRefused, Commentable, PatchText, Span, Digits, NewSide, Spans;
    PatchIsAnswered([h], PatchText([h]));
    OneDigit();
    SidesOfOne(h);
  }

  lemma OneDigit()
    ensures |Digits(1)| == 1
  {
  }

  lemma SidesOfOne(h: Hunk)
    ensures Spans([h]) == Span(h) && NewSide([h]) == Interval(h.newStart, NewCount(h.rows))
  {
    hide Span, Interval, NewCount;
    assert [h][1..] == [];
  }

  /** A form feed inside an added line is enough: line 2 is taken for commentable in a patch that shows only line 1. */
  lemma FormFeedAddsALine()
    ensures var h := Hunk(1, 1, true, "", [Fed]);
            Commentable(PatchText([h])) == Some({1, 2}) && NewSide([h]) == {1}
  {
    hide *;
    var h := Hunk(1, 1, true, "", [Fed]);
    FedHunk(h);
    HeaderFreeIsNotRefused(h);
    HeaderFreeSpan(h);
    OneHunk(h);
    LinesFrom(1, 2);
    assert Interval(1, 1) == {1} && Interval(1, 2) == {1, 2};
  }

  lemma LinesFrom(start: nat, count: nat)
    requires start != 0
    ensures LinesIn(Stretch(start, count)) == Interval(start, count)
  {
  }

  // ----- a stray header -----

  const HeaderText: string := "@@ -1 +9 @@"

  /** A form feed in an added line, and then what reads like a hunk header for line 9. */
  const Moved: Row := Row(Added, ['a', FORM_FEED] + HeaderText)

  const Next: Row := Row(Added, "b")

  lemma HeaderTextIsHeader()
    ensures HunkStart(HeaderText) == Some(9)
  {
    var a, b := "1", "9";
    assert a[..0] == "" && b[..0] == "";
    assert Value(b) == 9;
    assert HeaderText == "@@ -" + (a + ("" + (" +" + (b + ("" + (" @@" + ""))))));
    PlainHeaderIsRead(HeaderText, a, "", b, "", "");
  }

  lemma CutPlain(line: string)
    requires line != "" && forall i | 0 <= i < |line| :: !Boundary(line[i])
    ensures Lines(line + "\n") == [line]
  {
    assert ToBoundary(line) == |line|;
    PlainIsWhole(line);
    PiecesStart(line);
    hide Lines, ToBoundary;
    assert Pieces(line) == [Pieces(line)[0]] + Strays(line);
  }

  /** A line cut at its third character. */
  lemma CutAtThird(a: char, b: char, c: char, rest: string)
    requires !Boundary(a) && !Boundary(b) && Boundary(c) && c != '\r'
    requires rest != "" && forall i | 0 <= i < |rest| :: !Boundary(rest[i])
    ensures Strays([a, b, c] + rest) == [rest]
  {
    var t, u := [a, b, c] + rest + "\n", rest + "\n";
    assert t[2] == c && t[..2] == [a, b] && t[3..] == u;
    assert ToBoundary(t) == 2;
    assert Rest(t) == u;
    LinesStep(t, [a, b], u);
    CutPlain(rest);
    hide Lines, ToBoundary;
    assert ([[a, b]] + [rest])[1..] == [rest];
  }

  lemma MovedPieces()
    ensures Strays(RowLine(Moved)) == [HeaderText] && Strays(RowLine(Next)) == []
  {
    assert RowLine(Moved) == ['+', 'a', FORM_FEED] + HeaderText;
    assert forall i | 0 <= i < |HeaderText| :: !Boundary(HeaderText[i]);
    CutAtThird('+', 'a', FORM_FEED, HeaderText);
    PlainIsWhole(RowLine(Next));
  }

  lemma TwoRows(a: Row, b: Row)
    ensures RowLines([a, b]) == [RowLine(a), RowLine(b)] && NewCount([a, b]) == NewCount([a]) + NewCount([b])
    ensures NewCount([a]) == if OnNewSide(a.mark) then 1 else 0
  {
    assert [a, b][1..] == [b] && [b][1..] == [] && [a][1..] == [];
    assert RowLines([b]) == [RowLine(b)] && NewCount([b]) == if OnNewSide(b.mark) then 1 else 0;
  }

  lemma TwoLines(x: string, y: string)
    ensures AllPieces([x, y]) == Pieces(x) + Pieces(y) && Extras([x, y]) == Extra(x) + Extra(y)
  {
    hide Pieces, Extra;
    assert [x, y][1..] == [y] && [y][1..] == [];
    assert AllPieces([y]) == Pieces(y) && Extras([y]) == Extra(y);
  }

  lemma MovedBody(h: Hunk)
    requires h.heading == "" && h.rows == [Moved, Next]
    ensures Body(h) == [Pieces(RowLine(Moved))[0], HeaderText, Pieces(RowLine(Next))[0]]
    ensures Extras(HunkLines(h)) == 0
  {
    var r0, r1 := RowLine(Moved), RowLine(Next);
    PlainHeader(h);
    PlainIsWhole(Header(h));
    MovedPieces();
    TwoRows(Moved, Next);
    TwoLines(r0, r1);
    hide RowLine, Pieces, Header, RowLines, AllPieces, Strays, ShownCount, Extra, Extras, Plain;
    MovedExtras(h, r0, r1);
    WholeLine(r0);
    WholeLine(r1);
    assert Body(h) == [] + (([Pieces(r0)[0]] + [HeaderText]) + ([Pieces(r1)[0]] + []));
  }

  lemma MovedExtras(h: Hunk, r0: string, r1: string)
    requires RowLines(h.rows) == [r0, r1] && Extra(Header(h)) == 0
    requires Strays(r0) == [HeaderText] && Strays(r1) == []
    requires Extras([r0, r1]) == Extra(r0) + Extra(r1)
    ensures Extras(HunkLines(h)) == 0
  {
    hide RowLine, Pieces, Header, RowLines, Strays;
    assert HunkLines(h)[1..] == [r0, r1];
    assert [HeaderText][..0] == [] && ShownCount([HeaderText]) == 0;
  }

  lemma WholeLine(line: string)
    ensures Pieces(line) != [] && Pieces(line) == [Pieces(line)[0]] + Strays(line)
  {
    PiecesStart(line);
  }

  lemma MovedStretches(h: Hunk)
    requires h.heading == "" && h.newStart == 1 && h.rows == [Moved, Next]
    ensures HunkStretches(h) == [Stretch(1, 1), Stretch(9, 1)]
  {
    hide Strays, HunkStart, RowLine, Pieces, Header, Body, Stretches, Shown, Lines;
    PiecesStart(RowLine(Moved));
    PiecesStart(RowLine(Next));
    var p0, p1 := Pieces(RowLine(Moved))[0], Pieces(RowLine(Next))[0];
    RowPiece(Moved);
    RowPiece(Next);
    HeaderTextIsHeader();
    MovedBody(h);
    StretchesCons(Stretch(1, 0), p0, [HeaderText, p1]);
    StretchesCons(Stretch(1, 1), HeaderText, [p1]);
    StretchesCons(Stretch(9, 0), p1, []);
    NothingMore(Start, Stretch(9, 1));
    assert [p0] + [HeaderText, p1] == [p0, HeaderText, p1] && [HeaderText] + [p1] == [HeaderText, p1] && [p1] + [] == [p1];
  }

  /** Without any shown stray piece, a stray header sends the reader to line 9 of a patch that shows lines 1 and 2. */
  lemma StrayHeaderMovesTheLine()
    ensures var h := Hunk(1, 1, true, "", [Moved, Next]);
            && WellFormed(h) && Separated([h]) && Extras(HunkLines(h)) == 0
            && Commentable(PatchText([h])) == Some({1, 9}) && NewSide([h]) == {1, 2}
  {
    hide *;
    var h := Hunk(1, 1, true, "", [Moved, Next]);
    MovedBody(h);
    MovedSpan(h);
    MovedIsReadable(h);
    OneHunk(h);
    MovedCount();
    OneIsSeparated(h);
    assert Interval(1, 2) == {1, 2};
  }

  lemma MovedCount()
    ensures NewCount([Moved, Next]) == 2
  {
    TwoRows(Moved, Next);
    TwoRows(Next, Moved);
    hide NewCount;
  }

  lemma OneIsSeparated(h: Hunk)
    requires h.newStart == 1
    ensures WellFormed(h) && Separated([h])
  {
  }

  lemma MovedSpan(h: Hunk)
    requires h.heading == "" && h.newStart == 1 && h.rows == [Moved, Next]
    ensures Span(h) == {1, 9}
  {
    hide HunkStretches, Union;
    MovedStretches(h);
    UnionCons(Stretch(1, 1), [Stretch(9, 1)]);
    UnionCons(Stretch(9, 1), []);
    NoUnion();
    assert [Stretch(1, 1)] + [Stretch(9, 1)] == [Stretch(1, 1), Stretch(9, 1)];
    assert [Stretch(9, 1)] + [] == [Stretch(9, 1)];
    assert LinesIn(Stretch(1, 1)) == {1} && LinesIn(Stretch(9, 1)) == {9};
  }

  lemma NoUnion()
    ensures Union([]) == {}
  {
  }

  lemma MovedIsReadable(h: Hunk)
    requires h.heading == "" && h.rows == [Moved, Next]
    ensures !StrayRefused(h)
  {
    PlainHeading(h);
    hide *;
    PlainHeader(h);
    PlainIsWhole(Header(h));
    MovedPieces();
    TwoRows(Moved, Next);
    NothingRefused();
    OneRefused(HeaderText);
    HeaderTextIsShort();
    ThreeLines(h, RowLine(Moved), RowLine(Next));
  }

  lemma PlainHeading(h: Hunk)
    requires h.heading == ""
    ensures Plain(h.heading)
  {
  }

  lemma ThreeLines(h: Hunk, x: string, y: string)
    requires RowLines(h.rows) == [x, y]
    requires !SomeRefused(Strays(Header(h))) && !SomeRefused(Strays(x)) && !SomeRefused(Strays(y))
    ensures !StrayRefused(h)
  {
    hide SomeRefused, Strays, Header, RowLines;
  }

  lemma HeaderTextIsShort()
    ensures !Refused(HeaderText)
  {
    var a, b := "1", "9";
    assert HeaderText == "@@ -" + (a + ("" + (" +" + (b + ("" + (" @@" + ""))))));
    PlainHeaderIsRead(HeaderText, a, "", b, "", "");
    hide HunkNumeral;
  }

  // ----- a number of five thousand digits -----

  function Ones(n: nat): string { seq(n, _ => '1') }

  function LongHeader(n: nat): string { "@@ -1 +" + (Ones(n) + " @@") }

  lemma LongHeaderIsRead(n: nat)
    requires n > 0
    ensures HunkNumeral(LongHeader(n)) == Some(Ones(n))
  {
    var a, b := "1", Ones(n);
    var tail := b + ("" + (" @@" + ""));
    assert Numeral(a) && Numeral(b) && b != "";
    assert "" + (" @@" + "") == " @@";
    assert LongHeader(n) == "@@ -" + (a + ("" + (" +" + tail))) by {
      assert "@@ -1 +" == "@@ -" + (a + ("" + " +"));
    }
    PlainHeaderIsRead(LongHeader(n), a, "", b, "", "");
  }

  const Long: Row := Row(Added, ['a', FORM_FEED] + LongHeader(5000))

  lemma {:induction false} RowLineIn(rows: seq<Row>, r: Row)
    requires r in rows
    ensures RowLine(r) in RowLines(rows)
  {
    hide RowLine;
    if r != rows[0] {
      RowLineIn(rows[1..], r);
    }
  }

  /** One added line with a form feed and such a header after it, anywhere: nothing of the patch can be read. */
  lemma LongHeaderStopsTheReader(hunks: seq<Hunk>, h: Hunk)
    requires h in hunks && Long in h.rows
    ensures Commentable(PatchText(hunks)).None?
  {
    hide HunkNumeral;
    RowLineIn(h.rows, Long);
    LongRowIsRefused();
    hide Strays, Refused, SomeRefused, Commentable, PatchText, Digits, RowLine;
    PatchIsAnswered(hunks, PatchText(hunks));
  }

  lemma LongRowIsRefused()
    ensures SomeRefused(Strays(RowLine(Long)))
  {
    hide HunkNumeral;
    assert RowLine(Long) == ['+', 'a', FORM_FEED] + LongHeader(5000);
    assert forall i | 0 <= i < |LongHeader(5000)| :: !Boundary(LongHeader(5000)[i]) by {
      assert forall i | 0 <= i < 5000 :: Ones(5000)[i] == '1';
    }
    CutAtThird('+', 'a', FORM_FEED, LongHeader(5000));
    LongHeaderIsRead(5000);
    OneRefused(LongHeader(5000));
  }
}
