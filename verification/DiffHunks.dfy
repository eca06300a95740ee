/** Patches made of hunks, and what reading them back gives. */
module DiffHunks {
  import opened Decimal
  import opened DiffLines
  import opened Options
  import opened Sequences

  datatype Mark = Context | Added | Removed | NoNewline

  datatype Row = Row(mark: Mark, text: string)

  /** terse: a count of one is left out of the header. */
  datatype Hunk = Hunk(oldStart: nat, newStart: nat, terse: bool, heading: string, rows: seq<Row>)

  function MarkChar(m: Mark): char {
    match m
    case Context => ' '
    case Added => '+'
    case Removed => '-'
    case NoNewline => '\\'
  }

  predicate OnNewSide(m: Mark) { m in {Context, Added} }

  predicate OnOldSide(m: Mark) { m in {Context, Removed} }

  function NewCount(rows: seq<Row>): nat {
    if rows == [] then 0 else (if OnNewSide(rows[0].mark) then 1 else 0) + NewCount(rows[1..])
  }

  function OldCount(rows: seq<Row>): nat {
    if rows == [] then 0 else (if OnOldSide(rows[0].mark) then 1 else 0) + OldCount(rows[1..])
  }

  function CountText(count: nat, terse: bool): string {
    if terse && count == 1 then "" else "," + Digits(count)
  }

  function Header(h: Hunk): string {
    "@@ -" + (Digits(h.oldStart) + (CountText(OldCount(h.rows), h.terse) + (" +" + (Digits(h.newStart)
    + (CountText(NewCount(h.rows), h.terse) + (" @@" + h.heading))))))
  }

  function RowLine(r: Row): string { [MarkChar(r.mark)] + r.text }

  function RowLines(rows: seq<Row>): seq<string> {
    if rows == [] then [] else [RowLine(rows[0])] + RowLines(rows[1..])
  }

  function HunkLines(h: Hunk): seq<string> { [Header(h)] + RowLines(h.rows) }

  function Joined(lines: seq<string>): string {
    if lines == [] then "" else lines[0] + "\n" + Joined(lines[1..])
  }

  function PatchText(hunks: seq<Hunk>): string {
    if hunks == [] then "" else Joined(HunkLines(hunks[0])) + PatchText(hunks[1..])
  }

  /** Line 0 is where a file that is gone starts: nothing is on its new side. */
  ghost predicate WellFormed(h: Hunk) { h.newStart == 0 ==> NewCount(h.rows) == 0 }

  // ----- where a line is cut -----

  function Pieces(line: string): seq<string> { Lines(line + "\n") }

  lemma PiecesStart(line: string)
    ensures Pieces(line) != [] && Pieces(line)[0] == line[..ToBoundary(line)]
  {
    CutLine(line);
  }

  /** The pieces of a line after its first: they look like lines of their own. */
  function Strays(line: string): seq<string> {
    PiecesStart(line);
    Pieces(line)[1..]
  }

  function Extra(line: string): nat { ShownCount(Strays(line)) }

  function Extras(lines: seq<string>): nat {
    if lines == [] then 0 else Extra(lines[0]) + Extras(lines[1..])
  }

  /** No stray piece passes for a hunk header. */
  ghost predicate HeaderFree(h: Hunk) { forall line <- HunkLines(h) :: NoHeader(Strays(line)) }

  function AllPieces(lines: seq<string>): seq<string> {
    if lines == [] then [] else Pieces(lines[0]) + AllPieces(lines[1..])
  }

  lemma {:induction false} JoinedTerminated(lines: seq<string>)
    ensures Joined(lines) == "" || Terminated(Joined(lines))
  {
    if lines != [] {
      JoinedTerminated(lines[1..]);
    }
  }

  lemma {:induction false} JoinedPieces(lines: seq<string>)
    ensures Lines(Joined(lines)) == AllPieces(lines)
  {
    if lines != [] {
      LinesAppend(lines[0] + "\n", Joined(lines[1..]));
      JoinedPieces(lines[1..]);
    }
  }

  // ----- one hunk -----

  lemma CutAfter(x: string, y: string)
    requires forall c <- x :: !Boundary(c)
    ensures (x + y)[..ToBoundary(x + y)] == x + y[..ToBoundary(y)]
  {
    var k := |x| + ToBoundary(y);
    assert forall i | 0 <= i < |x| :: x[i] in x;
    assert forall i | 0 <= i < k :: !Boundary((x + y)[i]);
    assert k < |x + y| ==> (x + y)[k] == y[k - |x|];
    assert ToBoundary(x + y) == k;
  }

  lemma NoBoundaryInCount(count: nat, terse: bool)
    ensures OptionalCount(CountText(count, terse))
    ensures forall c <- CountText(count, terse) :: !Boundary(c)
  {
    DigitsValue(count);
    assert CountText(count, terse) != "" ==> CountText(count, terse)[1..] == Digits(count);
  }

  /** However its heading is cut, the header line starts with a header that names the new side's start. */
  lemma HeaderPiece(h: Hunk)
    ensures HunkStart(Pieces(Header(h))[0]) == Some(h.newStart)
  {
    HeaderNumeral(h);
    DigitsValue(h.newStart);
    hide HunkNumeral, Pieces, Header, Digits, Value;
  }

  lemma HeaderNumeral(h: Hunk)
    ensures HunkNumeral(Pieces(Header(h))[0]) == Some(Digits(h.newStart))
  {
    var a, p := Digits(h.oldStart), CountText(OldCount(h.rows), h.terse);
    var b, q := Digits(h.newStart), CountText(NewCount(h.rows), h.terse);
    DigitsValue(h.oldStart);
    DigitsValue(h.newStart);
    NoBoundaryInCount(OldCount(h.rows), h.terse);
    NoBoundaryInCount(NewCount(h.rows), h.terse);
    PiecesStart(Header(h));
    hide Pieces, ToBoundary, CountText, HunkNumeral, Digits, Value;
    CutAfter(" @@", h.heading);
    var s1 := " @@" + h.heading;
    CutAfter(q, s1);
    CutAfter(b, q + s1);
    CutAfter(" +", b + (q + s1));
    var s2 := " +" + (b + (q + s1));
    CutAfter(p, s2);
    CutAfter(a, p + s2);
    CutAfter("@@ -", a + (p + s2));
    PlainHeaderIsRead(Pieces(Header(h))[0], a, p, b, q, h.heading[..ToBoundary(h.heading)]);
  }

  /** A row's own piece starts with its mark. */
  lemma RowPiece(r: Row)
    ensures var piece := Pieces(RowLine(r))[0];
            HunkStart(piece).None? && (Shown(piece) <==> OnNewSide(r.mark))
  {
    var line := RowLine(r);
    PiecesStart(line);
    var mark := [MarkChar(r.mark)];
    CutAfter(mark, r.text);
    var piece := mark + r.text[..ToBoundary(r.text)];
    assert piece[0] == MarkChar(r.mark);
    hide Pieces, ToBoundary, HunkStart;
    NotAHeader(piece);
  }

  lemma ShownCountCons(line: string, rest: seq<string>)
    ensures ShownCount([line] + rest) == (if Shown(line) then 1 else 0) + ShownCount(rest)
  {
    ShownCountAppend([line], rest);
    assert [line][..0] == [];
  }

  lemma {:induction false} RowsShown(rows: seq<Row>)
    requires forall line <- RowLines(rows) :: NoHeader(Strays(line))
    ensures NoHeader(AllPieces(RowLines(rows)))
    ensures ShownCount(AllPieces(RowLines(rows))) == NewCount(rows) + Extras(RowLines(rows))
  {
    if rows != [] {
      var line, rest := RowLine(rows[0]), RowLines(rows[1..]);
      assert RowLines(rows)[1..] == rest;
      assert forall l <- rest :: l in RowLines(rows);
      RowsShown(rows[1..]);
      RowPiece(rows[0]);
      PiecesStart(line);
      assert Pieces(line) == [Pieces(line)[0]] + Strays(line);
      assert line in RowLines(rows);
      hide Pieces, Strays, Shown, HunkStart;
      ShownCountCons(Pieces(line)[0], Strays(line));
      ShownCountAppend(Pieces(line), AllPieces(rest));
    }
  }

  // ----- stretches -----

  /** What is read from one header to the next, stray ones included: count shown pieces from line start on. */
  datatype Stretch = Stretch(start: nat, count: nat)

  /** Nothing is read where a header names line 0. */
  function LinesIn(st: Stretch): set<nat> { if st.start == 0 then {} else Interval(st.start, st.count) }

  function Stretches(st: Stretch, pieces: seq<string>): seq<Stretch>
    decreases |pieces|
  {
    if pieces == [] then [st]
    else
      match HunkStart(pieces[0])
      case Some(start) => [st] + Stretches(Stretch(start, 0), pieces[1..])
      case None => Stretches(if Shown(pieces[0]) then st.(count := st.count + 1) else st, pieces[1..])
  }

  function Union(sts: seq<Stretch>): set<nat> {
    if sts == [] then {} else LinesIn(sts[0]) + Union(sts[1..])
  }

  lemma UnionCons(st: Stretch, sts: seq<Stretch>)
    ensures Union([st] + sts) == LinesIn(st) + Union(sts)
  {
    assert ([st] + sts)[1..] == sts;
  }

  lemma OneMoreLine(st: Stretch)
    ensures LinesIn(st.(count := st.count + 1)) == LinesIn(st) + if st.start == 0 then {} else {st.start + st.count}
  {
  }

  /** The cursor stands at the end of the stretch, whose lines are found. */
  ghost predicate Stands(cur: Cursor, st: Stretch) {
    cur.line == (if st.start == 0 then 0 else st.start + st.count) && LinesIn(st) <= cur.found
  }

  lemma StandsOn(cur: Cursor, st: Stretch, piece: string)
    requires Stands(cur, st) && HunkStart(piece).None?
    ensures var next := Grown(st, piece);
            && Stands(AfterLine(cur, piece), next)
            && AfterLine(cur, piece).found + LinesIn(next) == cur.found + LinesIn(next)
  {
    OneMoreLine(st);
  }

  lemma FirstAfter(cur: Cursor, piece: string, rest: seq<string>)
    ensures After(cur, [piece] + rest) == After(AfterLine(cur, piece), rest)
  {
    AfterAppend(cur, [piece], rest);
    AfterOne(cur, piece);
  }

  function Grown(st: Stretch, piece: string): Stretch { if Shown(piece) then st.(count := st.count + 1) else st }

  lemma StretchesCons(st: Stretch, piece: string, rest: seq<string>)
    ensures Stretches(st, [piece] + rest)
            == match HunkStart(piece)
               case Some(start) => [st] + Stretches(Stretch(start, 0), rest)
               case None => Stretches(Grown(st, piece), rest)
  {
    assert ([piece] + rest)[1..] == rest;
  }

  lemma NothingMore(cur: Cursor, st: Stretch)
    ensures Stretches(st, []) == [st] && Union([st]) == LinesIn(st) && After(cur, []) == cur
  {
    assert [st][1..] == [];
  }

  lemma {:induction false} StartInUnion(st: Stretch, pieces: seq<string>)
    ensures LinesIn(st) <= Union(Stretches(st, pieces))
    decreases |pieces|
  {
    hide HunkStart, LinesIn, Union, Stretches;
    if pieces == [] {
      NothingMore(Start, st);
    } else {
      assert pieces == [pieces[0]] + pieces[1..];
      StretchesCons(st, pieces[0], pieces[1..]);
      match HunkStart(pieces[0])
      case Some(start) => UnionCons(st, Stretches(Stretch(start, 0), pieces[1..]));
      case None =>
        OneMoreLine(st);
        StartInUnion(Grown(st, pieces[0]), pieces[1..]);
    }
  }

  /** Whatever the pieces are, what is found is the lines of their stretches. */
  lemma {:induction false} StretchesAreRead(cur: Cursor, st: Stretch, pieces: seq<string>)
    requires Stands(cur, st)
    ensures After(cur, pieces).found == cur.found + Union(Stretches(st, pieces))
    decreases |pieces|
  {
    hide HunkStart, AfterLine, After, LinesIn, Union, Stretches, Stands;
    if pieces == [] {
      NothingMore(cur, st);
      StandsHas(cur, st);
    } else {
      var piece, rest := pieces[0], pieces[1..];
      assert pieces == [piece] + rest;
      FirstAfter(cur, piece, rest);
      StretchesCons(st, piece, rest);
      match HunkStart(piece)
      case Some(start) =>
        StandsAtHeader(cur, st, piece, start);
        StretchesAreRead(AfterLine(cur, piece), Stretch(start, 0), rest);
        UnionCons(st, Stretches(Stretch(start, 0), rest));
      case None =>
        StandsOn(cur, st, piece);
        StretchesAreRead(AfterLine(cur, piece), Grown(st, piece), rest);
        StartInUnion(Grown(st, piece), rest);
    }
  }

  lemma StandsHas(cur: Cursor, st: Stretch)
    requires Stands(cur, st)
    ensures LinesIn(st) <= cur.found
  {
  }

  lemma StandsAtHeader(cur: Cursor, st: Stretch, piece: string, start: nat)
    requires Stands(cur, st) && HunkStart(piece) == Some(start)
    ensures Stands(AfterLine(cur, piece), Stretch(start, 0)) && AfterLine(cur, piece).found == cur.found
    ensures LinesIn(st) <= cur.found
  {
  }

  // ----- one hunk read -----

  /** Every piece of the hunk after its header. */
  function Body(h: Hunk): seq<string> { Strays(Header(h)) + AllPieces(RowLines(h.rows)) }

  function HunkStretches(h: Hunk): seq<Stretch> { Stretches(Stretch(h.newStart, 0), Body(h)) }

  /** The lines a hunk is read as showing, wherever its stray pieces send the reader. */
  function Span(h: Hunk): set<nat> { Union(HunkStretches(h)) }

  lemma HunkPieces(h: Hunk)
    ensures AllPieces(HunkLines(h)) == [Pieces(Header(h))[0]] + Body(h)
  {
    var header, rows := Header(h), RowLines(h.rows);
    assert HunkLines(h)[0] == header && HunkLines(h)[1..] == rows;
    assert AllPieces(HunkLines(h)) == Pieces(header) + AllPieces(rows);
    PiecesStart(header);
    assert Pieces(header) == [Pieces(header)[0]] + Strays(header);
    Associate([Pieces(header)[0]], Strays(header), AllPieces(rows));
    hide Pieces, AllPieces, Strays, Header, RowLines, HunkLines;
  }

  lemma HunkIsRead(cur: Cursor, h: Hunk)
    ensures After(cur, AllPieces(HunkLines(h))).found == cur.found + Span(h)
  {
    hide Pieces, Strays, HunkStart, AllPieces, Header, RowLines, HunkLines, After, Stretches, Union, Body;
    PiecesStart(Header(h));
    var piece := Pieces(Header(h))[0];
    HeaderPiece(h);
    HunkPieces(h);
    FirstAfter(cur, piece, Body(h));
    assert AfterLine(cur, piece) == cur.(line := h.newStart);
    StretchesAreRead(cur.(line := h.newStart), Stretch(h.newStart, 0), Body(h));
  }

  lemma AfterOne(cur: Cursor, raw: string)
    ensures After(cur, [raw]) == AfterLine(cur, raw)
  {
    assert [raw][..0] == [];
  }

  // ----- a hunk without stray headers -----

  lemma {:induction false} OneStretch(st: Stretch, pieces: seq<string>)
    requires NoHeader(pieces)
    ensures Stretches(st, pieces) == [st.(count := st.count + ShownCount(pieces))]
    decreases |pieces|
  {
    if pieces != [] {
      assert pieces[0] in pieces && pieces == [pieces[0]] + pieces[1..];
      ShownCountCons(pieces[0], pieces[1..]);
      StretchesCons(st, pieces[0], pieces[1..]);
      OneStretch(Grown(st, pieces[0]), pieces[1..]);
    }
    hide HunkStart, Shown;
  }

  lemma HeaderFreeBody(h: Hunk)
    requires HeaderFree(h)
    ensures NoHeader(Body(h)) && ShownCount(Body(h)) == NewCount(h.rows) + Extras(HunkLines(h))
  {
    var header, rows := Header(h), RowLines(h.rows);
    assert HunkLines(h)[0] == header && HunkLines(h)[1..] == rows;
    assert header in HunkLines(h);
    assert NoHeader(Strays(header));
    assert forall line <- rows :: line in HunkLines(h);
    RowsShown(h.rows);
    assert Extras(HunkLines(h)) == Extra(header) + Extras(rows);
    hide Pieces, AllPieces, Header, RowLines, HunkLines, Extras, NewCount, ShownCount, HunkStart, Strays;
    ShownCountAppend(Strays(header), AllPieces(rows));
  }

  /** Without stray headers a hunk is one stretch: its own lines, and one more for each shown stray piece. */
  lemma HeaderFreeSpan(h: Hunk)
    requires HeaderFree(h)
    ensures HunkStretches(h) == [Stretch(h.newStart, NewCount(h.rows) + Extras(HunkLines(h)))]
    ensures Span(h) == LinesIn(Stretch(h.newStart, NewCount(h.rows) + Extras(HunkLines(h))))
  {
    hide Stretches, Body, NoHeader, ShownCount, NewCount, Extras, HunkLines, LinesIn, HeaderFree, Union;
    HeaderFreeBody(h);
    OneStretch(Stretch(h.newStart, 0), Body(h));
    NothingMore(Start, Stretch(h.newStart, NewCount(h.rows) + Extras(HunkLines(h))));
  }

  // ----- a whole patch -----

  function Spans(hunks: seq<Hunk>): set<nat> {
    if hunks == [] then {} else Span(hunks[0]) + Spans(hunks[1..])
  }

  lemma {:induction false} HunksAreRead(cur: Cursor, hunks: seq<Hunk>)
    ensures After(cur, Lines(PatchText(hunks))).found == cur.found + Spans(hunks)
    decreases |hunks|
  {
    if hunks == [] {
      assert After(cur, []) == cur;
    } else {
      var first, rest := HunkLines(hunks[0]), PatchText(hunks[1..]);
      JoinedTerminated(first);
      LinesAppend(Joined(first), rest);
      JoinedPieces(first);
      AfterAppend(cur, AllPieces(first), Lines(rest));
      HunkIsRead(cur, hunks[0]);
      hide Span, HunkLines, Joined, AllPieces, After, Lines;
      HunksAreRead(After(cur, AllPieces(first)), hunks[1..]);
    }
  }

  /** With or without its last line feed, any patch is read as the union of its hunks' spans. */
  lemma PatchIsRead(hunks: seq<Hunk>, text: string)
    requires text == PatchText(hunks) || text + "\n" == PatchText(hunks)
    ensures After(Start, Lines(text)).found == Spans(hunks)
  {
    HunksAreRead(Start, hunks);
    if text + "\n" == PatchText(hunks) {
      LastLineFeed(text);
      AfterAppend(Start, Lines(text), [""]);
      AfterOne(After(Start, Lines(text)), "");
      NotAHeader("");
    }
  }

  // ----- plain patches -----

  /** No boundary but, at most, a carriage return at the end. */
  ghost predicate Plain(line: string) {
    forall i | 0 <= i < |line| :: !Boundary(line[i]) || (i == |line| - 1 && line[i] == '\r')
  }

  lemma PlainIsWhole(line: string)
    requires Plain(line)
    ensures Strays(line) == [] && Extra(line) == 0
  {
    var k, t := ToBoundary(line), line + "\n";
    CutLine(line);
    PiecesStart(line);
    assert ToBoundary(t) == k by {
      assert forall i | 0 <= i < |line| :: t[i] == line[i];
      assert t[k] == if k < |line| then line[k] else '\n';
    }
    assert Rest(t) == "";
    assert Lines(t) == [t[..k]];
  }

  lemma PlainAfter(x: string, y: string)
    requires (forall c <- x :: !Boundary(c)) && Plain(y)
    ensures Plain(x + y)
  {
    assert forall i | 0 <= i < |x| :: x[i] in x;
    assert forall i | |x| <= i < |x + y| :: (x + y)[i] == y[i - |x|];
  }

  ghost predicate PlainHunk(h: Hunk) { Plain(h.heading) && forall r <- h.rows :: Plain(r.text) }

  lemma PlainHeader(h: Hunk)
    requires Plain(h.heading)
    ensures Plain(Header(h))
  {
    DigitsValue(h.oldStart);
    DigitsValue(h.newStart);
    NoBoundaryInCount(OldCount(h.rows), h.terse);
    NoBoundaryInCount(NewCount(h.rows), h.terse);
    hide Plain, CountText, Digits, Value;
    var s1 := " @@" + h.heading;
    PlainAfter(" @@", h.heading);
    PlainAfter(CountText(NewCount(h.rows), h.terse), s1);
    PlainAfter(Digits(h.newStart), CountText(NewCount(h.rows), h.terse) + s1);
    var s2 := " +" + (Digits(h.newStart) + (CountText(NewCount(h.rows), h.terse) + s1));
    PlainAfter(" +", Digits(h.newStart) + (CountText(NewCount(h.rows), h.terse) + s1));
    PlainAfter(CountText(OldCount(h.rows), h.terse), s2);
    PlainAfter(Digits(h.oldStart), CountText(OldCount(h.rows), h.terse) + s2);
    PlainAfter("@@ -", Digits(h.oldStart) + (CountText(OldCount(h.rows), h.terse) + s2));
  }

  lemma {:induction false} PlainRows(rows: seq<Row>)
    requires forall r <- rows :: Plain(r.text)
    ensures Extras(RowLines(rows)) == 0 && forall line <- RowLines(rows) :: NoHeader(Strays(line))
  {
    if rows != [] {
      var line, rest := RowLine(rows[0]), rows[1..];
      assert rows[0] in rows && forall r <- rest :: r in rows;
      PlainAfter([MarkChar(rows[0].mark)], rows[0].text);
      PlainIsWhole(line);
      PlainRows(rest);
      assert RowLines(rows)[1..] == RowLines(rest);
    }
  }

  lemma PlainHunkHasNoStrays(h: Hunk)
    requires PlainHunk(h)
    ensures Extras(HunkLines(h)) == 0 && HeaderFree(h)
  {
    PlainHeader(h);
    PlainIsWhole(Header(h));
    PlainRows(h.rows);
    assert HunkLines(h)[1..] == RowLines(h.rows);
    hide Header, RowLines, Strays, Plain;
  }

  /** The new-side lines that the hunks show. */
  function NewSide(hunks: seq<Hunk>): set<nat> {
    if hunks == [] then {} else Interval(hunks[0].newStart, NewCount(hunks[0].rows)) + NewSide(hunks[1..])
  }

  /** No stray piece passes for a header, and none is read as shown. */
  ghost predicate StrayFree(h: Hunk) { HeaderFree(h) && (h.newStart == 0 || Extras(HunkLines(h)) == 0) }

  lemma StrayFreeSpan(h: Hunk)
    requires WellFormed(h) && StrayFree(h)
    ensures Span(h) == Interval(h.newStart, NewCount(h.rows))
  {
    HeaderFreeSpan(h);
    hide NewCount, Extras, HunkLines, HeaderFree, Span;
  }

  lemma {:induction false} SpansWithoutStrays(hunks: seq<Hunk>)
    requires forall h <- hunks :: WellFormed(h) && StrayFree(h)
    ensures Spans(hunks) == NewSide(hunks)
  {
    hide Span, StrayFree, WellFormed, Interval, NewCount;
    if hunks != [] {
      assert forall h <- hunks[1..] :: h in hunks;
      assert hunks[0] in hunks;
      StrayFreeSpan(hunks[0]);
      SpansWithoutStrays(hunks[1..]);
    }
  }
}
