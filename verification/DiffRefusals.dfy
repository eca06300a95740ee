/** What reading a patch answers: its lines, or an error when a header has a number too long to be converted. */
module DiffRefusals {
  import opened Decimal
  import opened DiffHunks
  import opened DiffLines
  import opened Options
  import opened Sequences

  /** Some line of the hunk, its header included, has a stray piece that is refused. */
  ghost predicate StrayRefused(h: Hunk) { exists line <- HunkLines(h) :: SomeRefused(Strays(line)) }

  lemma RefusedAppend(xs: seq<string>, ys: seq<string>)
    ensures SomeRefused(xs + ys) <==> SomeRefused(xs) || SomeRefused(ys)
  {
    hide Refused;
    if line :| line in xs && Refused(line) {
      assert line in xs + ys;
    }
    if line :| line in ys && Refused(line) {
      assert line in xs + ys;
    }
  }

  lemma NothingRefused()
    ensures !SomeRefused([]) && !SomeRefused([""])
  {
    NotAHeader("");
  }

  lemma OneRefused(line: string)
    ensures SomeRefused([line]) <==> Refused(line)
  {
    assert line in [line];
  }

  /** A line's own piece and its stray ones. */
  lemma LineRefused(line: string)
    ensures Pieces(line) != []
    ensures SomeRefused(Pieces(line)) <==> Refused(Pieces(line)[0]) || SomeRefused(Strays(line))
  {
    PiecesStart(line);
    hide SomeRefused, Pieces, Refused;
    assert Pieces(line) == [Pieces(line)[0]] + Strays(line);
    RefusedAppend([Pieces(line)[0]], Strays(line));
    OneRefused(Pieces(line)[0]);
  }

  lemma {:induction false} RowsRefused(rows: seq<Row>)
    ensures SomeRefused(AllPieces(RowLines(rows))) <==> exists line <- RowLines(rows) :: SomeRefused(Strays(line))
  {
    hide SomeRefused, Pieces, Strays, RowLine, Refused;
    if rows == [] {
      NothingRefused();
    } else {
      var line, rest := RowLine(rows[0]), RowLines(rows[1..]);
      RowsRefused(rows[1..]);
      ConsTail(line, rest);
      RefusedAppend(Pieces(line), AllPieces(rest));
      LineRefused(line);
      RowIsNotRefused(rows[0]);
      assert forall l :: l in RowLines(rows) <==> l == line || l in rest;
    }
  }

  lemma RowIsNotRefused(r: Row)
    ensures Pieces(RowLine(r)) != [] && !Refused(Pieces(RowLine(r))[0])
  {
    PiecesStart(RowLine(r));
    RowPiece(r);
    hide Pieces, RowLine, HunkNumeral;
  }

  lemma HunkRefused(h: Hunk)
    ensures SomeRefused(AllPieces(HunkLines(h))) <==> |Digits(h.newStart)| > MAX_DIGITS || StrayRefused(h)
  {
    hide SomeRefused, Pieces, Strays, Header, Refused, HunkNumeral, Digits, RowLines;
    var header, rows := Header(h), RowLines(h.rows);
    RowsRefused(h.rows);
    LineRefused(header);
    HeaderRefused(h);
    ConsTail(header, rows);
    RefusedAppend(Pieces(header), AllPieces(rows));
    assert forall line :: line in HunkLines(h) <==> line == header || line in rows;
  }

  lemma HeaderRefused(h: Hunk)
    ensures Pieces(Header(h)) != []
    ensures Refused(Pieces(Header(h))[0]) <==> |Digits(h.newStart)| > MAX_DIGITS
  {
    PiecesStart(Header(h));
    HeaderNumeral(h);
    hide HunkNumeral, Pieces, Header, Digits;
  }

  lemma {:induction false} HunksRefused(hunks: seq<Hunk>)
    ensures SomeRefused(Lines(PatchText(hunks)))
            <==> exists h <- hunks :: |Digits(h.newStart)| > MAX_DIGITS || StrayRefused(h)
  {
    hide SomeRefused, StrayRefused, HunkLines, Joined, AllPieces, Lines, Digits, Terminated;
    if hunks == [] {
      NothingRefused();
      assert Lines("") == [] by { NoLines(); }
    } else {
      var first, rest := HunkLines(hunks[0]), PatchText(hunks[1..]);
      JoinedTerminated(first);
      LinesAppend(Joined(first), rest);
      JoinedPieces(first);
      RefusedAppend(AllPieces(first), Lines(rest));
      HunkRefused(hunks[0]);
      HunksRefused(hunks[1..]);
      assert hunks == [hunks[0]] + hunks[1..];
    }
  }

  lemma NoLines()
    ensures Lines("") == []
  {
  }

  /**
   * Reading a rendered patch raises exactly when a hunk starts at a number with more digits than are converted, or a
   * stray piece reads like a header with such a number; otherwise the whole patch is read.
   */
  lemma PatchIsRefusedIff(hunks: seq<Hunk>, text: string)
    requires text == PatchText(hunks) || text + "\n" == PatchText(hunks)
    ensures SomeRefused(Lines(text))
            <==> exists h <- hunks :: |Digits(h.newStart)| > MAX_DIGITS || StrayRefused(h)
  {
    HunksRefused(hunks);
    if text + "\n" == PatchText(hunks) {
      LastLineFeed(text);
      RefusedAppend(Lines(text), [""]);
      NothingRefused();
    }
    hide SomeRefused, StrayRefused, Lines, PatchText, Digits;
  }

  /** No header of the hunks, and no stray piece, has a number that cannot be converted. */
  ghost predicate Readable(hunks: seq<Hunk>) {
    forall h <- hunks :: |Digits(h.newStart)| <= MAX_DIGITS && !StrayRefused(h)
  }

  /** What reading any rendered patch answers. */
  lemma PatchIsAnswered(hunks: seq<Hunk>, text: string)
    requires text == PatchText(hunks) || text + "\n" == PatchText(hunks)
    ensures Commentable(text) == if Readable(hunks) then Some(Spans(hunks)) else None
  {
    hide SomeRefused, StrayRefused, Lines, PatchText, Digits, Spans, After;
    PatchIsRead(hunks, text);
    PatchIsRefusedIff(hunks, text);
  }

  lemma HeaderFreeIsNotRefused(h: Hunk)
    requires HeaderFree(h)
    ensures !StrayRefused(h)
  {
    hide HunkNumeral, Strays, HunkLines;
  }

  /** Reading a patch with plain lines gives exactly its hunks' new-side lines, if all their starts are converted. */
  lemma PlainPatchIsReadExactly(hunks: seq<Hunk>, text: string)
    requires forall h <- hunks :: WellFormed(h) && PlainHunk(h)
    requires text == PatchText(hunks) || text + "\n" == PatchText(hunks)
    ensures Commentable(text)
            == if forall h <- hunks :: |Digits(h.newStart)| <= MAX_DIGITS then Some(NewSide(hunks)) else None
  {
    hide HeaderFree, StrayRefused, PlainHunk, Commentable, Digits, HunkLines, Extras, Spans, NewSide;
    forall h <- hunks ensures StrayFree(h) && !StrayRefused(h) {
      PlainHunkHasNoStrays(h);
      HeaderFreeIsNotRefused(h);
    }
    PatchIsAnswered(hunks, text);
    SpansWithoutStrays(hunks);
  }
}
