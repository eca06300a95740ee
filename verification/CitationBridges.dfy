/** When tidying the spaces of a draft brings two runs of citations together: a tab between them that goes. */
module CitationBridges {
  import opened Options
  import opened Sequences
  import opened Distinct
  import opened Citations
  import opened CitationLaws
  import opened CitationSpacing

  // ----- in a collapsed draft -----

  /**
   * Separators and tabs that go, at least one unless any says there was one already, and then a marker or a link:
   * once tidied, nothing but separators is left in between.
   */
  predicate Reach(ts: seq<Token>, any: bool) {
    && ts != []
    && (if ts[0].Mark? || ts[0].Link? then any
        else (ts[0].Sep? || ClosesUp(ts[0], ts[1..])) && Reach(ts[1..], true))
  }

  /** Some marker reaches another, or a link. */
  predicate Meets(ts: seq<Token>) { ts != [] && ((ts[0].Mark? && Reach(ts[1..], false)) || Meets(ts[1..])) }

  lemma ReachCons(t: Token, rest: seq<Token>, any: bool)
    ensures Reach([t] + rest, any)
            <==> if t.Mark? || t.Link? then any else (t.Sep? || ClosesUp(t, rest)) && Reach(rest, true)
    ensures GapFrom([t] + rest, any) <==> if t.Mark? || t.Link? then any else t.Sep? && GapFrom(rest, true)
  {
    ConsTail(t, rest);
  }

  /** Where blanks lead to punctuation, a comma is passed on the way or nothing is reached. */
  lemma {:induction false} PunctReach(ts: seq<Token>, any: bool)
    requires PunctFollows(ts)
    ensures Reach(ts, any) <==> Reach(ts, true)
    decreases |ts|
  {
    if IsBlank(ts[0]) {
      PunctReach(ts[1..], true);
    }
  }

  /** What tidying leaves after a marker is a gap in a run exactly when the marker reached the next one before. */
  lemma {:induction false} SpacedGap(ts: seq<Token>, room: nat, any: bool)
    requires room == 0 ==> any
    ensures GapFrom(Spaced(ts, room), any) <==> Reach(ts, any)
    decreases |ts|
  {
    hide PunctFollows, GapFrom, Reach;
    if ts != [] {
      var t, rest := ts[0], ts[1..];
      assert ts == [t] + rest;
      SpacedCons(t, rest, room);
      ReachCons(t, rest, any);
      if ClosesUp(t, rest) {
        SpacedGap(rest, room, any);
        PunctReach(rest, any);
      } else if t == Sep(' ') && room == 0 {
        SpacedGap(rest, 0, true);
      } else {
        var left := if t == Sep(' ') then room - 1 else RoomAfter(t);
        ReachCons(t, Spaced(rest, left), any);
        SpacedGap(rest, left, true);
      }
    } else {
      NothingReached(room, any);
    }
  }

  lemma NothingReached(room: nat, any: bool)
    ensures !GapFrom(Spaced([], room), any) && !Reach([], any)
  {
  }

  lemma {:induction false} SpacedBlock(ts: seq<Token>, room: nat)
    requires room > 0
    ensures Block(Spaced(ts, room)) == Block(ts)
    decreases |ts|
  {
    hide PunctFollows, Block;
    if ts != [] {
      var t, rest := ts[0], ts[1..];
      assert ts == [t] + rest;
      SpacedCons(t, rest, room);
      BlockCons(t, rest);
      if ClosesUp(t, rest) {
        SpacedPunct(rest, room);
        var out := Spaced(rest, room);
        assert out == [out[0]] + out[1..];
        BlockCons(out[0], out[1..]);
      } else {
        var left := if t == Sep(' ') then room - 1 else RoomAfter(t);
        BlockCons(t, Spaced(rest, left));
        if t.Mark? {
          SpacedBlock(rest, left);
        }
      }
    } else {
      NothingSpaced(room);
    }
  }

  lemma NothingSpaced(room: nat)
    ensures Spaced([], room) == []
  {
  }

  lemma MeetsCons(t: Token, rest: seq<Token>)
    ensures Meets([t] + rest) <==> (t.Mark? && Reach(rest, false)) || Meets(rest)
  {
    ConsTail(t, rest);
  }

  /** Tidying keeps a settled draft settled exactly when no marker meets another. */
  lemma {:induction false} SpacedSettled(ts: seq<Token>, room: nat)
    requires Settled(ts)
    ensures Settled(Spaced(ts, room)) <==> !Meets(ts)
    decreases |ts|
  {
    hide PunctFollows, Settled, Meets, GapFrom, Reach, Block;
    if ts != [] {
      var t, rest := ts[0], ts[1..];
      assert ts == [t] + rest;
      SpacedCons(t, rest, room);
      SettledCons(t, rest);
      MeetsCons(t, rest);
      if ClosesUp(t, rest) {
        SpacedSettled(rest, room);
      } else if t == Sep(' ') && room == 0 {
        SpacedSettled(rest, 0);
      } else {
        var left := if t == Sep(' ') then room - 1 else RoomAfter(t);
        SettledCons(t, Spaced(rest, left));
        SpacedSettled(rest, left);
        if t.Mark? {
          SpacedGap(rest, left, false);
          SpacedBlock(rest, left);
        }
      }
    } else {
      NothingSettled(room);
    }
  }

  lemma NothingSettled(room: nat)
    ensures Settled(Spaced([], room)) && !Meets([])
  {
  }

  /** Collapsing a tidied, collapsed draft once more changes nothing exactly when no marker meets another. */
  lemma CollapseAfterTidyIff(c: seq<Token>)
    requires Collapse(c) == c
    ensures Collapse(Tidied(c)) == Tidied(c) <==> !Meets(c)
  {
    hide Collapse, Settled, Meets;
    SettledIff(c);
    SpacedSettled(c, 2);
    SettledIff(Tidied(c));
    assert Tidied(c) == Spaced(c, 2);
  }

  // ----- in any draft -----

  /** Separators and tabs that go, at least one tab, and then a marker or a link. */
  predicate Spans(ts: seq<Token>, tab: bool) {
    && ts != []
    && (if ts[0].Mark? || ts[0].Link? then tab
        else if ts[0].Sep? then Spans(ts[1..], tab)
        else ClosesUp(ts[0], ts[1..]) && Spans(ts[1..], true))
  }

  /** Two citations, or a citation and a link, with separators and at least one tab between them, all of which go. */
  predicate Bridged(ts: seq<Token>) { ts != [] && ((ts[0].Mark? && Spans(ts[1..], false)) || Bridged(ts[1..])) }

  lemma SpansCons(t: Token, rest: seq<Token>, tab: bool)
    ensures Spans([t] + rest, tab)
            <==> if t.Mark? || t.Link? then tab else if t.Sep? then Spans(rest, tab) else ClosesUp(t, rest) && Spans(rest, true)
    ensures Bridged([t] + rest) <==> (t.Mark? && Spans(rest, false)) || Bridged(rest)
  {
    ConsTail(t, rest);
  }

  lemma {:induction false} SpansPastATab(ts: seq<Token>)
    ensures Spans(ts, true) <==> Reach(ts, true)
    decreases |ts|
  {
    if ts != [] {
      SpansPastATab(ts[1..]);
    }
  }

  lemma {:induction false} ReachIsGapOrSpan(ts: seq<Token>, any: bool)
    ensures Reach(ts, any) <==> GapFrom(ts, any) || Spans(ts, false)
    decreases |ts|
  {
    if ts != [] {
      ReachIsGapOrSpan(ts[1..], true);
      SpansPastATab(ts[1..]);
    }
  }

  /** In a settled draft, markers meet only across tabs. */
  lemma {:induction false} MeetsIsBridged(ts: seq<Token>)
    requires Settled(ts)
    ensures Meets(ts) <==> Bridged(ts)
  {
    if ts != [] {
      MeetsIsBridged(ts[1..]);
      ReachIsGapOrSpan(ts[1..], false);
    }
  }

  /** The same draft but for the numbers of its markers. */
  ghost predicate SameShape(xs: seq<Token>, ys: seq<Token>) {
    |xs| == |ys| && forall i | 0 <= i < |xs| :: xs[i] == ys[i] || (xs[i].Mark? && ys[i].Mark?)
  }

  lemma {:induction false} ShapeDecides(xs: seq<Token>, ys: seq<Token>, tab: bool)
    requires SameShape(xs, ys)
    ensures PunctFollows(xs) == PunctFollows(ys) && Spans(xs, tab) == Spans(ys, tab) && Bridged(xs) == Bridged(ys)
    decreases |xs|
  {
    if xs != [] {
      assert SameShape(xs[1..], ys[1..]);
      ShapeDecides(xs[1..], ys[1..], tab);
      ShapeDecides(xs[1..], ys[1..], true);
      ShapeDecides(xs[1..], ys[1..], false);
    }
  }

  /** The writer's draft without the markers that cite nothing. */
  function Kept(b: Brief, ts: seq<Token>): seq<Token> {
    if ts == [] then []
    else (if ts[0].Mark? && Target(b, ts[0].num).None? then [] else [ts[0]]) + Kept(b, ts[1..])
  }

  lemma {:induction false} RewriteKeepsShape(b: Brief, ts: seq<Token>, refs: seq<Ref>)
    requires BriefOk(b)
    ensures SameShape(Rewrite(b, ts, refs).0, Kept(b, ts))
    decreases |ts|
  {
    if ts != [] {
      var (head, refs1) := RewriteOne(b, ts[0], refs);
      RewriteKeepsShape(b, ts[1..], refs1);
      assert |head| <= 1;
    }
    hide Target;
  }

  // ----- collapsing and bridges -----

  lemma CitedHead(ts: seq<Token>, tab: bool)
    requires ts != [] && (ts[0].Mark? || ts[0].Link?)
    ensures Spans(ts, tab) == tab && !PunctFollows(ts)
  {
  }

  lemma CollapseCons(t: Token, rest: seq<Token>)
    requires !t.Mark?
    ensures Collapse([t] + rest) == [t] + Collapse(rest)
  {
    ConsTail(t, rest);
  }

  lemma {:induction false} CollapseKeepsSpans(ts: seq<Token>, tab: bool)
    ensures Spans(Collapse(ts), tab) == Spans(ts, tab) && PunctFollows(Collapse(ts)) == PunctFollows(ts)
    decreases |ts|
  {
    hide Collapse, Spans, PunctFollows;
    if ts == [] {
      NothingCollapses();
    } else if ts[0].Mark? {
      CollapseStartsCited(ts);
      CitedHead(ts, tab);
      CitedHead(Collapse(ts), tab);
    } else {
      var t, rest := ts[0], ts[1..];
      assert ts == [t] + rest;
      CollapseCons(t, rest);
      CollapseKeepsSpans(rest, tab);
      CollapseKeepsSpans(rest, true);
      SpansCons(t, rest, tab);
      SpansCons(t, Collapse(rest), tab);
      PunctCons(t, rest);
      PunctCons(t, Collapse(rest));
    }
  }

  lemma NothingCollapses()
    ensures Collapse([]) == []
  {
  }

  lemma CollapseStartsCited(ts: seq<Token>)
    requires ts != [] && ts[0].Mark?
    ensures Collapse(ts) != [] && (Collapse(ts)[0].Mark? || Collapse(ts)[0].Link?)
  {
    var n := RunLength(ts);
    CollapsedIsSame(ts);
    CollapsedAt(ts[..n]);
    FirstsNotEmpty(Numbers(ts[..n]));
    hide Collapsed, Numbers, RunLength, Firsts;
  }

  /** Of a run, only its last marker can be the end of a bridge. */
  lemma {:induction false} BridgesOfRun(ts: seq<Token>)
    requires ts != [] && ts[0].Mark?
    ensures var n := RunLength(ts);
            Bridged(ts) <==> (ts[n - 1].Mark? && Spans(ts[n..], false)) || Bridged(ts[n..])
    decreases |ts|
  {
    hide RunLength, PunctFollows, Bridged, Spans;
    var k := Separators(ts[1..]);
    RunLengthIs(ts, k);
    BridgeFirst(ts, k);
    if 1 + k < |ts| && ts[1 + k].Mark? {
      var next := ts[1 + k..];
      var m := RunLength(next);
      BridgesOfRun(next);
      CitedHead(next, false);
      assert next[m..] == ts[1 + k + m..] && next[m - 1] == ts[k + m];
    } else if 1 + k < |ts| && ts[1 + k].Link? {
      var next := ts[1 + k..];
      CitedHead(next, false);
      LinkBridgesNothing(next);
      assert next[1..] == ts[2 + k..];
    } else {
      BridgedFirst(ts);
    }
  }

  lemma BridgedFirst(ts: seq<Token>)
    requires ts != []
    ensures Bridged(ts) <==> (ts[0].Mark? && Spans(ts[1..], false)) || Bridged(ts[1..])
  {
  }

  lemma LinkBridgesNothing(ts: seq<Token>)
    requires ts != [] && ts[0].Link?
    ensures Bridged(ts) == Bridged(ts[1..])
  {
  }

  /** From a marker, past the separators after it. */
  lemma BridgeFirst(ts: seq<Token>, k: nat)
    requires ts != [] && ts[0].Mark? && k == Separators(ts[1..])
    ensures Bridged(ts) <==> Spans(ts[1 + k..], false) || Bridged(ts[1 + k..])
  {
    hide Bridged, Spans;
    BridgedFirst(ts);
    SeparatorsBridgeNothing(ts[1..]);
    assert ts[1..][k..] == ts[1 + k..];
  }

  lemma {:induction false} SeparatorsBridgeNothing(ts: seq<Token>)
    ensures var rest := ts[Separators(ts)..]; Bridged(ts) == Bridged(rest) && Spans(ts, false) == Spans(rest, false)
    decreases |ts|
  {
    if ts != [] && ts[0].Sep? {
      SeparatorsBridgeNothing(ts[1..]);
      assert ts[1..][Separators(ts[1..])..] == ts[Separators(ts)..];
    } else {
      assert ts[0..] == ts;
    }
  }

  /** Citations side by side are no bridge; the last of them may start one. */
  lemma {:induction false} BridgesOfBlock(run: seq<Token>, rest: seq<Token>)
    requires run != [] && forall i | 0 <= i < |run| :: run[i].Mark? || (run[i].Link? && i == |run| - 1)
    ensures Bridged(run + rest) <==> (run[|run| - 1].Mark? && Spans(rest, false)) || Bridged(rest)
    decreases |run|
  {
    hide Bridged, Spans;
    var t, more := run[0], run[1..];
    assert run + rest == [t] + (more + rest);
    SpansCons(t, more + rest, false);
    if more == [] {
      assert more + rest == rest;
    } else {
      BridgesOfBlock(more, rest);
      assert more + rest == [more[0]] + (more[1..] + rest);
      SpansCons(more[0], more[1..] + rest, false);
    }
  }

  /** Collapsing neither makes nor breaks a bridge. */
  lemma {:induction false} CollapseKeepsBridges(ts: seq<Token>)
    ensures Bridged(Collapse(ts)) == Bridged(ts)
    decreases |ts|
  {
    if ts == [] {
    } else if ts[0].Mark? {
      CollapsedRunBridges(ts);
    } else {
      var t, rest := ts[0], ts[1..];
      assert ts == [t] + rest && Collapse(ts) == [t] + Collapse(rest);
      hide Collapse, Bridged, Spans;
      CollapseKeepsBridges(rest);
      SpansCons(t, rest, false);
      SpansCons(t, Collapse(rest), false);
    }
  }

  lemma {:induction false} CollapsedRunBridges(ts: seq<Token>)
    requires ts != [] && ts[0].Mark?
    ensures Bridged(Collapse(ts)) == Bridged(ts)
    decreases |ts|, 0
  {
    var n := RunLength(ts);
    assert Collapse(ts) == Collapsed(ts[..n]) + Collapse(ts[n..]);
    hide Collapse, Bridged, Spans, Collapsed, Numbers, RunLength, Firsts;
    CollapsedIsSame(ts);
    CollapsedAt(ts[..n]);
    FirstsNotEmpty(Numbers(ts[..n]));
    BridgesOfRun(ts);
    RunTokens(ts);
    BridgesOfBlock(Collapsed(ts[..n]), Collapse(ts[n..]));
    CollapseKeepsBridges(ts[n..]);
    CollapseKeepsSpans(ts[n..], false);
  }

  /**
   * Collapsing a tidied draft once more, after renumbering and collapsing it, changes nothing exactly when the writer's
   * draft, less the markers that cite nothing, has no bridge.
   */
  lemma CollapseAgainIff(b: Brief, ts: seq<Token>)
    requires BriefOk(b)
    ensures var c := Collapse(Rewrite(b, ts, []).0);
            Collapse(Tidied(c)) == Tidied(c) <==> !Bridged(Kept(b, ts))
  {
    hide Collapse, Tidied, Settled, Meets, Bridged, Kept, Rewrite;
    var mid := Rewrite(b, ts, []).0;
    CollapseTwice(mid);
    CollapseAfterTidyIff(Collapse(mid));
    SettledIff(Collapse(mid));
    MeetsIsBridged(Collapse(mid));
    CollapseKeepsBridges(mid);
    RewriteKeepsShape(b, ts, []);
    ShapeDecides(mid, Kept(b, ts), false);
  }
}
