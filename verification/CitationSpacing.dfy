/** Tidying the spaces of a draft: what it leaves alone, and when it brings two runs of citations together. */
module CitationSpacing {
  import opened Options
  import opened Sequences
  import opened Distinct
  import opened Citations
  import opened CitationLaws

  // ----- what tidying does to a run of blanks -----

  /** A whole run of blanks goes when punctuation comes after it, and stays otherwise. */
  lemma {:induction false} CloseUpRun(blanks: seq<Token>, rest: seq<Token>)
    requires (forall t <- blanks :: IsBlank(t)) && (rest != [] ==> !IsBlank(rest[0]))
    ensures CloseUp(blanks + rest) == (if rest != [] && IsPunct(rest[0]) then [] else blanks) + CloseUp(rest)
    ensures PunctFollows(blanks + rest) <==> rest != [] && IsPunct(rest[0])
    decreases |blanks|
  {
    hide CloseUp, PunctFollows, IsBlank;
    if blanks == [] {
      assert blanks + rest == rest && [] + CloseUp(rest) == CloseUp(rest);
      PunctOfText(rest);
    } else {
      var t, more := blanks[0], blanks[1..];
      assert blanks == [t] + more && t in blanks && forall x <- more :: x in blanks;
      CloseUpRun(more, rest);
      Associate([t], more, rest);
      CloseUpCons(t, more + rest);
      PunctCons(t, more + rest);
      BlankIsNoPunct(t);
      Associate([t], more, CloseUp(rest));
      assert [] + ([] + CloseUp(rest)) == CloseUp(rest);
    }
  }

  lemma PunctOfText(ts: seq<Token>)
    requires ts != [] ==> !IsBlank(ts[0])
    ensures PunctFollows(ts) <==> ts != [] && IsPunct(ts[0])
  {
  }

  lemma BlankIsNoPunct(t: Token)
    requires IsBlank(t)
    ensures !IsPunct(t)
  {
  }

  lemma CloseUpCons(t: Token, rest: seq<Token>)
    ensures CloseUp([t] + rest) == (if IsBlank(t) && PunctFollows(rest) then [] else [t]) + CloseUp(rest)
  {
    ConsTail(t, rest);
  }

  function Spaces(n: nat): seq<Token> { seq(n, _ => Sep(' ')) }

  lemma SpacesCons(n: nat)
    ensures Spaces(n + 1) == [Sep(' ')] + Spaces(n)
  {
  }

  /** Of a whole run of spaces as many stay as there is room for, and what follows does not depend on it. */
  lemma {:induction false} SqueezeRun(n: nat, rest: seq<Token>, room: nat)
    requires rest != [] ==> rest[0] != Sep(' ')
    ensures Squeeze(Spaces(n) + rest, room) == Spaces(if n < room then n else room) + Squeeze(rest, 1)
    decreases n
  {
    if n == 0 {
      assert Spaces(0) + rest == rest && Spaces(0) + Squeeze(rest, 1) == Squeeze(rest, 1);
    } else {
      var more := Spaces(n - 1) + rest;
      var left := if room > 0 then room - 1 else 0;
      SpacesCons(n - 1);
      Associate([Sep(' ')], Spaces(n - 1), rest);
      ConsTail(Sep(' '), more);
      assert Squeeze([Sep(' ')] + more, room) == (if room > 0 then [Sep(' ')] else []) + Squeeze(more, left);
      SqueezeRun(n - 1, rest, left);
      var m := if n - 1 < left then n - 1 else left;
      SpacesCons(m);
      Associate([Sep(' ')], Spaces(m), Squeeze(rest, 1));
    }
    hide Squeeze, Spaces;
  }

  /** Spaces and tabs before a full stop, comma, semicolon, colon, "!", "?" or ")" go, and before anything else they stay. */
  lemma BlanksGoIff(blanks: seq<Token>, t: Token, rest: seq<Token>)
    requires blanks != [] && (forall x <- blanks :: x in {Sep(' '), Text('\t')}) && t !in {Sep(' '), Text('\t')}
    ensures var punct := t in {Text('.'), Sep(','), Text(';'), Text(':'), Text('!'), Text('?'), Text(')')};
            CloseUp(blanks + ([t] + rest)) == (if punct then [] else blanks) + ([t] + CloseUp(rest))
  {
    CloseUpRun(blanks, [t] + rest);
    CloseUpCons(t, rest);
    hide CloseUp, PunctFollows;
  }

  /** Of the spaces after a character one stays, and two after a line feed, which begins a line. */
  lemma SpacesLeft(t: Token, n: nat, rest: seq<Token>, room: nat)
    requires t != Sep(' ') && (rest != [] ==> rest[0] != Sep(' '))
    ensures var most := if t == Text('\n') then 2 else 1;
            Squeeze([t] + (Spaces(n) + rest), room) == [t] + (Spaces(if n < most then n else most) + Squeeze(rest, 1))
  {
    ConsTail(t, Spaces(n) + rest);
    SqueezeRun(n, rest, if t == Text('\n') then 2 else 1);
    hide Spaces;
  }

  // ----- token by token -----

  /** Both patterns in one pass. */
  function Spaced(ts: seq<Token>, room: nat): seq<Token> { Squeeze(CloseUp(ts), room) }

  predicate ClosesUp(t: Token, rest: seq<Token>) { IsBlank(t) && PunctFollows(rest) }

  function RoomAfter(t: Token): nat { if t == Text('\n') then 2 else 1 }

  lemma SpacedCons(t: Token, rest: seq<Token>, room: nat)
    ensures Spaced([t] + rest, room)
            == if ClosesUp(t, rest) then Spaced(rest, room)
               else if t != Sep(' ') then [t] + Spaced(rest, RoomAfter(t))
               else if room > 0 then [t] + Spaced(rest, room - 1)
               else Spaced(rest, 0)
  {
    ConsTail(t, rest);
    if !ClosesUp(t, rest) {
      ConsTail(t, CloseUp(rest));
    } else {
      assert [] + CloseUp(rest) == CloseUp(rest);
    }
  }

  lemma PunctCons(t: Token, rest: seq<Token>)
    ensures PunctFollows([t] + rest) <==> IsPunct(t) || (IsBlank(t) && PunctFollows(rest))
  {
    ConsTail(t, rest);
  }

  function NonBlank(ts: seq<Token>): seq<Token> {
    if ts == [] then [] else (if IsBlank(ts[0]) then [] else [ts[0]]) + NonBlank(ts[1..])
  }

  lemma NonBlankCons(t: Token, rest: seq<Token>)
    ensures NonBlank([t] + rest) == (if IsBlank(t) then [] else [t]) + NonBlank(rest)
    ensures Labels([t] + rest) == (if t.Mark? then [t.num] else []) + Labels(rest)
  {
    ConsTail(t, rest);
  }

  /** Tidying only takes blanks away: everything else, citations included, stays in place. */
  lemma {:induction false} SpacedKeeps(ts: seq<Token>, room: nat)
    ensures NonBlank(Spaced(ts, room)) == NonBlank(ts) && Labels(Spaced(ts, room)) == Labels(ts)
    ensures |Spaced(ts, room)| <= |ts|
    decreases |ts|
  {
    if ts != [] {
      var t, rest := ts[0], ts[1..];
      assert ts == [t] + rest;
      SpacedCons(t, rest, room);
      NonBlankCons(t, rest);
      var left := if ClosesUp(t, rest) then room else if t != Sep(' ') then RoomAfter(t) else if room > 0 then room - 1 else 0;
      SpacedKeeps(rest, left);
      NonBlankCons(t, Spaced(rest, left));
    }
    hide NonBlank, Labels, PunctFollows;
  }

  /** Tidying neither brings blanks before punctuation nor takes punctuation away from them. */
  lemma {:induction false} SpacedPunct(ts: seq<Token>, room: nat)
    ensures PunctFollows(Spaced(ts, room)) <==> PunctFollows(ts)
    ensures PunctFollows(ts) ==> Spaced(ts, room) != [] && IsPunct(Spaced(ts, room)[0])
    decreases |ts|
  {
    if ts != [] {
      var t, rest := ts[0], ts[1..];
      assert ts == [t] + rest;
      SpacedCons(t, rest, room);
      PunctCons(t, rest);
      var left := if ClosesUp(t, rest) then room else if t != Sep(' ') then RoomAfter(t) else if room > 0 then room - 1 else 0;
      SpacedPunct(rest, left);
      PunctCons(t, Spaced(rest, left));
    }
    hide PunctFollows;
  }

  lemma {:induction false} SpacedTwice(ts: seq<Token>, room: nat)
    ensures Spaced(Spaced(ts, room), room) == Spaced(ts, room)
    decreases |ts|
  {
    if ts != [] {
      var t, rest := ts[0], ts[1..];
      assert ts == [t] + rest;
      SpacedCons(t, rest, room);
      var left := if ClosesUp(t, rest) then room else if t != Sep(' ') then RoomAfter(t) else if room > 0 then room - 1 else 0;
      if ClosesUp(t, rest) || (t == Sep(' ') && room == 0) {
        SpacedTwice(rest, left);
      } else {
        SpacedTwice(rest, left);
        SpacedPunct(rest, left);
        SpacedCons(t, Spaced(rest, left), room);
      }
    }
    hide PunctFollows, IsBlank;
  }

  // ----- a draft in which every run is collapsed -----

  /** The numbers of the markers that stand side by side here, and of the link right after them. */
  function Block(ts: seq<Token>): seq<string> {
    if ts == [] then []
    else if ts[0].Mark? then [ts[0].num] + Block(ts[1..])
    else if ts[0].Link? then [ts[0].num]
    else []
  }

  /** Separators, at least one unless any says there was one already, and then a marker or a link. */
  predicate GapFrom(ts: seq<Token>, any: bool) {
    && ts != []
    && (if ts[0].Mark? || ts[0].Link? then any else ts[0].Sep? && GapFrom(ts[1..], true))
  }

  /** Markers of a run stand side by side, and no number stands in a run twice. */
  predicate Settled(ts: seq<Token>) {
    ts == []
    || ((ts[0].Mark? ==> !GapFrom(ts[1..], false) && ts[0].num !in Block(ts[1..])) && Settled(ts[1..]))
  }

  lemma BlockCons(t: Token, rest: seq<Token>)
    ensures Block([t] + rest) == if t.Mark? then [t.num] + Block(rest) else if t.Link? then [t.num] else []
  {
    ConsTail(t, rest);
  }

  lemma SettledCons(t: Token, rest: seq<Token>)
    ensures Settled([t] + rest) <==> (t.Mark? ==> !GapFrom(rest, false) && t.num !in Block(rest)) && Settled(rest)
  {
    ConsTail(t, rest);
  }

  lemma {:induction false} GapIs(ts: seq<Token>, any: bool)
    ensures var k := Separators(ts);
            GapFrom(ts, any) <==> k < |ts| && (ts[k].Mark? || ts[k].Link?) && (any || k > 0)
    decreases |ts|
  {
    if ts != [] && ts[0].Sep? {
      GapIs(ts[1..], true);
    }
  }

  /** The run that starts here is markers side by side, and perhaps a link, with different numbers. */
  ghost predicate RunIsBlock(ts: seq<Token>, n: nat)
    requires n <= |ts|
  {
    (forall i | 0 <= i < n :: !ts[i].Sep?) && AllDistinct(Numbers(ts[..n]))
  }

  lemma DistinctCons(x: string, xs: seq<string>)
    ensures AllDistinct([x] + xs) <==> x !in xs && AllDistinct(xs)
  {
    var all := [x] + xs;
    assert forall i | 0 <= i < |xs| :: all[i + 1] == xs[i];
    if AllDistinct(all) {
      forall i, j | 0 <= i < j < |xs| ensures xs[i] != xs[j] {
        assert all[i + 1] != all[j + 1];
      }
      forall i | 0 <= i < |xs| ensures x != xs[i] {
        assert all[0] != all[i + 1];
      }
    }
  }

  lemma RunCut(ts: seq<Token>, n: nat)
    requires 0 < n <= |ts|
    ensures ts[..n] == [ts[0]] + ts[1..][..n - 1] && ts[1..][n - 1..] == ts[n..] && ts == [ts[0]] + ts[1..]
  {
  }

  /** After a marker: another one, a link, or neither, with separators or without. */
  lemma RunStart(ts: seq<Token>)
    requires ts != [] && ts[0].Mark?
    ensures var rest, n := ts[1..], RunLength(ts);
            && GapFrom(rest, false) ==> n > 1 && ts[1].Sep?
    ensures var rest, n := ts[1..], RunLength(ts);
            !GapFrom(rest, false) ==>
              if rest != [] && rest[0].Mark? then n == 1 + RunLength(rest)
              else if rest != [] && rest[0].Link? then n == 2
              else n == 1 && Block(rest) == []
  {
    var k := Separators(ts[1..]);
    RunLengthIs(ts, k);
    GapIs(ts[1..], false);
    assert k > 0 ==> ts[1..][0].Sep? && ts[1] == ts[1..][0];
    assert ts[1..][0..] == ts[1..];
    hide RunLength, GapFrom;
  }

  lemma OneNumber(t: Token)
    requires t.Mark? || t.Link?
    ensures Numbers([t]) == [t.num] && AllDistinct(Numbers([t]))
  {
    assert [t][1..] == [];
  }

  /** In a run without separators, the block at its start is all its numbers. */
  lemma {:induction false} BlockOfRun(ts: seq<Token>)
    requires ts != [] && ts[0].Mark?
    requires forall i | 0 <= i < RunLength(ts) :: !ts[i].Sep?
    ensures Block(ts) == Numbers(ts[..RunLength(ts)])
    decreases |ts|
  {
    hide Numbers, RunLength, GapFrom, Block;
    var rest := ts[1..];
    RunStart(ts);
    assert !GapFrom(rest, false);
    if rest != [] && rest[0].Mark? {
      var m := RunLength(rest);
      assert forall i | 0 <= i < m :: rest[i] == ts[i + 1];
      BlockOfRun(rest);
      BlockOfMore(ts, m);
    } else if rest != [] && rest[0].Link? {
      LinkIsBlock(rest);
      BlockOfMore(ts, 1);
    } else {
      assert rest[..0] == [];
      NoNumbers();
      BlockOfMore(ts, 0);
    }
  }

  lemma BlockOfMore(ts: seq<Token>, m: nat)
    requires m < |ts| && ts[0].Mark? && Block(ts[1..]) == Numbers(ts[1..][..m])
    ensures Block(ts) == Numbers(ts[..m + 1])
  {
    hide Numbers, Block;
    RunCut(ts, m + 1);
    NumbersCons(ts[0], ts[1..][..m]);
    BlockCons(ts[0], ts[1..]);
  }

  lemma NoNumbers()
    ensures Numbers([]) == []
  {
  }

  lemma BlockRunCons(ts: seq<Token>, n: nat)
    requires 1 < n <= |ts| && ts[0].Mark?
    ensures RunIsBlock(ts, n) <==> RunIsBlock(ts[1..], n - 1) && ts[0].num !in Numbers(ts[1..][..n - 1])
  {
    hide Numbers, AllDistinct;
    var rest := ts[1..];
    RunCut(ts, n);
    NumbersCons(ts[0], rest[..n - 1]);
    DistinctCons(ts[0].num, Numbers(rest[..n - 1]));
    assert forall i | 0 <= i < n - 1 :: rest[i] == ts[i + 1];
    assert forall i | 1 <= i < n :: ts[i] == rest[i - 1];
  }

  /** What is said of a run, token by token, is what is said of it as a whole. */
  lemma {:induction false} SettledRun(ts: seq<Token>)
    requires ts != [] && ts[0].Mark?
    ensures Settled(ts) <==> RunIsBlock(ts, RunLength(ts)) && Settled(ts[RunLength(ts)..])
    decreases |ts|
  {
    hide Numbers, RunLength, GapFrom, Block, Settled, AllDistinct, RunIsBlock;
    var rest := ts[1..];
    RunStart(ts);
    SettledFirst(ts);
    if GapFrom(rest, false) {
      SepIsNoBlock(ts, RunLength(ts));
    } else if rest != [] && rest[0].Mark? {
      var m := RunLength(rest);
      SettledRun(rest);
      BlockRunCons(ts, m + 1);
      RunCut(ts, m + 1);
      if RunIsBlock(rest, m) {
        NoSepInBlock(rest, m);
        BlockOfRun(rest);
      }
    } else if rest != [] && rest[0].Link? {
      BlockRunCons(ts, 2);
      LinkIsBlock(rest);
      RunCut(ts, 2);
    } else {
      LoneIsBlock(ts);
    }
  }

  lemma SettledFirst(ts: seq<Token>)
    requires ts != []
    ensures Settled(ts) <==> (ts[0].Mark? ==> !GapFrom(ts[1..], false) && ts[0].num !in Block(ts[1..])) && Settled(ts[1..])
  {
  }

  lemma SepIsNoBlock(ts: seq<Token>, n: nat)
    requires 1 < n <= |ts| && ts[1].Sep?
    ensures !RunIsBlock(ts, n)
  {
  }

  lemma NoSepInBlock(ts: seq<Token>, n: nat)
    requires n <= |ts| && RunIsBlock(ts, n)
    ensures forall i | 0 <= i < n :: !ts[i].Sep?
  {
  }

  lemma LoneIsBlock(ts: seq<Token>)
    requires ts != [] && ts[0].Mark?
    ensures RunIsBlock(ts, 1)
  {
    assert ts[..1] == [ts[0]];
    OneNumber(ts[0]);
    hide Numbers;
  }

  lemma LinkIsBlock(rest: seq<Token>)
    requires rest != [] && rest[0].Link?
    ensures RunIsBlock(rest, 1) && Block(rest) == [rest[0].num] == Numbers(rest[..1])
    ensures Settled(rest) == Settled(rest[1..])
  {
    assert rest[..1] == [rest[0]] && rest == [rest[0]] + rest[1..];
    OneNumber(rest[0]);
    hide Numbers;
  }

  // ----- collapsed once more -----

  lemma {:induction false} RunTokens(ts: seq<Token>)
    requires ts != [] && ts[0].Mark?
    ensures forall i | 0 <= i < RunLength(ts) ::
              ts[i].Mark? || ts[i].Sep? || (ts[i].Link? && i == RunLength(ts) - 1)
    decreases |ts|
  {
    hide RunLength;
    var k, rest := Separators(ts[1..]), ts[1..];
    RunLengthIs(ts, k);
    SeparatorsFirst(ts, k);
    if 1 + k < |ts| && ts[1 + k].Mark? {
      var next := ts[1 + k..];
      RunTokens(next);
      assert forall i | 1 + k <= i < RunLength(ts) :: ts[i] == next[i - 1 - k];
    }
  }

  lemma SeparatorsFirst(ts: seq<Token>, k: nat)
    requires ts != [] && k == Separators(ts[1..])
    ensures forall i | 1 <= i < 1 + k :: i < |ts| && ts[i].Sep?
  {
    assert forall i | 0 <= i < k :: ts[1..][i].Sep? && ts[i + 1] == ts[1..][i];
    assert forall i | 1 <= i < 1 + k :: ts[i] == ts[1..][i - 1];
  }

  lemma {:induction false} NumbersOfTokens(run: seq<Token>)
    requires forall t <- run :: t.Mark? || t.Link?
    ensures |Numbers(run)| == |run| && forall i | 0 <= i < |run| :: Numbers(run)[i] == run[i].num
  {
    if run != [] {
      assert run[0] in run && forall t <- run[1..] :: t in run;
      NumbersOfTokens(run[1..]);
    }
  }

  lemma CollapsedAt(run: seq<Token>)
    requires run != [] && Numbers(run) != []
    ensures var ns, out := Firsts(Numbers(run)), Collapsed(run);
            && |out| == |ns|
            && forall i | 0 <= i < |ns| :: out[i] == if run[|run| - 1].Link? && i == |ns| - 1 then Link(ns[i]) else Mark(ns[i])
  {
    FirstsNotEmpty(Numbers(run));
    hide Firsts, Numbers;
  }

  lemma CollapsedSize(run: seq<Token>)
    requires run != [] && Numbers(run) != []
    ensures |Collapsed(run)| == |Firsts(Numbers(run))| <= |Numbers(run)|
    ensures forall t <- Collapsed(run) :: t.Mark? || t.Link?
    ensures Numbers(Collapsed(run)) == Firsts(Numbers(run))
  {
    hide Firsts, Numbers, Collapsed;
    FirstsAreDistinct(Numbers(run));
    CollapsedAt(run);
    NumbersOfTokens(Collapsed(run));
  }

  lemma {:induction false} NumbersAreFew(run: seq<Token>)
    ensures |Numbers(run)| <= |run|
  {
    if run != [] {
      NumbersAreFew(run[1..]);
    }
  }

  /** A run is collapsed already exactly when it is a block. */
  lemma CollapsedIsSame(ts: seq<Token>)
    requires ts != [] && ts[0].Mark?
    ensures var n := RunLength(ts);
            Numbers(ts[..n]) != [] && |Collapsed(ts[..n])| <= n && (Collapsed(ts[..n]) == ts[..n] <==> RunIsBlock(ts, n))
  {
    hide Collapsed, Numbers, RunLength, Firsts;
    var n := RunLength(ts);
    var run := ts[..n];
    RunIsTheGap(ts);
    CollapsedSize(run);
    RunTokens(ts);
    NumbersAreFew(run);
    assert forall i | 0 <= i < n :: run[i] == ts[i];
    if Collapsed(run) == run {
      SameIsBlock(run);
    }
    if RunIsBlock(ts, n) {
      BlockCollapses(run);
    }
  }

  lemma SameIsBlock(run: seq<Token>)
    requires run != [] && Numbers(run) != [] && Collapsed(run) == run
    ensures (forall i | 0 <= i < |run| :: !run[i].Sep?) && AllDistinct(Numbers(run))
  {
    hide Collapsed, Numbers, Firsts;
    CollapsedSize(run);
    FirstsAreDistinct(Numbers(run));
    assert forall i | 0 <= i < |run| :: run[i] in run;
  }

  lemma BlockCollapses(run: seq<Token>)
    requires run != [] && Numbers(run) != [] && AllDistinct(Numbers(run))
    requires forall i | 0 <= i < |run| :: run[i].Mark? || (run[i].Link? && i == |run| - 1)
    ensures Collapsed(run) == run
  {
    hide Collapsed, Numbers, Firsts, AllDistinct;
    FirstsOfDistinct(Numbers(run));
    assert forall t <- run :: t.Mark? || t.Link?;
    NumbersOfTokens(run);
    CollapsedAt(run);
    assert forall i | 0 <= i < |run| :: Collapsed(run)[i] == run[i];
  }

  lemma {:induction false} CollapseShortens(ts: seq<Token>)
    ensures |Collapse(ts)| <= |ts|
    decreases |ts|
  {
    if ts != [] {
      if ts[0].Mark? {
        var n := RunLength(ts);
        CollapsedIsSame(ts);
        CollapseShortens(ts[n..]);
      } else {
        CollapseShortens(ts[1..]);
      }
    }
    hide Collapsed, Numbers, RunLength;
  }

  /** Collapsing changes nothing exactly in a settled draft. */
  lemma {:induction false} SettledIff(ts: seq<Token>)
    ensures Collapse(ts) == ts <==> Settled(ts)
    decreases |ts|
  {
    hide Collapsed, Numbers, RunLength, RunIsBlock, Collapse, Settled, Block, GapFrom;
    CollapseOne(ts);
    if ts == [] {
      EmptyIsSettled();
    } else if ts[0].Mark? {
      var n := RunLength(ts);
      CollapsedIsSame(ts);
      CollapseShortens(ts[n..]);
      SettledIff(ts[n..]);
      SettledRun(ts);
      SameParts(Collapsed(ts[..n]), Collapse(ts[n..]), ts[..n], ts[n..]);
      assert ts[..n] + ts[n..] == ts;
    } else {
      SettledIff(ts[1..]);
      SettledFirst(ts);
      ConsTail(ts[0], Collapse(ts[1..]));
      assert [ts[0]] + ts[1..] == ts;
    }
  }

  lemma EmptyIsSettled()
    ensures Settled([])
  {
  }

  lemma SameParts(a: seq<Token>, b: seq<Token>, x: seq<Token>, y: seq<Token>)
    requires |a| <= |x| && |b| <= |y|
    ensures a + b == x + y <==> a == x && b == y
  {
    if a + b == x + y {
      assert |a| == |x|;
      assert a == (a + b)[..|a|] && x == (x + y)[..|x|] && b == (a + b)[|a|..] && y == (x + y)[|x|..];
    }
  }
}
