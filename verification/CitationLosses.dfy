/** What collapsing leaves of any draft, links that repeat a number included. */
module CitationLosses {
  import opened Options
  import opened Sequences
  import opened Distinct
  import opened Citations
  import opened CitationLaws

  function Init<T>(xs: seq<T>): seq<T> { if xs == [] then [] else xs[..|xs| - 1] }

  /** The citations left before a token: a link that repeats one of them takes the last for its own text. */
  function Left(nums: seq<string>, t: Token): seq<string> {
    if t.Link? && t.num in nums then Init(Firsts(nums)) else Firsts(nums)
  }

  function Relinked(nums: seq<string>, t: Token): Token {
    if t.Link? && t.num in nums then Link(Firsts(nums)[|Firsts(nums)| - 1]) else t
  }

  /** The skeleton and the gaps that collapsing leaves. */
  function LeftParts(sk: seq<Token>, gaps: seq<seq<string>>): (r: (seq<Token>, seq<seq<string>>))
    requires |gaps| == |sk| + 1
    ensures |r.0| == |sk| && |r.1| == |gaps|
  {
    if sk == [] then ([], [Firsts(gaps[0])])
    else
      var rest := LeftParts(sk[1..], gaps[1..]);
      ([Relinked(gaps[0], sk[0])] + rest.0, [Left(gaps[0], sk[0])] + rest.1)
  }

  lemma LeftCons(t: Token, sk: seq<Token>, g: seq<string>, gaps: seq<seq<string>>)
    requires |gaps| == |sk| + 1
    ensures var rest := LeftParts(sk, gaps);
            LeftParts([t] + sk, [g] + gaps) == ([Relinked(g, t)] + rest.0, [Left(g, t)] + rest.1)
  {
    ConsTail(t, sk);
    ConsTail(g, gaps);
  }

  lemma {:induction false} LeftAt(sk: seq<Token>, gaps: seq<seq<string>>, g: nat)
    requires |gaps| == |sk| + 1 && g < |gaps|
    ensures LeftParts(sk, gaps).1[g] == if g < |sk| then Left(gaps[g], sk[g]) else Firsts(gaps[g])
    ensures g < |sk| ==> LeftParts(sk, gaps).0[g] == Relinked(gaps[g], sk[g])
  {
    hide Left, Relinked, Firsts;
    if sk != [] && g > 0 {
      LeftAt(sk[1..], gaps[1..], g - 1);
    }
  }

  /** Where no link comes first, the first gap keeps each of its citations. */
  lemma FirstLeft(sk: seq<Token>, g: seq<string>, gaps: seq<seq<string>>)
    requires |gaps| == |sk| && (sk != [] ==> !sk[0].Link?)
    ensures var r := LeftParts(sk, [g] + gaps);
            r == (LeftParts(sk, [[]] + gaps).0, [Firsts(g)] + LeftParts(sk, [[]] + gaps).1[1..])
  {
    hide Firsts, LeftParts;
    if sk == [] {
      LastLeft(g);
      LastLeft([]);
      assert [g] + gaps == [g] && [[]] + gaps == [[]] && [Firsts(g)] + [] == [Firsts(g)];
      assert [Firsts<string>([])][1..] == [];
    } else {
      assert sk == [sk[0]] + sk[1..];
      LeftCons(sk[0], sk[1..], g, gaps);
      LeftCons(sk[0], sk[1..], [], gaps);
      ConsTail(Firsts<string>([]), LeftParts(sk[1..], gaps).1);
    }
  }

  lemma LastLeft(g: seq<string>)
    ensures LeftParts([], [g]) == ([], [Firsts(g)])
  {
  }

  lemma LinkedLeft(ns: seq<string>, link: Token)
    requires |ns| >= 2 && link == Link(ns[|ns| - 1])
    ensures var all, before := Firsts(ns), ns[..|ns| - 1];
            all != [] && all[..|all| - 1] == Left(before, link) && Link(all[|all| - 1]) == Relinked(before, link)
  {
    var before, last := ns[..|ns| - 1], ns[|ns| - 1];
    assert ns == before + [last] && ns[0] in Firsts(ns);
    FirstsSnoc(before, last);
    if last !in before {
      assert (Firsts(before) + [last])[..|Firsts(before)|] == Firsts(before);
    }
    hide Firsts;
  }

  /** The parts of a collapsed draft. */
  ghost predicate LeavesParts(ts: seq<Token>, out: seq<Token>) {
    (Skeleton(out), Gaps(out)) == LeftParts(Skeleton(ts), Gaps(ts))
  }

  lemma LeavesAfterLinkedRun(ts: seq<Token>, n: nat)
    requires 0 < n <= |ts| && RunShape(ts, n) && ts[n - 1].Link? && LeavesParts(ts[n..], Collapse(ts[n..]))
    ensures LeavesParts(ts, Collapsed(ts[..n]) + Collapse(ts[n..]))
  {
    hide Firsts, Gaps, Skeleton, Numbers, Collapse, LeftParts, Left, Relinked;
    var run, rest := ts[..n], ts[n..];
    var ns := Numbers(run);
    CollapsedLinked(run, Collapse(rest));
    LinkedLeft(ns, ts[n - 1]);
    LeftCons(ts[n - 1], Skeleton(rest), ns[..|ns| - 1], Gaps(rest));
  }

  lemma LeavesAfterPlainRun(ts: seq<Token>, n: nat)
    requires 0 < n <= |ts| && RunShape(ts, n) && !ts[n - 1].Link? && LeavesParts(ts[n..], Collapse(ts[n..]))
    ensures LeavesParts(ts, Collapsed(ts[..n]) + Collapse(ts[n..]))
  {
    hide Firsts, Numbers, Collapse, Gaps, Skeleton, Separators, Closed, Collapsed, LeftParts;
    var run, rest := ts[..n], ts[n..];
    var ns, out := Numbers(run), Collapse(rest);
    CollapseKeepsClosed(rest);
    SeparatorsCiteNothing(out);
    CollapsedPlain(run, out);
    ClosedSkeleton(rest);
    var gaps := Gaps(rest)[1..];
    assert Gaps(rest) == [[]] + gaps;
    FirstLeft(Skeleton(rest), ns, gaps);
  }

  lemma LeavesAfterToken(ts: seq<Token>)
    requires ts != [] && !ts[0].Mark? && LeavesParts(ts[1..], Collapse(ts[1..]))
    ensures LeavesParts(ts, [ts[0]] + Collapse(ts[1..]))
  {
    hide Firsts, Gaps, Skeleton, Collapse, LeftParts;
    var rest := ts[1..];
    assert ts == [ts[0]] + rest;
    TokenShape(ts[0], rest);
    TokenShape(ts[0], Collapse(rest));
    if !ts[0].Sep? {
      LeftCons(ts[0], Skeleton(rest), [], Gaps(rest));
      FirstsOfDistinct<string>([]);
    }
  }

  /**
   * What collapsing does to any draft: each gap keeps each of its citations once, in order, but where a link repeats
   * one of them the last is lost, and its number becomes the text of the link.
   */
  lemma {:induction false} CollapseLeaves(ts: seq<Token>)
    ensures LeavesParts(ts, Collapse(ts))
    decreases |ts|
  {
    hide LeavesParts, RunShape;
    if ts == [] {
      NothingLeft();
    } else if ts[0].Mark? {
      var n := RunLength(ts);
      RunIsTheGap(ts);
      CollapseLeaves(ts[n..]);
      if ts[n - 1].Link? {
        LeavesAfterLinkedRun(ts, n);
      } else {
        LeavesAfterPlainRun(ts, n);
      }
    } else {
      CollapseLeaves(ts[1..]);
      LeavesAfterToken(ts);
    }
  }

  lemma NothingLeft()
    ensures LeavesParts([], Collapse([]))
  {
    FirstsOfDistinct<string>([]);
  }

  lemma SomethingIsLost(nums: seq<string>, t: Token)
    ensures t.Link? && t.num in nums <==> !(Left(nums, t) == Firsts(nums) && Relinked(nums, t) == t)
  {
    FirstsNotEmpty(nums);
    hide Firsts;
  }

  /**
   * Collapsing keeps its promise exactly when no link repeats a number cited right before it: then each gap keeps its
   * citations, each once and in order, and nothing else changes; otherwise a citation is lost to the link.
   */
  lemma CollapseIsTidyIff(ts: seq<Token>)
    ensures Tidy(ts, Collapse(ts)) <==> LinkRepeatFree(ts)
  {
    hide Skeleton, Gaps, Collapse, LeftParts, Left, Relinked, Firsts;
    var sk, gaps, out := Skeleton(ts), Gaps(ts), Collapse(ts);
    CollapseLeaves(ts);
    forall g | 0 <= g < |gaps| ensures Gaps(out)[g] == if g < |sk| then Left(gaps[g], sk[g]) else Firsts(gaps[g]) {
      LeftAt(sk, gaps, g);
    }
    forall g | 0 <= g < |sk|
      ensures Skeleton(out)[g] == Relinked(gaps[g], sk[g])
      ensures sk[g].Link? && sk[g].num in gaps[g] <==> !(Gaps(out)[g] == Firsts(gaps[g]) && Skeleton(out)[g] == sk[g])
    {
      LeftAt(sk, gaps, g);
      SomethingIsLost(gaps[g], sk[g]);
    }
  }
}
