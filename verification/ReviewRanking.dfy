/** The order of findings: critical ones first, then by severity. */
module ReviewRanking {
  import opened Options
  import opened Sequences
  import opened ReviewSchema

  predicate IsCritical(i: Issue) { i.category in {Breaks, Intent} }

  predicate IsBlocking(i: Issue) { IsCritical(i) || i.severity == High }

  predicate IsHighOnly(i: Issue) { !IsCritical(i) && i.severity == High }

  type Rank = (nat, nat)

  function RankOf(i: Issue): Rank {
    (if IsCritical(i) then 0 else 1, if i.severity == High then 0 else if i.severity == Medium then 1 else 2)
  }

  predicate RankLe(a: Rank, b: Rank) { a.0 < b.0 || (a.0 == b.0 && a.1 <= b.1) }

  ghost predicate InRankOrder(xs: seq<Issue>) {
    forall i, j | 0 <= i < j < |xs| :: RankLe(RankOf(xs[i]), RankOf(xs[j]))
  }

  function Kept(xs: seq<Issue>, p: Issue -> bool): seq<Issue> {
    if xs == [] then [] else (if p(xs[0]) then [xs[0]] else []) + Kept(xs[1..], p)
  }

  function HasRank(r: Rank): Issue -> bool { (i: Issue) => RankOf(i) == r }

  function OfRank(xs: seq<Issue>, r: Rank): seq<Issue> { Kept(xs, HasRank(r)) }

  function Insert(x: Issue, xs: seq<Issue>): seq<Issue> {
    if xs == [] || RankLe(RankOf(x), RankOf(xs[0])) then [x] + xs else [xs[0]] + Insert(x, xs[1..])
  }

  /** The sort by rank of the language's library. */
  function Sorted(xs: seq<Issue>): seq<Issue> {
    if xs == [] then [] else Insert(xs[0], Sorted(xs[1..]))
  }

  lemma {:induction false} InsertKeepsOrder(x: Issue, xs: seq<Issue>)
    requires InRankOrder(xs)
    ensures InRankOrder(Insert(x, xs)) && multiset(Insert(x, xs)) == multiset(xs) + multiset{x}
  {
    if xs != [] && !RankLe(RankOf(x), RankOf(xs[0])) {
      InsertKeepsOrder(x, xs[1..]);
      var rest := Insert(x, xs[1..]);
      assert xs == [xs[0]] + xs[1..];
      assert Insert(x, xs) == [xs[0]] + rest;
      hide Insert, RankOf;
      forall y | y in rest ensures RankLe(RankOf(xs[0]), RankOf(y)) {
        assert y in multiset(rest);
        assert y == x || y in xs[1..];
      }
    }
  }

  lemma OfRankCons(x: Issue, xs: seq<Issue>, r: Rank)
    ensures OfRank([x] + xs, r) == (if RankOf(x) == r then [x] else []) + OfRank(xs, r)
  {
    assert ([x] + xs)[1..] == xs;
  }

  lemma {:induction false} InsertKeepsRanks(x: Issue, xs: seq<Issue>, r: Rank)
    ensures OfRank(Insert(x, xs), r) == (if RankOf(x) == r then [x] else []) + OfRank(xs, r)
  {
    if xs == [] || RankLe(RankOf(x), RankOf(xs[0])) {
      OfRankCons(x, xs, r);
    } else {
      InsertKeepsRanks(x, xs[1..], r);
      OfRankCons(xs[0], xs[1..], r);
      OfRankCons(xs[0], Insert(x, xs[1..]), r);
      assert xs == [xs[0]] + xs[1..];
      assert RankOf(x) != RankOf(xs[0]);
      hide OfRank, RankOf;
    }
  }

  ghost predicate SameByRank(xs: seq<Issue>, ys: seq<Issue>) { forall r: Rank :: OfRank(xs, r) == OfRank(ys, r) }

  /** Sorting orders by rank, loses and duplicates nothing, and leaves equals in the order they came in. */
  lemma {:induction false} SortedIsAStableSort(xs: seq<Issue>)
    ensures InRankOrder(Sorted(xs)) && multiset(Sorted(xs)) == multiset(xs) && SameByRank(Sorted(xs), xs)
  {
    if xs != [] {
      var rest := Sorted(xs[1..]);
      SortedIsAStableSort(xs[1..]);
      InsertKeepsOrder(xs[0], rest);
      assert xs == [xs[0]] + xs[1..];
      assert Sorted(xs) == Insert(xs[0], rest);
    }
    hide Sorted, InRankOrder, OfRank, RankOf, Insert;
    if xs != [] {
      var rest := Sorted(xs[1..]);
      forall r: Rank ensures OfRank(Sorted(xs), r) == OfRank(xs, r) {
        assert OfRank(rest, r) == OfRank(xs[1..], r);
        InsertKeepsRanks(xs[0], rest, r);
        OfRankCons(xs[0], xs[1..], r);
      }
    }
  }

  lemma {:induction false} KeptMembers(xs: seq<Issue>, p: Issue -> bool, x: Issue)
    ensures x in Kept(xs, p) <==> x in xs && p(x)
  {
    if xs != [] {
      KeptMembers(xs[1..], p, x);
      assert xs == [xs[0]] + xs[1..];
    }
  }

  lemma HeadsAgree(xs: seq<Issue>, ys: seq<Issue>)
    requires InRankOrder(xs) && InRankOrder(ys) && SameByRank(xs, ys) && xs != []
    ensures ys != [] && RankLe(RankOf(ys[0]), RankOf(xs[0]))
  {
    var r := RankOf(xs[0]);
    assert OfRank(xs, r) == OfRank(ys, r);
    KeptMembers(xs, HasRank(r), xs[0]);
    KeptMembers(ys, HasRank(r), xs[0]);
    var k :| 0 <= k < |ys| && ys[k] == xs[0];
  }

  lemma TailsAgree(xs: seq<Issue>, ys: seq<Issue>, r: Rank)
    requires xs != [] && ys != [] && RankOf(xs[0]) == RankOf(ys[0]) && OfRank(xs, r) == OfRank(ys, r)
    ensures OfRank(xs[1..], r) == OfRank(ys[1..], r)
    ensures r == RankOf(xs[0]) ==> xs[0] == ys[0]
  {
    OfRankCons(xs[0], xs[1..], r);
    OfRankCons(ys[0], ys[1..], r);
    assert xs == [xs[0]] + xs[1..] && ys == [ys[0]] + ys[1..];
    hide OfRank, RankOf;
    var a, b := OfRank(xs[1..], r), OfRank(ys[1..], r);
    if r == RankOf(xs[0]) {
      assert ([xs[0]] + a)[0] == ([ys[0]] + b)[0];
      assert a == ([xs[0]] + a)[1..] && b == ([ys[0]] + b)[1..];
    } else {
      assert [] + a == a && [] + b == b;
    }
  }

  lemma InRankOrderTail(xs: seq<Issue>)
    requires xs != [] && InRankOrder(xs)
    ensures InRankOrder(xs[1..])
  {
  }

  /** Only one list is in rank order and agrees with another rank by rank, so those two facts say what a sort gives. */
  lemma {:induction false} StableSortIsUnique(xs: seq<Issue>, ys: seq<Issue>)
    requires InRankOrder(xs) && InRankOrder(ys) && SameByRank(xs, ys)
    ensures xs == ys
    decreases |xs|
  {
    if xs == [] {
      if ys != [] {
        HeadsAgree(ys, xs);
      }
    } else {
      HeadsAgree(xs, ys);
      HeadsAgree(ys, xs);
      TailsAgree(xs, ys, RankOf(xs[0]));
      forall q: Rank ensures OfRank(xs[1..], q) == OfRank(ys[1..], q) {
        TailsAgree(xs, ys, q);
      }
      InRankOrderTail(xs);
      InRankOrderTail(ys);
      hide InRankOrder, OfRank;
      StableSortIsUnique(xs[1..], ys[1..]);
      assert xs == [xs[0]] + xs[1..] && ys == [ys[0]] + ys[1..];
    }
  }

  /** Worse: critical where the other is not, or else of a higher severity. */
  ghost predicate Worse(a: Issue, b: Issue) {
    var aCritical, bCritical := a.category == Breaks || a.category == Intent, b.category == Breaks || b.category == Intent;
    || (aCritical && !bCritical)
    || (aCritical == bCritical
        && ((a.severity == High && b.severity != High) || (a.severity == Medium && b.severity == Low)))
  }

  /** A list is in the order of the ranks exactly when no finding comes after one that it is worse than. */
  lemma InRankOrderIff(xs: seq<Issue>)
    ensures InRankOrder(xs) <==> forall i, j | 0 <= i < j < |xs| :: !Worse(xs[j], xs[i])
  {
    forall a, b ensures RankLe(RankOf(a), RankOf(b)) <==> !Worse(b, a) {
      RanksOf(a);
      RanksOf(b);
    }
    hide RankOf, RankLe, Worse;
  }

  lemma RanksOf(a: Issue)
    ensures RankOf(a).0 == if a.category == Breaks || a.category == Intent then 0 else 1
    ensures a.severity == High || a.severity == Medium || a.severity == Low
  {
  }
}
