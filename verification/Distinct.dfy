/** First occurrences: a list with its repetitions removed, in order of first appearance. */
module Distinct {
  import opened Sequences

  function Firsts<T(==,!new)>(xs: seq<T>): (r: seq<T>)
    ensures forall x :: x in r <==> x in xs
  {
    if xs == [] then []
    else
      var init, last := xs[..|xs| - 1], xs[|xs| - 1];
      assert xs == init + [last];
      if last in init then Firsts(init) else Firsts(init) + [last]
  }

  ghost predicate AllDistinct<T>(xs: seq<T>) { forall i, j | 0 <= i < j < |xs| :: xs[i] != xs[j] }

  lemma {:induction false} FirstsAreDistinct<T(!new)>(xs: seq<T>)
    ensures AllDistinct(Firsts(xs)) && |Firsts(xs)| <= |xs|
    decreases |xs|
  {
    if xs != [] {
      FirstsAreDistinct(xs[..|xs| - 1]);
    }
  }

  lemma {:induction false} FirstsOfDistinct<T(!new)>(xs: seq<T>)
    requires AllDistinct(xs)
    ensures Firsts(xs) == xs
    decreases |xs|
  {
    if xs != [] {
      FirstsOfDistinct(xs[..|xs| - 1]);
    }
  }

  lemma FirstsNotEmpty<T(!new)>(xs: seq<T>)
    ensures xs != [] ==> Firsts(xs) != []
  {
    if xs != [] {
      assert xs[0] in Firsts(xs);
    }
  }

  lemma FirstsTwice<T(!new)>(xs: seq<T>)
    ensures Firsts(Firsts(xs)) == Firsts(xs)
  {
    FirstsAreDistinct(xs);
    FirstsOfDistinct(Firsts(xs));
  }

  lemma FirstsSnoc<T(!new)>(xs: seq<T>, x: T)
    ensures Firsts(xs + [x]) == if x in xs then Firsts(xs) else Firsts(xs) + [x]
  {
    assert (xs + [x])[..|xs|] == xs;
  }

  /** The elements of ys that are not in xs. */
  function Fresh<T(==,!new)>(ys: seq<T>, xs: seq<T>): seq<T> {
    if ys == [] then []
    else
      var last := ys[|ys| - 1];
      Fresh(ys[..|ys| - 1], xs) + (if last in xs then [] else [last])
  }

  lemma FreshSnoc<T(!new)>(ys: seq<T>, y: T, xs: seq<T>)
    ensures Fresh(ys + [y], xs) == Fresh(ys, xs) + (if y in xs then [] else [y])
  {
    assert (ys + [y])[..|ys|] == ys;
  }

  lemma {:induction false} FirstsAppend<T(!new)>(xs: seq<T>, ys: seq<T>)
    ensures Firsts(xs + ys) == Firsts(xs) + Fresh(Firsts(ys), xs)
    decreases |ys|
  {
    if ys == [] {
      assert xs + ys == xs;
    } else {
      var init, last := ys[..|ys| - 1], ys[|ys| - 1];
      assert ys == init + [last] && xs + ys == (xs + init) + [last];
      FirstsAppend(xs, init);
      FirstsSnoc(xs + init, last);
      FirstsSnoc(init, last);
      var first, more := Firsts(xs), Fresh(Firsts(init), xs);
      FreshSnoc(Firsts(init), last, xs);
      assert last in xs + init <==> last in xs || last in init;
      hide *;
      if last in xs + init {
        assert more + [] == more;
      } else {
        Associate(first, more, [last]);
      }
    }
  }

  lemma {:induction false} FreshSame<T(!new)>(ys: seq<T>, xs: seq<T>, xs': seq<T>)
    requires forall y <- ys :: y in xs <==> y in xs'
    ensures Fresh(ys, xs) == Fresh(ys, xs')
    decreases |ys|
  {
    if ys != [] {
      FreshSame(ys[..|ys| - 1], xs, xs');
    }
  }

  /** First occurrences of a whole depend only on the first occurrences of its parts. */
  lemma FirstsCongruence<T(!new)>(xs: seq<T>, xs': seq<T>, ys: seq<T>, ys': seq<T>)
    requires Firsts(xs) == Firsts(xs') && Firsts(ys) == Firsts(ys')
    ensures Firsts(xs + ys) == Firsts(xs' + ys')
  {
    FirstsAppend(xs, ys);
    FirstsAppend(xs', ys');
    assert forall y :: y in xs <==> y in Firsts(xs);
    assert forall y :: y in xs' <==> y in Firsts(xs');
    FreshSame(Firsts(ys), xs, xs');
  }
}
