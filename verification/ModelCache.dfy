/** The map of loaded models as a list, least recently used first, against the history of uses. */
module ModelCache {
  import opened Sequences

  type Name = string

  predicate Distinct(xs: seq<Name>) { forall i, j | 0 <= i < j < |xs| :: xs[i] != xs[j] }

  function Without(xs: seq<Name>, x: Name): (r: seq<Name>)
    ensures x !in r && (forall y :: y in r <==> y in xs && y != x)
  {
    if xs == [] then []
    else
      var rest := Without(xs[1..], x);
      if xs[0] == x then rest else [xs[0]] + rest
  }

  lemma {:induction false} WithoutDistinct(xs: seq<Name>, x: Name)
    requires Distinct(xs)
    ensures Distinct(Without(xs, x)) && |Without(xs, x)| == |xs| - (if x in xs then 1 else 0)
  {
    if xs != [] {
      WithoutDistinct(xs[1..], x);
      assert xs[0] !in xs[1..];
    }
  }

  /** What move_to_end does. */
  function Touched(loaded: seq<Name>, name: Name): seq<Name> { Without(loaded, name) + [name] }

  /** What is left once room has been made for one more model. */
  function Trimmed(loaded: seq<Name>, max: nat): seq<Name>
    requires max >= 1
  {
    if |loaded| >= max then loaded[|loaded| - (max - 1)..] else loaded
  }

  /** The distinct names used, in the order of their last use. */
  ghost function Recency(uses: seq<Name>): (r: seq<Name>)
    ensures Distinct(r) && forall x :: x in r <==> x in uses
  {
    if uses == [] then []
    else
      var before := Recency(uses[..|uses| - 1]);
      WithoutDistinct(before, uses[|uses| - 1]);
      Touched(before, uses[|uses| - 1])
  }

  ghost function LastUse(uses: seq<Name>, x: Name): (k: nat)
    requires x in uses
    ensures k < |uses| && uses[k] == x && forall i | k < i < |uses| :: uses[i] != x
  {
    if uses[|uses| - 1] == x then |uses| - 1 else LastUse(uses[..|uses| - 1], x)
  }

  lemma {:induction false} WithoutKeepsOrder(xs: seq<Name>, x: Name, i: nat, j: nat)
    requires i < j < |Without(xs, x)|
    ensures exists a, b :: 0 <= a < b < |xs| && xs[a] == Without(xs, x)[i] && xs[b] == Without(xs, x)[j]
  {
    var rest := Without(xs[1..], x);
    if xs[0] == x {
      WithoutKeepsOrder(xs[1..], x, i, j);
      var a, b :| 0 <= a < b < |xs[1..]| && xs[1..][a] == rest[i] && xs[1..][b] == rest[j];
      assert xs[a + 1] == rest[i] && xs[b + 1] == rest[j];
    } else if i == 0 {
      assert rest[j - 1] in xs[1..];
      var b :| 0 <= b < |xs[1..]| && xs[1..][b] == rest[j - 1];
      assert xs[0] == Without(xs, x)[0] && xs[b + 1] == Without(xs, x)[j];
    } else {
      WithoutKeepsOrder(xs[1..], x, i - 1, j - 1);
      var a, b :| 0 <= a < b < |xs[1..]| && xs[1..][a] == rest[i - 1] && xs[1..][b] == rest[j - 1];
      assert xs[a + 1] == rest[i - 1] && xs[b + 1] == rest[j - 1];
    }
  }

  /** Recency really is order of last use. */
  lemma {:induction false} RecencyIsByLastUse(uses: seq<Name>, i: nat, j: nat)
    requires i < j < |Recency(uses)|
    ensures Recency(uses)[i] in uses && Recency(uses)[j] in uses
    ensures LastUse(uses, Recency(uses)[i]) < LastUse(uses, Recency(uses)[j])
  {
    var r := Recency(uses);
    assert r[i] in r && r[j] in r;
    var before, last := uses[..|uses| - 1], uses[|uses| - 1];
    if j < |r| - 1 {
      WithoutKeepsOrder(Recency(before), last, i, j);
      var a, b :| 0 <= a < b < |Recency(before)| && Recency(before)[a] == r[i] && Recency(before)[b] == r[j];
      RecencyIsByLastUse(before, a, b);
    }
  }

  ghost predicate IsSuffix(xs: seq<Name>, ys: seq<Name>) { |xs| <= |ys| && ys[|ys| - |xs|..] == xs }

  /**
   * The cache against its history: the loaded models are the most recently used ones, as many as fit unless a load
   * has failed since everything was last evicted.
   */
  ghost predicate Refines(loaded: seq<Name>, uses: seq<Name>, failed: bool, max: nat) {
    && IsSuffix(loaded, Recency(uses)) && |loaded| <= max
    && (!failed ==> |loaded| == max || loaded == Recency(uses))
  }

  lemma {:induction false} WithoutSuffix(xs: seq<Name>, k: nat, x: Name)
    requires k <= |xs| && x !in xs[k..]
    ensures IsSuffix(xs[k..], Without(xs, x))
  {
    if k > 0 {
      assert xs[1..][k - 1..] == xs[k..];
      WithoutSuffix(xs[1..], k - 1, x);
    } else {
      WithoutAbsent(xs, x);
    }
  }

  /** Removing a name from a list and from one of its suffixes that holds it. */
  lemma {:induction false} WithoutBoth(xs: seq<Name>, k: nat, x: Name)
    requires k <= |xs| && Distinct(xs) && x in xs[k..]
    ensures Without(xs, x) == xs[..k] + Without(xs[k..], x)
    ensures |Without(xs, x)| == |xs| - 1
  {
    if k > 0 {
      assert xs[1..][k - 1..] == xs[k..];
      var b :| 0 <= b < |xs[k..]| && xs[k..][b] == x;
      assert xs[k + b] == x && xs[0] != xs[k + b];
      WithoutBoth(xs[1..], k - 1, x);
      assert xs[..k] == [xs[0]] + xs[1..][..k - 1];
      assert Without(xs, x) == [xs[0]] + Without(xs[1..], x);
      Associate([xs[0]], xs[1..][..k - 1], Without(xs[k..], x));
    } else {
      assert xs[0..] == xs && xs[..0] == [];
      WithoutDistinct(xs, x);
    }
    hide Without, Distinct;
  }

  lemma RecencySnoc(uses: seq<Name>, x: Name)
    ensures Recency(uses + [x]) == Touched(Recency(uses), x)
  {
    assert (uses + [x])[..|uses|] == uses;
  }

  lemma SuffixOf(a: seq<Name>, xs: seq<Name>)
    ensures IsSuffix(xs, a + xs)
  {
  }

  /** A hit. */
  lemma TouchRefines(loaded: seq<Name>, uses: seq<Name>, failed: bool, max: nat, name: Name)
    requires Refines(loaded, uses, failed, max) && name in loaded
    ensures Refines(Touched(loaded, name), uses + [name], failed, max)
  {
    hide Without, Recency, Distinct;
    var r := Recency(uses);
    var k := |r| - |loaded|;
    RecencySnoc(uses, name);
    WithoutBoth(r, k, name);
    assert Touched(r, name) == r[..k] + Touched(loaded, name);
    SuffixOf(r[..k], Touched(loaded, name));
  }

  /** Room is made: the order is still that of last use. */
  lemma TrimRefines(loaded: seq<Name>, uses: seq<Name>, failed: bool, max: nat)
    requires max >= 1 && Refines(loaded, uses, failed, max)
    ensures IsSuffix(Trimmed(loaded, max), Recency(uses)) && |Trimmed(loaded, max)| <= max - 1
    ensures Refines(Trimmed(loaded, max), uses, true, max)
    ensures !failed ==> |Trimmed(loaded, max)| == max - 1 || Trimmed(loaded, max) == Recency(uses)
  {
    hide Recency;
    var r, kept := Recency(uses), Trimmed(loaded, max);
    assert kept == r[|r| - |kept|..];
  }

  /** A miss whose load succeeds: evict down to max - 1, then append. */
  lemma InsertRefines(loaded: seq<Name>, uses: seq<Name>, failed: bool, max: nat, name: Name)
    requires max >= 1 && Refines(loaded, uses, failed, max) && name !in loaded
    ensures Refines(Trimmed(loaded, max) + [name], uses + [name], failed, max)
  {
    hide Without, Recency, Distinct;
    var r, kept := Recency(uses), Trimmed(loaded, max);
    TrimRefines(loaded, uses, failed, max);
    RecencySnoc(uses, name);
    WithoutSuffix(r, |r| - |kept|, name);
    var w := Without(r, name);
    assert w + [name] == w[..|w| - |kept|] + (kept + [name]);
    SuffixOf(w[..|w| - |kept|], kept + [name]);
    if kept == r {
      assert |w| - |kept| >= 0 && w == kept by { WithoutAbsent(r, name); }
    }
  }

  lemma {:induction false} WithoutAbsent(xs: seq<Name>, x: Name)
    requires x !in xs
    ensures Without(xs, x) == xs
  {
    if xs != [] {
      WithoutAbsent(xs[1..], x);
    }
  }
}
