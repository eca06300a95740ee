/** What a repaired draft cites, and when that is what the writer cited. */
module CitationMeaning {
  import opened Options
  import opened Sequences
  import opened Distinct
  import opened Decimal
  import opened Citations
  import opened CitationLaws
  import opened CitationSpacing
  import opened CitationBridges

  // ----- numbers and references correspond -----

  /** Labels drawn from 1 to n point to different references when they differ. */
  lemma EntryIsInjective(refs: seq<Ref>, x: string, y: string)
    requires AllDistinct(Urls(refs)) && x in UpTo(|refs|) && y in UpTo(|refs|)
    ensures Entry(refs, x).Some? && (Entry(refs, x) == Entry(refs, y) ==> x == y)
  {
    hide Entry, Digits;
    var i :| 0 <= i < |refs| && UpTo(|refs|)[i] == x;
    var k :| 0 <= k < |refs| && UpTo(|refs|)[k] == y;
    EntryOfPrinted(refs, i);
    EntryOfPrinted(refs, k);
  }

  lemma EntryOfPrinted(refs: seq<Ref>, i: nat)
    requires i < |refs|
    ensures Entry(refs, Digits(i + 1)) == Some(Urls(refs)[i])
  {
    hide Digits, Value, IsLabel;
    PrintedNumber(i + 1);
  }

  lemma {:induction false} CitedSnoc(nums: seq<string>, x: string, point: string -> Option<Url>)
    ensures Cited(nums + [x], point) == Cited(nums, point) + (if point(x).Some? then [point(x).value] else [])
  {
    if nums == [] {
      assert nums + [x] == [x] && [x][1..] == [];
    } else {
      assert (nums + [x])[1..] == nums[1..] + [x];
      CitedSnoc(nums[1..], x, point);
    }
  }

  lemma {:induction false} CitedMembers(nums: seq<string>, point: string -> Option<Url>)
    ensures forall u :: u in Cited(nums, point) <==> exists x <- nums :: point(x) == Some(u)
  {
    if nums != [] {
      CitedMembers(nums[1..], point);
      assert nums == [nums[0]] + nums[1..];
      forall u ensures u in Cited(nums, point) <==> exists x <- nums :: point(x) == Some(u) {
        if exists x <- nums :: point(x) == Some(u) {
          var x :| x in nums && point(x) == Some(u);
          assert x == nums[0] || x in nums[1..];
        }
      }
    }
  }

  /** Where different numbers point to different sources, each number once is each source once. */
  lemma {:induction false} CitedOnce(nums: seq<string>, point: string -> Option<Url>)
    requires forall x <- nums :: point(x).Some?
    requires forall x, y | x in nums && y in nums && point(x) == point(y) :: x == y
    ensures Cited(Firsts(nums), point) == Firsts(Cited(nums, point))
    decreases |nums|
  {
    if nums != [] {
      var init, last := nums[..|nums| - 1], nums[|nums| - 1];
      assert nums == init + [last];
      CitedOnce(init, point);
      CitedSnoc(init, last, point);
      CitedSnoc(Firsts(init), last, point);
      CitedMembers(init, point);
      FirstsSnoc(init, last);
      FirstsSnoc(Cited(init, point), point(last).value);
      assert last in init <==> point(last).value in Cited(init, point);
    }
  }

  // ----- gaps and the whole -----

  ghost function Flat(gaps: seq<seq<string>>): seq<string> {
    if gaps == [] then [] else gaps[0] + Flat(gaps[1..])
  }

  lemma {:induction false} LabelsAreTheGaps(ts: seq<Token>)
    ensures Labels(ts) == Flat(Gaps(ts))
  {
    if ts == [] {
      assert Gaps(ts)[1..] == [];
    } else {
      LabelsAreTheGaps(ts[1..]);
      var rest := Gaps(ts[1..]);
      match ts[0]
      case Mark(num) => assert ([[num] + rest[0]] + rest[1..])[1..] == rest[1..];
      case Sep(_) =>
      case _ => assert ([[]] + rest)[1..] == rest;
    }
  }

  lemma {:induction false} FlatFirsts(gaps: seq<seq<string>>, gaps': seq<seq<string>>)
    requires |gaps| == |gaps'| && forall g | 0 <= g < |gaps| :: gaps'[g] == Firsts(gaps[g])
    ensures Firsts(Flat(gaps')) == Firsts(Flat(gaps))
    decreases |gaps|
  {
    if gaps != [] {
      FlatFirsts(gaps[1..], gaps'[1..]);
      FirstsTwice(gaps[0]);
      FirstsCongruence(gaps'[0], gaps[0], Flat(gaps'[1..]), Flat(gaps[1..]));
    }
  }

  lemma {:induction false} GapInLabels(gaps: seq<seq<string>>, g: nat, x: string)
    requires g < |gaps| && x in gaps[g]
    ensures x in Flat(gaps)
    decreases |gaps|
  {
    if g > 0 {
      GapInLabels(gaps[1..], g - 1, x);
    }
  }

  /** Collapsing keeps the order in which numbers first appear. */
  lemma TidyKeepsFirsts(before: seq<Token>, after: seq<Token>)
    requires Tidy(before, after)
    ensures Firsts(Labels(after)) == Firsts(Labels(before))
  {
    LabelsAreTheGaps(before);
    LabelsAreTheGaps(after);
    FlatFirsts(Gaps(before), Gaps(after));
  }

  // ----- main results -----

  /** In each gap the resolved draft cites the sources the writer cited there, each once, in the writer's order. */
  ghost predicate CitesTheSame(b: Brief, ts: seq<Token>, out: seq<Token>, refs: seq<Ref>) {
    && Skeleton(out) == Skeleton(ts)
    && forall g | 0 <= g < |Gaps(out)| ::
         Cited(Gaps(out)[g], Entries(refs)) == Firsts(Cited(Gaps(ts)[g], Targets(b)))
  }

  /** The draft repaired: renumbered and collapsed, its spaces not tidied yet; and its references. */
  function Repaired(b: Brief, ts: seq<Token>): (seq<Token>, seq<Ref>) {
    var (mid, refs) := Rewrite(b, ts, []);
    (Collapse(mid), refs)
  }

  /** The sources the writer cites, in the order of first mention. */
  function CitedSources(b: Brief, ts: seq<Token>): seq<Url> { Firsts(Cited(Labels(ts), Targets(b))) }

  /** One of the sources is to be printed under the number a link has for its text. */
  ghost predicate Taken(order: seq<Url>, cited: seq<Url>, t: Token) {
    t.Link? && exists u <- cited :: u in order && Digits(IndexOf(order, u) + 1) == t.num
  }

  /** In the writer's draft: no link takes the number of a source cited right before it. */
  ghost predicate LinkSafe(b: Brief, ts: seq<Token>) {
    forall g | 0 <= g < |Skeleton(ts)| :: !Taken(CitedSources(b, ts), Cited(Gaps(ts)[g], Targets(b)), Skeleton(ts)[g])
  }

  /** The references are the sources the writer cited, in the order of first mention. */
  lemma ReferencesInOrder(b: Brief, ts: seq<Token>)
    requires BriefOk(b)
    ensures var (mid, refs) := Rewrite(b, ts, []);
            Urls(refs) == CitedSources(b, ts) && AllDistinct(Urls(refs)) && Firsts(Labels(mid)) == UpTo(|refs|)
  {
    hide Firsts, Cited, Labels, Entry, Rewrite, Digits;
    var (mid, refs) := Rewrite(b, ts, []);
    RewriteFacts(b, ts);
    forall x, y | x in Labels(mid) && y in Labels(mid)
      ensures Entries(refs)(x).Some? && (Entries(refs)(x) == Entries(refs)(y) ==> x == y)
    {
      assert x in Firsts(Labels(mid)) && y in Firsts(Labels(mid));
      EntryIsInjective(refs, x, y);
    }
    CitedOnce(Labels(mid), Entries(refs));
    CitedUpTo(refs, |refs|);
    assert Urls(refs)[..|refs|] == Urls(refs);
  }

  lemma RewriteFacts(b: Brief, ts: seq<Token>)
    requires BriefOk(b)
    ensures var (mid, refs) := Rewrite(b, ts, []);
            && AllDistinct(Urls(refs)) && FromSources(b, refs) && Firsts(Labels(mid)) == UpTo(|refs|)
            && SameMeaning(ts, Targets(b), mid, refs) && AllResolved(Labels(mid), refs)
            && Cited(Labels(mid), Entries(refs)) == Cited(Labels(ts), Targets(b))
  {
    assert Urls([]) == [] && UpTo(0) == [];
    RewriteKeepsMeaning(b, ts, [], []);
    var mid := Rewrite(b, ts, []).0;
    assert [] + Labels(mid) == Labels(mid);
  }

  lemma {:induction false} CitedUpTo(refs: seq<Ref>, n: nat)
    requires n <= |refs|
    ensures Cited(UpTo(n), Entries(refs)) == Urls(refs)[..n]
  {
    hide Entry, Digits, Cited;
    if n == 0 {
      assert UpTo(0) == [];
      NothingIsCited(Entries(refs));
    } else {
      CitedUpTo(refs, n - 1);
      assert UpTo(n) == UpTo(n - 1) + [Digits(n)];
      CitedSnoc(UpTo(n - 1), Digits(n), Entries(refs));
      EntryOfPrinted(refs, n - 1);
    }
  }

  lemma NothingIsCited(point: string -> Option<Url>)
    ensures Cited([], point) == []
  {
  }

  /** A number stands in a gap of the renumbered draft exactly when its source is cited in that gap. */
  lemma NumberInGap(b: Brief, ts: seq<Token>, g: nat, i: nat)
    requires BriefOk(b) && g < |Gaps(ts)| && i < |CitedSources(b, ts)|
    ensures var mid := Rewrite(b, ts, []).0;
            && |Gaps(mid)| == |Gaps(ts)|
            && (Digits(i + 1) in Gaps(mid)[g] <==> CitedSources(b, ts)[i] in Cited(Gaps(ts)[g], Targets(b)))
  {
    hide Firsts, Cited, Labels, Entry, Rewrite, Digits, Gaps, Skeleton;
    var (mid, refs) := Rewrite(b, ts, []);
    RewriteFacts(b, ts);
    ReferencesInOrder(b, ts);
    var u := Urls(refs)[i];
    CitedMembers(Gaps(mid)[g], Entries(refs));
    EntryOfPrinted(refs, i);
    assert UpTo(|refs|)[i] == Digits(i + 1);
    if u in Cited(Gaps(mid)[g], Entries(refs)) {
      var x :| x in Gaps(mid)[g] && Entries(refs)(x) == Some(u);
      GapsAreNumbers(mid, g, x, |refs|);
      EntryIsInjective(refs, x, Digits(i + 1));
    }
  }

  lemma GapsAreNumbers(mid: seq<Token>, g: nat, x: string, n: nat)
    requires g < |Gaps(mid)| && x in Gaps(mid)[g] && Firsts(Labels(mid)) == UpTo(n)
    ensures x in UpTo(n)
  {
    hide Firsts, Digits, Gaps;
    LabelsAreTheGaps(mid);
    GapInLabels(Gaps(mid), g, x);
    assert x in Firsts(Labels(mid));
  }

  lemma IndexOfDistinct(urls: seq<Url>, i: nat)
    requires AllDistinct(urls) && i < |urls|
    ensures IndexOf(urls, urls[i]) == i
  {
  }

  /** A link takes a number of its gap exactly when it takes a source of it. */
  lemma TakenIff(b: Brief, ts: seq<Token>, g: nat)
    requires BriefOk(b) && g < |Skeleton(ts)| && Skeleton(ts)[g].Link?
    ensures var mid := Rewrite(b, ts, []).0;
            && |Gaps(mid)| == |Gaps(ts)|
            && (Skeleton(ts)[g].num in Gaps(mid)[g]
                <==> Taken(CitedSources(b, ts), Cited(Gaps(ts)[g], Targets(b)), Skeleton(ts)[g]))
  {
    hide Firsts, Cited, Entry, Rewrite, Digits, Gaps, Skeleton, CitedSources;
    var (mid, refs) := Rewrite(b, ts, []);
    var num, order, cited := Skeleton(ts)[g].num, CitedSources(b, ts), Cited(Gaps(ts)[g], Targets(b));
    RewriteFacts(b, ts);
    ReferencesInOrder(b, ts);
    if num in Gaps(mid)[g] {
      GapsAreNumbers(mid, g, num, |refs|);
      var i: nat :| i < |refs| && UpTo(|refs|)[i] == num;
      IndexOfDistinct(order, i);
      NumberInGap(b, ts, g, i);
      assert order[i] in cited;
    }
    if u :| u in cited && u in order && Digits(IndexOf(order, u) + 1) == num {
      NumberInGap(b, ts, g, IndexOf(order, u));
    }
  }

  lemma OnlyLinksTake(order: seq<Url>, cited: seq<Url>, t: Token)
    requires !t.Link?
    ensures !Taken(order, cited, t)
  {
  }

  /** The condition on the draft is the condition on its renumbered form. */
  lemma LinkSafeIff(b: Brief, ts: seq<Token>)
    requires BriefOk(b)
    ensures LinkSafe(b, ts) <==> LinkRepeatFree(Rewrite(b, ts, []).0)
  {
    hide Cited, Rewrite, Gaps, Skeleton, CitedSources, Taken;
    var mid := Rewrite(b, ts, []).0;
    RewriteFacts(b, ts);
    forall g | 0 <= g < |Skeleton(ts)|
      ensures Taken(CitedSources(b, ts), Cited(Gaps(ts)[g], Targets(b)), Skeleton(ts)[g])
              <==> Skeleton(ts)[g].Link? && Skeleton(ts)[g].num in Gaps(mid)[g]
    {
      if Skeleton(ts)[g].Link? {
        TakenIff(b, ts, g);
      } else {
        OnlyLinksTake(CitedSources(b, ts), Cited(Gaps(ts)[g], Targets(b)), Skeleton(ts)[g]);
      }
    }
  }

  // ----- the labels of a collapsed draft -----

  lemma {:induction false} CollapsedLabels(ts: seq<Token>)
    ensures forall x <- Labels(Collapse(ts)) :: x in Labels(ts)
    decreases |ts|
  {
    hide Firsts, Collapsed, Numbers, RunLength;
    if ts != [] {
      if ts[0].Mark? {
        var n := RunLength(ts);
        CollapsedLabels(ts[n..]);
        CollapsedIsSame(ts);
        RunLabels(ts);
        LabelsAppend(Collapsed(ts[..n]), Collapse(ts[n..]));
        LabelsAppend(ts[..n], ts[n..]);
        assert ts[..n] + ts[n..] == ts;
      } else {
        CollapsedLabels(ts[1..]);
        ConsTail(ts[0], Collapse(ts[1..]));
      }
    }
  }

  lemma {:induction false} LabelsAppend(a: seq<Token>, b: seq<Token>)
    ensures Labels(a + b) == Labels(a) + Labels(b)
    decreases |a|
  {
    if a == [] {
      assert a + b == b;
    } else {
      ConsTail(a[0], a[1..] + b);
      assert a + b == [a[0]] + (a[1..] + b);
      LabelsAppend(a[1..], b);
      Associate(if a[0].Mark? then [a[0].num] else [], Labels(a[1..]), Labels(b));
    }
  }

  lemma {:induction false} LabelsOfMarks(nums: seq<string>)
    ensures Labels(Marks(nums)) == nums
  {
    if nums != [] {
      assert Marks(nums) == [Mark(nums[0])] + Marks(nums[1..]);
      ConsTail(Mark(nums[0]), Marks(nums[1..]));
      LabelsOfMarks(nums[1..]);
    }
  }

  lemma {:induction false} NumbersAreLabels(run: seq<Token>)
    requires forall i | 0 <= i < |run| :: !run[i].Link?
    ensures Numbers(run) == Labels(run)
  {
    if run != [] {
      NumbersAreLabels(run[1..]);
    }
  }

  /** The markers of a collapsed run were markers of the run, not its link. */
  lemma RunLabels(ts: seq<Token>)
    requires ts != [] && ts[0].Mark?
    ensures var run := ts[..RunLength(ts)];
            Numbers(run) != [] && forall x <- Labels(Collapsed(run)) :: x in Labels(run)
  {
    hide Numbers, RunLength, Firsts, Labels, Marks;
    var n := RunLength(ts);
    var run := ts[..n];
    RunTokens(ts);
    CollapsedIsSame(ts);
    var ns := Firsts(Numbers(run));
    FirstsNotEmpty(Numbers(run));
    if run[n - 1].Link? {
      var init := run[..n - 1];
      assert run == init + [run[n - 1]];
      NumbersAppend(init, [run[n - 1]]);
      NumbersCons(run[n - 1], []);
      LastNumber(run[n - 1]);
      NumbersAreLabels(init);
      LabelsAppend(init, [run[n - 1]]);
      FirstsSnoc(Numbers(init), run[n - 1].num);
      LabelsOfMarks(ns[..|ns| - 1]);
      LabelsAppend(Marks(ns[..|ns| - 1]), [Link(ns[|ns| - 1])]);
      LinkHasNoLabel(ns[|ns| - 1]);
      LinkHasNoLabel(run[n - 1].num);
      FirstsLessLast(Numbers(init), run[n - 1].num);
    } else {
      NumbersAreLabels(run);
      LabelsOfMarks(ns);
    }
  }

  lemma LastNumber(t: Token)
    requires t.Link?
    ensures Numbers([t]) == [t.num]
  {
    assert [t][1..] == [];
  }

  lemma LinkHasNoLabel(num: string)
    ensures Labels([Link(num)]) == []
  {
    assert [Link(num)][1..] == [];
  }

  lemma FirstsLessLast(xs: seq<string>, x: string)
    ensures var ns := Firsts(xs + [x]); ns != [] && forall y <- ns[..|ns| - 1] :: y in xs
  {
    FirstsSnoc(xs, x);
    FirstsNotEmpty(xs + [x]);
    hide Firsts;
    var ns := Firsts(xs + [x]);
    if x in xs {
      assert forall y <- ns[..|ns| - 1] :: y in ns;
    } else {
      assert ns[..|ns| - 1] == Firsts(xs);
    }
  }

  /** Lists of numbers that cite the same sources are the same, when each number has a source of its own. */
  lemma {:induction false} CitedIsInjective(xs: seq<string>, ys: seq<string>, point: string -> Option<Url>)
    requires forall x | x in xs || x in ys :: point(x).Some?
    requires forall x, y | x in xs && y in ys && point(x) == point(y) :: x == y
    requires Cited(xs, point) == Cited(ys, point)
    ensures xs == ys
    decreases |xs|
  {
    assert (xs != [] ==> xs[0] in xs) && (ys != [] ==> ys[0] in ys);
    if xs != [] && ys != [] {
      var a, b := Cited(xs[1..], point), Cited(ys[1..], point);
      ConsTail(point(xs[0]).value, a);
      ConsTail(point(ys[0]).value, b);
      assert point(xs[0]) == point(ys[0]);
      CitedIsInjective(xs[1..], ys[1..], point);
      assert xs == [xs[0]] + xs[1..] && ys == [ys[0]] + ys[1..];
    }
  }
}
