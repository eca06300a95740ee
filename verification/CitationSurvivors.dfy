/** Which of the writer's citations a repaired draft still has, for every draft. */
module CitationSurvivors {
  import opened Options
  import opened Sequences
  import opened Distinct
  import opened Decimal
  import opened Citations
  import opened CitationLaws
  import opened CitationLosses
  import opened CitationMeaning

  lemma {:induction false} CitedAppend(xs: seq<string>, ys: seq<string>, point: string -> Option<Url>)
    ensures Cited(xs + ys, point) == Cited(xs, point) + Cited(ys, point)
    decreases |xs|
  {
    if xs == [] {
      assert xs + ys == ys;
    } else {
      assert xs + ys == [xs[0]] + (xs[1..] + ys);
      CitedCons(xs[0], xs[1..] + ys, point);
      assert xs == [xs[0]] + xs[1..];
      CitedCons(xs[0], xs[1..], point);
      CitedAppend(xs[1..], ys, point);
      if point(xs[0]).Some? {
        Associate([point(xs[0]).value], Cited(xs[1..], point), Cited(ys, point));
      }
    }
    hide Cited;
  }

  lemma CitedInit(nums: seq<string>, point: string -> Option<Url>)
    requires forall x <- nums :: point(x).Some?
    ensures Cited(Init(nums), point) == Init(Cited(nums, point))
  {
    if nums != [] {
      var init, last := Init(nums), nums[|nums| - 1];
      assert nums == init + [last];
      CitedSnoc(init, last, point);
      hide Cited;
      assert Init(Cited(init, point) + [point(last).value]) == Cited(init, point);
    } else {
      NothingIsCited(point);
    }
  }

  /** The sources the writer cites in a gap, each once; the last is lost to a link that takes the number of any. */
  ghost function Survivors(b: Brief, ts: seq<Token>, g: nat): seq<Url>
    requires g < |Gaps(ts)|
  {
    var cited := Cited(Gaps(ts)[g], Targets(b));
    if g < |Skeleton(ts)| && Taken(CitedSources(b, ts), cited, Skeleton(ts)[g]) then Init(Firsts(cited)) else Firsts(cited)
  }

  /** What the repaired draft cites in each gap, whatever the draft. */
  lemma RepairCites(b: Brief, ts: seq<Token>, g: nat)
    requires BriefOk(b) && g < |Gaps(ts)|
    ensures var (c, refs) := Repaired(b, ts);
            |Gaps(c)| == |Gaps(ts)| && Cited(Gaps(c)[g], Entries(refs)) == Survivors(b, ts, g)
  {
    hide Firsts, Cited, Entry, Rewrite, Digits, Gaps, Skeleton, Collapse, CitedSources, Taken, Init, LeftParts;
    var (mid, refs) := Rewrite(b, ts, []);
    RewriteFacts(b, ts);
    CollapseLeaves(mid);
    var nums := Gaps(mid)[g];
    LeftAt(Skeleton(mid), Gaps(mid), g);
    NumbersResolve(mid, refs, g);
    CitedOnce(nums, Entries(refs));
    CitedInit(Firsts(nums), Entries(refs));
    if g < |Skeleton(ts)| {
      if Skeleton(ts)[g].Link? {
        TakenIff(b, ts, g);
      } else {
        OnlyLinksTake(CitedSources(b, ts), Cited(Gaps(ts)[g], Targets(b)), Skeleton(ts)[g]);
      }
    }
  }

  lemma NumbersResolve(mid: seq<Token>, refs: seq<Ref>, g: nat)
    requires AllDistinct(Urls(refs)) && Firsts(Labels(mid)) == UpTo(|refs|) && g < |Gaps(mid)|
    ensures forall x, y | x in Gaps(mid)[g] && y in Gaps(mid)[g] ::
              Entries(refs)(x).Some? && (Entries(refs)(x) == Entries(refs)(y) ==> x == y)
  {
    hide Firsts, Entry, Digits, Gaps;
    forall x, y | x in Gaps(mid)[g] && y in Gaps(mid)[g]
      ensures Entries(refs)(x).Some? && (Entries(refs)(x) == Entries(refs)(y) ==> x == y)
    {
      GapsAreNumbers(mid, g, x, |refs|);
      GapsAreNumbers(mid, g, y, |refs|);
      EntryIsInjective(refs, x, y);
    }
  }

  ghost function SurvivorsFrom(b: Brief, ts: seq<Token>, g: nat): seq<Url>
    requires g <= |Gaps(ts)|
    decreases |Gaps(ts)| - g
  {
    if g == |Gaps(ts)| then [] else Survivors(b, ts, g) + SurvivorsFrom(b, ts, g + 1)
  }

  /** The citations that survive mention every source, and for the first time in the writer's order. */
  ghost predicate FirstMentionsSurvive(b: Brief, ts: seq<Token>) {
    Firsts(SurvivorsFrom(b, ts, 0)) == CitedSources(b, ts)
  }

  lemma {:induction false} SurvivorsAreCited(b: Brief, ts: seq<Token>, g: nat)
    requires BriefOk(b) && g <= |Gaps(ts)|
    ensures var (c, refs) := Repaired(b, ts);
            |Gaps(c)| == |Gaps(ts)| && Cited(Flat(Gaps(c)[g..]), Entries(refs)) == SurvivorsFrom(b, ts, g)
    decreases |Gaps(ts)| - g
  {
    hide Cited, Gaps, Repaired, Survivors, Entry;
    var (c, refs) := Repaired(b, ts);
    RepairCites(b, ts, 0);
    if g == |Gaps(ts)| {
      NothingIsCited(Entries(refs));
    } else {
      RepairCites(b, ts, g);
      SurvivorsAreCited(b, ts, g + 1);
      assert Gaps(c)[g..][1..] == Gaps(c)[g + 1..];
      CitedAppend(Gaps(c)[g], Flat(Gaps(c)[g + 1..]), Entries(refs));
    }
  }

  /** The repaired draft's numbers first appear as 1, 2, 3 and so on, one for each reference, exactly when that holds. */
  lemma FirstMentionsIff(b: Brief, ts: seq<Token>)
    requires BriefOk(b)
    ensures var (c, refs) := Repaired(b, ts);
            Firsts(Labels(c)) == UpTo(|refs|) <==> FirstMentionsSurvive(b, ts)
  {
    hide Firsts, Cited, Entry, Rewrite, Digits, Gaps, Collapse, CitedSources, SurvivorsFrom, Labels;
    var (mid, refs) := Rewrite(b, ts, []);
    var c := Collapse(mid);
    RewriteFacts(b, ts);
    ReferencesInOrder(b, ts);
    CollapsedLabels(mid);
    LabelsAreTheGaps(c);
    SurvivorsAreCited(b, ts, 0);
    assert Gaps(c)[0..] == Gaps(c);
    forall x | x in Labels(c) ensures x in UpTo(|refs|) {
      assert x in Firsts(Labels(mid));
    }
    forall x, y | x in UpTo(|refs|) && y in UpTo(|refs|)
      ensures Entries(refs)(x).Some? && (Entries(refs)(x) == Entries(refs)(y) ==> x == y)
    {
      EntryIsInjective(refs, x, y);
    }
    CitedOnce(Labels(c), Entries(refs));
    CitedUpTo(refs, |refs|);
    assert Urls(refs)[..|refs|] == Urls(refs);
    if FirstMentionsSurvive(b, ts) {
      CitedIsInjective(Firsts(Labels(c)), UpTo(|refs|), Entries(refs));
    }
  }

  /**
   * Repairing a draft keeps its meaning, before each piece of text the same sources, each once and in order, exactly
   * when no citation right before a link is to be printed under the link's own number.
   */
  lemma RepairKeepsMeaningIff(b: Brief, ts: seq<Token>)
    requires BriefOk(b)
    ensures CitesTheSame(b, ts, Repaired(b, ts).0, Repaired(b, ts).1) <==> LinkSafe(b, ts)
  {
    hide Firsts, Cited, Entry, Gaps, Skeleton, Repaired, CitedSources, Taken, Rewrite, Tidy, LinkRepeatFree;
    var (c, refs) := Repaired(b, ts);
    RepairCites(b, ts, 0);
    forall g | 0 <= g < |Gaps(ts)| ensures Cited(Gaps(c)[g], Entries(refs)) == Survivors(b, ts, g) {
      RepairCites(b, ts, g);
    }
    if LinkSafe(b, ts) {
      LinkSafeIff(b, ts);
      SafeSkeleton(b, ts);
    }
    if CitesTheSame(b, ts, c, refs) {
      forall g | 0 <= g < |Skeleton(ts)| ensures !Taken(CitedSources(b, ts), Cited(Gaps(ts)[g], Targets(b)), Skeleton(ts)[g]) {
        ACitationIsLost(CitedSources(b, ts), Cited(Gaps(ts)[g], Targets(b)), Skeleton(ts)[g]);
      }
    }
  }

  lemma SafeSkeleton(b: Brief, ts: seq<Token>)
    requires BriefOk(b) && LinkRepeatFree(Rewrite(b, ts, []).0)
    ensures Skeleton(Repaired(b, ts).0) == Skeleton(ts)
  {
    hide Rewrite, Collapse, Gaps, Skeleton, Firsts;
    RewriteFacts(b, ts);
    CollapseIsTidyIff(Rewrite(b, ts, []).0);
  }

  lemma ACitationIsLost(order: seq<Url>, cited: seq<Url>, t: Token)
    ensures Taken(order, cited, t) ==> |Init(Firsts(cited))| < |Firsts(cited)|
  {
    FirstsNotEmpty(cited);
    hide Firsts, Digits;
  }
}
