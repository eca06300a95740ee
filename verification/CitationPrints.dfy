/** What the resolved draft prints: the meaning kept when the spaces are tidied. */
module CitationPrints {
  import opened Options
  import opened Sequences
  import opened Distinct
  import opened Decimal
  import opened Citations
  import opened CitationLaws
  import opened CitationLosses
  import opened CitationSpacing
  import opened CitationBridges
  import opened CitationMeaning
  import opened CitationSurvivors

  // ----- with the spaces tidied -----

  /** Before each printed character or link the same sources are cited, in the same order of first mention. */
  ghost predicate PrintsTheSame(b: Brief, ts: seq<Token>, out: seq<Token>, refs: seq<Ref>) {
    && Skeleton(NonBlank(out)) == Skeleton(NonBlank(ts))
    && forall g | 0 <= g < |Gaps(NonBlank(out))| ::
         Firsts(Cited(Gaps(NonBlank(out))[g], Entries(refs))) == Firsts(Cited(Gaps(NonBlank(ts))[g], Targets(b)))
  }

  const Tab: Token := Text('\t')

  /** A skeleton without its tabs, and the gaps that run together with them. */
  function Merge(sk: seq<Token>, gaps: seq<seq<string>>): (r: (seq<Token>, seq<seq<string>>))
    requires |gaps| == |sk| + 1
    ensures |r.1| == |r.0| + 1
  {
    if sk == [] then (sk, gaps)
    else
      var rest := Merge(sk[1..], gaps[1..]);
      if sk[0] == Tab then (rest.0, [gaps[0] + rest.1[0]] + rest.1[1..]) else ([sk[0]] + rest.0, [gaps[0]] + rest.1)
  }

  lemma MergeTab(sk: seq<Token>, gaps: seq<seq<string>>, gap: seq<string>)
    requires |gaps| == |sk| + 1
    ensures var m := Merge(sk, gaps); Merge([Tab] + sk, [gap] + gaps) == (m.0, [gap + m.1[0]] + m.1[1..])
  {
    ConsTail(Tab, sk);
    ConsTail(gap, gaps);
  }

  lemma MergeOther(t: Token, sk: seq<Token>, gaps: seq<seq<string>>, gap: seq<string>)
    requires |gaps| == |sk| + 1 && t != Tab
    ensures var m := Merge(sk, gaps); Merge([t] + sk, [gap] + gaps) == ([t] + m.0, [gap] + m.1)
  {
    ConsTail(t, sk);
    ConsTail(gap, gaps);
  }

  /** A number put before the first gap comes before the first merged gap. */
  lemma MergeFirst(sk: seq<Token>, gaps: seq<seq<string>>, num: string)
    requires |gaps| == |sk| + 1
    ensures var m := Merge(sk, gaps); Merge(sk, [[num] + gaps[0]] + gaps[1..]) == (m.0, [[num] + m.1[0]] + m.1[1..])
  {
    ConsTail([num] + gaps[0], gaps[1..]);
    if sk != [] && sk[0] == Tab {
      Associate([num], gaps[0], Merge(sk[1..], gaps[1..]).1[0]);
    }
  }

  lemma {:induction false} NonBlankMerges(ts: seq<Token>)
    ensures (Skeleton(NonBlank(ts)), Gaps(NonBlank(ts))) == Merge(Skeleton(ts), Gaps(ts))
  {
    hide Skeleton, Gaps, Merge, NonBlank;
    if ts == [] {
      EmptyMerges();
    } else {
      var t, rest := ts[0], ts[1..];
      assert ts == [t] + rest;
      NonBlankMerges(rest);
      NonBlankCons(t, rest);
      PartsCons(t, rest);
      PartsCons(t, NonBlank(rest));
      assert [] + NonBlank(rest) == NonBlank(rest) && [] + Skeleton(rest) == Skeleton(rest);
      assert [] + Skeleton(NonBlank(rest)) == Skeleton(NonBlank(rest));
      match t
      case Mark(num) => MergeFirst(Skeleton(rest), Gaps(rest), num);
      case Sep(_) =>
      case Text(_) =>
        if t == Tab {
          MergeTab(Skeleton(rest), Gaps(rest), []);
          var gs := Gaps(NonBlank(rest));
          assert [] + gs[0] == gs[0] && [gs[0]] + gs[1..] == gs;
        } else {
          MergeOther(t, Skeleton(rest), Gaps(rest), []);
        }
      case Link(_) => MergeOther(t, Skeleton(rest), Gaps(rest), []);
    }
  }

  lemma EmptyMerges()
    ensures (Skeleton(NonBlank([])), Gaps(NonBlank([]))) == Merge(Skeleton([]), Gaps([]))
  {
  }

  lemma PartsCons(t: Token, rest: seq<Token>)
    ensures Skeleton([t] + rest) == (if t.Text? || t.Link? then [t] else []) + Skeleton(rest)
    ensures Gaps([t] + rest)
            == if t.Mark? then [[t.num] + Gaps(rest)[0]] + Gaps(rest)[1..] else if t.Sep? then Gaps(rest) else [[]] + Gaps(rest)
    ensures Gaps(rest) != []
  {
    ConsTail(t, rest);
  }

  /** Two lists of numbers, each with its sources, mention the same sources in the same order. */
  ghost predicate SameMentions(xs: seq<string>, e: string -> Option<Url>, ys: seq<string>, t: string -> Option<Url>) {
    Firsts(Cited(xs, e)) == Firsts(Cited(ys, t))
  }

  lemma MentionsAppend(
    xs: seq<string>, xs': seq<string>, ys: seq<string>, ys': seq<string>, e: string -> Option<Url>, t: string -> Option<Url>)
    requires SameMentions(xs, e, ys, t) && SameMentions(xs', e, ys', t)
    ensures SameMentions(xs + xs', e, ys + ys', t)
  {
    hide Firsts, Cited;
    CitedAppend(xs, xs', e);
    CitedAppend(ys, ys', t);
    FirstsCongruence(Cited(xs, e), Cited(ys, t), Cited(xs', e), Cited(ys', t));
  }

  lemma EmptySkeletonMerges(gaps: seq<seq<string>>)
    requires |gaps| == 1
    ensures Merge([], gaps) == ([], gaps)
  {
  }

  ghost predicate AllMention(gs: seq<seq<string>>, e: string -> Option<Url>, hs: seq<seq<string>>, t: string -> Option<Url>) {
    |gs| == |hs| && forall g | 0 <= g < |gs| :: SameMentions(gs[g], e, hs[g], t)
  }

  lemma AllMentionCons(
    g: seq<string>, gs: seq<seq<string>>, e: string -> Option<Url>, h: seq<string>, hs: seq<seq<string>>,
    t: string -> Option<Url>)
    ensures AllMention([g] + gs, e, [h] + hs, t) <==> SameMentions(g, e, h, t) && AllMention(gs, e, hs, t)
  {
    hide SameMentions;
    if AllMention([g] + gs, e, [h] + hs, t) {
      assert ([g] + gs)[0] == g && ([h] + hs)[0] == h;
      forall k | 0 <= k < |gs| ensures SameMentions(gs[k], e, hs[k], t) {
        assert ([g] + gs)[k + 1] == gs[k] && ([h] + hs)[k + 1] == hs[k];
      }
    }
  }

  /** What stands before a skeleton and its gaps, one text and the other, and what they print agree. */
  ghost predicate Agrees(
    x: seq<string>, sk: seq<Token>, gs: seq<seq<string>>, e: string -> Option<Url>,
    y: seq<string>, sk': seq<Token>, hs: seq<seq<string>>, t: string -> Option<Url>)
    requires |sk| == |sk'| && |gs| == |hs| == |sk| + 1
    decreases |sk|
  {
    if sk == [] then SameMentions(x + gs[0], e, y + hs[0], t)
    else if sk[0] == Tab then Agrees(x + gs[0], sk[1..], gs[1..], e, y + hs[0], sk'[1..], hs[1..], t)
    else
      && SameMentions(x + gs[0], e, y + hs[0], t) && sk[0] == sk'[0]
      && Agrees([], sk[1..], gs[1..], e, [], sk'[1..], hs[1..], t)
  }

  /** The merged gaps, with more put before the first one. */
  ghost function After(x: seq<string>, sk: seq<Token>, gaps: seq<seq<string>>): (seq<Token>, seq<seq<string>>)
    requires |gaps| == |sk| + 1
  {
    var m := Merge(sk, gaps);
    (m.0, [x + m.1[0]] + m.1[1..])
  }

  lemma AfterTab(x: seq<string>, sk: seq<Token>, gaps: seq<seq<string>>)
    requires |gaps| == |sk| + 1 && sk != [] && sk[0] == Tab
    ensures After(x, sk, gaps) == After(x + gaps[0], sk[1..], gaps[1..])
  {
    hide Merge;
    assert sk == [Tab] + sk[1..] && gaps == [gaps[0]] + gaps[1..];
    MergeTab(sk[1..], gaps[1..], gaps[0]);
    var m := Merge(sk[1..], gaps[1..]).1;
    ConsTail(gaps[0] + m[0], m[1..]);
    Associate(x, gaps[0], m[0]);
  }

  lemma AfterOther(x: seq<string>, sk: seq<Token>, gaps: seq<seq<string>>)
    requires |gaps| == |sk| + 1 && sk != [] && sk[0] != Tab
    ensures var rest := After([], sk[1..], gaps[1..]);
            After(x, sk, gaps) == ([sk[0]] + rest.0, [x + gaps[0]] + rest.1)
  {
    hide Merge;
    assert sk == [sk[0]] + sk[1..] && gaps == [gaps[0]] + gaps[1..];
    MergeOther(sk[0], sk[1..], gaps[1..], gaps[0]);
    var m := Merge(sk[1..], gaps[1..]).1;
    ConsTail(gaps[0], m);
    assert [] + m[0] == m[0] && [m[0]] + m[1..] == m;
  }

  lemma AfterNothing(x: seq<string>, gaps: seq<seq<string>>)
    requires |gaps| == 1
    ensures After(x, [], gaps) == ([], [x + gaps[0]])
  {
    hide Merge;
    EmptySkeletonMerges(gaps);
    assert gaps[1..] == [] && [x + gaps[0]] + [] == [x + gaps[0]];
  }

  lemma {:induction false} AgreesIff(
    x: seq<string>, sk: seq<Token>, gs: seq<seq<string>>, e: string -> Option<Url>,
    y: seq<string>, sk': seq<Token>, hs: seq<seq<string>>, t: string -> Option<Url>)
    requires |sk| == |sk'| && |gs| == |hs| == |sk| + 1
    requires forall i | 0 <= i < |sk| :: sk[i] == Tab <==> sk'[i] == Tab
    ensures Agrees(x, sk, gs, e, y, sk', hs, t)
            <==> After(x, sk, gs).0 == After(y, sk', hs).0 && AllMention(After(x, sk, gs).1, e, After(y, sk', hs).1, t)
    decreases |sk|
  {
    hide SameMentions, After, AllMention;
    if sk == [] {
      AfterNothing(x, gs);
      AfterNothing(y, hs);
      AllMentionCons(x + gs[0], [], e, y + hs[0], [], t);
      NothingMentioned(e, t);
      assert [x + gs[0]] + [] == [x + gs[0]] && [y + hs[0]] + [] == [y + hs[0]];
    } else if sk[0] == Tab {
      AfterTab(x, sk, gs);
      AfterTab(y, sk', hs);
      AgreesIff(x + gs[0], sk[1..], gs[1..], e, y + hs[0], sk'[1..], hs[1..], t);
    } else {
      AfterOther(x, sk, gs);
      AfterOther(y, sk', hs);
      var m, n := After([], sk[1..], gs[1..]), After([], sk'[1..], hs[1..]);
      AgreesIff([], sk[1..], gs[1..], e, [], sk'[1..], hs[1..], t);
      AllMentionCons(x + gs[0], m.1, e, y + hs[0], n.1, t);
      SameCons(sk[0], m.0, sk'[0], n.0);
    }
  }

  lemma SameCons(t: Token, sk: seq<Token>, t': Token, sk': seq<Token>)
    ensures [t] + sk == [t'] + sk' <==> t == t' && sk == sk'
  {
    ConsTail(t, sk);
    ConsTail(t', sk');
    assert ([t] + sk)[0] == t && ([t'] + sk')[0] == t';
  }

  lemma NothingMentioned(e: string -> Option<Url>, t: string -> Option<Url>)
    ensures AllMention([], e, [], t)
  {
  }

  lemma AfterNoMore(sk: seq<Token>, gaps: seq<seq<string>>)
    requires |gaps| == |sk| + 1
    ensures After([], sk, gaps) == Merge(sk, gaps)
  {
    var m := Merge(sk, gaps).1;
    assert [] + m[0] == m[0] && [m[0]] + m[1..] == m;
  }

  // ----- what a link may take -----

  /** The numbers of the gaps before this one that only tabs part from it. */
  function Carried(sk: seq<Token>, gaps: seq<seq<string>>, g: nat): seq<string>
    requires |gaps| == |sk| + 1 && g <= |sk|
  {
    if g > 0 && sk[g - 1] == Tab then Carried(sk, gaps, g - 1) + gaps[g - 1] else []
  }

  ghost predicate TakenAt(b: Brief, ts: seq<Token>, g: nat)
    requires g < |Skeleton(ts)|
  {
    Taken(CitedSources(b, ts), Cited(Gaps(ts)[g], Targets(b)), Skeleton(ts)[g])
  }

  /**
   * A link takes a citation without loss: the one it takes is of the source that is to be printed under the link's own
   * number, and that source is cited before a tab in the same place too.
   */
  ghost predicate Redeemed(b: Brief, ts: seq<Token>, g: nat)
    requires g < |Skeleton(ts)|
  {
    var sk, gaps, order := Skeleton(ts), Gaps(ts), CitedSources(b, ts);
    var cited := Firsts(Cited(gaps[g], Targets(b)));
    && sk[g].Link? && cited != []
    && var u := cited[|cited| - 1];
       && u in order && Digits(IndexOf(order, u) + 1) == sk[g].num
       && u in Cited(Carried(sk, gaps, g), Targets(b))
  }

  /** In the writer's draft: whenever a link takes the number of a source cited right before it, nothing is lost. */
  ghost predicate PrintSafe(b: Brief, ts: seq<Token>) {
    forall g | 0 <= g < |Skeleton(ts)| :: TakenAt(b, ts, g) ==> Redeemed(b, ts, g)
  }

  /** What the repaired draft has in a place, and what follows it. */
  ghost predicate RepairedAt(b: Brief, ts: seq<Token>, c: seq<Token>, refs: seq<Ref>, g: nat)
    requires g < |Gaps(ts)|
  {
    && |Skeleton(c)| == |Skeleton(ts)| && |Gaps(c)| == |Gaps(ts)|
    && Cited(Gaps(c)[g], Entries(refs)) == Survivors(b, ts, g)
    && (g < |Skeleton(ts)| ==>
          && (Skeleton(ts)[g] == Tab <==> Skeleton(c)[g] == Tab)
          && (!TakenAt(b, ts, g) ==> Skeleton(c)[g] == Skeleton(ts)[g])
          && (TakenAt(b, ts, g) ==>
                var cited := Firsts(Cited(Gaps(ts)[g], Targets(b)));
                && Skeleton(ts)[g].Link? && cited != []
                && var u := cited[|cited| - 1];
                   u in CitedSources(b, ts) && Skeleton(c)[g] == Link(Digits(IndexOf(CitedSources(b, ts), u) + 1))))
  }

  lemma RepairRelinks(b: Brief, ts: seq<Token>, g: nat)
    requires BriefOk(b) && g < |Gaps(ts)|
    ensures var mid, c := Rewrite(b, ts, []).0, Repaired(b, ts).0;
            && |Gaps(mid)| == |Gaps(ts)| && |Skeleton(c)| == |Skeleton(ts)|
            && (g < |Skeleton(ts)| ==> Skeleton(c)[g] == Relinked(Gaps(mid)[g], Skeleton(ts)[g]))
  {
    hide Cited, Entry, Rewrite, Digits, Gaps, Skeleton, Collapse, LeftParts, Relinked;
    var mid := Rewrite(b, ts, []).0;
    RewriteFacts(b, ts);
    CollapseLeaves(mid);
    LeftAt(Skeleton(mid), Gaps(mid), g);
  }

  lemma LinkTakes(b: Brief, ts: seq<Token>, g: nat)
    requires BriefOk(b) && g < |Skeleton(ts)| && TakenAt(b, ts, g)
    ensures var cited := Firsts(Cited(Gaps(ts)[g], Targets(b)));
            && Skeleton(ts)[g].Link? && cited != [] && cited[|cited| - 1] in CitedSources(b, ts)
            && |Skeleton(Repaired(b, ts).0)| == |Skeleton(ts)|
            && Skeleton(Repaired(b, ts).0)[g] == Link(Digits(IndexOf(CitedSources(b, ts), cited[|cited| - 1]) + 1))
  {
    hide Firsts, Cited, Entry, Rewrite, Digits, Gaps, Skeleton, Repaired, CitedSources;
    RepairRelinks(b, ts, g);
    TakenIff(b, ts, g);
    hide Taken;
    LastIsPrinted(b, ts, g);
  }

  lemma LinkStays(b: Brief, ts: seq<Token>, g: nat)
    requires BriefOk(b) && g < |Skeleton(ts)| && !TakenAt(b, ts, g)
    ensures var sk := Skeleton(Repaired(b, ts).0); |sk| == |Skeleton(ts)| && sk[g] == Skeleton(ts)[g]
  {
    hide Firsts, Cited, Entry, Rewrite, Digits, Gaps, Skeleton, Repaired, CitedSources, Taken;
    RepairRelinks(b, ts, g);
    if Skeleton(ts)[g].Link? {
      TakenIff(b, ts, g);
    }
  }

  lemma RepairIs(b: Brief, ts: seq<Token>, g: nat)
    requires BriefOk(b) && g < |Gaps(ts)|
    ensures RepairedAt(b, ts, Repaired(b, ts).0, Repaired(b, ts).1, g)
  {
    hide Firsts, Cited, Entry, Digits, Gaps, Skeleton, Repaired, CitedSources, TakenAt, Survivors;
    RepairCites(b, ts, g);
    RepairRelinks(b, ts, g);
    if g < |Skeleton(ts)| {
      if TakenAt(b, ts, g) {
        LinkTakes(b, ts, g);
      } else {
        LinkStays(b, ts, g);
      }
    }
  }

  /** The last number of a gap is the printed number of the last source cited there for the first time. */
  lemma LastIsPrinted(b: Brief, ts: seq<Token>, g: nat)
    requires BriefOk(b) && g < |Gaps(ts)| && g < |Gaps(Rewrite(b, ts, []).0)| && Gaps(Rewrite(b, ts, []).0)[g] != []
    ensures var nums := Firsts(Gaps(Rewrite(b, ts, []).0)[g]);
            var cited := Firsts(Cited(Gaps(ts)[g], Targets(b)));
            && nums != [] && cited != [] && cited[|cited| - 1] in CitedSources(b, ts)
            && nums[|nums| - 1] == Digits(IndexOf(CitedSources(b, ts), cited[|cited| - 1]) + 1)
  {
    hide Firsts, Cited, Entry, Rewrite, Digits, Gaps, Skeleton, CitedSources;
    var (mid, refs) := Rewrite(b, ts, []);
    RewriteFacts(b, ts);
    ReferencesInOrder(b, ts);
    var nums := Firsts(Gaps(mid)[g]);
    FirstsNotEmpty(Gaps(mid)[g]);
    NumbersResolve(mid, refs, g);
    CitedOnce(Gaps(mid)[g], Entries(refs));
    var init, x := nums[..|nums| - 1], nums[|nums| - 1];
    assert nums == init + [x] && x in Gaps(mid)[g];
    CitedSnoc(init, x, Entries(refs));
    GapsAreNumbers(mid, g, x, |refs|);
    var i: nat :| i < |refs| && UpTo(|refs|)[i] == x;
    EntryOfPrinted(refs, i);
    IndexOfDistinct(Urls(refs), i);
  }

  // ----- exactly when the printed draft means the same -----

  /** Tabs carry the same mentions over: no link follows the gaps that they join. */
  lemma {:induction false} CarriedTheSame(b: Brief, ts: seq<Token>, c: seq<Token>, refs: seq<Ref>, g: nat)
    requires g <= |Skeleton(ts)| && |Skeleton(c)| == |Skeleton(ts)| && |Gaps(c)| == |Gaps(ts)|
    requires forall i | 0 <= i < |Gaps(ts)| :: RepairedAt(b, ts, c, refs, i)
    ensures SameMentions(Carried(Skeleton(c), Gaps(c), g), Entries(refs), Carried(Skeleton(ts), Gaps(ts), g), Targets(b))
  {
    hide Firsts, Cited, Entry, Gaps, Skeleton, CitedSources, SameMentions, RepairedAt;
    if g > 0 && Skeleton(ts)[g - 1] == Tab {
      CarriedTheSame(b, ts, c, refs, g - 1);
      TabKeepsGap(b, ts, c, refs, g - 1);
      MentionsAppend(Carried(Skeleton(c), Gaps(c), g - 1), Gaps(c)[g - 1],
                     Carried(Skeleton(ts), Gaps(ts), g - 1), Gaps(ts)[g - 1], Entries(refs), Targets(b));
    } else {
      if g > 0 {
        TabStays(b, ts, c, refs, g - 1);
      }
      NothingSame(Entries(refs), Targets(b));
    }
  }

  lemma TabStays(b: Brief, ts: seq<Token>, c: seq<Token>, refs: seq<Ref>, g: nat)
    requires g < |Skeleton(ts)| && RepairedAt(b, ts, c, refs, g)
    ensures g < |Skeleton(c)| && (Skeleton(ts)[g] == Tab <==> Skeleton(c)[g] == Tab)
  {
    hide Gaps, Skeleton;
  }

  lemma NothingSame(e: string -> Option<Url>, t: string -> Option<Url>)
    ensures SameMentions([], e, [], t)
  {
  }

  /** A gap that no link takes from mentions the same. */
  lemma UntakenSame(b: Brief, ts: seq<Token>, c: seq<Token>, refs: seq<Ref>, g: nat)
    requires g < |Gaps(ts)| && RepairedAt(b, ts, c, refs, g)
    requires g < |Skeleton(ts)| ==> !TakenAt(b, ts, g)
    ensures SameMentions(Gaps(c)[g], Entries(refs), Gaps(ts)[g], Targets(b))
  {
    hide Firsts, Cited, Gaps, Skeleton, CitedSources, Taken, Entry;
    FirstsTwice(Cited(Gaps(ts)[g], Targets(b)));
  }

  lemma TabKeepsGap(b: Brief, ts: seq<Token>, c: seq<Token>, refs: seq<Ref>, g: nat)
    requires g < |Skeleton(ts)| && Skeleton(ts)[g] == Tab && RepairedAt(b, ts, c, refs, g)
    ensures Skeleton(c)[g] == Tab && SameMentions(Gaps(c)[g], Entries(refs), Gaps(ts)[g], Targets(b))
  {
    OnlyLinksTake(CitedSources(b, ts), Cited(Gaps(ts)[g], Targets(b)), Skeleton(ts)[g]);
    hide Firsts, Cited, Gaps, Skeleton, CitedSources, Taken, Entry, SameMentions;
    UntakenSame(b, ts, c, refs, g);
  }

  /** Where a link takes the last source, its place mentions the same exactly when that source came before a tab. */
  lemma TakenSameIff(x: seq<Url>, y: seq<Url>, cited: seq<Url>)
    requires Firsts(x) == Firsts(y) && cited != []
    ensures var all := Firsts(cited);
            all != [] && (Firsts(x + Init(all)) == Firsts(y + cited) <==> all[|all| - 1] in y)
  {
    hide Firsts;
    var all := Firsts(cited);
    FirstsNotEmpty(cited);
    FirstsAreDistinct(cited);
    var init, u := Init(all), all[|all| - 1];
    assert all == init + [u] && u !in init;
    FirstsTwice(cited);
    FirstsCongruence(x, y, init, init);
    FirstsCongruence(y, y, all, cited);
    assert y + all == (y + init) + [u];
    FirstsSnoc(y + init, u);
    assert u in y + init <==> u in y;
  }

  /** One place: it prints the same exactly when a link that takes from it does so without loss. */
  lemma PlaceIff(b: Brief, ts: seq<Token>, c: seq<Token>, refs: seq<Ref>, g: nat)
    requires g < |Skeleton(ts)| && |Skeleton(c)| == |Skeleton(ts)| && |Gaps(c)| == |Gaps(ts)|
    requires forall i | 0 <= i < |Gaps(ts)| :: RepairedAt(b, ts, c, refs, i)
    ensures var x, y := Carried(Skeleton(c), Gaps(c), g), Carried(Skeleton(ts), Gaps(ts), g);
            SameMentions(x + Gaps(c)[g], Entries(refs), y + Gaps(ts)[g], Targets(b)) && Skeleton(c)[g] == Skeleton(ts)[g]
            <==> (TakenAt(b, ts, g) ==> Redeemed(b, ts, g))
  {
    hide Firsts, Cited, Gaps, Skeleton, CitedSources, Taken, Entry, Carried, Digits, Init;
    var x, y := Carried(Skeleton(c), Gaps(c), g), Carried(Skeleton(ts), Gaps(ts), g);
    CarriedTheSame(b, ts, c, refs, g);
    assert RepairedAt(b, ts, c, refs, g);
    if TakenAt(b, ts, g) {
      CitedAppend(x, Gaps(c)[g], Entries(refs));
      CitedAppend(y, Gaps(ts)[g], Targets(b));
      var cited := Cited(Gaps(ts)[g], Targets(b));
      NoFirst(cited);
      TakenSameIff(Cited(x, Entries(refs)), Cited(y, Targets(b)), cited);
    } else {
      UntakenSame(b, ts, c, refs, g);
      MentionsAppend(x, Gaps(c)[g], y, Gaps(ts)[g], Entries(refs), Targets(b));
    }
  }

  lemma NoFirst(xs: seq<Url>)
    ensures xs == [] ==> Firsts(xs) == []
  {
  }

  lemma {:induction false} PlacesFrom(b: Brief, ts: seq<Token>, c: seq<Token>, refs: seq<Ref>, g: nat)
    requires g <= |Skeleton(ts)| && |Skeleton(c)| == |Skeleton(ts)| && |Gaps(c)| == |Gaps(ts)|
    requires forall i | 0 <= i < |Gaps(ts)| :: RepairedAt(b, ts, c, refs, i)
    ensures Agrees(Carried(Skeleton(c), Gaps(c), g), Skeleton(c)[g..], Gaps(c)[g..], Entries(refs),
                   Carried(Skeleton(ts), Gaps(ts), g), Skeleton(ts)[g..], Gaps(ts)[g..], Targets(b))
            <==> forall i | g <= i < |Skeleton(ts)| :: TakenAt(b, ts, i) ==> Redeemed(b, ts, i)
    decreases |Skeleton(ts)| - g
  {
    hide Gaps, Skeleton, SameMentions, RepairedAt, TakenAt, Redeemed;
    var sk, gs, sk', hs := Skeleton(c), Gaps(c), Skeleton(ts), Gaps(ts);
    if g == |sk'| {
      EndIsSame(b, ts, c, refs);
      assert sk[g..] == [] && sk'[g..] == [] && gs[g..][0] == gs[g] && hs[g..][0] == hs[g];
    } else {
      TabStays(b, ts, c, refs, g);
      PlaceIff(b, ts, c, refs, g);
      PlacesFrom(b, ts, c, refs, g + 1);
      assert sk[g..][1..] == sk[g + 1..] && sk'[g..][1..] == sk'[g + 1..];
      assert gs[g..][1..] == gs[g + 1..] && hs[g..][1..] == hs[g + 1..];
      if sk'[g] == Tab {
        TabIsNotTaken(b, ts, g);
      }
    }
  }

  lemma TabIsNotTaken(b: Brief, ts: seq<Token>, g: nat)
    requires g < |Skeleton(ts)| && Skeleton(ts)[g] == Tab
    ensures !TakenAt(b, ts, g)
  {
  }

  lemma EndIsSame(b: Brief, ts: seq<Token>, c: seq<Token>, refs: seq<Ref>)
    requires |Skeleton(c)| == |Skeleton(ts)| && |Gaps(c)| == |Gaps(ts)|
    requires forall i | 0 <= i < |Gaps(ts)| :: RepairedAt(b, ts, c, refs, i)
    ensures var n := |Skeleton(ts)|;
            SameMentions(Carried(Skeleton(c), Gaps(c), n) + Gaps(c)[n], Entries(refs),
                         Carried(Skeleton(ts), Gaps(ts), n) + Gaps(ts)[n], Targets(b))
  {
    hide Gaps, Skeleton, SameMentions, Carried;
    var n := |Skeleton(ts)|;
    CarriedTheSame(b, ts, c, refs, n);
    UntakenSame(b, ts, c, refs, n);
    hide RepairedAt;
    MentionsAppend(Carried(Skeleton(c), Gaps(c), n), Gaps(c)[n],
                   Carried(Skeleton(ts), Gaps(ts), n), Gaps(ts)[n], Entries(refs), Targets(b));
  }

  /** The repaired draft prints what the writer's does, place by place, exactly when no link takes with loss. */
  lemma RepairPrintsIff(b: Brief, ts: seq<Token>)
    requires BriefOk(b)
    ensures PrintsTheSame(b, ts, Repaired(b, ts).0, Repaired(b, ts).1) <==> PrintSafe(b, ts)
  {
    hide Gaps, Skeleton, SameMentions, RepairedAt, TakenAt, Redeemed, Repaired, NonBlank, Merge, After, Agrees, Cited, Firsts;
    var (c, refs) := Repaired(b, ts);
    forall i | 0 <= i < |Gaps(ts)| ensures RepairedAt(b, ts, c, refs, i) {
      RepairIs(b, ts, i);
    }
    RepairedSize(b, ts, c, refs);
    var sk, gs, sk', hs := Skeleton(c), Gaps(c), Skeleton(ts), Gaps(ts);
    forall i | 0 <= i < |sk| ensures sk[i] == Tab <==> sk'[i] == Tab {
      TabStays(b, ts, c, refs, i);
    }
    PlacesFrom(b, ts, c, refs, 0);
    assert sk[0..] == sk && sk'[0..] == sk' && gs[0..] == gs && hs[0..] == hs;
    AgreesIff([], sk, gs, Entries(refs), [], sk', hs, Targets(b));
    AfterNoMore(sk, gs);
    AfterNoMore(sk', hs);
    NonBlankMerges(c);
    NonBlankMerges(ts);
    PrintsIsMention(b, ts, c, refs);
  }

  lemma RepairedSize(b: Brief, ts: seq<Token>, c: seq<Token>, refs: seq<Ref>)
    requires RepairedAt(b, ts, c, refs, 0)
    ensures |Skeleton(c)| == |Skeleton(ts)| && |Gaps(c)| == |Gaps(ts)|
  {
    hide Gaps, Skeleton;
  }

  lemma PrintsIsMention(b: Brief, ts: seq<Token>, c: seq<Token>, refs: seq<Ref>)
    ensures PrintsTheSame(b, ts, c, refs)
            <==> && Skeleton(NonBlank(c)) == Skeleton(NonBlank(ts))
                 && AllMention(Gaps(NonBlank(c)), Entries(refs), Gaps(NonBlank(ts)), Targets(b))
  {
    hide Gaps, Skeleton, NonBlank, Cited, Firsts;
    var gs, hs := Gaps(NonBlank(c)), Gaps(NonBlank(ts));
    if PrintsTheSame(b, ts, c, refs) {
      forall g | 0 <= g < |gs| ensures SameMentions(gs[g], Entries(refs), hs[g], Targets(b)) {
      }
    }
    if |gs| == |hs| && AllMention(gs, Entries(refs), hs, Targets(b)) {
      forall g | 0 <= g < |gs| ensures Firsts(Cited(gs[g], Entries(refs))) == Firsts(Cited(hs[g], Targets(b))) {
        assert SameMentions(gs[g], Entries(refs), hs[g], Targets(b));
      }
    }
  }

  /**
   * Resolving a draft. The references are distinct, from the brief, and exactly the sources the writer cited, in the
   * order of first mention. The text is that of the repaired draft but for blanks. Its numbers first appear as 1, 2, 3
   * and so on exactly when first mentions survive. The repaired draft cites in each place what the writer cited there
   * exactly when no link takes the number of a source cited right before it; the printed one, whose places tabs do
   * not part, exactly when every link that does so takes without loss. Then first mentions survive too.
   */
  lemma ResolvedDraftMeansTheSame(b: Brief, ts: seq<Token>)
    requires BriefOk(b) && b.findings != []
    ensures var (out, refs) := Resolve(b, ts);
            && AllDistinct(Urls(refs)) && FromSources(b, refs) && Urls(refs) == CitedSources(b, ts)
            && NonBlank(out) == NonBlank(Repaired(b, ts).0)
            && (Firsts(Labels(out)) == UpTo(|refs|) <==> FirstMentionsSurvive(b, ts))
            && (CitesTheSame(b, ts, Repaired(b, ts).0, refs) <==> LinkSafe(b, ts))
            && (PrintsTheSame(b, ts, out, refs) <==> PrintSafe(b, ts))
            && (LinkSafe(b, ts) ==> PrintSafe(b, ts) && FirstMentionsSurvive(b, ts))
  {
    hide Firsts, Cited, Gaps, Skeleton, NonBlank, Rewrite, Collapse, Labels, Entry, Digits;
    hide LinkSafe, PrintSafe, CitesTheSame, CitedSources, FirstMentionsSurvive;
    var (mid, refs) := Rewrite(b, ts, []);
    var c := Collapse(mid);
    RewriteFacts(b, ts);
    ReferencesInOrder(b, ts);
    RepairKeepsMeaningIff(b, ts);
    RepairPrintsIff(b, ts);
    FirstMentionsIff(b, ts);
    SpacedKeeps(c, 2);
    assert Tidied(c) == Spaced(c, 2);
    if LinkSafe(b, ts) {
      SafeIsPrintSafe(b, ts);
      LinkSafeIff(b, ts);
      CollapseIsTidyIff(mid);
      TidyKeepsFirsts(mid, c);
    }
  }

  lemma SafeIsPrintSafe(b: Brief, ts: seq<Token>)
    requires LinkSafe(b, ts)
    ensures PrintSafe(b, ts)
  {
    hide Gaps, Skeleton, Cited, CitedSources, Taken, Redeemed;
  }
}
