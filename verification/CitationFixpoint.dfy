/** When resolving a resolved draft again changes nothing. */
module CitationFixpoint {
  import opened Options
  import opened Sequences
  import opened Distinct
  import opened Decimal
  import opened Citations
  import opened CitationLaws
  import opened CitationSpacing
  import opened CitationBridges
  import opened CitationMeaning
  import opened CitationSurvivors
  import opened CitationPrints

  // ----- resolving again -----

  /** The draft's own references, offered back as a brief. */
  function OwnBrief(refs: seq<Ref>): Brief {
    Brief(Urls(refs), map u | u in Urls(refs) :: refs[IndexOf(Urls(refs), u)])
  }

  lemma OwnBriefPointsToEntries(refs: seq<Ref>, k: nat)
    requires AllDistinct(Urls(refs)) && 1 <= k <= |refs|
    ensures var b := OwnBrief(refs);
            Target(b, Digits(k)) == Some(refs[k - 1].url) && b.byUrl[refs[k - 1].url] == refs[k - 1]
  {
    PrintedNumber(k);
    var u := Urls(refs)[k - 1];
    assert u in Urls(refs) && Urls(refs)[IndexOf(Urls(refs), u)] == u;
    assert IndexOf(Urls(refs), u) == k - 1;
  }

  /** Renumbering the next marker against the references it belongs to leaves it alone. */
  lemma KnownMarkStays(refs: seq<Ref>, m: nat, k: nat)
    requires AllDistinct(Urls(refs)) && m <= |refs| && 1 <= k <= |refs| && k <= m + 1
    ensures RewriteOne(OwnBrief(refs), Mark(Digits(k)), refs[..m])
            == ([Mark(Digits(k))], refs[..if k == m + 1 then k else m])
  {
    OwnBriefPointsToEntries(refs, k);
    var u, before := refs[k - 1].url, Urls(refs[..m]);
    assert before == Urls(refs)[..m] && Urls(refs)[k - 1] == u;
    if k == m + 1 {
      assert u !in before;
      assert refs[..m] + [refs[m]] == refs[..k];
    } else {
      assert before[k - 1] == u;
      assert before[IndexOf(before, u)] == u;
      assert IndexOf(before, u) == k - 1;
    }
  }

  /** A number not seen before, in a draft whose first appearances read 1 to n, is the next one. */
  lemma NextFirst(seen: seq<string>, x: string, more: seq<string>, m: nat, n: nat)
    requires Firsts(seen) == UpTo(m) && Firsts(seen + ([x] + more)) == UpTo(n)
    ensures if x in seen then exists k :: 1 <= k <= m && x == Digits(k) else m < n && x == Digits(m + 1)
    ensures m <= n && Firsts(seen + [x]) == UpTo(if x in seen then m else m + 1)
  {
    hide Digits, Firsts, Fresh;
    FirstsSnoc(seen, x);
    FirstsAppend(seen + [x], more);
    assert seen + [x] + more == seen + ([x] + more);
    if x in seen {
      assert x in UpTo(m);
      var i :| 0 <= i < m && UpTo(m)[i] == x;
      assert x == Digits(i + 1);
      assert m <= n;
    } else {
      assert (UpTo(m) + [x])[m] == x;
      assert UpTo(n)[m] == Digits(m + 1);
      assert UpTo(m + 1) == UpTo(m) + [Digits(m + 1)];
    }
  }

  lemma {:induction false} OwnDraftIsFixed(refs: seq<Ref>, out: seq<Token>, m: nat, seen: seq<string>)
    requires AllDistinct(Urls(refs)) && m <= |refs|
    requires Firsts(seen) == UpTo(m) && Firsts(seen + Labels(out)) == UpTo(|refs|)
    ensures Rewrite(OwnBrief(refs), out, refs[..m]) == (out, refs)
    decreases |out|
  {
    hide Firsts, Digits, AllDistinct, OwnBrief;
    if out == [] {
      assert seen + Labels(out) == seen;
      assert |UpTo(m)| == m && |UpTo(|refs|)| == |refs|;
      assert refs[..m] == refs;
    } else if out[0].Mark? {
      var x := out[0].num;
      NextFirst(seen, x, Labels(out[1..]), m, |refs|);
      var k :| 1 <= k <= m + 1 && k <= |refs| && x == Digits(k) && (k == m + 1 <==> x !in seen);
      KnownMarkStays(refs, m, k);
      assert seen + [x] + Labels(out[1..]) == seen + Labels(out);
      OwnDraftIsFixed(refs, out[1..], if x in seen then m else m + 1, seen + [x]);
      assert out == [Mark(x)] + out[1..];
    } else {
      assert Labels(out) == Labels(out[1..]);
      OwnDraftIsFixed(refs, out[1..], m, seen);
      assert out == [out[0]] + out[1..];
    }
  }

  lemma {:induction false} UncitedDraft(ts: seq<Token>)
    requires Labels(ts) == []
    ensures Others(ts) == ts
  {
    if ts != [] {
      UncitedDraft(ts[1..]);
      assert ts == [ts[0]] + ts[1..];
    }
  }

  lemma {:induction false} RewriteShortens(b: Brief, ts: seq<Token>, refs: seq<Ref>)
    ensures |Rewrite(b, ts, refs).0| <= |ts|
    decreases |ts|
  {
    if ts != [] {
      RewriteShortens(b, ts[1..], RewriteOne(b, ts[0], refs).1);
    }
    hide Target;
  }

  lemma {:induction false} SpacedFull(ts: seq<Token>, room: nat)
    ensures |Spaced(ts, room)| == |ts| ==> Spaced(ts, room) == ts
    decreases |ts|
  {
    hide PunctFollows;
    if ts == [] {
      NothingSpaced(room);
    } else {
      var t, rest := ts[0], ts[1..];
      assert ts == [t] + rest;
      SpacedCons(t, rest, room);
      var left := if t != Sep(' ') then RoomAfter(t) else if room > 0 then room - 1 else 0;
      SpacedKeeps(rest, room);
      SpacedKeeps(rest, 0);
      SpacedFull(rest, left);
    }
  }

  lemma {:induction false} NumbersFull(run: seq<Token>)
    ensures |Numbers(run)| == |run| ==> forall i | 0 <= i < |run| :: !run[i].Sep?
  {
    if run != [] {
      NumbersFull(run[1..]);
      NumbersAreFew(run[1..]);
    }
  }

  lemma {:induction false} FirstsFull(xs: seq<string>)
    ensures |Firsts(xs)| == |xs| ==> Firsts(xs) == xs
    decreases |xs|
  {
    if xs != [] {
      FirstsFull(xs[..|xs| - 1]);
      FirstsAreDistinct(xs[..|xs| - 1]);
    }
  }

  lemma RunFull(ts: seq<Token>)
    requires ts != [] && ts[0].Mark?
    ensures var run := ts[..RunLength(ts)];
            Numbers(run) != [] && (|Collapsed(run)| == |run| ==> Collapsed(run) == run)
  {
    hide Numbers, Collapsed, Firsts, RunLength;
    var n := RunLength(ts);
    var run := ts[..n];
    CollapsedIsSame(ts);
    CollapsedSize(run);
    NumbersAreFew(run);
    NumbersFull(run);
    FirstsFull(Numbers(run));
    FirstsAreDistinct(Numbers(run));
    assert forall i | 0 <= i < n :: run[i] == ts[i];
  }

  lemma {:induction false} CollapseFull(ts: seq<Token>)
    ensures |Collapse(ts)| == |ts| ==> Collapse(ts) == ts
    decreases |ts|
  {
    hide Numbers, Collapsed, RunLength;
    if ts != [] {
      if ts[0].Mark? {
        var n := RunLength(ts);
        RunFull(ts);
        CollapsedIsSame(ts);
        CollapseShortens(ts[n..]);
        CollapseFull(ts[n..]);
        assert ts[..n] + ts[n..] == ts;
      } else {
        CollapseFull(ts[1..]);
        assert [ts[0]] + ts[1..] == ts;
      }
    }
  }

  /** If nothing changes in the end, nothing changed in between: every stage only shortens. */
  lemma UnchangedThroughout(b: Brief, out: seq<Token>)
    requires b.findings != [] && Resolve(b, out).0 == out
    ensures Rewrite(b, out, []).0 == out && Collapse(out) == out
  {
    hide Rewrite, Collapse;
    var mid := Rewrite(b, out, []).0;
    RewriteShortens(b, out, []);
    CollapseShortens(mid);
    CollapseFull(mid);
    assert Tidied(Collapse(mid)) == Spaced(Collapse(mid), 2);
    SpacedKeeps(Collapse(mid), 2);
    SpacedFull(Collapse(mid), 2);
  }

  lemma OwnBriefIsOk(refs: seq<Ref>)
    ensures BriefOk(OwnBrief(refs)) && OwnBrief(refs).findings == Urls(refs)
  {
    var b := OwnBrief(refs);
    forall u <- b.byUrl ensures b.byUrl[u].url == u {
      assert Urls(refs)[IndexOf(Urls(refs), u)] == u;
    }
  }

  lemma {:induction false} NoMarkNoBridge(ts: seq<Token>)
    requires forall i | 0 <= i < |ts| :: !ts[i].Mark?
    ensures !Bridged(ts)
  {
    if ts != [] {
      NoMarkNoBridge(ts[1..]);
    }
  }

  lemma {:induction false} NoLabelNoMark(ts: seq<Token>)
    ensures Labels(ts) == [] <==> forall i | 0 <= i < |ts| :: !ts[i].Mark?
  {
    if ts != [] {
      NoLabelNoMark(ts[1..]);
    }
  }

  lemma NoneOfNone(xs: seq<string>, ys: seq<string>)
    requires forall x <- xs :: x in ys
    ensures ys == [] ==> xs == []
  {
    assert xs != [] ==> xs[0] in xs;
  }

  lemma NothingCitedStays(b: Brief, ts: seq<Token>)
    requires BriefOk(b) && b.findings != [] && Rewrite(b, ts, []).1 == []
    ensures var out := Resolve(b, ts).0; StripAll(out) == out
    ensures Labels(Repaired(b, ts).0) == [] && !Bridged(Kept(b, ts))
  {
    hide Rewrite, Collapse, Bridged, Kept, Labels, Firsts, Others;
    var mid := Rewrite(b, ts, []).0;
    var c := Collapse(mid);
    RewriteFacts(b, ts);
    assert UpTo(0) == [];
    FirstsNotEmpty(Labels(mid));
    CollapsedLabels(mid);
    NoneOfNone(Labels(c), Labels(mid));
    SpacedKeeps(c, 2);
    SpacedTwice(c, 2);
    UncitedDraft(Tidied(c));
    RewriteKeepsShape(b, ts, []);
    NoLabelNoMark(mid);
    NoMarkNoBridge(Kept(b, ts));
  }

  /**
   * Resolving a resolved draft against its own references changes neither the text nor the references exactly when
   * first mentions survive and the writer's draft, less the markers that cite nothing, has no bridge: two citations,
   * or a citation and a link, with only spaces, commas and tabs before commas in between.
   */
  lemma ResolvingAgainIff(b: Brief, ts: seq<Token>)
    requires BriefOk(b) && b.findings != []
    ensures var (out, refs) := Resolve(b, ts);
            Resolve(OwnBrief(refs), out) == (out, refs)
            <==> FirstMentionsSurvive(b, ts) && !Bridged(Kept(b, ts))
  {
    hide Rewrite, Collapse, Bridged, Kept, Labels, Firsts, OwnBrief, Digits, FirstMentionsSurvive;
    var (out, refs) := Resolve(b, ts);
    var c := Repaired(b, ts).0;
    OwnBriefIsOk(refs);
    FirstMentionsIff(b, ts);
    assert UpTo(0) == [];
    if refs == [] {
      NothingCitedStays(b, ts);
      NoFirsts();
    } else {
      RewriteFacts(b, ts);
      SpacedKeeps(c, 2);
      SpacedTwice(c, 2);
      CollapseAgainIff(b, ts);
      if Firsts(Labels(c)) == UpTo(|refs|) && !Bridged(Kept(b, ts)) {
        assert [] + Labels(out) == Labels(out) && refs[..0] == [];
        NoFirsts();
        OwnDraftIsFixed(refs, out, 0, []);
      }
      if Resolve(OwnBrief(refs), out) == (out, refs) {
        UnchangedThroughout(OwnBrief(refs), out);
        RewriteFacts(OwnBrief(refs), out);
      }
    }
  }

  lemma NoFirsts()
    ensures Firsts<string>([]) == []
  {
  }

  /**
   * A draft whose repair keeps its meaning resolves once and for all exactly when it has no bridge.
   */
  lemma ResolvingAgainChangesNothing(b: Brief, ts: seq<Token>)
    requires BriefOk(b) && b.findings != [] && LinkSafe(b, ts)
    ensures var (out, refs) := Resolve(b, ts);
            Resolve(OwnBrief(refs), out) == (out, refs) <==> !Bridged(Kept(b, ts))
  {
    hide *;
    ResolvingAgainIff(b, ts);
    ResolvedDraftMeansTheSame(b, ts);
  }
}
