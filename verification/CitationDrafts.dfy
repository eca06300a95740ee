/** Drafts that resolve as promised, and two that do not. */
module CitationDrafts {
  import opened Options
  import opened Sequences
  import opened Distinct
  import opened Decimal
  import opened Citations
  import opened CitationLaws
  import opened CitationSpacing
  import opened CitationBridges
  import opened CitationMeaning
  import opened CitationPrints
  import opened CitationFixpoint

  // ----- drafts without trouble -----

  /** In the writer's own draft: no link comes right after a citation. */
  ghost predicate NoLinkAfterCitation(ts: seq<Token>) {
    forall g | 0 <= g < |Skeleton(ts)| :: Skeleton(ts)[g].Link? ==> Gaps(ts)[g] == []
  }

  lemma {:induction false} NoTabNoBridge(b: Brief, ts: seq<Token>)
    requires Tab !in ts
    ensures !Bridged(Kept(b, ts)) && !Spans(Kept(b, ts), false)
  {
    if ts != [] {
      assert ts[0] in ts && forall t <- ts[1..] :: t in ts;
      NoTabNoBridge(b, ts[1..]);
      var rest := Kept(b, ts[1..]);
      assert [] + rest == rest;
      SpansCons(ts[0], rest, false);
      assert IsBlank(ts[0]) ==> ts[0].Sep?;
    }
    hide Bridged, Spans, Target;
  }

  /**
   * A draft without a link right after a citation and without a tab resolves as promised, whatever the brief, and
   * resolving it again changes nothing.
   */
  lemma NoLinkAfterCitationIsEnough(b: Brief, ts: seq<Token>)
    requires BriefOk(b) && b.findings != [] && NoLinkAfterCitation(ts) && Tab !in ts
    ensures var (out, refs) := Resolve(b, ts);
            && CitesTheSame(b, ts, Repaired(b, ts).0, refs) && PrintsTheSame(b, ts, out, refs)
            && Firsts(Labels(out)) == UpTo(|refs|) && Resolve(OwnBrief(refs), out) == (out, refs)
  {
    assert LinkSafe(b, ts) by {
      hide CitedSources, Digits, Skeleton, Gaps;
      NothingIsCited(Targets(b));
    }
    hide *;
    ResolvedDraftMeansTheSame(b, ts);
    ResolvingAgainChangesNothing(b, ts);
    NoTabNoBridge(b, ts);
  }

  // ----- two drafts with trouble -----

  lemma {:induction false} UncitedRewrite(b: Brief, ts: seq<Token>, refs: seq<Ref>)
    requires Labels(ts) == []
    ensures Rewrite(b, ts, refs) == (ts, refs)
  {
    if ts != [] {
      UncitedRewrite(b, ts[1..], refs);
      assert ts == [ts[0]] + ts[1..];
    }
  }

  /** A number cited right before a link with the same number, and text after the link. */
  lemma CollapseIntoLink(num: string, text: Token)
    requires text.Text?
    ensures Collapse([Mark(num), Sep(' '), Link(num), text]) == [Link(num), text]
  {
    var ts := [Mark(num), Sep(' '), Link(num), text];
    var run := [Mark(num), Sep(' '), Link(num)];
    RepeatRun(num, text);
    RepeatCollapsed(num);
    assert ts[..3] == run && ts[3..] == [text];
    assert [text][1..] == [];
    hide Collapsed, RunLength, Numbers;
    assert Collapse([text]) == [text];
    assert Collapse(ts) == Collapsed(run) + Collapse([text]);
  }

  lemma RepeatRun(num: string, text: Token)
    requires text.Text?
    ensures RunLength([Mark(num), Sep(' '), Link(num), text]) == 3
  {
    var ts := [Mark(num), Sep(' '), Link(num), text];
    assert ts[1..] == [Sep(' '), Link(num), text] && ts[1..][1..] == [Link(num), text];
    assert Separators([Link(num), text]) == 0;
    assert Separators(ts[1..]) == 1;
    RunLengthIs(ts, 1);
    hide RunLength, Separators;
  }

  lemma RepeatCollapsed(num: string)
    ensures var run := [Mark(num), Sep(' '), Link(num)];
            Numbers(run) != [] && Collapsed(run) == [Link(num)]
  {
    var run := [Mark(num), Sep(' '), Link(num)];
    assert run[1..] == [Sep(' '), Link(num)] && run[1..][1..] == [Link(num)] && [Link(num)][1..] == [];
    assert Numbers([Link(num)]) == [num] && Numbers([Sep(' '), Link(num)]) == [num];
    assert Numbers(run) == [num, num];
    hide Numbers;
    FirstsSnoc([num], num);
    FirstsSnoc([], num);
    assert [num, num] == [num] + [num] && [num] == [] + [num];
    assert Firsts([num, num]) == [num];
    hide Firsts;
    assert Marks([num][..0]) == [];
  }

  /** The condition is needed: a writer's [2] right before a link [1](...) to another source loses its citation. */
  lemma CitationLostToALink(refs: seq<Ref>, text: Token)
    requires |refs| == 2 && refs[0].url != refs[1].url && text.Text?
    ensures var b := OwnBrief(refs);
            var ts := [Mark(Digits(2)), Sep(' '), Link(Digits(1)), text];
            Target(b, Digits(2)) == Some(refs[1].url) && Resolve(b, ts) == ([Link(Digits(1)), text], [refs[1]])
  {
    hide Digits, OwnBrief, Collapse;
    FirstMarkBecomesOne(refs);
    var b := OwnBrief(refs);
    var rest := [Sep(' '), Link(Digits(1)), text];
    var ts := [Mark(Digits(2)), Sep(' '), Link(Digits(1)), text];
    assert ts[1..] == rest;
    NothingCited(rest);
    UncitedRewrite(b, rest, [refs[1]]);
    CollapseIntoLink(Digits(1), text);
    hide Labels, RewriteOne, Target;
    assert [Mark(Digits(1))] + rest == [Mark(Digits(1)), Sep(' '), Link(Digits(1)), text];
    assert Rewrite(b, ts, []) == ([Mark(Digits(1))] + rest, [refs[1]]);
    assert b.findings == Urls(refs) by { OwnFindings(refs); }
    LinkAndTextStay(Digits(1), text);
  }

  lemma LinkAndTextStay(num: string, text: Token)
    requires text.Text?
    ensures Tidied([Link(num), text]) == [Link(num), text]
  {
    assert [Link(num)] + [text] == [Link(num), text] && [text] + [] == [text];
    SpacedCons(text, [], 1);
    SpacedCons(Link(num), [text], 2);
    NothingSpaced(RoomAfter(text));
    assert Tidied([Link(num), text]) == Spaced([Link(num), text], 2);
  }

  /**
   * A tab before a comma between two citations of one source: tidied, they are a run with a comma in it, which
   * resolving again collapses.
   */
  lemma TabBeforeCommaIsNotFixed(ref: Ref, text: Token)
    requires text.Text? && !IsPunct(text) && !IsBlank(text)
    ensures var b, mark := OwnBrief([ref]), Mark(Digits(1));
            var out := [mark, Sep(','), mark, text];
            && LinkSafe(b, [mark, Tab, Sep(','), mark, text])
            && Resolve(b, [mark, Tab, Sep(','), mark, text]) == (out, [ref])
            && Resolve(b, out) == ([mark, text], [ref])
  {
    hide *;
    TabbedDraftResolves(ref, text);
    CommaDraftResolves(ref, text);
  }

  lemma ResolveStages(b: Brief, ts: seq<Token>, mid: seq<Token>, refs: seq<Ref>)
    requires b.findings != [] && Rewrite(b, ts, []) == (mid, refs)
    ensures Resolve(b, ts) == (Tidied(Collapse(mid)), refs)
  {
    hide Rewrite, Collapse, Tidied;
  }

  lemma OneSource(ref: Ref)
    ensures OwnBrief([ref]).findings != []
  {
    OwnBriefIsOk([ref]);
    assert |Urls([ref])| == 1;
  }

  lemma TabbedDraftResolves(ref: Ref, text: Token)
    requires text.Text? && !IsPunct(text) && !IsBlank(text)
    ensures var b, mark := OwnBrief([ref]), Mark(Digits(1));
            var ts := [mark, Tab, Sep(','), mark, text];
            LinkSafe(b, ts) && Resolve(b, ts) == ([mark, Sep(','), mark, text], [ref])
  {
    hide Digits, Rewrite, Collapse, OwnBrief, Tidied, LinkSafe, IsPunct, IsBlank, Resolve;
    var b, mark := OwnBrief([ref]), Mark(Digits(1));
    var ts := [mark, Tab, Sep(','), mark, text];
    OneSource(ref);
    OneSourceStays(ref, ts);
    ResolveStages(b, ts, ts, [ref]);
    CollapseAcrossTab(mark.num, text);
    TidyAcrossTab(mark.num, text);
    NoLinks(b, ts);
  }

  lemma CommaDraftResolves(ref: Ref, text: Token)
    requires text.Text? && !IsPunct(text) && !IsBlank(text)
    ensures var b, mark := OwnBrief([ref]), Mark(Digits(1));
            Resolve(b, [mark, Sep(','), mark, text]) == ([mark, text], [ref])
  {
    hide Digits, Rewrite, Collapse, OwnBrief, Tidied, IsPunct, IsBlank, Resolve;
    var b, mark := OwnBrief([ref]), Mark(Digits(1));
    var ts := [mark, Sep(','), mark, text];
    OneSource(ref);
    OneSourceStays(ref, ts);
    ResolveStages(b, ts, ts, [ref]);
    CollapseAcrossComma(mark.num, text);
    TidyAcrossTab(mark.num, text);
  }

  lemma NoLinks(b: Brief, ts: seq<Token>)
    requires forall t <- ts :: !t.Link?
    ensures LinkSafe(b, ts)
  {
    SkeletonIsFrom(ts);
    hide Skeleton, Gaps, CitedSources, Cited, Digits;
  }

  lemma {:induction false} SkeletonIsFrom(ts: seq<Token>)
    ensures forall t <- Skeleton(ts) :: t in ts
  {
    if ts != [] {
      SkeletonIsFrom(ts[1..]);
    }
  }

  /** A draft whose only citations are [1], against one source: renumbering changes nothing. */
  lemma OneSourceStays(ref: Ref, ts: seq<Token>)
    requires ts != [] && ts[0] == Mark(Digits(1)) && forall t <- ts :: t.Mark? ==> t == ts[0]
    ensures Rewrite(OwnBrief([ref]), ts, []) == (ts, [ref])
  {
    hide Digits, Rewrite, OwnBrief, Firsts;
    assert AllDistinct(Urls([ref])) && [ref][..0] == [];
    OnlyLabel(ts, Digits(1));
    assert UpTo(1) == [Digits(1)] && UpTo(0) == [] && |[ref]| == 1;
    OneFirst(Labels(ts), Digits(1));
    assert [] + Labels(ts) == Labels(ts);
    NoFirsts();
    OwnDraftIsFixed([ref], ts, 0, []);
  }

  lemma {:induction false} OnlyLabel(ts: seq<Token>, num: string)
    requires forall t <- ts :: t.Mark? ==> t.num == num
    ensures (forall x <- Labels(ts) :: x == num) && (ts != [] && ts[0].Mark? ==> Labels(ts) != [])
  {
    if ts != [] {
      assert ts[0] in ts && forall t <- ts[1..] :: t in ts;
      OnlyLabel(ts[1..], num);
    }
  }

  lemma {:induction false} OneFirst(xs: seq<string>, x: string)
    requires forall y <- xs :: y == x
    ensures Firsts(xs) == if xs == [] then [] else [x]
    decreases |xs|
  {
    if xs != [] {
      var init := xs[..|xs| - 1];
      assert xs[|xs| - 1] in xs && forall y <- init :: y in xs;
      assert xs == init + [x];
      OneFirst(init, x);
      FirstsSnoc(init, x);
      assert init != [] ==> init[0] in init;
    }
  }

  lemma CollapseAcrossTab(num: string, text: Token)
    requires text.Text?
    ensures var mark := Mark(num); Collapse([mark, Tab, Sep(','), mark, text]) == [mark, Tab, Sep(','), mark, text]
  {
    var mark, comma := Mark(num), Sep(',');
    var ts := [mark, Tab, comma, mark, text];
    var rest := [Tab, comma, mark, text];
    var last := [mark, text];
    assert ts == [mark] + rest && rest == [Tab] + [comma, mark, text] && [comma, mark, text] == [comma] + last;
    assert last == [mark] + [text] && [text] == [text] + [];
    hide Settled, GapFrom, Block, Collapse;
    SettledCons(mark, rest);
    SettledCons(Tab, [comma, mark, text]);
    SettledCons(comma, last);
    SettledCons(mark, [text]);
    SettledCons(text, []);
    ReachCons(Tab, [comma, mark, text], false);
    ReachCons(text, [], false);
    BlockCons(Tab, [comma, mark, text]);
    BlockCons(text, []);
    EmptyIsSettled();
    SettledIff(ts);
  }

  lemma CollapseAcrossComma(num: string, text: Token)
    requires text.Text?
    ensures var mark := Mark(num); Collapse([mark, Sep(','), mark, text]) == [mark, text]
  {
    var mark, comma := Mark(num), Sep(',');
    var ts := [mark, comma, mark, text];
    var run := [mark, comma, mark];
    assert ts[1..] == [comma, mark, text] && [comma, mark, text][1..] == [mark, text] && ts[2..] == [mark, text];
    assert Separators([mark, text]) == 0 && Separators([comma, mark, text]) == 1;
    RunLengthIs(ts, 1);
    assert [mark, text][1..] == [text] && Separators([text]) == 0;
    RunLengthIs([mark, text], 0);
    assert RunLength(ts) == 3 && ts[..3] == run && ts[3..] == [text];
    RunNumbersAre(num);
    assert [text][1..] == [];
    hide RunLength, Separators, Numbers, Collapsed;
    assert Collapse([text]) == [text];
    assert Collapse(ts) == Collapsed(run) + Collapse([text]);
  }

  lemma RunNumbersAre(num: string)
    ensures var run := [Mark(num), Sep(','), Mark(num)];
            Numbers(run) != [] && Collapsed(run) == [Mark(num)]
  {
    hide Numbers, Firsts;
    var mark := Mark(num);
    var run := [mark, Sep(','), mark];
    assert run == [mark] + ([Sep(',')] + ([mark] + []));
    NoNumbers();
    NumbersCons(mark, []);
    NumbersCons(Sep(','), [mark] + []);
    NumbersCons(mark, [Sep(',')] + ([mark] + []));
    assert Numbers(run) == [num, num];
    OneFirst([num, num], num);
    assert Marks([num]) == [mark];
  }

  lemma TidyAcrossTab(num: string, text: Token)
    requires text.Text? && !IsPunct(text) && !IsBlank(text)
    ensures var mark := Mark(num);
            && Tidied([mark, Tab, Sep(','), mark, text]) == [mark, Sep(','), mark, text]
            && Tidied([mark, text]) == [mark, text]
  {
    var mark, comma := Mark(num), Sep(',');
    var ts := [mark, Tab, comma, mark, text];
    MarkedTextIsTidy(mark, text);
    assert ts == [mark] + [Tab, comma, mark, text] && [Tab, comma, mark, text] == [Tab] + [comma, mark, text];
    assert [comma, mark, text] == [comma] + [mark, text];
    hide Squeeze, CloseUp, Spaced, PunctFollows;
    PunctCons(comma, [mark, text]);
    PunctCons(Tab, [comma, mark, text]);
    SpacedCons(mark, [Tab, comma, mark, text], 2);
    SpacedCons(Tab, [comma, mark, text], 1);
    SpacedCons(comma, [mark, text], 1);
    TidiedIsSpaced(ts);
    TidiedIsSpaced([mark, text]);
  }

  lemma MarkedTextIsTidy(mark: Token, text: Token)
    requires mark.Mark? && text.Text? && !IsPunct(text) && !IsBlank(text)
    ensures Spaced([mark, text], 1) == [mark, text] && Spaced([mark, text], 2) == [mark, text]
  {
    assert [mark, text] == [mark] + [text] && [text] == [text] + [];
    hide Squeeze, CloseUp, Spaced, PunctFollows;
    SpacedCons(mark, [text], 1);
    SpacedCons(mark, [text], 2);
    SpacedCons(text, [], 1);
    NothingSpaced(RoomAfter(text));
  }

  lemma TidiedIsSpaced(ts: seq<Token>)
    ensures Tidied(ts) == Spaced(ts, 2)
  {
  }

  lemma OwnFindings(refs: seq<Ref>)
    ensures OwnBrief(refs).findings == Urls(refs)
  {
  }

  lemma NothingCited(ts: seq<Token>)
    requires forall t <- ts :: !t.Mark?
    ensures Labels(ts) == []
  {
    if ts != [] {
      assert ts[0] in ts;
      NothingCited(ts[1..]);
    }
  }

  lemma FirstMarkBecomesOne(refs: seq<Ref>)
    requires |refs| == 2 && refs[0].url != refs[1].url
    ensures var b := OwnBrief(refs);
            && Target(b, Digits(2)) == Some(refs[1].url)
            && RewriteOne(b, Mark(Digits(2)), []) == ([Mark(Digits(1))], [refs[1]])
  {
    var b := OwnBrief(refs);
    assert Urls(refs)[0] == refs[0].url && Urls(refs)[1] == refs[1].url;
    OwnBriefPointsToEntries(refs, 2);
    hide Digits;
    assert Urls([]) == [] && [] + [refs[1]] == [refs[1]];
    var out := RewriteOne(b, Mark(Digits(2)), []);
    assert out.0 == [Mark(Digits(1))] && out.1 == [refs[1]];
  }
}
