/** Resolving a draft as the code does it: run by run, and the whole. */
module CitationResolve {
  import opened Options
  import opened Sequences
  import opened Distinct
  import opened Decimal
  import opened Citations
  import opened CitationLaws
  import opened CitationSpacing
  import opened CitationBridges
  import opened CitationFixpoint

  /** The replacement of one run, as the closure builds it. */
  method ReplaceRun(run: seq<Token>) returns (out: seq<Token>)
    requires run != [] && Numbers(run) != []
    ensures out == Collapsed(run)
  {
    var numbers := CollapseRun(Numbers(run));
    assert Numbers(run)[0] in numbers;
    out := if run[|run| - 1].Link?
      then Marks(numbers[..|numbers| - 1]) + [Link(numbers[|numbers| - 1])]
      else Marks(numbers);
  }

  method CollapseDraft(ts: seq<Token>) returns (out: seq<Token>)
    ensures out == Collapse(ts)
  {
    hide Collapse, RunLength, Numbers, Collapsed;
    out := [];
    var rest := ts;
    while rest != []
      invariant out + Collapse(rest) == Collapse(ts)
      decreases |rest|
    {
      CollapseOne(rest);
      if rest[0].Mark? {
        var n := RunLength(rest);
        var replaced := ReplaceRun(rest[..n]);
        Associate(out, replaced, Collapse(rest[n..]));
        out := out + replaced;
        rest := rest[n..];
      } else {
        Associate(out, [rest[0]], Collapse(rest[1..]));
        out := out + [rest[0]];
        rest := rest[1..];
      }
    }
    CollapseOne([]);
  }

  method ResolveCitations(b: Brief, ts: seq<Token>) returns (out: seq<Token>, refs: seq<Ref>)
    requires BriefOk(b)
    ensures (out, refs) == Resolve(b, ts)
  {
    if b.findings == [] {
      return StripAll(ts), [];
    }
    var rewritten;
    rewritten, refs := Renumber(b, ts);
    out := CollapseDraft(rewritten);
    out := Tidied(out);
  }

  // ----- without a brief -----

  /** Without findings every citation goes, then only blanks do; doing it again changes nothing. */
  lemma StrippedDraft(ts: seq<Token>)
    ensures Labels(StripAll(ts)) == [] && NonBlank(StripAll(ts)) == NonBlank(Others(ts))
    ensures StripAll(StripAll(ts)) == StripAll(ts)
  {
    hide NonBlank, Others;
    OthersHaveNoLabel(ts);
    SpacedKeeps(Others(ts), 2);
    SpacedTwice(Others(ts), 2);
    assert StripAll(ts) == Spaced(Others(ts), 2);
    UncitedDraft(StripAll(ts));
  }

  lemma {:induction false} OthersHaveNoLabel(ts: seq<Token>)
    ensures Labels(Others(ts)) == []
  {
    if ts != [] {
      OthersHaveNoLabel(ts[1..]);
      ConsTail(ts[0], Others(ts[1..]));
      assert [] + Others(ts[1..]) == Others(ts[1..]);
    }
  }
}
