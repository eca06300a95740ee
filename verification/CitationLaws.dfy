/** What resolving citations preserves, and what it corrects. */
module CitationLaws {
  import opened Options
  import opened Sequences
  import opened Distinct
  import opened Decimal
  import opened Citations

  function Targets(b: Brief): string -> Option<Url> { num => Target(b, num) }

  function Entries(refs: seq<Ref>): string -> Option<Url> { num => Entry(refs, num) }

  /** The numbers 1 to n as they are printed. */
  function UpTo(n: nat): seq<string> { seq(n, i requires 0 <= i < n => Digits(i + 1)) }

  // ----- renumbering -----

  lemma PrintedNumber(k: nat)
    ensures IsLabel(Digits(k)) && Value(Digits(k)) == k
  {
    DigitsValue(k);
  }

  lemma RewriteKnown(b: Brief, u: Url, refs: seq<Ref>, seen: seq<string>)
    requires u in Urls(refs) && Firsts(seen) == UpTo(|refs|)
    ensures var x := Digits(IndexOf(Urls(refs), u) + 1);
            Entry(refs, x) == Some(u) && Firsts(seen + [x]) == UpTo(|refs|)
  {
    hide Digits, Value, IsLabel, Firsts, IndexOf;
    var k := IndexOf(Urls(refs), u) + 1;
    PrintedNumber(k);
    FirstsSnoc(seen, Digits(k));
    assert UpTo(|refs|)[k - 1] == Digits(k);
    assert Digits(k) in Firsts(seen);
  }

  lemma RewriteNew(refs: seq<Ref>, ref: Ref, seen: seq<string>)
    requires ref.url !in Urls(refs) && AllDistinct(Urls(refs)) && Firsts(seen) == UpTo(|refs|)
    ensures var x, refs1 := Digits(|refs| + 1), refs + [ref];
            && Entry(refs1, x) == Some(ref.url) && Firsts(seen + [x]) == UpTo(|refs1|)
            && AllDistinct(Urls(refs1))
  {
    hide Digits, Value, IsLabel, Firsts;
    var n := |refs| + 1;
    PrintedNumber(n);
    AppendRef(refs, ref);
    FirstsSnoc(seen, Digits(n));
    NextNumberIsNew(|refs|);
    assert Digits(n) !in Firsts(seen);
    assert UpTo(n) == UpTo(|refs|) + [Digits(n)];
    assert (refs + [ref])[n - 1] == ref;
  }

  /** Every reference is one of the brief's own. */
  ghost predicate FromSources(b: Brief, refs: seq<Ref>) {
    forall r <- refs :: r.url in b.byUrl && b.byUrl[r.url] == r
  }

  /** What one marker becomes, and what it makes of the references. */
  ghost predicate MarkOk(b: Brief, num: string, refs: seq<Ref>, seen: seq<string>, out: seq<Token>, refs1: seq<Ref>) {
    && refs <= refs1 && AllDistinct(Urls(refs1)) && FromSources(b, refs1)
    && (match Target(b, num)
        case None => out == [] && refs1 == refs
        case Some(u) =>
          && |out| == 1 && out[0].Mark? && Entry(refs1, out[0].num) == Some(u)
          && Firsts(seen + [out[0].num]) == UpTo(|refs1|))
  }

  /** One marker: it points where it pointed, and it is the next number exactly when its source is new. */
  lemma RewriteMark(b: Brief, num: string, refs: seq<Ref>, seen: seq<string>)
    requires BriefOk(b) && AllDistinct(Urls(refs)) && Firsts(seen) == UpTo(|refs|) && FromSources(b, refs)
    ensures MarkOk(b, num, refs, seen, RewriteOne(b, Mark(num), refs).0, RewriteOne(b, Mark(num), refs).1)
  {
    hide Entry, Firsts, UpTo, AllDistinct, Digits;
    match Target(b, num)
    case None =>
    case Some(u) =>
      if u in Urls(refs) {
        RewriteKnown(b, u, refs, seen);
      } else {
        RewriteNew(refs, b.byUrl[u], seen);
      }
  }

  lemma NextNumberIsNew(n: nat)
    ensures Digits(n + 1) !in UpTo(n)
  {
    if Digits(n + 1) in UpTo(n) {
      var i :| 0 <= i < n && Digits(i + 1) == Digits(n + 1);
      DigitsValue(i + 1);
      DigitsValue(n + 1);
    }
  }

  lemma EntryStays(refs: seq<Ref>, refs': seq<Ref>, num: string)
    requires refs <= refs' && Entry(refs, num).Some?
    ensures Entry(refs', num) == Entry(refs, num)
  {
  }

  /** Every surviving marker, gap by gap, points to the source the writer's markers pointed to. */
  ghost predicate SameMeaning(before: seq<Token>, point: string -> Option<Url>, after: seq<Token>, refs: seq<Ref>) {
    && Skeleton(after) == Skeleton(before)
    && forall g | 0 <= g < |Gaps(after)| :: Cited(Gaps(after)[g], Entries(refs)) == Cited(Gaps(before)[g], point)
  }

  ghost predicate AllResolved(nums: seq<string>, refs: seq<Ref>) { forall x <- nums :: Entry(refs, x).Some? }

  lemma NothingRewritten(b: Brief, refs: seq<Ref>, seen: seq<string>)
    ensures SameMeaning([], Targets(b), [], refs) && Cited(Labels([]), Entries(refs)) == Cited(Labels([]), Targets(b))
    ensures AllResolved(Labels([]), refs) && seen + Labels([]) == seen && Rewrite(b, [], refs) == ([], refs)
  {
  }

  lemma RewriteFirst(b: Brief, ts: seq<Token>, refs: seq<Ref>)
    requires ts != []
    ensures var (head, refs1) := RewriteOne(b, ts[0], refs);
            var (rest, refs2) := Rewrite(b, ts[1..], refs1);
            Rewrite(b, ts, refs) == (head + rest, refs2)
    ensures Others(ts) == (if ts[0].Mark? then [] else [ts[0]]) + Others(ts[1..])
    ensures [] + Others(ts[1..]) == Others(ts[1..])
  {
    hide RewriteOne;
  }

  lemma {:induction false} RewriteKeepsMeaning(b: Brief, ts: seq<Token>, refs: seq<Ref>, seen: seq<string>)
    requires BriefOk(b) && AllDistinct(Urls(refs)) && Firsts(seen) == UpTo(|refs|) && FromSources(b, refs)
    ensures var (out, refs2) := Rewrite(b, ts, refs);
            && refs <= refs2 && AllDistinct(Urls(refs2)) && FromSources(b, refs2)
            && SameMeaning(ts, Targets(b), out, refs2)
            && Cited(Labels(out), Entries(refs2)) == Cited(Labels(ts), Targets(b))
            && Others(out) == Others(ts)
            && AllResolved(Labels(out), refs2)
            && Firsts(seen + Labels(out)) == UpTo(|refs2|)
    decreases |ts|
  {
    hide SameMeaning, AllResolved, AllDistinct, FromSources, Cited, Firsts, UpTo, Labels, Target, Entry, RewriteOne, Rewrite,
         Others;
    if ts == [] {
      NothingRewritten(b, refs, seen);
    } else {
      RewriteFirst(b, ts, refs);
      var (head, refs1) := RewriteOne(b, ts[0], refs);
      var (rest, refs2) := Rewrite(b, ts[1..], refs1);
      if !ts[0].Mark? {
        OtherTokensStay(b, ts[0], refs);
        RewriteKeepsMeaning(b, ts[1..], refs1, seen);
        KeptToken(ts, Targets(b), rest, refs2);
      } else {
        RewriteMark(b, ts[0].num, refs, seen);
        if head == [] {
          RewriteKeepsMeaning(b, ts[1..], refs1, seen);
          assert head + rest == rest;
          DroppedMark(b, ts, rest, refs2);
        } else {
          RewriteKeepsMeaning(b, ts[1..], refs1, seen + [head[0].num]);
          ResolvedMark(b, ts, head[0].num, rest, refs1, refs2);
          assert head == [Mark(head[0].num)];
          assert seen + [head[0].num] + Labels(rest) == seen + ([head[0].num] + Labels(rest));
        }
      }
    }
  }

  lemma OtherTokensStay(b: Brief, t: Token, refs: seq<Ref>)
    requires !t.Mark?
    ensures RewriteOne(b, t, refs) == ([t], refs)
  {
  }

  /** Gaps that cite the same, with another first pair that cites the same. */
  lemma FirstGapSame(gaps': seq<seq<string>>, gaps: seq<seq<string>>, first': seq<string>, first: seq<string>,
                     point': string -> Option<Url>, point: string -> Option<Url>)
    requires gaps != [] && |gaps'| == |gaps| && Cited(first', point') == Cited(first, point)
    requires forall g | 0 <= g < |gaps'| :: Cited(gaps'[g], point') == Cited(gaps[g], point)
    ensures forall g | 0 <= g < |gaps'| ::
              Cited(([first'] + gaps'[1..])[g], point') == Cited(([first] + gaps[1..])[g], point)
  {
    hide Cited;
    forall g | 0 <= g < |gaps'|
      ensures Cited(([first'] + gaps'[1..])[g], point') == Cited(([first] + gaps[1..])[g], point)
    {
      if g > 0 {
        assert ([first'] + gaps'[1..])[g] == gaps'[g] && ([first] + gaps[1..])[g] == gaps[g];
      }
    }
  }

  lemma DroppedMark(b: Brief, ts: seq<Token>, rest: seq<Token>, refs: seq<Ref>)
    requires ts != [] && ts[0].Mark? && Target(b, ts[0].num).None?
    requires SameMeaning(ts[1..], Targets(b), rest, refs)
    requires Cited(Labels(rest), Entries(refs)) == Cited(Labels(ts[1..]), Targets(b))
    ensures SameMeaning(ts, Targets(b), rest, refs)
    ensures Cited(Labels(rest), Entries(refs)) == Cited(Labels(ts), Targets(b))
  {
    hide Cited, Gaps, Skeleton, Labels, Others, Target, Entry;
    var num := ts[0].num;
    assert ts == [Mark(num)] + ts[1..];
    MarkParts(num, ts[1..]);
    CitedCons(num, Gaps(ts[1..])[0], Targets(b));
    CitedCons(num, Labels(ts[1..]), Targets(b));
    FirstGapSame(Gaps(rest), Gaps(ts[1..]), Gaps(rest)[0], [num] + Gaps(ts[1..])[0], Entries(refs), Targets(b));
    assert Gaps(rest) == [Gaps(rest)[0]] + Gaps(rest)[1..];
  }

  lemma CitedCons(num: string, nums: seq<string>, point: string -> Option<Url>)
    ensures Cited([num] + nums, point)
            == if point(num).Some? then [point(num).value] + Cited(nums, point) else Cited(nums, point)
  {
    assert ([num] + nums)[1..] == nums;
  }

  /** The parts of a draft that starts with a citation. */
  lemma MarkParts(num: string, rest: seq<Token>)
    ensures Gaps([Mark(num)] + rest) == [[num] + Gaps(rest)[0]] + Gaps(rest)[1..]
    ensures Skeleton([Mark(num)] + rest) == Skeleton(rest)
    ensures Labels([Mark(num)] + rest) == [num] + Labels(rest) && Others([Mark(num)] + rest) == Others(rest)
  {
    assert ([Mark(num)] + rest)[1..] == rest;
  }

  /** The parts of a draft that starts with a link. */
  lemma LinkParts(num: string, rest: seq<Token>)
    ensures Gaps([Link(num)] + rest) == [[]] + Gaps(rest) && Skeleton([Link(num)] + rest) == [Link(num)] + Skeleton(rest)
  {
    assert ([Link(num)] + rest)[1..] == rest;
  }

  lemma ResolvedMark(b: Brief, ts: seq<Token>, num: string, rest: seq<Token>, refs1: seq<Ref>, refs2: seq<Ref>)
    requires ts != [] && ts[0].Mark? && refs1 <= refs2
    requires Target(b, ts[0].num).Some? && Entry(refs1, num) == Target(b, ts[0].num)
    requires SameMeaning(ts[1..], Targets(b), rest, refs2) && AllResolved(Labels(rest), refs2)
    requires Cited(Labels(rest), Entries(refs2)) == Cited(Labels(ts[1..]), Targets(b))
    ensures SameMeaning(ts, Targets(b), [Mark(num)] + rest, refs2)
    ensures Cited(Labels([Mark(num)] + rest), Entries(refs2)) == Cited(Labels(ts), Targets(b))
    ensures AllResolved(Labels([Mark(num)] + rest), refs2)
    ensures Labels([Mark(num)] + rest) == [num] + Labels(rest) && Others([Mark(num)] + rest) == Others(rest)
  {
    hide Cited, Gaps, Skeleton, Labels, Others, Target, Entry;
    EntryStays(refs1, refs2, num);
    assert ts == [Mark(ts[0].num)] + ts[1..];
    MarkParts(num, rest);
    MarkParts(ts[0].num, ts[1..]);
    CitedCons(num, Gaps(rest)[0], Entries(refs2));
    CitedCons(num, Labels(rest), Entries(refs2));
    CitedCons(ts[0].num, Gaps(ts[1..])[0], Targets(b));
    CitedCons(ts[0].num, Labels(ts[1..]), Targets(b));
    assert Entries(refs2)(num) == Targets(b)(ts[0].num);
    FirstGapSame(Gaps(rest), Gaps(ts[1..]), [num] + Gaps(rest)[0], [ts[0].num] + Gaps(ts[1..])[0],
                 Entries(refs2), Targets(b));
    assert forall x <- [num] + Labels(rest) :: Entry(refs2, x).Some?;
  }

  lemma KeptToken(ts: seq<Token>, point: string -> Option<Url>, rest: seq<Token>, refs: seq<Ref>)
    requires ts != [] && !ts[0].Mark? && SameMeaning(ts[1..], point, rest, refs)
    ensures SameMeaning(ts, point, [ts[0]] + rest, refs)
    ensures Labels(ts) == Labels(ts[1..])
    ensures Labels([ts[0]] + rest) == Labels(rest) && Others([ts[0]] + rest) == [ts[0]] + Others(rest)
  {
    assert ([ts[0]] + rest)[1..] == rest;
  }

  // ----- collapsing -----

  /**
   * The draft with its runs collapsed as promised: nothing but citations and separators changes, and before each
   * token of the skeleton the same numbers are cited, each once, in order.
   */
  ghost predicate Tidy(before: seq<Token>, after: seq<Token>) {
    && Skeleton(after) == Skeleton(before)
    && forall g | 0 <= g < |Gaps(before)| :: Gaps(after)[g] == Firsts(Gaps(before)[g])
  }

  /** No link repeats a number cited right before it. */
  ghost predicate LinkRepeatFree(ts: seq<Token>) {
    forall g | 0 <= g < |Skeleton(ts)| :: Skeleton(ts)[g].Link? ==> Skeleton(ts)[g].num !in Gaps(ts)[g]
  }

  /** Nothing but separators stands before the next text, or before the end. */
  predicate Closed(ts: seq<Token>) {
    var k := Separators(ts);
    k == |ts| || ts[k].Text?
  }

  lemma {:induction false} SeparatorsCiteNothing(ts: seq<Token>)
    ensures var rest := ts[Separators(ts)..]; Gaps(ts) == Gaps(rest) && Skeleton(ts) == Skeleton(rest)
    ensures Closed(ts) ==> Gaps(ts)[0] == []
  {
    if ts != [] && ts[0].Sep? {
      SeparatorsCiteNothing(ts[1..]);
      assert ts[1..][Separators(ts[1..])..] == ts[Separators(ts)..];
    } else {
      assert ts[0..] == ts;
    }
  }

  lemma NumbersCons(t: Token, run: seq<Token>)
    ensures Numbers([t] + run) == (if t.Mark? || t.Link? then [t.num] else []) + Numbers(run)
  {
    ConsTail(t, run);
  }

  lemma {:induction false} NumbersAppend(a: seq<Token>, b: seq<Token>)
    ensures Numbers(a + b) == Numbers(a) + Numbers(b)
    decreases |a|
  {
    if a == [] {
      assert a + b == b;
    } else {
      NumbersAppend(a[1..], b);
      NumbersCons(a[0], a[1..] + b);
      NumbersCons(a[0], a[1..]);
      hide Numbers;
      assert a + b == [a[0]] + (a[1..] + b) && a == [a[0]] + a[1..];
    }
  }

  lemma {:induction false} SeparatorsHaveNoNumbers(ts: seq<Token>)
    requires forall t <- ts :: t.Sep?
    ensures Numbers(ts) == []
  {
    if ts != [] {
      assert ts[0] in ts;
      SeparatorsHaveNoNumbers(ts[1..]);
    }
  }

  /** How a run and what follows it make up the gaps of the whole. */
  ghost predicate RunShape(ts: seq<Token>, n: nat)
    requires 0 < n <= |ts|
  {
    var ns, last, rest := Numbers(ts[..n]), ts[n - 1], ts[n..];
    && ns != []
    && (if last.Link? then
          && |ns| >= 2 && ns[|ns| - 1] == last.num
          && Gaps(ts) == [ns[..|ns| - 1]] + Gaps(rest) && Skeleton(ts) == [last] + Skeleton(rest)
        else
          && last.Mark? && Closed(rest) && Skeleton(ts) == Skeleton(rest)
          && Gaps(ts) == [ns] + Gaps(rest)[1..] && Gaps(rest)[0] == [])
  }

  /** A marker, k separators, and then the run that continues it. */
  lemma LongerRun(ts: seq<Token>, k: nat, m: nat)
    requires ts != [] && ts[0].Mark? && k == Separators(ts[1..]) && 1 + k < |ts| && ts[1 + k].Mark?
    requires 0 < m && 1 + k + m <= |ts| && RunShape(ts[1 + k..], m)
    ensures RunShape(ts, 1 + k + m)
  {
    var next, n, num := ts[1 + k..], 1 + k + m, ts[0].num;
    RunNumbers(ts, k, m);
    RunParts(ts, k);
    hide Gaps, Skeleton, Numbers, Closed, Separators;
    assert next[m..] == ts[n..] && next[m - 1] == ts[n - 1];
    var ns, gaps := Numbers(next[..m]), Gaps(ts[n..]);
    if next[m - 1].Link? {
      LongerLinked(num, ns, gaps);
    } else {
      LongerPlain(num, ns, gaps);
    }
  }

  /** The separators after a marker cite nothing. */
  lemma RunParts(ts: seq<Token>, k: nat)
    requires ts != [] && ts[0].Mark? && k == Separators(ts[1..])
    ensures var next := ts[1 + k..];
            Skeleton(ts) == Skeleton(next) && Gaps(ts) == [[ts[0].num] + Gaps(next)[0]] + Gaps(next)[1..]
  {
    SeparatorsCiteNothing(ts[1..]);
    hide Separators;
    MarkParts(ts[0].num, ts[1..]);
    hide Gaps, Skeleton;
    assert ts == [ts[0]] + ts[1..] && ts[1..][k..] == ts[1 + k..];
  }

  lemma LongerLinked(num: string, ns: seq<string>, gaps: seq<seq<string>>)
    requires ns != []
    ensures ([num] + ns)[..|[num] + ns| - 1] == [num] + ns[..|ns| - 1] && ([num] + ns)[|[num] + ns| - 1] == ns[|ns| - 1]
    ensures var rest := [ns[..|ns| - 1]] + gaps;
            [[num] + rest[0]] + rest[1..] == [[num] + ns[..|ns| - 1]] + gaps
  {
    ConsTail(ns[..|ns| - 1], gaps);
  }

  lemma LongerPlain(num: string, ns: seq<string>, gaps: seq<seq<string>>)
    requires gaps != []
    ensures var rest := [ns] + gaps[1..];
            [[num] + rest[0]] + rest[1..] == [[num] + ns] + gaps[1..]
  {
    ConsTail(ns, gaps[1..]);
  }

  lemma RunNumbers(ts: seq<Token>, k: nat, m: nat)
    requires ts != [] && ts[0].Mark? && k <= Separators(ts[1..]) && 1 + k + m <= |ts|
    ensures Numbers(ts[..1 + k + m]) == [ts[0].num] + Numbers(ts[1 + k..][..m])
  {
    var seps, next := ts[1..1 + k], ts[1 + k..];
    assert forall t <- seps :: t.Sep?;
    SeparatorsHaveNoNumbers(seps);
    hide Numbers, Separators;
    assert ts[..1 + k + m] == [ts[0]] + (seps + next[..m]);
    NumbersCons(ts[0], seps + next[..m]);
    NumbersAppend(seps, next[..m]);
    assert [] + Numbers(next[..m]) == Numbers(next[..m]);
  }

  /** A marker, k separators, and a link. */
  lemma LinkedRun(ts: seq<Token>, k: nat)
    requires ts != [] && ts[0].Mark? && k == Separators(ts[1..]) && 1 + k < |ts| && ts[1 + k].Link?
    ensures RunShape(ts, 2 + k)
  {
    var next := ts[1 + k..];
    SeparatorsCiteNothing(ts[1..]);
    assert ts[1..][k..] == next;
    RunNumbers(ts, k, 1);
    assert next[..1][1..] == [] && next[1..] == ts[2 + k..];
    assert Numbers(next[..1]) == [next[0].num];
    assert Numbers(ts[..2 + k]) == [ts[0].num, next[0].num];
    assert [ts[0].num, next[0].num][..1] == [ts[0].num];
    assert Gaps(ts[1..]) == [[]] + Gaps(ts[2 + k..]);
    assert [ts[0].num] + [] == [ts[0].num] && ([[]] + Gaps(ts[2 + k..]))[1..] == Gaps(ts[2 + k..]);
  }

  /** A marker with no other number before the next text. */
  lemma LoneRun(ts: seq<Token>)
    requires ts != [] && ts[0].Mark? && Closed(ts[1..])
    ensures RunShape(ts, 1)
  {
    SeparatorsCiteNothing(ts[1..]);
    assert ts[..1][1..] == [];
    assert Numbers(ts[..1]) == [ts[0].num];
  }

  lemma RunLengthIs(ts: seq<Token>, k: nat)
    requires ts != [] && ts[0].Mark? && k == Separators(ts[1..])
    ensures if 1 + k < |ts| && ts[1 + k].Mark? then RunLength(ts) == 1 + k + RunLength(ts[1 + k..])
            else if 1 + k < |ts| && ts[1 + k].Link? then RunLength(ts) == 2 + k
            else RunLength(ts) == 1 && Closed(ts[1..])
  {
  }

  /** A run is everything cited in its gap, and takes the link that ends the gap with it. */
  lemma {:induction false} RunIsTheGap(ts: seq<Token>)
    requires ts != [] && ts[0].Mark?
    ensures RunShape(ts, RunLength(ts))
    decreases |ts|
  {
    hide *;
    var k := Separators(ts[1..]);
    RunLengthIs(ts, k);
    if 1 + k < |ts| && ts[1 + k].Mark? {
      RunIsTheGap(ts[1 + k..]);
      LongerRun(ts, k, RunLength(ts[1 + k..]));
    } else if 1 + k < |ts| && ts[1 + k].Link? {
      LinkedRun(ts, k);
    } else {
      LoneRun(ts);
    }
  }

  /** Collapsing, one run or token at a time. */
  lemma CollapseOne(ts: seq<Token>)
    ensures if ts == [] then Collapse(ts) == []
            else if ts[0].Mark? then
              var n := RunLength(ts);
              Numbers(ts[..n]) != [] && Collapse(ts) == Collapsed(ts[..n]) + Collapse(ts[n..])
            else Collapse(ts) == [ts[0]] + Collapse(ts[1..])
  {
    if ts != [] && ts[0].Mark? {
      RunIsTheGap(ts);
    }
  }

  lemma {:induction false} GapsOfMarks(ns: seq<string>, rest: seq<Token>)
    ensures Gaps(Marks(ns) + rest) == [ns + Gaps(rest)[0]] + Gaps(rest)[1..]
    ensures Skeleton(Marks(ns) + rest) == Skeleton(rest)
    decreases |ns|
  {
    if ns == [] {
      assert Marks(ns) + rest == rest && ns + Gaps(rest)[0] == Gaps(rest)[0];
    } else {
      var more, gap, gaps := ns[1..], Gaps(rest)[0], Gaps(rest)[1..];
      GapsOfMarks(more, rest);
      assert ns == [ns[0]] + more && Marks(ns) == [Mark(ns[0])] + Marks(more);
      hide *;
      Associate([Mark(ns[0])], Marks(more), rest);
      MarkParts(ns[0], Marks(more) + rest);
      ConsTail(more + gap, gaps);
      Associate([ns[0]], more, gap);
    }
  }

  /** What collapsing makes of a run that no link ends. */
  lemma CollapsedPlain(run: seq<Token>, rest: seq<Token>)
    requires run != [] && Numbers(run) != [] && !run[|run| - 1].Link? && Gaps(rest)[0] == []
    ensures Gaps(Collapsed(run) + rest) == [Firsts(Numbers(run))] + Gaps(rest)[1..]
    ensures Skeleton(Collapsed(run) + rest) == Skeleton(rest)
  {
    var ns := Firsts(Numbers(run));
    GapsOfMarks(ns, rest);
    assert ns + [] == ns;
  }

  /** What collapsing makes of a run with its link: the parenthesis stays with whichever number comes last. */
  lemma CollapsedLinked(run: seq<Token>, rest: seq<Token>)
    requires run != [] && Numbers(run) != [] && run[|run| - 1].Link?
    ensures var ns := Firsts(Numbers(run));
            && ns != [] && Gaps(Collapsed(run) + rest) == [ns[..|ns| - 1]] + Gaps(rest)
            && Skeleton(Collapsed(run) + rest) == [Link(ns[|ns| - 1])] + Skeleton(rest)
  {
    var ns := Firsts(Numbers(run));
    assert Numbers(run)[0] in ns;
    var init, link := ns[..|ns| - 1], Link(ns[|ns| - 1]);
    assert Collapsed(run) == Marks(init) + [link];
    hide *;
    GapsOfMarks(init, [link] + rest);
    LinkParts(link.num, rest);
    Associate(Marks(init), [link], rest);
    ConsTail([], Gaps(rest));
    assert init + [] == init;
  }

  lemma {:induction false} ClosedSkeleton(ts: seq<Token>)
    requires Closed(ts)
    ensures Skeleton(ts) != [] ==> !Skeleton(ts)[0].Link?
  {
    if ts != [] && ts[0].Sep? {
      assert Separators(ts) == 1 + Separators(ts[1..]);
      ClosedSkeleton(ts[1..]);
    }
  }

  lemma ClosedCons(t: Token, rest: seq<Token>)
    ensures Closed([t] + rest) <==> t.Text? || (t.Sep? && Closed(rest))
  {
    ConsTail(t, rest);
  }

  lemma {:induction false} CollapseKeepsClosed(ts: seq<Token>)
    requires Closed(ts)
    ensures Closed(Collapse(ts))
    decreases |ts|
  {
    hide Collapse, Closed;
    CollapseOne(ts);
    if ts != [] {
      assert ts == [ts[0]] + ts[1..];
      ClosedCons(ts[0], ts[1..]);
      ClosedCons(ts[0], Collapse(ts[1..]));
      if ts[0].Sep? {
        CollapseKeepsClosed(ts[1..]);
      }
    }
  }

  lemma TokenShape(t: Token, rest: seq<Token>)
    requires !t.Mark?
    ensures Gaps([t] + rest) == if t.Sep? then Gaps(rest) else [[]] + Gaps(rest)
    ensures Skeleton([t] + rest) == if t.Sep? then Skeleton(rest) else [t] + Skeleton(rest)
  {
    assert ([t] + rest)[1..] == rest;
  }

  // ----- collapsing twice -----

  lemma {:induction false} NumbersOfMarks(ns: seq<string>)
    ensures Numbers(Marks(ns)) == ns
  {
    if ns != [] {
      assert Marks(ns)[1..] == Marks(ns[1..]);
      NumbersOfMarks(ns[1..]);
      assert ns == [ns[0]] + ns[1..];
    }
  }

  /** A collapsed run, with nothing but separators before the next text, is a run by itself. */
  lemma {:induction false} MarksAreOneRun(ns: seq<string>, rest: seq<Token>)
    requires ns != [] && Closed(rest)
    ensures RunLength(Marks(ns) + rest) == |ns|
    decreases |ns|
  {
    var ts := Marks(ns) + rest;
    assert ts[1..] == Marks(ns[1..]) + rest;
    if |ns| > 1 {
      MarksAreOneRun(ns[1..], rest);
      assert ts[1..][0].Mark? && ts[1 + 0..] == ts[1..];
    } else {
      assert ts[1..] == rest;
      var k := Separators(rest);
      assert k < |rest| ==> ts[1 + k] == rest[k];
    }
  }

  lemma {:induction false} LinkedMarksAreOneRun(ns: seq<string>, num: string, rest: seq<Token>)
    requires ns != []
    ensures RunLength(Marks(ns) + [Link(num)] + rest) == |ns| + 1
    decreases |ns|
  {
    var ts := Marks(ns) + [Link(num)] + rest;
    assert ts[1..] == Marks(ns[1..]) + [Link(num)] + rest;
    if |ns| > 1 {
      LinkedMarksAreOneRun(ns[1..], num, rest);
      assert ts[1..][0].Mark? && ts[1 + 0..] == ts[1..];
    } else {
      assert ts[1..][0] == Link(num) && ts[1] == Link(num);
    }
  }

  lemma PlainRunTwice(run: seq<Token>, rest: seq<Token>)
    requires run != [] && Numbers(run) != [] && !run[|run| - 1].Link? && Closed(rest) && Collapse(rest) == rest
    ensures Collapse(Collapsed(run) + rest) == Collapsed(run) + rest
  {
    var ns := Firsts(Numbers(run));
    assert Numbers(run)[0] in ns;
    var ts := Marks(ns) + rest;
    MarksAreOneRun(ns, rest);
    NumbersOfMarks(ns);
    FirstsTwice(Numbers(run));
    assert ts[..|ns|] == Marks(ns) && ts[|ns|..] == rest;
    assert Collapsed(Marks(ns)) == Marks(ns);
  }

  function LinkedMarks(ns: seq<string>): seq<Token>
    requires ns != []
  {
    Marks(ns[..|ns| - 1]) + [Link(ns[|ns| - 1])]
  }

  lemma LinkedMarksStay(ns: seq<string>)
    requires ns != [] && AllDistinct(ns)
    ensures Numbers(LinkedMarks(ns)) == ns && Collapsed(LinkedMarks(ns)) == LinkedMarks(ns)
  {
    var init, last := ns[..|ns| - 1], ns[|ns| - 1];
    NumbersAppend(Marks(init), [Link(last)]);
    NumbersOfMarks(init);
    NumbersCons(Link(last), []);
    assert Numbers([]) == [];
    hide Numbers;
    assert init + [last] == ns && [Link(last)] + [] == [Link(last)] && [last] + [] == [last];
    FirstsOfDistinct(ns);
    hide Firsts;
  }

  lemma LinkedMarksTwice(ns: seq<string>, rest: seq<Token>)
    requires ns != [] && AllDistinct(ns) && Collapse(rest) == rest
    ensures Collapse(LinkedMarks(ns) + rest) == LinkedMarks(ns) + rest
  {
    hide Collapse, Collapsed, RunLength, Numbers, AllDistinct;
    var out := LinkedMarks(ns);
    LinkedMarksStay(ns);
    CollapseOne(out + rest);
    if |ns| > 1 {
      LinkedMarksAreOneRun(ns[..|ns| - 1], ns[|ns| - 1], rest);
      assert (out + rest)[..|out|] == out && (out + rest)[|out|..] == rest;
    } else {
      assert out == [Link(ns[0])];
      ConsTail(Link(ns[0]), rest);
    }
  }

  lemma LinkedRunTwice(run: seq<Token>, rest: seq<Token>)
    requires run != [] && Numbers(run) != [] && run[|run| - 1].Link? && Collapse(rest) == rest
    ensures Collapse(Collapsed(run) + rest) == Collapsed(run) + rest
  {
    hide Collapse, Numbers, Firsts, AllDistinct;
    FirstsNotEmpty(Numbers(run));
    FirstsAreDistinct(Numbers(run));
    LinkedMarksTwice(Firsts(Numbers(run)), rest);
  }

  /** Collapsing a collapsed draft changes nothing, whatever the draft. */
  lemma {:induction false} CollapseTwice(ts: seq<Token>)
    ensures Collapse(Collapse(ts)) == Collapse(ts)
    decreases |ts|
  {
    if ts == [] {
    } else if ts[0].Mark? {
      var n := RunLength(ts);
      RunIsTheGap(ts);
      CollapseTwice(ts[n..]);
      if ts[n - 1].Link? {
        LinkedRunTwice(ts[..n], Collapse(ts[n..]));
      } else {
        CollapseKeepsClosed(ts[n..]);
        PlainRunTwice(ts[..n], Collapse(ts[n..]));
      }
    } else {
      CollapseTwice(ts[1..]);
      assert Collapse(ts)[1..] == Collapse(ts[1..]);
    }
  }
}
