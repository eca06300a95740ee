/** Findings routed to a comment on the diff or to the summary, and what the review decides. */
module ReviewRouting {
  import opened DiffLines
  import opened Options
  import opened Sequences
  import opened ReviewFields
  import opened ReviewRanking
  import opened ReviewSchema

  // ----- routing -----

  datatype ChangedFile = ChangedFile(path: string, lines: set<nat>)

  datatype Payload = Payload(verdict: Field, summary: Field, issues: Option<seq<Raw>>)

  datatype Review = Review(verdict: string, summary: string, inline: seq<Issue>, orphaned: seq<Issue>)

  /** An entry of the pull request's file list; a file above the size limit comes without its patch. */
  function PatchOf(entry: (string, Option<string>)): string { entry.1.UnwrapOr("") }

  ghost predicate IsParsed(file: ChangedFile, entry: (string, Option<string>)) {
    && file.path == entry.0
    && Commentable(PatchOf(entry)) == Some(file.lines) && 0 !in file.lines
  }

  /** Every file with the lines of its own patch; None when a patch is refused, and with it the whole pull request. */
  method ParseChangedFiles(entries: seq<(string, Option<string>)>) returns (files: Option<seq<ChangedFile>>)
    ensures files.None? <==> exists entry <- entries :: Commentable(PatchOf(entry)).None?
    ensures files.Some? ==>
              && |files.value| == |entries|
              && forall i | 0 <= i < |entries| :: IsParsed(files.value[i], entries[i])
  {
    hide Commentable;
    var parsed := [];
    for i := 0 to |entries|
      invariant |parsed| == i && forall k | 0 <= k < i :: IsParsed(parsed[k], entries[k])
      invariant forall k | 0 <= k < i :: Commentable(PatchOf(entries[k])).Some?
    {
      var lines := CommentableLines(PatchOf(entries[i]));
      if lines.None? {
        assert entries[i] in entries;
        return None;
      }
      parsed := parsed + [ChangedFile(entries[i].0, lines.value)];
    }
    files := Some(parsed);
  }

  /** The lines on which a comment is accepted: those of the last file listed under the path. */
  function LinesOf(files: seq<ChangedFile>, path: string): set<nat> {
    if files == [] then {}
    else
      var last := files[|files| - 1];
      if last.path == path then last.lines else LinesOf(files[..|files| - 1], path)
  }

  function OnDiff(files: seq<ChangedFile>): Issue -> bool { (i: Issue) => i.line in LinesOf(files, i.file) }

  function OffDiff(files: seq<ChangedFile>): Issue -> bool { (i: Issue) => i.line !in LinesOf(files, i.file) }

  function Raws(payload: Payload): seq<Raw> { if payload.issues.Some? then payload.issues.value else [] }

  lemma {:induction false} KeptSnoc(xs: seq<Issue>, x: Issue, p: Issue -> bool)
    ensures Kept(xs + [x], p) == Kept(xs, p) + (if p(x) then [x] else [])
  {
    if xs == [] {
      assert (xs + [x])[1..] == [];
    } else {
      ConsTail(xs[0], xs[1..] + [x]);
      assert xs + [x] == [xs[0]] + (xs[1..] + [x]);
      var first := if p(xs[0]) then [xs[0]] else [];
      assert Kept(xs + [x], p) == first + Kept(xs[1..] + [x], p);
      KeptSnoc(xs[1..], x, p);
      assert Kept(xs, p) == first + Kept(xs[1..], p);
      hide *;
      Associate(first, Kept(xs[1..], p), if p(x) then [x] else []);
    }
  }

  /** The review that BuildReview makes of these findings. */
  ghost predicate Routes(found: seq<Issue>, files: seq<ChangedFile>, r: Review) {
    r.inline == Sorted(Kept(found, OnDiff(files))) && r.orphaned == Sorted(Kept(found, OffDiff(files)))
  }

  /** The review of what the model wrote. */
  ghost predicate IsReviewOf(lower: string -> string, payload: Payload, files: seq<ChangedFile>, r: Review) {
    && Written(payload.verdict, "No verdict provided.", r.verdict)
    && Written(payload.summary, "No summary provided.", r.summary)
    && exists found :: AreFindings(lower, Raws(payload), found) && Routes(found, files, r)
  }

  lemma FindingsAreTheReview(lower: string -> string, payload: Payload, files: seq<ChangedFile>, r: Review)
    requires LowerOk(lower) && forall raw <- Raws(payload) :: !CoerceIssue(lower, raw).Overflow?
    requires Routes(Findings(lower, Raws(payload)), files, r)
    requires r.verdict == Clean(payload.verdict, "No verdict provided.")
    requires r.summary == Clean(payload.summary, "No summary provided.")
    ensures IsReviewOf(lower, payload, files, r)
  {
    CleanIsWritten(payload.verdict, "No verdict provided.");
    CleanIsWritten(payload.summary, "No summary provided.");
    hide Routes, CoerceIssue, Clean, Written;
    FindingsAreAsWritten(lower, Raws(payload));
  }

  /** Where each finding belongs; None when coercing one raises. */
  method BuildReview(lower: string -> string, payload: Payload, files: seq<ChangedFile>) returns (r: Option<Review>)
    ensures r.None? <==> exists raw <- Raws(payload) :: CoerceIssue(lower, raw).Overflow?
    ensures r.None? <==> exists raw <- Raws(payload) :: Keeps(raw) && raw.line.Infinite?
    ensures r.Some? && LowerOk(lower) ==> IsReviewOf(lower, payload, files, r.value)
    ensures r.Some? ==>
              var found := Findings(lower, Raws(payload));
              && r.value.inline == Sorted(Kept(found, OnDiff(files)))
              && r.value.orphaned == Sorted(Kept(found, OffDiff(files)))
              && r.value.verdict == Clean(payload.verdict, "No verdict provided.")
              && r.value.summary == Clean(payload.summary, "No summary provided.")
  {
    hide CoerceIssue, Sorted, Clean, Kept, IsReviewOf, Keeps;
    OverflowsAreInfinite(lower, Raws(payload));
    var lineMap: map<string, set<nat>> := map[];
    for i := 0 to |files|
      invariant forall path :: LinesOf(files[..i], path) == if path in lineMap then lineMap[path] else {}
    {
      assert files[..i + 1][..i] == files[..i];
      lineMap := lineMap[files[i].path := files[i].lines];
    }
    assert files[..|files|] == files;

    var inline, orphaned := [], [];
    var raws := Raws(payload);
    KeptNothing(OnDiff(files));
    KeptNothing(OffDiff(files));
    for i := 0 to |raws|
      invariant forall k | 0 <= k < i :: !CoerceIssue(lower, raws[k]).Overflow?
      invariant inline == Kept(Findings(lower, raws[..i]), OnDiff(files))
      invariant orphaned == Kept(Findings(lower, raws[..i]), OffDiff(files))
    {
      assert raws[..i + 1][..i] == raws[..i];
      var issue := CoerceIssue(lower, raws[i]);
      if issue.Overflow? {
        assert raws[i] in raws;
        return None;
      }
      assert Findings(lower, raws[..i + 1])
          == Findings(lower, raws[..i]) + (if issue.Usable? then [issue.issue] else []);
      if issue.Unusable? {
        assert Findings(lower, raws[..i + 1]) == Findings(lower, raws[..i]);
        continue;
      }
      KeptSnoc(Findings(lower, raws[..i]), issue.issue, OnDiff(files));
      KeptSnoc(Findings(lower, raws[..i]), issue.issue, OffDiff(files));
      var lines := if issue.issue.file in lineMap then lineMap[issue.issue.file] else {};
      assert lines == LinesOf(files, issue.issue.file);
      assert OnDiff(files)(issue.issue) == !OffDiff(files)(issue.issue) == (issue.issue.line in lines);
      assert inline + [] == inline && orphaned + [] == orphaned;
      if issue.issue.line in lines {
        inline := inline + [issue.issue];
      } else {
        orphaned := orphaned + [issue.issue];
      }
    }
    assert raws[..|raws|] == raws;
    r := Some(Review(Clean(payload.verdict, "No verdict provided."), Clean(payload.summary, "No summary provided."),
                     Sorted(inline), Sorted(orphaned)));
    if LowerOk(lower) {
      FindingsAreTheReview(lower, payload, files, r.value);
    }
  }

  lemma OverflowsAreInfinite(lower: string -> string, raws: seq<Raw>)
    ensures (exists raw <- raws :: CoerceIssue(lower, raw).Overflow?)
            <==> exists raw <- raws :: Keeps(raw) && raw.line.Infinite?
  {
    forall raw | raw in raws ensures CoerceIssue(lower, raw).Overflow? <==> Keeps(raw) && raw.line.Infinite? {
      UsableIff(lower, raw);
    }
    hide CoerceIssue, Keeps;
  }

  /** A path listed more than once has the lines of its last entry. */
  lemma {:induction false} LinesAreTheLast(files: seq<ChangedFile>, k: nat)
    requires k < |files| && forall l | k < l < |files| :: files[l].path != files[k].path
    ensures LinesOf(files, files[k].path) == files[k].lines
    decreases |files|
  {
    if k < |files| - 1 {
      LinesAreTheLast(files[..|files| - 1], k);
    }
  }

  /** A path that is not listed has none. */
  lemma {:induction false} UnlistedHasNoLines(files: seq<ChangedFile>, path: string)
    requires forall f <- files :: f.path != path
    ensures LinesOf(files, path) == {}
    decreases |files|
  {
    if files != [] {
      assert files[|files| - 1] in files;
      UnlistedHasNoLines(files[..|files| - 1], path);
    }
  }

  lemma KeptNothing(p: Issue -> bool)
    ensures Kept([], p) == []
  {
  }

  lemma {:induction false} SplitIsWhole(xs: seq<Issue>, files: seq<ChangedFile>)
    ensures multiset(Kept(xs, OnDiff(files))) + multiset(Kept(xs, OffDiff(files))) == multiset(xs)
  {
    if xs != [] {
      SplitIsWhole(xs[1..], files);
      assert xs == [xs[0]] + xs[1..];
    }
  }

  /**
   * Routing loses and duplicates no finding, comments only where a comment is accepted, keeps for the summary only
   * what could not be placed, and ranks both lists.
   */
  lemma RoutingLosesNothing(found: seq<Issue>, files: seq<ChangedFile>, r: Review)
    requires Routes(found, files, r)
    ensures multiset(r.inline) + multiset(r.orphaned) == multiset(found)
    ensures forall i <- r.inline :: i.line in LinesOf(files, i.file)
    ensures forall i <- r.orphaned :: i.line !in LinesOf(files, i.file)
    ensures InRankOrder(r.inline) && InRankOrder(r.orphaned)
    ensures SameByRank(r.inline, Kept(found, OnDiff(files))) && SameByRank(r.orphaned, Kept(found, OffDiff(files)))
  {
    var on, off := Kept(found, OnDiff(files)), Kept(found, OffDiff(files));
    SortedIsAStableSort(on);
    SortedIsAStableSort(off);
    SplitIsWhole(found, files);
    forall i | i in r.inline ensures i.line in LinesOf(files, i.file) {
      assert i in multiset(r.inline);
      KeptMembers(found, OnDiff(files), i);
    }
    forall i | i in r.orphaned ensures i.line !in LinesOf(files, i.file) {
      assert i in multiset(r.orphaned);
      KeptMembers(found, OffDiff(files), i);
    }
  }

  /** A finding whose line is missing or unreadable is kept for the summary: no file has a line 0. */
  lemma NoLineGoesToTheSummary(found: seq<Issue>, files: seq<ChangedFile>, r: Review, i: Issue)
    requires Routes(found, files, r) && (forall f <- files :: 0 !in f.lines) && i in found && i.line == 0
    ensures i in r.orphaned && i !in r.inline
  {
    NoLineZero(files, i.file);
    KeptMembers(found, OnDiff(files), i);
    KeptMembers(found, OffDiff(files), i);
    SortedIsAStableSort(Kept(found, OnDiff(files)));
    SortedIsAStableSort(Kept(found, OffDiff(files)));
    assert i in multiset(r.orphaned);
    assert i in r.inline ==> i in multiset(r.inline);
  }

  lemma {:induction false} NoLineZero(files: seq<ChangedFile>, path: string)
    requires forall f <- files :: 0 !in f.lines
    ensures 0 !in LinesOf(files, path)
    decreases |files|
  {
    if files != [] {
      NoLineZero(files[..|files| - 1], path);
    }
  }

  // ----- the decision -----

  function Critical(r: Review): seq<Issue> { Sorted(Kept(r.inline + r.orphaned, IsCritical)) }

  function Blocking(r: Review): seq<Issue> { Sorted(Kept(r.inline + r.orphaned, IsBlocking)) }

  datatype Decision = Fix | Merge

  function DecisionOf(r: Review): Decision { if Blocking(r) != [] then Fix else Merge }

  lemma SameMembers(xs: seq<Issue>, ys: seq<Issue>)
    requires multiset(xs) == multiset(ys)
    ensures forall i :: i in xs <==> i in ys
  {
    assert forall i :: i in xs <==> i in multiset(xs);
    assert forall i :: i in ys <==> i in multiset(ys);
  }

  /** FIX exactly when a usable finding is critical or of high severity, wherever it was routed. */
  lemma FixIff(found: seq<Issue>, files: seq<ChangedFile>, r: Review)
    requires Routes(found, files, r)
    ensures DecisionOf(r) == Fix <==> exists i <- found :: IsCritical(i) || i.severity == High
  {
    RoutingLosesNothing(found, files, r);
    var all := r.inline + r.orphaned;
    SameMembers(all, found);
    var blocking := Kept(all, IsBlocking);
    SortedIsAStableSort(blocking);
    assert |Sorted(blocking)| == |multiset(Sorted(blocking))| == |multiset(blocking)| == |blocking|;
    forall i ensures i in blocking <==> i in found && IsBlocking(i) {
      KeptMembers(all, IsBlocking, i);
    }
    hide Kept, Sorted, InRankOrder, SameByRank;
    if blocking != [] {
      assert blocking[0] in blocking;
    }
  }

  /** The model wrote a finding that is kept and of high severity, or that breaks something or misses the intent. */
  ghost predicate Blocks(lower: string -> string, raw: Raw) {
    && Keeps(raw)
    && (ReadsAs(lower, raw.severity, "high") || ReadsAs(lower, raw.category, "breaks")
        || ReadsAs(lower, raw.category, "intent"))
  }

  lemma BlocksIff(lower: string -> string, raw: Raw, i: Issue)
    requires Keeps(raw) && IsIssueOf(lower, raw, i)
    ensures Blocks(lower, raw) <==> IsCritical(i) || i.severity == High
  {
    hide ReadsAs, Written, TitleIs, LineIs;
  }

  /** FIX exactly when the model wrote such a finding. */
  lemma FixIffWritten(lower: string -> string, payload: Payload, files: seq<ChangedFile>, r: Review)
    requires IsReviewOf(lower, payload, files, r)
    ensures DecisionOf(r) == Fix <==> exists raw <- Raws(payload) :: Blocks(lower, raw)
  {
    var raws := Raws(payload);
    var found :| AreFindings(lower, raws, found) && Routes(found, files, r);
    hide *;
    FixIff(found, files, r);
    if DecisionOf(r) == Fix {
      var i :| i in found && (IsCritical(i) || i.severity == High);
      var raw := IssueIsWritten(lower, raws, found, i);
      BlocksIff(lower, raw, i);
    } else {
      forall raw | raw in raws ensures !Blocks(lower, raw) {
        if Blocks(lower, raw) {
          BlocksAreKept(lower, raw);
          var i := KeptIsAnIssue(lower, raws, found, raw);
          BlocksIff(lower, raw, i);
        }
      }
    }
  }

  lemma IssueIsWritten(lower: string -> string, raws: seq<Raw>, found: seq<Issue>, i: Issue) returns (raw: Raw)
    requires AreFindings(lower, raws, found) && i in found
    ensures raw in raws && Keeps(raw) && IsIssueOf(lower, raw, i)
  {
    hide *;
    IssuesAreKept(lower, raws, found);
    raw :| raw in raws && Keeps(raw) && IsIssueOf(lower, raw, i);
  }

  lemma KeptIsAnIssue(lower: string -> string, raws: seq<Raw>, found: seq<Issue>, raw: Raw) returns (i: Issue)
    requires AreFindings(lower, raws, found) && raw in raws && Keeps(raw)
    ensures i in found && IsIssueOf(lower, raw, i)
  {
    hide *;
    IssuesAreKept(lower, raws, found);
    i :| i in found && IsIssueOf(lower, raw, i);
  }

  lemma BlocksAreKept(lower: string -> string, raw: Raw)
    requires Blocks(lower, raw)
    ensures Keeps(raw)
  {
  }

  lemma {:induction false} BlockingByRank(xs: seq<Issue>, r: Rank)
    ensures OfRank(Kept(xs, IsBlocking), r) == OfRank(Kept(xs, IsCritical), r) + OfRank(Kept(xs, IsHighOnly), r)
    ensures r.0 == 0 ==> OfRank(Kept(xs, IsHighOnly), r) == []
    ensures r.0 != 0 ==> OfRank(Kept(xs, IsCritical), r) == []
  {
    if xs != [] {
      BlockingByRank(xs[1..], r);
      KeptCons(xs, IsBlocking, r);
      KeptCons(xs, IsCritical, r);
      KeptCons(xs, IsHighOnly, r);
      hide Kept, OfRank;
    }
  }

  lemma KeptCons(xs: seq<Issue>, p: Issue -> bool, r: Rank)
    requires xs != []
    ensures OfRank(Kept(xs, p), r) == (if p(xs[0]) && RankOf(xs[0]) == r then [xs[0]] else []) + OfRank(Kept(xs[1..], p), r)
  {
    if p(xs[0]) {
      assert ([xs[0]] + Kept(xs[1..], p))[1..] == Kept(xs[1..], p);
    } else {
      assert Kept(xs, p) == Kept(xs[1..], p);
    }
  }

  lemma {:induction false} KeptAppend(xs: seq<Issue>, ys: seq<Issue>, p: Issue -> bool)
    ensures Kept(xs + ys, p) == Kept(xs, p) + Kept(ys, p)
  {
    if xs == [] {
      assert xs + ys == ys;
    } else {
      ConsTail(xs[0], xs[1..] + ys);
      assert xs + ys == [xs[0]] + (xs[1..] + ys);
      var first := if p(xs[0]) then [xs[0]] else [];
      assert Kept(xs + ys, p) == first + Kept(xs[1..] + ys, p);
      KeptAppend(xs[1..], ys, p);
      assert Kept(xs, p) == first + Kept(xs[1..], p);
      hide *;
      Associate(first, Kept(xs[1..], p), Kept(ys, p));
    }
  }

  lemma SortedKeeps(xs: seq<Issue>, p: Issue -> bool)
    ensures forall i <- Sorted(Kept(xs, p)) :: p(i)
    ensures InRankOrder(Sorted(Kept(xs, p)))
  {
    SortedIsAStableSort(Kept(xs, p));
    forall i | i in Sorted(Kept(xs, p)) ensures p(i) {
      assert i in multiset(Sorted(Kept(xs, p)));
      KeptMembers(xs, p, i);
    }
  }

  lemma CriticalThenHigh(xs: seq<Issue>, ys: seq<Issue>)
    requires InRankOrder(xs) && InRankOrder(ys) && (forall i <- xs :: IsCritical(i)) && forall i <- ys :: IsHighOnly(i)
    ensures InRankOrder(xs + ys)
  {
    forall i, j | 0 <= i < |xs| <= j < |xs + ys| ensures RankLe(RankOf((xs + ys)[i]), RankOf((xs + ys)[j])) {
      assert xs[i] in xs && ys[j - |xs|] in ys;
    }
  }

  /** The blocking findings are the critical ones, in their order, and then the other high ones. */
  lemma CriticalComesFirst(r: Review)
    ensures Blocking(r) == Critical(r) + Sorted(Kept(r.inline + r.orphaned, IsHighOnly))
  {
    var all := r.inline + r.orphaned;
    var critical, high := Kept(all, IsCritical), Kept(all, IsHighOnly);
    SortedKeeps(all, IsCritical);
    SortedKeeps(all, IsHighOnly);
    CriticalThenHigh(Sorted(critical), Sorted(high));
    SortedIsAStableSort(Kept(all, IsBlocking));
    SortedIsAStableSort(critical);
    SortedIsAStableSort(high);
    var both := Sorted(critical) + Sorted(high);
    assert SameByRank(Blocking(r), both) by {
      forall k: Rank ensures OfRank(Blocking(r), k) == OfRank(both, k) {
        BlockingByRank(all, k);
        KeptAppend(Sorted(critical), Sorted(high), HasRank(k));
        hide Kept, Sorted, HasRank;
        assert OfRank(Sorted(critical), k) == OfRank(critical, k);
        assert OfRank(Sorted(high), k) == OfRank(high, k);
        assert OfRank(Blocking(r), k) == OfRank(Kept(all, IsBlocking), k);
      }
    }
    StableSortIsUnique(Blocking(r), both);
  }
}
