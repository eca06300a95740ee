/**
 * Citation markers in a draft: renumbering them by first appearance, collapsing runs of them, and the reference list
 * they point to.
 *
 * A draft is a list of tokens: markers, links, and single characters. A link is "[n](", the opening of a markdown
 * link whose text is a number: the pattern tells it from a citation by the parenthesis. A separator is a space or a
 * comma; every other character is text. Two markers with only separators between them form a run, and so do a marker
 * and a link that follows it.
 */
module Citations {
  import opened Options
  import opened Distinct
  import opened Decimal

  type Url = string

  datatype Token = Text(c: char) | Sep(c: char) | Mark(num: string) | Link(num: string)

  datatype Ref = Ref(url: Url, title: string, site: string)

  /** What was researched: the URL of each finding, and a reference for each source, keyed by its own URL. */
  datatype Brief = Brief(findings: seq<Url>, byUrl: map<Url, Ref>)

  ghost predicate BriefOk(b: Brief) { forall u <- b.byUrl :: b.byUrl[u].url == u }

  /** Sources keyed by URL; a later source replaces an earlier one with the same URL. */
  method IndexSources(findings: seq<Url>, sources: seq<Ref>) returns (b: Brief)
    ensures BriefOk(b) && b.findings == findings
    ensures forall u :: u in b.byUrl <==> exists i :: 0 <= i < |sources| && sources[i].url == u
    ensures forall k | 0 <= k < |sources| ::
              (forall l | k < l < |sources| :: sources[l].url != sources[k].url) ==> b.byUrl[sources[k].url] == sources[k]
  {
    var byUrl: map<Url, Ref> := map[];
    for i := 0 to |sources|
      invariant forall u <- byUrl :: byUrl[u].url == u
      invariant forall k | 0 <= k < i ::
                  && sources[k].url in byUrl
                  && ((forall l | k < l < i :: sources[l].url != sources[k].url) ==> byUrl[sources[k].url] == sources[k])
      invariant forall u :: u in byUrl <==> exists k :: 0 <= k < i && sources[k].url == u
    {
      byUrl := byUrl[sources[i].url := sources[i]];
    }
    b := Brief(findings, byUrl);
  }

  predicate IsLabel(num: string) { num != [] && forall c <- num :: IsDigit(c) }

  // ----- what a marker points to -----

  /** The source a writer's marker cites, if it cites one. */
  function Target(b: Brief, num: string): Option<Url> {
    if !IsLabel(num) then None
    else
      var n := Value(num);
      if n < 1 || n > |b.findings| || b.findings[n - 1] !in b.byUrl then None else Some(b.findings[n - 1])
  }

  /** A marker cites the finding of its number, counted from one, leading zeros or not, if that finding has a source. */
  lemma MarkerCites(b: Brief, i: nat, width: nat)
    ensures Target(b, Padded(i + 1, width))
            == if i < |b.findings| && b.findings[i] in b.byUrl then Some(b.findings[i]) else None
    ensures Target(b, Padded(0, width)) == None
  {
    PaddedValue(i + 1, width);
    PaddedValue(0, width);
    hide Padded, Value;
  }

  /** The reference a resolved marker points to. */
  function Entry(refs: seq<Ref>, num: string): Option<Url> {
    if !IsLabel(num) then None
    else
      var n := Value(num);
      if n < 1 || n > |refs| then None else Some(refs[n - 1].url)
  }

  function Urls(refs: seq<Ref>): seq<Url> { seq(|refs|, i requires 0 <= i < |refs| => refs[i].url) }

  /** The URLs a list of labels cites, skipping labels that cite nothing. */
  function Cited(nums: seq<string>, point: string -> Option<Url>): seq<Url> {
    if nums == [] then []
    else
      var rest := Cited(nums[1..], point);
      if point(nums[0]).Some? then [point(nums[0]).value] + rest else rest
  }

  // ----- the parts of a draft -----

  /** Everything but citations and separators, in order. */
  function Skeleton(ts: seq<Token>): seq<Token> {
    if ts == [] then []
    else (if ts[0].Text? || ts[0].Link? then [ts[0]] else []) + Skeleton(ts[1..])
  }

  /** The labels cited before each token of the skeleton, and those after the last. */
  function Gaps(ts: seq<Token>): (gaps: seq<seq<string>>)
    ensures |gaps| == |Skeleton(ts)| + 1
  {
    if ts == [] then [[]]
    else
      var rest := Gaps(ts[1..]);
      match ts[0]
      case Mark(num) => [[num] + rest[0]] + rest[1..]
      case Sep(_) => rest
      case _ => [[]] + rest
  }

  /** All labels cited, in order. */
  function Labels(ts: seq<Token>): seq<string> {
    if ts == [] then [] else (if ts[0].Mark? then [ts[0].num] else []) + Labels(ts[1..])
  }

  function Others(ts: seq<Token>): seq<Token> {
    if ts == [] then [] else (if ts[0].Mark? then [] else [ts[0]]) + Others(ts[1..])
  }

  // ----- renumbering -----

  function IndexOf(urls: seq<Url>, u: Url): (i: nat)
    requires u in urls
    ensures i < |urls| && urls[i] == u && forall k | 0 <= k < i :: urls[k] != u
  {
    if urls[0] == u then 0 else 1 + IndexOf(urls[1..], u)
  }

  /** One token, with the references so far. */
  function RewriteOne(b: Brief, t: Token, refs: seq<Ref>): (seq<Token>, seq<Ref>) {
    if !t.Mark? then ([t], refs)
    else
      match Target(b, t.num)
      case None => ([], refs)
      case Some(u) =>
        if u in Urls(refs) then ([Mark(Digits(IndexOf(Urls(refs), u) + 1))], refs)
        else if u in b.byUrl then ([Mark(Digits(|refs| + 1))], refs + [b.byUrl[u]])
        else ([], refs)
  }

  function Rewrite(b: Brief, ts: seq<Token>, refs: seq<Ref>): (seq<Token>, seq<Ref>) {
    if ts == [] then ([], refs)
    else
      var (head, refs1) := RewriteOne(b, ts[0], refs);
      var (rest, refs2) := Rewrite(b, ts[1..], refs1);
      (head + rest, refs2)
  }

  /** The closure that grows the reference list while the markers are replaced. */
  method Renumber(b: Brief, ts: seq<Token>) returns (out: seq<Token>, refs: seq<Ref>)
    requires BriefOk(b)
    ensures (out, refs) == Rewrite(b, ts, [])
  {
    out, refs := [], [];
    var newIndex: map<Url, nat> := map[];
    assert ts[0..] == ts && [] + Rewrite(b, ts, []).0 == Rewrite(b, ts, []).0;
    for i := 0 to |ts|
      invariant out + Rewrite(b, ts[i..], refs).0 == Rewrite(b, ts, []).0
      invariant Rewrite(b, ts[i..], refs).1 == Rewrite(b, ts, []).1
      invariant forall u :: u in newIndex <==> u in Urls(refs)
      invariant forall u <- newIndex :: newIndex[u] == IndexOf(Urls(refs), u) + 1
    {
      assert ts[i..][0] == ts[i] && ts[i..][1..] == ts[i + 1..];
      ghost var one := RewriteOne(b, ts[i], refs);
      ghost var before := out;
      ghost var rest := Rewrite(b, ts[i + 1..], one.1).0;
      assert out + (one.0 + rest) == (out + one.0) + rest;
      match ts[i] {
        case Mark(num) =>
          var url := Target(b, num);
          if url.Some? {
            if url.value in newIndex {
              out := out + [Mark(Digits(newIndex[url.value]))];
            } else {
              var idx := |refs| + 1;
              AppendRef(refs, b.byUrl[url.value]);
              newIndex := newIndex[url.value := idx];
              refs := refs + [b.byUrl[url.value]];
              out := out + [Mark(Digits(idx))];
            }
          }
        case _ => out := out + [ts[i]];
      }
      assert out == before + one.0 && refs == one.1;
    }
    assert out + [] == out;
  }

  lemma AppendRef(refs: seq<Ref>, ref: Ref)
    ensures Urls(refs + [ref]) == Urls(refs) + [ref.url]
    ensures forall u <- Urls(refs) :: IndexOf(Urls(refs + [ref]), u) == IndexOf(Urls(refs), u)
    ensures ref.url !in Urls(refs) ==> IndexOf(Urls(refs + [ref]), ref.url) == |refs|
  {
    assert Urls(refs + [ref]) == Urls(refs) + [ref.url];
    var urls := Urls(refs + [ref]);
    forall u <- Urls(refs) ensures IndexOf(urls, u) == IndexOf(Urls(refs), u) {
      assert urls[IndexOf(Urls(refs), u)] == u;
      assert urls[IndexOf(urls, u)] == u;
    }
    assert urls[|refs|] == ref.url;
  }

  // ----- collapsing runs -----

  /**
   * The length of the run the tokens start with: a marker, then markers and at most one final link with separators
   * in between. Separators after the last marker are not part of it.
   */
  function RunLength(ts: seq<Token>): (n: nat)
    requires ts != [] && ts[0].Mark?
    ensures 1 <= n <= |ts| && (ts[n - 1].Mark? || ts[n - 1].Link?)
  {
    var k := Separators(ts[1..]);
    if 1 + k < |ts| && ts[1 + k].Mark? then 1 + k + RunLength(ts[1 + k..])
    else if 1 + k < |ts| && ts[1 + k].Link? then 2 + k
    else 1
  }

  function Separators(ts: seq<Token>): (n: nat)
    ensures n <= |ts| && (n < |ts| ==> !ts[n].Sep?) && forall i | 0 <= i < n :: ts[i].Sep?
  {
    if ts != [] && ts[0].Sep? then 1 + Separators(ts[1..]) else 0
  }

  /** Every number in the run, the final link's included: the pattern does not see the parenthesis. */
  function Numbers(run: seq<Token>): seq<string> {
    if run == [] then []
    else (if run[0].Mark? || run[0].Link? then [run[0].num] else []) + Numbers(run[1..])
  }

  function Marks(nums: seq<string>): seq<Token> { seq(|nums|, i requires 0 <= i < |nums| => Mark(nums[i])) }

  /** What replaces a run: each number once. The parenthesis of a final link now follows whichever number is last. */
  function Collapsed(run: seq<Token>): seq<Token>
    requires run != [] && Numbers(run) != []
  {
    var ns := Firsts(Numbers(run));
    if run[|run| - 1].Link? then
      assert Numbers(run)[0] in ns;
      Marks(ns[..|ns| - 1]) + [Link(ns[|ns| - 1])]
    else Marks(ns)
  }

  function Collapse(ts: seq<Token>): seq<Token>
    decreases |ts|
  {
    if ts == [] then []
    else if ts[0].Mark? then
      var n := RunLength(ts);
      Collapsed(ts[..n]) + Collapse(ts[n..])
    else [ts[0]] + Collapse(ts[1..])
  }

  /** The closure that rewrites one run. */
  method CollapseRun(numbers: seq<string>) returns (out: seq<string>)
    ensures out == Firsts(numbers)
  {
    var seen: set<string> := {};
    out := [];
    for i := 0 to |numbers|
      invariant out == Firsts(numbers[..i]) && forall x :: x in seen <==> x in numbers[..i]
    {
      assert numbers[..i + 1] == numbers[..i] + [numbers[i]];
      FirstsSnoc(numbers[..i], numbers[i]);
      if numbers[i] !in seen {
        seen := seen + {numbers[i]};
        out := out + [numbers[i]];
      }
    }
    assert numbers[..|numbers|] == numbers;
  }

  // ----- spacing -----

  predicate IsBlank(t: Token) { t == Sep(' ') || t == Text('\t') }

  predicate IsPunct(t: Token) { t == Sep(',') || (t.Text? && t.c in {'.', ';', ':', '!', '?', ')'}) }

  /** Blanks, perhaps none, and then punctuation. */
  predicate PunctFollows(ts: seq<Token>) {
    ts != [] && (IsPunct(ts[0]) || (IsBlank(ts[0]) && PunctFollows(ts[1..])))
  }

  /** The first pattern: blanks before punctuation go. */
  function CloseUp(ts: seq<Token>): seq<Token> {
    if ts == [] then []
    else (if IsBlank(ts[0]) && PunctFollows(ts[1..]) then [] else [ts[0]]) + CloseUp(ts[1..])
  }

  /**
   * The second pattern: of two or more spaces after any character but a line feed one stays. That character may be a
   * space itself, so at the start of a line two stay. room is how many more spaces may stay.
   */
  function Squeeze(ts: seq<Token>, room: nat): seq<Token> {
    if ts == [] then []
    else if ts[0] == Sep(' ') then
      if room > 0 then [ts[0]] + Squeeze(ts[1..], room - 1) else Squeeze(ts[1..], 0)
    else [ts[0]] + Squeeze(ts[1..], if ts[0] == Text('\n') then 2 else 1)
  }

  /** The gaps left by removed markers are repaired. */
  function Tidied(ts: seq<Token>): seq<Token> { Squeeze(CloseUp(ts), 2) }

  // ----- the whole -----

  function StripAll(ts: seq<Token>): seq<Token> { Tidied(Others(ts)) }

  /** Resolve a draft: without findings every marker goes; otherwise renumber, collapse and tidy. */
  function Resolve(b: Brief, ts: seq<Token>): (seq<Token>, seq<Ref>) {
    if b.findings == [] then (StripAll(ts), [])
    else var (out, refs) := Rewrite(b, ts, []); (Tidied(Collapse(out)), refs)
  }
}
