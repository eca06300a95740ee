/** Findings of a review: what the model wrote, and what is made of it. Lower-casing is a parameter; it is Python's. */
module ReviewSchema {
  import opened Options
  import opened Sequences

  // ----- findings -----

  datatype Severity = High | Medium | Low

  datatype Category = Breaks | Intent | Other

  datatype Issue = Issue(severity: Severity, category: Category, file: string, line: int,
                         title: string, reason: string, suggestion: string)

  /** A field of the model's output: text, or absent, or something else. */
  datatype Field = Text(text: string) | NotText

  /** A number, or text that reads as one; an infinity, which JSON as Python reads it can hold; anything else. */
  datatype LineField = Whole(n: int) | Fraction(x: real) | Infinite | NotANumber

  datatype Raw =
    | NotADict
    | Dict(title: Field, reason: Field, file: Field, line: LineField, severity: Field, category: Field,
           suggestion: Field)

  predicate Blank(c: char) {
    var n := c as int;
    9 <= n <= 13 || 28 <= n <= 32 || n in {0x85, 0xA0, 0x1680, 0x2028, 0x2029, 0x202F, 0x205F, 0x3000}
    || 0x2000 <= n <= 0x200A
  }

  predicate AllBlank(s: string) { forall c <- s :: Blank(c) }

  function Strip(s: string): (r: string)
    ensures r == "" <==> AllBlank(s)
    ensures r != "" ==> !Blank(r[0]) && !Blank(r[|r| - 1])
    decreases |s|
  {
    if s == "" then ""
    else if Blank(s[0]) then
      assert s == [s[0]] + s[1..];
      Strip(s[1..])
    else if Blank(s[|s| - 1]) then
      assert s == s[..|s| - 1] + [s[|s| - 1]];
      Strip(s[..|s| - 1])
    else s
  }

  lemma BlanksTogether(a: string, b: string)
    requires AllBlank(a) && AllBlank(b)
    ensures AllBlank(a + b)
  {
  }

  /** Only blanks go, and only from the ends. */
  lemma {:induction false} StripsTheEnds(s: string) returns (before: string, after: string)
    ensures AllBlank(before) && AllBlank(after) && s == before + Strip(s) + after
    decreases |s|
  {
    hide Strip, AllBlank, Blank;
    StripOnce(s);
    var r := Strip(s);
    before, after := "", "";
    if s != "" && Blank(s[0]) {
      var rest, first := s[1..], [s[0]];
      before, after := StripsTheEnds(rest);
      BlanksTogether(first, before);
      assert first + (before + r + after) == first + before + r + after;
      before := first + before;
    } else if s != "" && Blank(s[|s| - 1]) {
      var init, last := s[..|s| - 1], [s[|s| - 1]];
      before, after := StripsTheEnds(init);
      BlanksTogether(after, last);
      assert (before + r + after) + last == before + r + (after + last);
      after := after + last;
    }
  }

  /** Stripping, one character at a time. */
  lemma StripOnce(s: string)
    ensures AllBlank("")
    ensures s != "" && Blank(s[0]) ==> s == [s[0]] + s[1..] && AllBlank([s[0]]) && Strip(s) == Strip(s[1..])
    ensures var n := |s| - 1; s != "" && !Blank(s[0]) && Blank(s[n]) ==>
              s == s[..n] + [s[n]] && AllBlank([s[n]]) && Strip(s) == Strip(s[..n])
    ensures s == "" || (!Blank(s[0]) && !Blank(s[|s| - 1])) ==> Strip(s) == s
  {
    hide Blank;
  }

  function Clean(f: Field, fallback: string): string {
    if f.Text? && Strip(f.text) != "" then Strip(f.text) else fallback
  }

  function SeverityOf(s: string): Severity {
    if s == "high" then High else if s == "low" then Low else Medium
  }

  function CategoryOf(s: string): Category {
    if s == "breaks" then Breaks else if s == "intent" then Intent else Other
  }

  function Truncated(x: real): int { if x >= 0.0 then x.Floor else -(-x).Floor }

  function LineOf(f: LineField): int {
    match f
    case Whole(n) => n
    case Fraction(x) => Truncated(x)
    case _ => 0
  }

  function Upto(s: string, n: nat): string { if |s| > n then s[..n] else s }

  /** Overflow: an infinite line number is an error that nothing catches. */
  datatype Coerced = Usable(issue: Issue) | Unusable | Overflow

  function CoerceIssue(lower: string -> string, raw: Raw): Coerced {
    match raw
    case NotADict => Unusable
    case Dict(titleField, reasonField, fileField, lineField, severityField, categoryField, suggestionField) =>
      var title, reason, path := Clean(titleField, ""), Clean(reasonField, ""), Clean(fileField, "");
      if title == "" && reason == "" then Unusable
      else if path == "" then Unusable
      else if lineField.Infinite? then Overflow
      else
        Usable(Issue(SeverityOf(lower(Clean(severityField, "medium"))),
                     CategoryOf(lower(Clean(categoryField, "other"))),
                     path, LineOf(lineField), if title != "" then title else Upto(reason, 80), reason,
                     Clean(suggestionField, "")))
  }

  /** The issues of the usable findings, in their order. */
  function Findings(lower: string -> string, raws: seq<Raw>): seq<Issue> {
    if raws == [] then []
    else
      var last := CoerceIssue(lower, raws[|raws| - 1]);
      Findings(lower, raws[..|raws| - 1]) + (if last.Usable? then [last.issue] else [])
  }

  ghost predicate SaysSomething(f: Field) { f.Text? && !AllBlank(f.text) }

  lemma CleanIff(f: Field)
    ensures Clean(f, "") != "" <==> SaysSomething(f)
    ensures Clean(f, "") != "" ==> !Blank(Clean(f, "")[0]) && Clean(f, "") == Strip(f.text)
  {
  }

  lemma NotAllBlank(s: string)
    requires s != "" && !Blank(s[0])
    ensures !AllBlank(s)
  {
    assert s[0] in s;
  }

  /** What a finding must have to be kept, and what it is when kept. */
  lemma UsableIff(lower: string -> string, raw: Raw)
    ensures CoerceIssue(lower, raw) != Unusable
            <==> raw.Dict? && (SaysSomething(raw.title) || SaysSomething(raw.reason)) && SaysSomething(raw.file)
    ensures CoerceIssue(lower, raw).Overflow? <==> CoerceIssue(lower, raw) != Unusable && raw.line.Infinite?
    ensures CoerceIssue(lower, raw).Usable? ==>
              var issue := CoerceIssue(lower, raw).issue;
              && !raw.line.Infinite? && !AllBlank(issue.title) && !AllBlank(issue.file)
              && (SaysSomething(raw.title) ==> issue.title == Strip(raw.title.text))
              && (raw.line.NotANumber? ==> issue.line == 0)
  {
    if raw.Dict? {
      CleanIff(raw.title);
      CleanIff(raw.reason);
      CleanIff(raw.file);
      hide Clean, Strip, SaysSomething, AllBlank, Blank;
      if CoerceIssue(lower, raw).Usable? {
        NotAllBlank(CoerceIssue(lower, raw).issue.title);
        NotAllBlank(CoerceIssue(lower, raw).issue.file);
      }
    }
  }
}
