/**
 * What a finding comes to, field by field, in terms of what the model wrote: nothing here depends on how the
 * conversion is programmed.
 */
module ReviewFields {
  import opened Options
  import opened ReviewSchema

  /** Lower-casing leaves the two fallbacks alone. */
  ghost predicate LowerOk(lower: string -> string) { lower("medium") == "medium" && lower("other") == "other" }

  /** The field is text, and the text without the blanks around it reads as the word. */
  ghost predicate ReadsAs(lower: string -> string, f: Field, word: string) {
    SaysSomething(f) && lower(Strip(f.text)) == word
  }

  /** Something to say, and a file to say it about. */
  ghost predicate Keeps(raw: Raw) {
    raw.Dict? && (SaysSomething(raw.title) || SaysSomething(raw.reason)) && SaysSomething(raw.file)
  }

  ghost predicate Written(f: Field, fallback: string, text: string) {
    text == if SaysSomething(f) then Strip(f.text) else fallback
  }

  /** A whole line is itself, a fraction is cut towards zero, and anything else is 0. */
  ghost predicate LineIs(f: LineField, line: int) {
    match f
    case Whole(n) => line == n
    case Fraction(x) => if x >= 0.0 then line as real <= x < line as real + 1.0 else line as real - 1.0 < x <= line as real
    case Infinite => false
    case NotANumber => line == 0
  }

  /** The title, or else the first eighty characters of the reason. */
  ghost predicate TitleIs(raw: Raw, title: string)
    requires raw.Dict?
  {
    if SaysSomething(raw.title) then title == Strip(raw.title.text)
    else SaysSomething(raw.reason) && title <= Strip(raw.reason.text)
         && |title| == if |Strip(raw.reason.text)| > 80 then 80 else |Strip(raw.reason.text)|
  }

  ghost predicate IsIssueOf(lower: string -> string, raw: Raw, issue: Issue) {
    && raw.Dict?
    && (issue.severity == High <==> ReadsAs(lower, raw.severity, "high"))
    && (issue.severity == Low <==> ReadsAs(lower, raw.severity, "low"))
    && (issue.category == Breaks <==> ReadsAs(lower, raw.category, "breaks"))
    && (issue.category == Intent <==> ReadsAs(lower, raw.category, "intent"))
    && Written(raw.file, "", issue.file) && Written(raw.reason, "", issue.reason)
    && Written(raw.suggestion, "", issue.suggestion)
    && TitleIs(raw, issue.title) && LineIs(raw.line, issue.line)
  }

  lemma CleanIsWritten(f: Field, fallback: string)
    ensures Written(f, fallback, Clean(f, fallback))
  {
  }

  lemma WordsDiffer()
    ensures "medium" != "high" && "medium" != "low" && "high" != "low" && "other" != "breaks" && "other" != "intent"
    ensures "breaks" != "intent"
  {
    assert "medium"[0] == 'm' && "high"[0] == 'h' && "low"[0] == 'l';
    assert "other"[0] == 'o' && "breaks"[0] == 'b' && "intent"[0] == 'i';
  }

  lemma SeverityIs(lower: string -> string, f: Field)
    requires LowerOk(lower)
    ensures var s := SeverityOf(lower(Clean(f, "medium")));
            (s == High <==> ReadsAs(lower, f, "high")) && (s == Low <==> ReadsAs(lower, f, "low"))
  {
    CleanIsWritten(f, "medium");
    WordsDiffer();
    hide Clean, Strip, SaysSomething;
  }

  lemma CategoryIs(lower: string -> string, f: Field)
    requires LowerOk(lower)
    ensures var s := CategoryOf(lower(Clean(f, "other")));
            (s == Breaks <==> ReadsAs(lower, f, "breaks")) && (s == Intent <==> ReadsAs(lower, f, "intent"))
  {
    CleanIsWritten(f, "other");
    WordsDiffer();
    hide Clean, Strip, SaysSomething;
  }

  lemma LineOfIs(f: LineField)
    requires !f.Infinite?
    ensures LineIs(f, LineOf(f))
  {
    if f.Fraction? && f.x < 0.0 {
      var n := (-f.x).Floor;
      assert n as real <= -f.x < n as real + 1.0;
    }
  }

  /** Every finding: dropped, an error that escapes, or made an issue with the fields that it was written with. */
  lemma FindingIsReadAsWritten(lower: string -> string, raw: Raw)
    requires LowerOk(lower)
    ensures var c := CoerceIssue(lower, raw);
            && (c == Unusable <==> !Keeps(raw)) && (c == Overflow <==> Keeps(raw) && raw.line.Infinite?)
            && (c.Usable? ==> IsIssueOf(lower, raw, c.issue))
  {
    UsableIff(lower, raw);
    if raw.Dict? {
      SeverityIs(lower, raw.severity);
      CategoryIs(lower, raw.category);
      if !raw.line.Infinite? {
        LineOfIs(raw.line);
      }
      CleanIsWritten(raw.title, "");
      CleanIsWritten(raw.reason, "");
      CleanIsWritten(raw.file, "");
      CleanIsWritten(raw.suggestion, "");
      CleanIff(raw.title);
      CleanIff(raw.reason);
      CleanIff(raw.file);
      hide Clean, Strip, SaysSomething, AllBlank, SeverityOf, CategoryOf, LineOf, LineIs, ReadsAs;
    }
  }

  /** What is written determines the issue. */
  lemma IssueIsDetermined(lower: string -> string, raw: Raw, a: Issue, b: Issue)
    requires IsIssueOf(lower, raw, a) && IsIssueOf(lower, raw, b)
    ensures a == b
  {
    hide Strip, SaysSomething, ReadsAs;
    assert a.severity == High || a.severity == Medium || a.severity == Low;
    assert b.severity == High || b.severity == Medium || b.severity == Low;
    assert a.category == Breaks || a.category == Intent || a.category == Other;
    assert b.category == Breaks || b.category == Intent || b.category == Other;
    assert a.line == b.line;
    assert a.title == b.title;
  }

  /** The issues of the findings that are kept, in their order. */
  ghost predicate AreFindings(lower: string -> string, raws: seq<Raw>, found: seq<Issue>)
    decreases |raws|
  {
    if raws == [] then found == []
    else
      var init, last := raws[..|raws| - 1], raws[|raws| - 1];
      if Keeps(last) then
        found != [] && IsIssueOf(lower, last, found[|found| - 1]) && AreFindings(lower, init, found[..|found| - 1])
      else AreFindings(lower, init, found)
  }

  lemma {:induction false} FindingsAreAsWritten(lower: string -> string, raws: seq<Raw>)
    requires LowerOk(lower) && forall raw <- raws :: !CoerceIssue(lower, raw).Overflow?
    ensures AreFindings(lower, raws, Findings(lower, raws))
    decreases |raws|
  {
    hide CoerceIssue, IsIssueOf, Keeps;
    if raws != [] {
      var init, last := raws[..|raws| - 1], raws[|raws| - 1];
      FindingsAreAsWritten(lower, init);
      FindingIsReadAsWritten(lower, last);
      var before := Findings(lower, init);
      if Keeps(last) {
        var issue := CoerceIssue(lower, last).issue;
        assert Findings(lower, raws) == before + [issue] && (before + [issue])[..|before|] == before;
      } else {
        assert before + [] == before;
      }
    }
  }

  /** A finding that is kept is among the issues, and every issue is one of those. */
  lemma {:induction false} IssuesAreKept(lower: string -> string, raws: seq<Raw>, found: seq<Issue>)
    requires AreFindings(lower, raws, found)
    ensures forall raw <- raws | Keeps(raw) :: exists i <- found :: IsIssueOf(lower, raw, i)
    ensures forall i <- found :: exists raw <- raws :: Keeps(raw) && IsIssueOf(lower, raw, i)
    decreases |raws|
  {
    hide IsIssueOf, Keeps;
    if raws != [] {
      var init, last := raws[..|raws| - 1], raws[|raws| - 1];
      assert raws == init + [last];
      if Keeps(last) {
        var before := found[..|found| - 1];
        assert found == before + [found[|found| - 1]];
        IssuesAreKept(lower, init, before);
      } else {
        IssuesAreKept(lower, init, found);
      }
    }
  }
}
