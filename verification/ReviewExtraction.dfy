/** Recovering the review from the agent's output: the last balanced object that looks like one. */
module ReviewExtraction {
  import opened Sequences
  import opened Options
  import opened JsonText
  import opened JsonScan

  // ----- terminal escapes -----

  const ESC: char := '\U{1b}'

  predicate IsParameter(c: char) { '0' <= c <= '9' || c == ';' || c == '?' }

  predicate IsLetter(c: char) { 'a' <= c <= 'z' || 'A' <= c <= 'Z' }

  /** The length of the run of parameter characters the text starts with. */
  function Parameters(s: string): (n: nat)
    ensures n <= |s|
    ensures n < |s| ==> !IsParameter(s[n])
    ensures forall i | 0 <= i < n :: IsParameter(s[i])
  {
    if s != [] && IsParameter(s[0]) then 1 + Parameters(s[1..]) else 0
  }

  /** The length of the escape sequence the text starts with, 0 if it starts with none. */
  function EscapeLength(s: string): (n: nat)
    ensures n <= |s|
  {
    if |s| >= 2 && s[0] == ESC && s[1] == '[' then
      var n := Parameters(s[2..]);
      if 2 + n < |s| && IsLetter(s[2 + n]) then 3 + n else 0
    else 0
  }

  function StripAnsi(s: string): string
    decreases |s|
  {
    if s == [] then []
    else if EscapeLength(s) > 0 then StripAnsi(s[EscapeLength(s)..])
    else [s[0]] + StripAnsi(s[1..])
  }

  /** An escape sequence stands here: ESC, a bracket, digits, semicolons and question marks, and one letter. */
  ghost predicate EscapeAt(s: string, i: nat, j: nat) {
    && i + 3 <= j <= |s| && s[i] == '\U{1b}' && s[i + 1] == '['
    && (forall k | i + 2 <= k < j - 1 :: '0' <= s[k] <= '9' || s[k] in {';', '?'})
    && ('a' <= s[j - 1] <= 'z' || 'A' <= s[j - 1] <= 'Z')
  }

  /** At most one escape sequence starts at the front of a text, and EscapeLength finds it. */
  lemma EscapeLengthIs(s: string, j: nat)
    ensures EscapeAt(s, 0, j) <==> j > 0 && EscapeLength(s) == j
  {
    if |s| >= 2 && s[0] == ESC && s[1] == '[' {
      var n := Parameters(s[2..]);
      assert forall k | 2 <= k < 2 + n :: IsParameter(s[k]) by {
        assert forall k | 2 <= k < 2 + n :: s[k] == s[2..][k - 2];
      }
      assert 2 + n < |s| ==> !IsParameter(s[2 + n]) by {
        assert 2 + n < |s| ==> s[2..][n] == s[2 + n];
      }
      assert forall k | 2 <= k < 2 + n :: !IsLetter(s[k]);
      assert EscapeAt(s, 0, j) ==> forall k | 2 <= k < j - 1 :: IsParameter(s[k]);
    }
  }

  lemma EscapeFurtherOn(s: string, i: nat, j: nat)
    requires 0 < i && s != []
    ensures EscapeAt(s, i, j) <==> j >= 1 && EscapeAt(s[1..], i - 1, j - 1)
  {
    if i + 3 <= j <= |s| {
      assert forall k | 1 <= k < |s| :: s[1..][k - 1] == s[k];
      assert forall k | i + 2 <= k < j - 1 :: s[1..][k - 1] == s[k];
    }
  }

  /** A text without escape sequences stays as it is. */
  lemma {:induction false} StripKeepsText(s: string)
    requires forall i: nat, j: nat :: !EscapeAt(s, i, j)
    ensures StripAnsi(s) == s
    decreases |s|
  {
    if s != [] {
      EscapeLengthIs(s, EscapeLength(s));
      forall i: nat, j: nat ensures !EscapeAt(s[1..], i, j) {
        EscapeFurtherOn(s, i + 1, j + 1);
        assert !EscapeAt(s, i + 1, j + 1);
      }
      hide EscapeAt, EscapeLength;
      StripKeepsText(s[1..]);
    }
  }

  /** The first escape sequence goes, whole and alone, and the rest is cleaned after it. */
  lemma {:induction false} StripTakesTheFirst(s: string, i: nat, j: nat)
    requires EscapeAt(s, i, j) && forall k: nat, l: nat | k < i :: !EscapeAt(s, k, l)
    ensures i <= j <= |s| && StripAnsi(s) == s[..i] + StripAnsi(s[j..])
    decreases |s|
  {
    assert i < j <= |s|;
    hide EscapeAt, EscapeLength;
    if i == 0 {
      EscapeLengthIs(s, j);
    } else {
      EscapeLengthIs(s, EscapeLength(s));
      assert EscapeLength(s) == 0;
      EscapeFurtherOn(s, i, j);
      forall k: nat, l: nat | k < i - 1 ensures !EscapeAt(s[1..], k, l) {
        EscapeFurtherOn(s, k + 1, l + 1);
        assert !EscapeAt(s, k + 1, l + 1);
      }
      StripTakesTheFirst(s[1..], i - 1, j - 1);
      StripsOneChar(s);
      hide StripAnsi;
      OneCharMore(s, i, j, StripAnsi(s[j..]));
    }
  }

  lemma StripsOneChar(s: string)
    requires s != [] && EscapeLength(s) == 0
    ensures StripAnsi(s) == [s[0]] + StripAnsi(s[1..])
  {
  }

  lemma OneCharMore(s: string, i: nat, j: nat, rest: string)
    requires 0 < i <= j <= |s|
    ensures s[1..][j - 1..] == s[j..] && [s[0]] + (s[1..][..i - 1] + rest) == s[..i] + rest
  {
  }

  /** Text from an opening brace on is no part of an escape sequence that starts before it. */
  lemma EscapeStopsAtBrace(a: string, b: string)
    requires a != [] && b != [] && b[0] == '{'
    ensures EscapeLength(a + b) == EscapeLength(a)
  {
    if |a| >= 2 && a[0] == ESC && a[1] == '[' {
      var n := Parameters(a[2..]);
      assert (a + b)[2..] == a[2..] + b;
      ParametersStopAtBrace(a[2..], b);
      assert 2 + n < |a| ==> (a + b)[2 + n] == a[2 + n];
      assert 2 + n == |a| ==> (a + b)[2 + n] == '{';
    }
  }

  lemma {:induction false} ParametersStopAtBrace(a: string, b: string)
    requires b != [] && b[0] == '{'
    ensures Parameters(a + b) == Parameters(a)
  {
    if a == [] {
      assert a + b == b;
    } else {
      assert (a + b)[1..] == a[1..] + b;
      ParametersStopAtBrace(a[1..], b);
    }
  }

  lemma {:induction false} StripBefore(a: string, b: string)
    requires b != [] && b[0] == '{'
    ensures StripAnsi(a + b) == StripAnsi(a) + StripAnsi(b)
    decreases |a|
  {
    if a == [] {
      assert a + b == b;
    } else {
      EscapeStopsAtBrace(a, b);
      var n := EscapeLength(a);
      assert (a + b)[n..] == a[n..] + b && (a + b)[1..] == a[1..] + b;
      if n > 0 {
        StripBefore(a[n..], b);
      } else {
        StripBefore(a[1..], b);
        assert StripAnsi(a + b) == [a[0]] + StripAnsi(a[1..] + b);
        assert StripAnsi(a) == [a[0]] + StripAnsi(a[1..]);
        hide *;
        Associate([a[0]], StripAnsi(a[1..]), StripAnsi(b));
      }
    }
  }

  lemma {:induction false} StripPlain(a: string, b: string)
    requires ESC !in a
    ensures StripAnsi(a + b) == a + StripAnsi(b)
    decreases |a|
  {
    if a == [] {
      assert a + b == b;
    } else {
      assert a[0] in a && (a + b)[1..] == a[1..] + b;
      StripPlain(a[1..], b);
    }
  }

  lemma {:induction false} StripKeepsOut(s: string, c: char)
    requires c !in s
    ensures c !in StripAnsi(s)
    decreases |s|
  {
    if s != [] {
      StripKeepsOut(if EscapeLength(s) > 0 then s[EscapeLength(s)..] else s[1..], c);
    }
  }

  // ----- extraction -----

  /** What parsing a slice comes to: a value, the error that is caught, or another that is not. */
  datatype Loaded<+T> = Parsed(value: T) | Malformed | Raises

  /** What extraction comes to: a review, the error that there is none, or an error of the parser that escapes. */
  datatype Extraction<+T> = Found(value: T) | NoReview | Aborted

  /** text[start..end] is a slice that parses to a review. */
  ghost predicate ReviewSlice<T>(text: string, start: nat, end: nat, loads: string -> Loaded<T>, isReview: T -> bool) {
    && start < |text| && text[start] == '{' && IsSlice(text, start, end)
    && loads(text[start..end]).Parsed? && isReview(loads(text[start..end]).value)
  }

  ghost predicate ReviewAt<T>(text: string, start: nat, loads: string -> Loaded<T>, isReview: T -> bool) {
    exists end: nat :: ReviewSlice(text, start, end, loads, isReview)
  }

  ghost predicate RaisingSlice<T>(text: string, start: nat, end: nat, loads: string -> Loaded<T>) {
    start < |text| && text[start] == '{' && IsSlice(text, start, end) && loads(text[start..end]).Raises?
  }

  /** The slice that starts here makes the parser raise an error that is not caught. */
  ghost predicate RaisesAt<T>(text: string, start: nat, loads: string -> Loaded<T>) {
    exists end: nat :: RaisingSlice(text, start, end, loads)
  }

  ghost predicate SomeSliceRaises<T>(text: string, loads: string -> Loaded<T>) {
    exists start: nat :: RaisesAt(text, start, loads)
  }

  /** The slice is a review and no review starts after it. */
  ghost predicate LastReview<T>(text: string, start: nat, end: nat, loads: string -> Loaded<T>, isReview: T -> bool) {
    && ReviewSlice(text, start, end, loads, isReview)
    && forall later: nat | later > start :: !ReviewAt(text, later, loads, isReview)
  }

  /**
   * An error escapes when some slice raises it, wherever it stands. Otherwise the answer is the review that starts
   * last, and there is none only when no slice is a review.
   */
  ghost predicate Extracts<T>(text: string, loads: string -> Loaded<T>, isReview: T -> bool, out: Extraction<T>) {
    match out
    case Aborted => SomeSliceRaises(text, loads)
    case NoReview => !SomeSliceRaises(text, loads) && forall start: nat :: !ReviewAt(text, start, loads, isReview)
    case Found(value) =>
      && !SomeSliceRaises(text, loads)
      && exists start: nat, end: nat ::
           LastReview(text, start, end, loads, isReview) && loads(text[start..end]) == Parsed(value)
  }

  method ExtractReview<T>(output: string, loads: string -> Loaded<T>, isReview: T -> bool)
    returns (out: Extraction<T>)
    ensures Extracts(StripAnsi(output), loads, isReview, out)
  {
    var clean := StripAnsi(output);
    out := NoReview;
    ghost var at: nat, upTo: nat := 0, 0;
    for start := 0 to |clean|
      invariant !out.Aborted? && forall s: nat | s < start :: !RaisesAt(clean, s, loads)
      invariant out.NoReview? ==> forall s: nat | s < start :: !ReviewAt(clean, s, loads, isReview)
      invariant out.Found? ==>
                  && at < start && ReviewSlice(clean, at, upTo, loads, isReview)
                  && loads(clean[at..upTo]) == Parsed(out.value)
                  && forall s: nat | at < s < start :: !ReviewAt(clean, s, loads, isReview)
    {
      if clean[start] == '{' {
        var end := ScanFrom(clean, start);
        if end.Some? {
          OnlyThisSlice(clean, start, end.value, loads, isReview);
          var parsed := loads(clean[start..end.value]);
          if parsed.Raises? {
            return Aborted;
          }
          if parsed.Parsed? && isReview(parsed.value) {
            out := Found(parsed.value);
            at, upTo := start, end.value;
          }
        }
      }
    }
    assert out.Found? ==> LastReview(clean, at, upTo, loads, isReview);
  }

  lemma OnlyThisSlice<T>(text: string, start: nat, end: nat, loads: string -> Loaded<T>, isReview: T -> bool)
    requires start < |text| && text[start] == '{' && IsSlice(text, start, end)
    ensures ReviewAt(text, start, loads, isReview)
            <==> loads(text[start..end]).Parsed? && isReview(loads(text[start..end]).value)
    ensures RaisesAt(text, start, loads) <==> loads(text[start..end]).Raises?
  {
    if ReviewAt(text, start, loads, isReview) {
      var e: nat :| ReviewSlice(text, start, e, loads, isReview);
      SliceIsUnique(text, start, end, e);
    } else {
      assert !ReviewSlice(text, start, end, loads, isReview);
    }
    if RaisesAt(text, start, loads) {
      var e: nat :| RaisingSlice(text, start, e, loads);
      SliceIsUnique(text, start, end, e);
    } else {
      assert !RaisingSlice(text, start, end, loads);
    }
  }

  /** The contract leaves no choice. */
  lemma ExtractionIsUnique<T>(
    text: string, loads: string -> Loaded<T>, isReview: T -> bool, a: Extraction<T>, b: Extraction<T>)
    requires Extracts(text, loads, isReview, a) && Extracts(text, loads, isReview, b)
    ensures a == b
  {
    if a.Found? && b.Found? {
      var s: nat, e: nat :| LastReview(text, s, e, loads, isReview) && loads(text[s..e]) == Parsed(a.value);
      var t: nat, f: nat :| LastReview(text, t, f, loads, isReview) && loads(text[t..f]) == Parsed(b.value);
      assert ReviewAt(text, s, loads, isReview) && ReviewAt(text, t, loads, isReview);
      assert s == t;
      SliceIsUnique(text, s, e, f);
    } else if a.Found? {
      ReviewExists(text, loads, isReview, a);
    } else if b.Found? {
      ReviewExists(text, loads, isReview, b);
    }
  }

  lemma ReviewExists<T>(text: string, loads: string -> Loaded<T>, isReview: T -> bool, out: Extraction<T>)
    requires Extracts(text, loads, isReview, out) && out.Found?
    ensures exists start: nat :: ReviewAt(text, start, loads, isReview)
  {
    var s: nat, e: nat :| LastReview(text, s, e, loads, isReview) && loads(text[s..e]) == Parsed(out.value);
    assert ReviewAt(text, s, loads, isReview);
  }

  // ----- a printed review -----

  /** Every brace of the text opens one of the objects, written out from there. */
  ghost predicate BracesOpen(text: string, objects: set<Value>) {
    forall i | 0 <= i < |text| && text[i] == '{' :: exists w <- objects :: Print(w) <= text[i..]
  }

  lemma BracesAppend(a: string, b: string, objects: set<Value>)
    requires BracesOpen(a, objects) && BracesOpen(b, objects)
    ensures BracesOpen(a + b, objects)
  {
    forall i | 0 <= i < |a + b| && (a + b)[i] == '{' ensures exists w <- objects :: Print(w) <= (a + b)[i..] {
      if i < |a| {
        var w :| w in objects && Print(w) <= a[i..];
        assert (a + b)[i..] == a[i..] + b;
      } else {
        var w :| w in objects && Print(w) <= b[i - |a|..];
        assert (a + b)[i..] == b[i - |a|..];
      }
    }
  }

  lemma NoBraces(text: string, objects: set<Value>)
    requires '{' !in text
    ensures BracesOpen(text, objects)
  {
    assert forall i | 0 <= i < |text| :: text[i] in text;
  }

  lemma BracesWider(text: string, objects: set<Value>, more: set<Value>)
    requires BracesOpen(text, objects) && objects <= more
    ensures BracesOpen(text, more)
  {
    forall i | 0 <= i < |text| && text[i] == '{' ensures exists w <- more :: Print(w) <= text[i..] {
      var w :| w in objects && Print(w) <= text[i..];
      assert w in more;
    }
  }

  lemma {:induction false} ItemsHaveNoBrace(items: seq<Item>)
    requires ItemsOk(items) && BraceFree(items)
    ensures '{' !in PrintItems(items)
    decreases |items|
  {
    if items != [] {
      assert items[0] in items;
      ItemsHaveNoBrace(items[1..]);
      assert items[0].Unicode? ==> '{' !in items[0].hex;
    }
  }

  lemma KeyHasNoBrace(before: string, key: seq<Item>, colon: string, gap: string)
    requires IsSpace(before) && ItemsOk(key) && BraceFree(key) && IsSpace(colon) && IsSpace(gap)
    ensures '{' !in PrintKey(before, key, colon, gap)
  {
    ItemsHaveNoBrace(key);
  }

  lemma {:induction false} BracesOfValue(v: Value)
    requires ValueOk(v) && NoBraceInStrings(v)
    ensures BracesOpen(Print(v), Objects(v))
    ensures forall w <- Objects(v) :: w.Obj? && ValueOk(w)
    decreases v
  {
    hide BracesOpen;
    match v
    case Atom(text) => NoBraces(text, {});
    case Str(items) =>
      ItemsHaveNoBrace(items);
      NoBraces(Print(v), {});
    case Arr(es) =>
      BracesOfElements(es);
      NoBraces("[", Objects(v));
      NoBraces("]", Objects(v));
      BracesAppend("[", PrintElements(es), Objects(v));
      BracesAppend("[" + PrintElements(es), "]", Objects(v));
    case Obj(ms) =>
      BracesOfMembers(ms);
      ObjectOpens(v);
  }

  /** The braces of an object are its own and those of what is inside it. */
  lemma ObjectOpens(v: Value)
    requires v.Obj? && BracesOpen(PrintMembers(v.members), ObjectsInMembers(v.members))
    ensures BracesOpen(Print(v), Objects(v))
  {
    var body := PrintMembers(v.members);
    BracesWider(body, ObjectsInMembers(v.members), Objects(v));
    NoBraces("}", Objects(v));
    BracesAppend(body, "}", Objects(v));
    var text := Print(v);
    assert text == ['{'] + (body + "}");
    forall i | 0 <= i < |text| && text[i] == '{' ensures exists w <- Objects(v) :: Print(w) <= text[i..] {
      if i == 0 {
        assert text[0..] == text && v in Objects(v);
      } else {
        assert text[i..] == (body + "}")[i - 1..];
      }
    }
  }

  lemma {:induction false} BracesOfElements(es: Elements)
    requires ElementsOk(es) && NoBraceInElements(es)
    ensures BracesOpen(PrintElements(es), ObjectsInElements(es))
    ensures forall w <- ObjectsInElements(es) :: w.Obj? && ValueOk(w)
    decreases es
  {
    hide BracesOpen;
    var all := ObjectsInElements(es);
    match es
    case NoElements(space) => NoBraces(space, {});
    case Element(before, v, after, more) =>
      BracesOfValue(v);
      BracesOfElements(more);
      BracesWider(Print(v), Objects(v), all);
      BracesWider(PrintElements(more), ObjectsInElements(more), all);
      NoBraces(before, all);
      NoBraces(after, all);
      NoBraces(",", all);
      BracesAppend(before, Print(v), all);
      BracesAppend(before + Print(v), after, all);
      BracesAppend(before + Print(v) + after, ",", all);
      BracesAppend(before + Print(v) + after + ",", PrintElements(more), all);
    case LastElement(before, v, after) =>
      BracesOfValue(v);
      NoBraces(before, all);
      NoBraces(after, all);
      BracesAppend(before, Print(v), all);
      BracesAppend(before + Print(v), after, all);
  }

  lemma {:induction false} BracesOfMembers(ms: Members)
    requires MembersOk(ms) && NoBraceInMembers(ms)
    ensures BracesOpen(PrintMembers(ms), ObjectsInMembers(ms))
    ensures forall w <- ObjectsInMembers(ms) :: w.Obj? && ValueOk(w)
    decreases ms
  {
    hide BracesOpen;
    var all := ObjectsInMembers(ms);
    match ms
    case NoMembers(space) => NoBraces(space, {});
    case Member(before, key, colon, gap, v, after, more) =>
      var k := PrintKey(before, key, colon, gap);
      KeyHasNoBrace(before, key, colon, gap);
      BracesOfValue(v);
      BracesOfMembers(more);
      BracesWider(Print(v), Objects(v), all);
      BracesWider(PrintMembers(more), ObjectsInMembers(more), all);
      NoBraces(k, all);
      NoBraces(after, all);
      NoBraces(",", all);
      BracesAppend(k, Print(v), all);
      BracesAppend(k + Print(v), after, all);
      BracesAppend(k + Print(v) + after, ",", all);
      BracesAppend(k + Print(v) + after + ",", PrintMembers(more), all);
    case LastMember(before, key, colon, gap, v, after) =>
      var k := PrintKey(before, key, colon, gap);
      KeyHasNoBrace(before, key, colon, gap);
      BracesOfValue(v);
      NoBraces(k, all);
      NoBraces(after, all);
      BracesAppend(k, Print(v), all);
      BracesAppend(k + Print(v), after, all);
  }

  /** An object nested in v, whatever parses it, is not taken for a review. */
  ghost predicate OnlyOuterReview<T>(v: Value, loads: string -> Loaded<T>, isReview: T -> bool) {
    forall w <- Objects(v) | w != v :: loads(Print(w)).Parsed? ==> !isReview(loads(Print(w)).value)
  }

  /** A brace after the opening one of v, in v or after it, opens an object nested in v. */
  lemma LaterBrace(pre: string, v: Value, post: string, start: nat) returns (w: Value)
    requires v.Obj? && ValueOk(v) && NoBraceInStrings(v) && '{' !in post
    requires |pre| < start < |pre + Print(v) + post| && (pre + Print(v) + post)[start] == '{'
    ensures w in Objects(v) && w != v && w.Obj? && ValueOk(w) && Print(w) <= (pre + Print(v) + post)[start..]
  {
    var text, p, body := pre + Print(v) + post, Print(v), PrintMembers(v.members);
    var i := start - |pre| - 1;
    var tail := ['}'] + post;
    assert text == pre + ['{'] + (body + tail);
    assert text[start..] == (body + tail)[i..];
    assert (body + tail)[i] == '{';
    assert '{' !in tail;
    BracesOfMembers(v.members);
    w :| w in ObjectsInMembers(v.members) && Print(w) <= body[i..];
    assert (body + tail)[i..] == body[i..] + tail;
    assert |Print(w)| < |p|;
  }

  /** Nothing that starts after the opening brace of v is a review. */
  lemma NothingLater<T>(pre: string, v: Value, post: string, start: nat, loads: string -> Loaded<T>, isReview: T -> bool)
    requires v.Obj? && ValueOk(v) && NoBraceInStrings(v) && '{' !in post
    requires OnlyOuterReview(v, loads, isReview)
    requires start > |pre|
    ensures !ReviewAt(pre + Print(v) + post, start, loads, isReview)
  {
    var text := pre + Print(v) + post;
    if start < |text| && text[start] == '{' {
      var w := LaterBrace(pre, v, post, start);
      PrintedObjectIsSliced(text, start, w);
      OnlyThisSlice(text, start, start + |Print(w)|, loads, isReview);
    }
  }

  /** A well-formed value is written without control characters, so it never holds a terminal escape. */
  lemma {:induction false} ItemsHaveNoEscape(items: seq<Item>)
    requires ItemsOk(items)
    ensures ESC !in PrintItems(items)
    decreases |items|
  {
    if items != [] {
      assert items[0] in items;
      ItemsHaveNoEscape(items[1..]);
      assert items[0].Unicode? ==> ESC !in items[0].hex;
    }
  }

  lemma {:induction false} ValueHasNoEscape(v: Value)
    requires ValueOk(v)
    ensures ESC !in Print(v)
    decreases v
  {
    match v
    case Atom(_) =>
    case Str(items) => ItemsHaveNoEscape(items);
    case Arr(es) => ElementsHaveNoEscape(es);
    case Obj(ms) => MembersHaveNoEscape(ms);
  }

  lemma {:induction false} ElementsHaveNoEscape(es: Elements)
    requires ElementsOk(es)
    ensures ESC !in PrintElements(es)
    decreases es
  {
    match es
    case NoElements(_) =>
    case Element(_, v, _, more) =>
      ValueHasNoEscape(v);
      ElementsHaveNoEscape(more);
    case LastElement(_, v, _) => ValueHasNoEscape(v);
  }

  lemma {:induction false} MembersHaveNoEscape(ms: Members)
    requires MembersOk(ms)
    ensures ESC !in PrintMembers(ms)
    decreases ms
  {
    match ms
    case NoMembers(_) =>
    case Member(_, key, _, _, v, _, more) =>
      ItemsHaveNoEscape(key);
      ValueHasNoEscape(v);
      MembersHaveNoEscape(more);
    case LastMember(_, key, _, _, v, _) =>
      ItemsHaveNoEscape(key);
      ValueHasNoEscape(v);
  }

  /** Removing terminal escapes leaves a printed object alone, wherever it stands. */
  lemma StripAround(before: string, v: Value, rest: string)
    requires v.Obj? && ValueOk(v)
    ensures StripAnsi(before + Print(v) + rest) == StripAnsi(before) + Print(v) + StripAnsi(rest)
  {
    var p := Print(v);
    assert before + p + rest == before + (p + rest);
    StripBefore(before, p + rest);
    ValueHasNoEscape(v);
    StripPlain(p, rest);
  }

  /** In clean text where no slice raises, the printed review is the last one. */
  lemma PrintedReviewIsLast<T>(
    pre: string, v: Value, post: string, loads: string -> Loaded<T>, isReview: T -> bool)
    requires v.Obj? && ValueOk(v) && NoBraceInStrings(v) && '{' !in post
    requires loads(Print(v)).Parsed? && isReview(loads(Print(v)).value)
    requires OnlyOuterReview(v, loads, isReview) && !SomeSliceRaises(pre + Print(v) + post, loads)
    ensures Extracts(pre + Print(v) + post, loads, isReview, Found(loads(Print(v)).value))
  {
    hide ValueOk, NoBraceInStrings, OnlyOuterReview, IsSlice, SomeSliceRaises;
    var text, end := pre + Print(v) + post, |pre| + |Print(v)|;
    assert text[|pre|..] == Print(v) + post;
    PrintedObjectIsSliced(text, |pre|, v);
    forall start: nat | start > |pre| ensures !ReviewAt(text, start, loads, isReview) {
      NothingLater(pre, v, post, start, loads, isReview);
    }
    assert LastReview(text, |pre|, end, loads, isReview);
  }

  /**
   * Take output that carries a printed review, with anything before it and terminal escapes anywhere around it, such
   * that no string of the review holds an opening brace, none follows it, and no object inside it looks like a review
   * itself. It is answered with that review exactly when no slice of the output makes the parser raise; otherwise the
   * error escapes.
   */
  lemma PrintedReviewIsExtracted<T>(
    before: string, v: Value, rest: string, loads: string -> Loaded<T>, isReview: T -> bool, out: Extraction<T>)
    requires v.Obj? && ValueOk(v) && NoBraceInStrings(v) && '{' !in rest
    requires loads(Print(v)).Parsed? && isReview(loads(Print(v)).value)
    requires OnlyOuterReview(v, loads, isReview)
    requires Extracts(StripAnsi(before + Print(v) + rest), loads, isReview, out)
    ensures out == Found(loads(Print(v)).value) <==> !SomeSliceRaises(StripAnsi(before + Print(v) + rest), loads)
    ensures out.Aborted? <==> SomeSliceRaises(StripAnsi(before + Print(v) + rest), loads)
  {
    var clean := StripAnsi(before + Print(v) + rest);
    hide ValueOk, NoBraceInStrings, OnlyOuterReview, Print, StripAnsi, SomeSliceRaises, LastReview, ReviewAt;
    if !SomeSliceRaises(clean, loads) {
      StripAround(before, v, rest);
      StripKeepsOut(rest, '{');
      PrintedReviewIsLast(StripAnsi(before), v, StripAnsi(rest), loads, isReview);
      ExtractionIsUnique(clean, loads, isReview, out, Found(loads(Print(v)).value));
    }
  }

  // ----- one bad object -----

  /** Any object on which the parser raises, anywhere in the output, is enough for the error to escape. */
  lemma RaisingObjectEscapes<T>(
    before: string, w: Value, rest: string, loads: string -> Loaded<T>, isReview: T -> bool, out: Extraction<T>)
    requires w.Obj? && ValueOk(w) && loads(Print(w)).Raises?
    requires Extracts(StripAnsi(before + Print(w) + rest), loads, isReview, out)
    ensures out.Aborted?
  {
    hide StripAnsi, ValueOk, Print, SomeSliceRaises, LastReview, ReviewAt;
    StripAround(before, w, rest);
    RaisingObjectIsSliced(StripAnsi(before), w, StripAnsi(rest), loads);
  }

  lemma RaisingObjectIsSliced<T>(pre: string, w: Value, post: string, loads: string -> Loaded<T>)
    requires w.Obj? && ValueOk(w) && loads(Print(w)).Raises?
    ensures SomeSliceRaises(pre + Print(w) + post, loads)
  {
    hide ValueOk, Print, IsSlice;
    var text := pre + Print(w) + post;
    assert text[|pre|..] == Print(w) + post;
    PrintedObjectIsSliced(text, |pre|, w);
    assert RaisingSlice(text, |pre|, |pre| + |Print(w)|, loads);
    assert RaisesAt(text, |pre|, loads);
  }

  /** An object with one number of five thousand digits. */
  const LongNumber: Value := Obj(LastMember("", [Plain('n')], "", " ", Atom(seq(5000, _ => '1')), ""))

  lemma LongNumberIsJson()
    ensures ValueOk(LongNumber)
  {
    var digits := seq(5000, _ => '1');
    assert digits[0] == '1';
    assert forall c <- digits :: c == '1';
    assert IsAtom(digits);
  }

  /**
   * A parser that refuses so long a number with an error of another kind loses a review that is printed right after
   * it, however good the review is.
   */
  lemma LongNumberLosesTheReview<T>(v: Value, loads: string -> Loaded<T>, isReview: T -> bool, out: Extraction<T>)
    requires v.Obj? && ValueOk(v) && loads(Print(v)).Parsed? && isReview(loads(Print(v)).value)
    requires loads(Print(LongNumber)).Raises?
    requires Extracts(StripAnsi(Print(LongNumber) + Print(v)), loads, isReview, out)
    ensures out.Aborted?
  {
    LongNumberIsJson();
    assert "" + Print(LongNumber) + Print(v) == Print(LongNumber) + Print(v);
    hide Print, StripAnsi, Extracts, ValueOk;
    RaisingObjectEscapes("", LongNumber, Print(v), loads, isReview, out);
  }
}
