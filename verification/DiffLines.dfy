/**
 * Which new-side lines of a file a patch shows. A patch is text: it is cut into lines wherever Python's splitlines
 * cuts, which is at more characters than the line feed that ends a line of a patch, and its numerals are written in
 * any decimal digits of Unicode.
 */
module DiffLines {
  import opened Decimal
  import opened Options
  import opened Sequences

  // ----- lines -----

  predicate Boundary(c: char) { c as int in {10, 11, 12, 13, 28, 29, 30, 0x85, 0x2028, 0x2029} }

  function ToBoundary(s: string): (k: nat)
    ensures k <= |s| && (forall i | 0 <= i < k :: !Boundary(s[i])) && (k < |s| ==> Boundary(s[k]))
  {
    if s == "" || Boundary(s[0]) then 0 else 1 + ToBoundary(s[1..])
  }

  /** A carriage return and a line feed together are one boundary. */
  function Width(s: string, k: nat): nat
    requires k < |s|
  {
    if s[k] == '\r' && k + 1 < |s| && s[k + 1] == '\n' then 2 else 1
  }

  /** What is left after the first line. */
  function Rest(s: string): (r: string)
    requires s != ""
    ensures |r| < |s|
  {
    var k := ToBoundary(s);
    if k == |s| then "" else s[k + Width(s, k)..]
  }

  function Lines(s: string): seq<string>
    decreases |s|
  {
    if s == "" then [] else [s[..ToBoundary(s)]] + Lines(Rest(s))
  }

  ghost predicate Terminated(t: string) { t != "" && t[|t| - 1] == '\n' }

  /** What follows a terminated text does not change where it is first cut. */
  lemma CutSame(t: string, b: string)
    requires Terminated(t)
    ensures (t + b)[..ToBoundary(t + b)] == t[..ToBoundary(t)]
    ensures Rest(t + b) == Rest(t) + b
    ensures Rest(t) == "" || Terminated(Rest(t))
  {
    CutPlace(t, b);
    hide ToBoundary;
    var k := ToBoundary(t);
    var w := Width(t, k);
    assert (t + b)[k + w..] == t[k + w..] + b;
  }

  lemma CutPlace(t: string, b: string)
    requires Terminated(t)
    ensures var k := ToBoundary(t); k < |t| && ToBoundary(t + b) == k && Width(t + b, k) == Width(t, k)
  {
    var k := ToBoundary(t);
    assert Boundary(t[|t| - 1]);
    assert (t + b)[k] == t[k];
    assert forall i | 0 <= i < k :: (t + b)[i] == t[i];
    assert ToBoundary(t + b) == k;
  }

  lemma LinesStep(s: string, piece: string, rest: string)
    requires s != "" && piece == s[..ToBoundary(s)] && rest == Rest(s)
    ensures Lines(s) == [piece] + Lines(rest)
  {
  }

  lemma {:induction false} LinesAppend(t: string, b: string)
    requires t == "" || Terminated(t)
    ensures Lines(t + b) == Lines(t) + Lines(b)
    decreases |t|
  {
    if t == "" {
      assert t + b == b;
    } else {
      CutSame(t, b);
      var piece, rest := t[..ToBoundary(t)], Rest(t);
      LinesStep(t, piece, rest);
      LinesStep(t + b, piece, rest + b);
      LinesAppend(rest, b);
      hide *;
      Associate([piece], Lines(rest), Lines(b));
    }
  }

  /** A line feed put after a line is the end of that line, or of its last piece. */
  lemma CutLine(a: string)
    ensures var t := a + "\n";
            && t[..ToBoundary(t)] == a[..ToBoundary(a)]
            && ((Rest(t) == "" && (a != "" ==> Rest(a) == "")) || (a != "" && Rest(t) == Rest(a) + "\n"))
  {
    var k, t := ToBoundary(a), a + "\n";
    assert t[..k] == a[..k];
    assert t[k] == if k < |a| then a[k] else '\n';
    assert ToBoundary(t) == k;
    var w := Width(t, k);
    if k < |a| && k + w <= |a| {
      assert t[k + w..] == a[k + w..] + "\n";
    }
  }

  /** A last line without its line feed reads the same, up to an empty line. */
  lemma {:induction false} LastLineFeed(s: string)
    ensures Lines(s + "\n") == Lines(s) || Lines(s + "\n") == Lines(s) + [""]
    decreases |s|
  {
    CutLine(s);
    if s == "" {
      assert s[..ToBoundary(s)] == "";
    } else {
      LastLineFeed(Rest(s));
    }
    hide ToBoundary, Rest;
  }

  // ----- digits -----

  /** Whether a run of ten decimal digits starts here, section 4.6 of Unicode 15.0, besides the ASCII one. */
  predicate IsZero(n: int) {
    n in {
      0x660, 0x6F0, 0x7C0, 0x966, 0x9E6, 0xA66, 0xAE6, 0xB66, 0xBE6, 0xC66, 0xCE6, 0xD66, 0xDE6, 0xE50, 0xED0, 0xF20,
      0x1040, 0x1090, 0x17E0, 0x1810, 0x1946, 0x19D0, 0x1A80, 0x1A90, 0x1B50, 0x1BB0, 0x1C40, 0x1C50, 0xA620, 0xA8D0,
      0xA900, 0xA9D0, 0xA9F0, 0xAA50, 0xABF0, 0xFF10, 0x104A0, 0x10D30, 0x11066, 0x110F0, 0x11136, 0x111D0, 0x112F0,
      0x11450, 0x114D0, 0x11650, 0x116C0, 0x11730, 0x118E0, 0x11950, 0x11C50, 0x11D50, 0x11DA0, 0x11F50, 0x16A60, 0x16AC0,
      0x16B50, 0x1D7CE, 0x1D7D8, 0x1D7E2, 0x1D7EC, 0x1D7F6, 0x1E140, 0x1E2F0, 0x1E4F0, 0x1E950, 0x1FBF0
    }
  }

  /** The digit at this place of a run, if a run starts k to 9 places before. */
  function DigitFrom(n: int, k: nat): (d: Option<nat>)
    ensures d.Some? ==> d.value < 10
    decreases 10 - k
  {
    if k >= 10 then None else if IsZero(n - k) then Some(k) else DigitFrom(n, k + 1)
  }

  /** The ASCII digit for any decimal digit; every other character is itself. */
  function AsciiDigit(c: char): (d: char)
    ensures d == c || (IsDigit(d) && c as int >= 0x660)
  {
    if c as int < 0x660 then c
    else
      match DigitFrom(c as int, 0)
      case Some(k) => DigitChar(k)
      case None => c
  }

  /** The text with ASCII digits for its decimal digits, as the conversion to a number reads it. */
  function Ascii(s: string): (t: string)
    ensures |t| == |s| && forall i | 0 <= i < |s| :: t[i] == AsciiDigit(s[i])
  {
    seq(|s|, i requires 0 <= i < |s| => AsciiDigit(s[i]))
  }

  lemma AsciiAppend(x: string, y: string)
    ensures Ascii(x + y) == Ascii(x) + Ascii(y)
  {
    hide AsciiDigit;
  }

  /** A text in ASCII is itself; and only a text itself reads as one without digits. */
  lemma AsciiStays(s: string)
    requires forall c <- s :: c as int < 0x660
    ensures Ascii(s) == s
  {
    forall i | 0 <= i < |s| ensures AsciiDigit(s[i]) == s[i] {
      assert s[i] in s;
    }
  }

  lemma OnlyItself(s: string, t: string)
    requires Ascii(s) == t && forall c <- t :: !IsDigit(c)
    ensures s == t
  {
    hide AsciiDigit, Ascii;
    forall i | 0 <= i < |s| ensures s[i] == t[i] {
      assert t[i] in t;
    }
  }

  lemma CutAscii(line: string, x: string, y: string) returns (u: string, v: string)
    requires Ascii(line) == x + y
    ensures line == u + v && Ascii(u) == x && Ascii(v) == y
  {
    hide AsciiDigit;
    u, v := line[..|x|], line[|x|..];
    assert line == u + v;
    AsciiAppend(u, v);
    assert Ascii(u) == (x + y)[..|x|] && Ascii(v) == (x + y)[|x|..];
  }

  lemma CutLiteral(line: string, lit: string, y: string) returns (v: string)
    requires Ascii(line) == lit + y && forall c <- lit :: !IsDigit(c)
    ensures line == lit + v && Ascii(v) == y
  {
    var u;
    u, v := CutAscii(line, lit, y);
    OnlyItself(u, lit);
  }

  // ----- hunk headers -----

  function SkipCount(s: string): string {
    if s != "" && s[0] == ',' && DigitRun(s[1..]) > 0 then s[1 + DigitRun(s[1..])..] else s
  }

  predicate StartsWith(s: string, prefix: string) { |prefix| <= |s| && s[..|prefix|] == prefix }

  /** A number, then perhaps a comma and a count: the number as written and what follows. */
  function ReadRange(s: string): (r: Option<(string, string)>)
    ensures r.Some? ==> Numeral(r.value.0)
  {
    var n := DigitRun(s);
    if n == 0 then None else Some((s[..n], SkipCount(s[n..])))
  }

  /** The new-side start that a hunk header names, in ASCII digits; None for any other line. */
  function HunkNumeral(line: string): (r: Option<string>)
    ensures r.Some? ==> Numeral(r.value)
  {
    AsciiNumeral(Ascii(line))
  }

  function AsciiNumeral(line: string): (r: Option<string>)
    ensures r.Some? ==> Numeral(r.value)
  {
    if !StartsWith(line, "@@ -") then None
    else
      match ReadRange(line[4..])
      case None => None
      case Some(before) =>
        if !StartsWith(before.1, " +") then None
        else
          match ReadRange(before.1[2..])
          case None => None
          case Some(after) => if StartsWith(after.1, " @@") then Some(after.0) else None
  }

  function HunkStart(line: string): Option<nat> {
    match HunkNumeral(line)
    case None => None
    case Some(numeral) => Some(Value(numeral))
  }

  /** A numeral with more digits than this is not converted: int() raises. */
  const MAX_DIGITS := 4300

  predicate Refused(line: string) { HunkNumeral(line).Some? && |HunkNumeral(line).value| > MAX_DIGITS }

  ghost predicate SomeRefused(lines: seq<string>) { exists line <- lines :: Refused(line) }

  ghost predicate OptionalCount(s: string) { s == "" || (|s| >= 2 && s[0] == ',' && Numeral(s[1..])) }

  /** Two numbers, each perhaps with a comma and a count. */
  ghost predicate Ranges(a: string, p: string, b: string, q: string) {
    a != "" && Numeral(a) && OptionalCount(p) && b != "" && Numeral(b) && OptionalCount(q)
  }

  function HeaderOf(a: string, p: string, b: string, q: string, rest: string): string {
    "@@ -" + (a + (p + (" +" + (b + (q + (" @@" + rest))))))
  }

  /** The line as the header pattern reads it. */
  ghost predicate IsHeader(line: string, a: string, p: string, b: string, q: string, rest: string) {
    Ranges(Ascii(a), Ascii(p), Ascii(b), Ascii(q)) && line == HeaderOf(a, p, b, q, rest)
  }

  lemma SkipsCount(p: string, rest: string)
    requires OptionalCount(p) && rest != "" && rest[0] == ' '
    ensures SkipCount(p + rest) == rest
  {
    if p == "" {
      assert p + rest == rest;
    } else {
      assert (p + rest)[1..] == p[1..] + rest;
      DigitRunOf(p[1..], rest);
      assert (p + rest)[|p|..] == rest;
    }
  }

  lemma SkippedCount(s: string)
    ensures exists p :: OptionalCount(p) && s == p + SkipCount(s)
  {
    if SkipCount(s) == s {
      assert OptionalCount("") && s == "" + SkipCount(s);
    } else {
      var n := 1 + DigitRun(s[1..]);
      assert s[..n][1..] == s[1..][..n - 1];
      assert OptionalCount(s[..n]) && s == s[..n] + SkipCount(s);
    }
  }

  /** A numeral, an optional count and what follows, read back. */
  lemma RangeIsRead(a: string, p: string, rest: string)
    requires a != "" && Numeral(a) && OptionalCount(p) && rest != "" && rest[0] == ' '
    ensures ReadRange(a + (p + rest)) == Some((a, rest))
  {
    DigitRunOf(a, p + rest);
    SkipsCount(p, rest);
  }

  lemma RangeWasRead(s: string) returns (a: string, p: string)
    requires ReadRange(s).Some?
    ensures a != "" && Numeral(a) && a == ReadRange(s).value.0
    ensures OptionalCount(p) && s == a + (p + ReadRange(s).value.1)
  {
    var n := DigitRun(s);
    a := s[..n];
    SkippedCount(s[n..]);
    p :| OptionalCount(p) && s[n..] == p + SkipCount(s[n..]);
    hide DigitRun, SkipCount, OptionalCount;
    assert s == s[..n] + s[n..];
  }

  lemma Prefixed(prefix: string, s: string)
    ensures StartsWith(prefix + s, prefix) && (prefix + s)[|prefix|..] == s
  {
  }

  lemma Prefix(s: string, prefix: string)
    requires StartsWith(s, prefix)
    ensures s == prefix + s[|prefix|..]
  {
  }

  lemma AsciiHeaderIsRead(a: string, p: string, b: string, q: string, rest: string)
    requires Ranges(a, p, b, q)
    ensures AsciiNumeral(HeaderOf(a, p, b, q, rest)) == Some(b)
  {
    var tail := " @@" + rest;
    RangeIsRead(b, q, tail);
    var mid := " +" + (b + (q + tail));
    RangeIsRead(a, p, mid);
    Prefixed("@@ -", a + (p + mid));
    Prefixed(" +", b + (q + tail));
    Prefixed(" @@", rest);
    hide ReadRange, StartsWith, OptionalCount;
  }

  lemma AsciiOfHeader(a: string, p: string, b: string, q: string, rest: string)
    ensures Ascii(HeaderOf(a, p, b, q, rest)) == HeaderOf(Ascii(a), Ascii(p), Ascii(b), Ascii(q), Ascii(rest))
  {
    AsciiStays("@@ -");
    AsciiStays(" +");
    AsciiStays(" @@");
    hide Ascii;
    AsciiAppend(" @@", rest);
    AsciiAppend(q, " @@" + rest);
    AsciiAppend(b, q + (" @@" + rest));
    AsciiAppend(" +", b + (q + (" @@" + rest)));
    AsciiAppend(p, " +" + (b + (q + (" @@" + rest))));
    AsciiAppend(a, p + (" +" + (b + (q + (" @@" + rest)))));
    AsciiAppend("@@ -", a + (p + (" +" + (b + (q + (" @@" + rest))))));
  }

  lemma HeaderIsRead(line: string, a: string, p: string, b: string, q: string, rest: string)
    requires IsHeader(line, a, p, b, q, rest)
    ensures HunkNumeral(line) == Some(Ascii(b))
  {
    AsciiOfHeader(a, p, b, q, rest);
    AsciiHeaderIsRead(Ascii(a), Ascii(p), Ascii(b), Ascii(q), Ascii(rest));
    hide AsciiNumeral, Ascii, HeaderOf, Ranges;
  }

  /** A header in ASCII digits names its number as it is written. */
  lemma PlainHeaderIsRead(line: string, a: string, p: string, b: string, q: string, rest: string)
    requires Ranges(a, p, b, q) && line == HeaderOf(a, p, b, q, rest)
    ensures HunkNumeral(line) == Some(b)
  {
    RangesInAscii(a, p, b, q);
    hide Ranges, HunkNumeral, HeaderOf, Ascii;
    HeaderIsRead(line, a, p, b, q, rest);
  }

  lemma RangesInAscii(a: string, p: string, b: string, q: string)
    requires Ranges(a, p, b, q)
    ensures Ascii(a) == a && Ascii(p) == p && Ascii(b) == b && Ascii(q) == q
  {
    hide Ascii;
    AsciiStays(a);
    AsciiStays(b);
    CountInAscii(p);
    CountInAscii(q);
  }

  lemma CountInAscii(p: string)
    requires OptionalCount(p)
    ensures Ascii(p) == p
  {
    if p != "" {
      assert p == [p[0]] + p[1..];
    }
    hide Ascii;
    AsciiStays(p);
  }

  lemma ReadAsciiHeader(line: string) returns (a: string, p: string, b: string, q: string, rest: string)
    requires AsciiNumeral(line).Some?
    ensures Ranges(a, p, b, q) && line == HeaderOf(a, p, b, q, rest) && b == AsciiNumeral(line).value
  {
    var before := ReadRange(line[4..]).value;
    a, p := RangeWasRead(line[4..]);
    var after := ReadRange(before.1[2..]).value;
    b, q := RangeWasRead(before.1[2..]);
    rest := after.1[3..];
    hide ReadRange, OptionalCount;
    Prefix(line, "@@ -");
    Prefix(before.1, " +");
    Prefix(after.1, " @@");
    hide StartsWith;
  }

  lemma NoDigitsInLiterals()
    ensures forall lit, c | lit in ["@@ -", " +", " @@"] && c in lit :: !IsDigit(c)
  {
  }

  lemma SplitHeader(line: string, a': string, p': string, b': string, q': string, rest': string)
    returns (a: string, p: string, b: string, q: string, rest: string)
    requires Ascii(line) == HeaderOf(a', p', b', q', rest')
    ensures line == HeaderOf(a, p, b, q, rest)
    ensures Ascii(a) == a' && Ascii(p) == p' && Ascii(b) == b' && Ascii(q) == q' && Ascii(rest) == rest'
  {
    hide Ascii, IsDigit;
    NoDigitsInLiterals();
    var t3 := " @@" + rest';
    var t2 := " +" + (b' + (q' + t3));
    var v1 := CutLiteral(line, "@@ -", a' + (p' + t2));
    var v2, v3, v4, v5, v6;
    a, v2 := CutAscii(v1, a', p' + t2);
    p, v3 := CutAscii(v2, p', t2);
    v4 := CutLiteral(v3, " +", b' + (q' + t3));
    b, v5 := CutAscii(v4, b', q' + t3);
    q, v6 := CutAscii(v5, q', t3);
    rest := CutLiteral(v6, " @@", rest');
  }

  lemma ReadHeader(line: string) returns (a: string, p: string, b: string, q: string, rest: string)
    requires HunkNumeral(line).Some?
    ensures IsHeader(line, a, p, b, q, rest) && Ascii(b) == HunkNumeral(line).value
  {
    var a', p', b', q', rest' := ReadAsciiHeader(Ascii(line));
    hide Ascii, AsciiNumeral, Ranges, HeaderOf;
    a, p, b, q, rest := SplitHeader(line, a', p', b', q', rest');
  }

  lemma SameFirst(s: string, prefix: string)
    requires prefix != ""
    ensures StartsWith(s, prefix) ==> s != "" && s[0] == prefix[0]
  {
    assert StartsWith(s, prefix) ==> s[..|prefix|][0] == s[0];
  }

  lemma NotAHeader(line: string)
    requires line == "" || line[0] != '@'
    ensures HunkStart(line).None?
  {
    SameFirst(Ascii(line), "@@ -");
    hide AsciiDigit;
  }

  /** The reader accepts exactly the lines the header pattern matches, with the numeral that it captures. */
  lemma HeaderIff(line: string, numeral: string)
    ensures HunkNumeral(line) == Some(numeral)
            <==> exists a, p, b, q, rest :: IsHeader(line, a, p, b, q, rest) && numeral == Ascii(b)
  {
    hide HunkNumeral, IsHeader, Ascii;
    forall a, p, b, q, rest | IsHeader(line, a, p, b, q, rest)
      ensures HunkNumeral(line) == Some(Ascii(b))
    {
      HeaderIsRead(line, a, p, b, q, rest);
    }
    if HunkNumeral(line) == Some(numeral) {
      var a, p, b, q, rest := ReadHeader(line);
      assert IsHeader(line, a, p, b, q, rest);
    }
  }

  lemma {:induction false} DigitOfRun(n: int, d: nat, k: nat)
    requires k <= d < 10 && IsZero(n - d) && forall m | n - d < m <= n - k :: !IsZero(m)
    ensures DigitFrom(n, k) == Some(d)
    decreases d - k
  {
    hide IsZero;
    if k < d {
      DigitOfRun(n, d, k + 1);
    }
  }

  lemma ArabicNine()
    ensures Ascii("\U{0669}") == "9"
  {
    ArabicRun();
    hide IsZero, DigitFrom;
    DigitOfRun(0x669, 9, 0);
  }

  lemma ArabicRun()
    ensures IsZero(0x660) && forall m | 0x660 < m <= 0x669 :: !IsZero(m)
  {
  }

  /** An Arabic nine is a nine. */
  lemma ArabicHeader()
    ensures HunkStart("@@ -1 +\U{0669} @@") == Some(9)
  {
    var line, nine := "@@ -1 +\U{0669} @@", "\U{0669}";
    ArabicNine();
    AsciiStays("1");
    AsciiStays("");
    hide Ascii;
    assert Ranges("1", "", "9", "");
    assert line == HeaderOf("1", "", nine, "", "");
    hide HunkNumeral, HeaderOf, Ranges;
    HeaderIsRead(line, "1", "", nine, "", "");
    NineIsNine();
  }

  lemma NineIsNine()
    ensures Value("9") == 9
  {
    assert "9"[..0] == "";
  }

  // ----- the scan -----

  /** The next new-side number, 0 outside any hunk, and the numbers found so far. */
  datatype Cursor = Cursor(line: nat, found: set<nat>)

  const Start: Cursor := Cursor(0, {})

  predicate Shown(raw: string) { raw != "" && raw[0] in {'+', ' '} }

  function AfterLine(cur: Cursor, raw: string): Cursor {
    match HunkStart(raw)
    case Some(start) => cur.(line := start)
    case None => if Shown(raw) && cur.line != 0 then Cursor(cur.line + 1, cur.found + {cur.line}) else cur
  }

  function After(cur: Cursor, lines: seq<string>): Cursor {
    if lines == [] then cur else AfterLine(After(cur, lines[..|lines| - 1]), lines[|lines| - 1])
  }

  /** What reading a text answers; None when the number of a header cannot be converted, an error that escapes. */
  ghost function Commentable(text: string): Option<set<nat>> {
    if SomeRefused(Lines(text)) then None else Some(After(Start, Lines(text)).found)
  }

  method CommentableLines(patch: string) returns (lines: Option<set<nat>>)
    ensures lines == Commentable(patch)
    ensures lines.Some? ==> 0 !in lines.value
  {
    hide HunkNumeral, Lines;
    var raws := Lines(patch);
    var found, newLine := {}, 0;
    for i := 0 to |raws|
      invariant Cursor(newLine, found) == After(Start, raws[..i])
      invariant 0 !in found && forall k | 0 <= k < i :: !Refused(raws[k])
    {
      assert raws[..i + 1][..i] == raws[..i];
      var raw := raws[i];
      var hunk := HunkNumeral(raw);
      if hunk.Some? {
        if |hunk.value| > MAX_DIGITS {
          assert Refused(raw);
          return None;
        }
        newLine := Value(hunk.value);
        continue;
      }
      if raw == "" || newLine == 0 {
        continue;
      }
      if raw[0] in {'+', ' '} {
        found := found + {newLine};
        newLine := newLine + 1;
      }
    }
    assert raws[..|raws|] == raws;
    lines := Some(found);
  }

  lemma {:induction false} AfterAppend(cur: Cursor, xs: seq<string>, ys: seq<string>)
    ensures After(cur, xs + ys) == After(After(cur, xs), ys)
    decreases |ys|
  {
    if ys == [] {
      assert xs + ys == xs;
    } else {
      var init := ys[..|ys| - 1];
      assert (xs + ys)[..|xs + ys| - 1] == xs + init;
      AfterAppend(cur, xs, init);
    }
  }

  function Interval(start: nat, count: nat): (r: set<nat>)
    ensures forall n :: n in r <==> start <= n < start + count
  {
    if count == 0 then {} else Interval(start, count - 1) + {start + count - 1}
  }

  function ShownCount(lines: seq<string>): nat {
    if lines == [] then 0 else ShownCount(lines[..|lines| - 1]) + (if Shown(lines[|lines| - 1]) then 1 else 0)
  }

  lemma {:induction false} ShownCountAppend(xs: seq<string>, ys: seq<string>)
    ensures ShownCount(xs + ys) == ShownCount(xs) + ShownCount(ys)
    decreases |ys|
  {
    if ys == [] {
      assert xs + ys == xs;
    } else {
      var init := ys[..|ys| - 1];
      assert (xs + ys)[..|xs + ys| - 1] == xs + init;
      ShownCountAppend(xs, init);
    }
  }

  ghost predicate NoHeader(lines: seq<string>) { forall raw <- lines :: HunkStart(raw).None? }

  /** Between two headers, the shown lines are numbered one after the other. */
  lemma {:induction false} AfterBody(cur: Cursor, lines: seq<string>)
    requires NoHeader(lines)
    ensures After(cur, lines)
            == if cur.line == 0 then cur
               else Cursor(cur.line + ShownCount(lines), cur.found + Interval(cur.line, ShownCount(lines)))
    decreases |lines|
  {
    if lines == [] {
      assert cur.found + Interval(cur.line, 0) == cur.found;
    } else {
      var init := lines[..|lines| - 1];
      AfterBody(cur, init);
      assert HunkStart(lines[|lines| - 1]).None?;
      var n := ShownCount(init);
      assert Interval(cur.line, n + 1) == Interval(cur.line, n) + {cur.line + n};
    }
  }
}
