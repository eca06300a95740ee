/** On-screen captions: a partition of the narration's words and of its time, and their SRT time stamps. */
module Captions {
  import opened Decimal

  // ----- words into lines -----

  predicate EndsClause(word: string) {
    word != [] && word[|word| - 1] in ".,;:!?"
  }

  /** The line is full, or it ends a clause and is long enough not to flash past. */
  predicate Breaks(line: seq<string>, maxWords: int) {
    line != [] && (|line| >= maxWords || (EndsClause(line[|line| - 1]) && |line| >= 3))
  }

  ghost function Flatten(lines: seq<seq<string>>): seq<string> {
    if lines == [] then [] else lines[0] + Flatten(lines[1..])
  }

  lemma {:induction false} FlattenSnoc(lines: seq<seq<string>>, line: seq<string>)
    ensures Flatten(lines + [line]) == Flatten(lines) + line
    decreases |lines|
  {
    if lines == [] {
      assert (lines + [line])[1..] == [];
    } else {
      assert (lines + [line])[1..] == lines[1..] + [line];
      FlattenSnoc(lines[1..], line);
    }
  }

  /** A line breaks nowhere before its end. */
  ghost predicate Unbroken(line: seq<string>, maxWords: int) {
    forall k | 0 < k < |line| :: !Breaks(line[..k], maxWords)
  }

  /** Lines are broken as early as the rule allows and no earlier; only the last may stop short. */
  ghost predicate Lines(words: seq<string>, lines: seq<seq<string>>, maxWords: int) {
    && Flatten(lines) == words
    && (forall line <- lines :: line != [] && Unbroken(line, maxWords))
    && (forall i | 0 <= i < |lines| - 1 :: Breaks(lines[i], maxWords))
  }

  /** A line that has not broken yet takes one more word. */
  lemma GrowLine(line: seq<string>, word: string, maxWords: int)
    requires Unbroken(line, maxWords) && !Breaks(line, maxWords)
    ensures Unbroken(line + [word], maxWords)
  {
    var grown := line + [word];
    forall k | 0 < k < |grown| ensures !Breaks(grown[..k], maxWords) {
      assert grown[..k] == line[..k];
      assert line[..|line|] == line;
    }
  }

  lemma LineIsShort(line: seq<string>, maxWords: int)
    requires Unbroken(line, maxWords) && maxWords >= 1
    ensures |line| <= maxWords
  {
    assert |line| > maxWords ==> Breaks(line[..maxWords], maxWords);
  }

  method SplitLines(words: seq<string>, maxWords: int) returns (lines: seq<seq<string>>)
    ensures Lines(words, lines, maxWords)
    ensures forall line <- lines :: 1 <= |line| && (maxWords >= 1 ==> |line| <= maxWords)
  {
    lines := [];
    var current: seq<string> := [];
    for i := 0 to |words|
      invariant Flatten(lines) + current == words[..i]
      invariant forall line <- lines :: line != [] && Unbroken(line, maxWords) && Breaks(line, maxWords)
      invariant Unbroken(current, maxWords) && !Breaks(current, maxWords)
    {
      GrowLine(current, words[i], maxWords);
      assert Flatten(lines) + (current + [words[i]]) == words[..i + 1];
      current := current + [words[i]];
      assert current[|current| - 1] == words[i];
      if |current| >= maxWords || (EndsClause(words[i]) && |current| >= 3) {
        FlattenSnoc(lines, current);
        lines := lines + [current];
        current := [];
      }
    }
    assert words[..|words|] == words;
    if current != [] {
      FlattenSnoc(lines, current);
      lines := lines + [current];
    }
    forall line <- lines ensures maxWords >= 1 ==> |line| <= maxWords {
      if maxWords >= 1 {
        LineIsShort(line, maxWords);
      }
    }
  }

  lemma FirstLineNotShorter(words: seq<string>, a: seq<seq<string>>, b: seq<seq<string>>, maxWords: int)
    requires Lines(words, a, maxWords) && Lines(words, b, maxWords) && a != [] && b != []
    ensures |a[0]| >= |b[0]|
  {
    assert a[0] in a && b[0] in b;
    assert words == a[0] + Flatten(a[1..]) == b[0] + Flatten(b[1..]);
    if |a[0]| < |b[0]| {
      CutShort(words, a[0], Flatten(a[1..]), b[0], Flatten(b[1..]), maxWords);
      assert false;
    }
  }

  lemma CutShort(words: seq<string>, x: seq<string>, rest: seq<string>, y: seq<string>, rest': seq<string>, maxWords: int)
    requires words == x + rest == y + rest' && 0 < |x| < |y| && Unbroken(y, maxWords)
    ensures !Breaks(x, maxWords)
  {
    assert x == words[..|x|] == y[..|x|];
  }

  /** The rule leaves no choice: the words have one division into lines. */
  lemma {:induction false} LinesAreUnique(words: seq<string>, a: seq<seq<string>>, b: seq<seq<string>>, maxWords: int)
    requires Lines(words, a, maxWords) && Lines(words, b, maxWords)
    ensures a == b
    decreases |a|
  {
    NoWordsNoLines(words, a, maxWords);
    NoWordsNoLines(words, b, maxWords);
    if a != [] && b != [] {
      FirstLineNotShorter(words, a, b, maxWords);
      FirstLineNotShorter(words, b, a, maxWords);
      AfterFirstLine(words, a, maxWords);
      AfterFirstLine(words, b, maxWords);
      hide Lines;
      LinesAreUnique(words[|a[0]|..], a[1..], b[1..], maxWords);
      assert a == [a[0]] + a[1..] && b == [b[0]] + b[1..];
    }
  }

  lemma NoWordsNoLines(words: seq<string>, a: seq<seq<string>>, maxWords: int)
    requires Lines(words, a, maxWords)
    ensures words == [] <==> a == []
  {
    assert a != [] ==> a[0] in a;
  }

  lemma AfterFirstLine(words: seq<string>, a: seq<seq<string>>, maxWords: int)
    requires Lines(words, a, maxWords) && a != []
    ensures |a[0]| <= |words| && a[0] == words[..|a[0]|] && Lines(words[|a[0]|..], a[1..], maxWords)
  {
    var rest := Flatten(a[1..]);
    assert words == a[0] + rest;
    hide Flatten, Breaks, Unbroken;
    assert words[|a[0]|..] == rest;
  }

  // ----- time -----

  datatype Cue = Cue(from: real, to: real, text: string)

  function Joined(line: seq<string>): string {
    if line == [] then "" else if |line| == 1 then line[0] else Joined(line[..|line| - 1]) + " " + line[|line| - 1]
  }

  function TotalLength(chunks: seq<string>): nat {
    if chunks == [] then 0 else TotalLength(chunks[..|chunks| - 1]) + |chunks[|chunks| - 1]|
  }

  lemma {:induction false} JoinedNonEmpty(line: seq<string>)
    requires line != [] && forall word <- line :: word != []
    ensures |Joined(line)| >= 1
  {
    if |line| == 1 {
      assert line[0] in line;
    }
  }

  lemma ShareAdds(duration: real, a: nat, b: nat, total: nat)
    requires total > 0
    ensures duration * (a as real) / (total as real) + duration * (b as real) / (total as real)
         == duration * ((a + b) as real) / (total as real)
  {
    var x, y, t := a as real, b as real, total as real;
    assert (a + b) as real == x + y;
    assert duration * (x + y) == duration * x + duration * y;
  }

  lemma WholeShare(duration: real, total: nat)
    requires total > 0
    ensures duration * (total as real) / (total as real) == duration
  {
  }

  lemma SharePositive(duration: real, a: nat, total: nat)
    requires duration > 0.0 && a > 0 && total > 0
    ensures duration * (a as real) / (total as real) > 0.0
  {
    var x, t := a as real, total as real;
    assert duration * x > 0.0;
    assert (duration * x) / t > 0.0;
  }

  lemma {:induction false} TotalLengthPrefix(chunks: seq<string>, n: nat)
    requires n <= |chunks|
    ensures TotalLength(chunks[..n]) <= TotalLength(chunks)
    decreases |chunks| - n
  {
    if n < |chunks| {
      TotalLengthPrefix(chunks, n + 1);
      assert chunks[..n + 1][..n] == chunks[..n];
    } else {
      assert chunks[..n] == chunks;
    }
  }

  /** The cues carry the texts in order, without gaps, from one end of the time to the other. */
  ghost predicate Tiled(cues: seq<Cue>, chunks: seq<string>, from: real, to: real) {
    && |cues| == |chunks|
    && (forall i | 0 <= i < |cues| :: cues[i].text == chunks[i] && cues[i].from < cues[i].to)
    && (forall i | 0 < i < |cues| :: cues[i].from == cues[i - 1].to)
    && (if cues == [] then from == to else cues[0].from == from && cues[|cues| - 1].to == to)
  }

  /** The cue lasts its text's share of the duration, by length. */
  ghost predicate Fair(cue: Cue, chunk: string, duration: real, total: nat) {
    (cue.to - cue.from) * total as real == duration * |chunk| as real
  }

  ghost predicate Shared(cues: seq<Cue>, chunks: seq<string>, duration: real)
    requires |cues| == |chunks|
  {
    forall i | 0 <= i < |cues| :: Fair(cues[i], chunks[i], duration, TotalLength(chunks))
  }

  function Slot(chunk: string, duration: real, total: nat): (d: real)
    requires chunk != [] && duration > 0.0 && total > 0
    ensures d > 0.0
  {
    SharePositive(duration, |chunk|, total);
    duration * (|chunk| as real) / (total as real)
  }

  lemma SlotIsFair(t: real, chunk: string, duration: real, total: nat)
    requires chunk != [] && duration > 0.0 && total > 0
    ensures Fair(Cue(t, t + Slot(chunk, duration, total), chunk), chunk, duration, total)
  {
    var d := Slot(chunk, duration, total);
    assert t + d - t == d;
  }

  /** When the first n texts are over. */
  ghost function After(chunks: seq<string>, n: nat, start: real, duration: real, total: nat): real
    requires n <= |chunks| && duration > 0.0 && total > 0 && forall i | 0 <= i < |chunks| :: chunks[i] != []
  {
    if n == 0 then start else After(chunks, n - 1, start, duration, total) + Slot(chunks[n - 1], duration, total)
  }

  lemma {:induction false} AfterIs(chunks: seq<string>, n: nat, start: real, duration: real, total: nat)
    requires n <= |chunks| && duration > 0.0 && total > 0 && forall i | 0 <= i < |chunks| :: chunks[i] != []
    ensures After(chunks, n, start, duration, total)
            == start + duration * (TotalLength(chunks[..n]) as real) / (total as real)
  {
    if n > 0 {
      AfterIs(chunks, n - 1, start, duration, total);
      TotalSnoc(chunks, n);
      ShareAdds(duration, TotalLength(chunks[..n - 1]), |chunks[n - 1]|, total);
    }
    hide TotalLength;
  }

  lemma TotalSnoc(chunks: seq<string>, n: nat)
    requires 0 < n <= |chunks|
    ensures TotalLength(chunks[..n]) == TotalLength(chunks[..n - 1]) + |chunks[n - 1]|
  {
    assert chunks[..n][..n - 1] == chunks[..n - 1];
  }

  lemma AfterAll(chunks: seq<string>, start: real, duration: real)
    requires chunks != [] && duration > 0.0 && forall i | 0 <= i < |chunks| :: chunks[i] != []
    ensures TotalLength(chunks) > 0
    ensures After(chunks, |chunks|, start, duration, TotalLength(chunks)) == start + duration
  {
    TotalLengthPrefix(chunks, 1);
    assert chunks[..1][..0] == [];
    AfterIs(chunks, |chunks|, start, duration, TotalLength(chunks));
    assert chunks[..|chunks|] == chunks;
    WholeShare(duration, TotalLength(chunks));
  }

  lemma NothingTiled(t: real)
    ensures Tiled([], [], t, t)
  {
  }

  lemma TiledSnoc(cues: seq<Cue>, chunks: seq<string>, from: real, t: real, d: real, chunk: string)
    requires Tiled(cues, chunks, from, t) && d > 0.0
    ensures Tiled(cues + [Cue(t, t + d, chunk)], chunks + [chunk], from, t + d)
  {
  }

  method TimeLines(chunks: seq<string>, start: real, duration: real) returns (cues: seq<Cue>)
    requires chunks != [] && duration > 0.0 && forall i | 0 <= i < |chunks| :: chunks[i] != []
    ensures Tiled(cues, chunks, start, start + duration)
    ensures Shared(cues, chunks, duration)
  {
    hide Fair, Slot, Tiled;
    AfterAll(chunks, start, duration);
    cues := [];
    var total := TotalLength(chunks);
    var t := start;
    NothingTiled(start);
    assert chunks[..0] == [];
    for i := 0 to |chunks|
      invariant t == After(chunks, i, start, duration, total)
      invariant |cues| == i && Tiled(cues, chunks[..i], start, t)
      invariant forall k | 0 <= k < i :: Fair(cues[k], chunks[k], duration, total)
    {
      var d := Slot(chunks[i], duration, total);
      SlotIsFair(t, chunks[i], duration, total);
      TiledSnoc(cues, chunks[..i], start, t, d, chunks[i]);
      assert chunks[..i] + [chunks[i]] == chunks[..i + 1];
      cues := cues + [Cue(t, t + d, chunks[i])];
      t := t + d;
    }
    assert chunks[..|chunks|] == chunks;
  }

  function Texts(lines: seq<seq<string>>): seq<string> {
    seq(|lines|, i requires 0 <= i < |lines| => Joined(lines[i]))
  }

  /**
   * Captions for narration that is spoken from start for duration. The words are text.split(): none is empty. The
   * cues carry the words in order, consecutive cues share an end, none is empty in time, together they tile the
   * narration exactly, and each lasts its text's share of it by length.
   */
  method CaptionCues(words: seq<string>, start: real, duration: real, maxWords: int)
    returns (cues: seq<Cue>, lines: seq<seq<string>>)
    requires forall word <- words :: word != []
    ensures words == [] || duration <= 0.0 ==> cues == []
    ensures words != [] && duration > 0.0 ==>
              && Lines(words, lines, maxWords) && cues != []
              && Tiled(cues, Texts(lines), start, start + duration)
              && Shared(cues, Texts(lines), duration)
    ensures forall line <- lines :: 1 <= |line| && (maxWords >= 1 ==> |line| <= maxWords)
  {
    cues := [];
    lines := [];
    if words == [] || duration <= 0.0 {
      return;
    }
    lines := SplitLines(words, maxWords);
    var chunks := Texts(lines);
    forall i | 0 <= i < |lines| ensures chunks[i] != [] {
      assert lines[i] in lines;
      LineWords(words, lines, i);
      JoinedNonEmpty(lines[i]);
    }
    assert lines != [];
    cues := TimeLines(chunks, start, duration);
  }

  lemma {:induction false} LineWords(words: seq<string>, lines: seq<seq<string>>, i: nat)
    requires Flatten(lines) == words && i < |lines|
    ensures forall word <- lines[i] :: word in words
    decreases |lines|
  {
    if i > 0 {
      LineWords(Flatten(lines[1..]), lines[1..], i - 1);
      assert lines[i] == lines[1..][i - 1];
    }
  }

  // ----- SRT stamps -----

  /** Rounding to the nearest integer, halves to the even one. */
  function Round(x: real): int {
    var f := x.Floor;
    var rest := x - f as real;
    if rest < 0.5 || (rest == 0.5 && f % 2 == 0) then f else f + 1
  }

  function Milliseconds(seconds: real): int { Round(seconds * 1000.0) }

  /** Two characters at least, the sign included. */
  function Hours(h: int): string {
    if h < 0 then "-" + Padded(-h, 1) else Padded(h, 2)
  }

  /** A time split as the stamp shows it. */
  datatype Fields = Fields(hours: int, minutes: nat, seconds: nat, millis: nat)

  function Split(ms: int): Fields {
    var (h, afterHours) := (ms / 3_600_000, ms % 3_600_000);
    var (m, afterMinutes) := (afterHours / 60_000, afterHours % 60_000);
    Fields(h, m, afterMinutes / 1000, afterMinutes % 1000)
  }

  function Total(f: Fields): int { f.hours * 3_600_000 + f.minutes * 60_000 + f.seconds * 1000 + f.millis }

  lemma SplitTotal(ms: int)
    ensures Total(Split(ms)) == ms
    ensures Split(ms).minutes < 60 && Split(ms).seconds < 60 && Split(ms).millis < 1000
  {
    var h, rest := ms / 3_600_000, ms % 3_600_000;
    assert ms == h * 3_600_000 + rest;
    var m, rest2 := rest / 60_000, rest % 60_000;
    assert rest == m * 60_000 + rest2;
    assert rest2 == rest2 / 1000 * 1000 + rest2 % 1000;
  }

  function Printed(f: Fields): string {
    Hours(f.hours) + (":" + (Padded(f.minutes, 2) + (":" + (Padded(f.seconds, 2) + ("," + Padded(f.millis, 3))))))
  }

  function Stamp(seconds: real): string { Printed(Split(Milliseconds(seconds))) }

  datatype Field = Field(value: nat, rest: string)

  /** Read a number and skip the separator after it. */
  function ReadField(s: string): Field {
    var n := DigitRun(s);
    Field(Value(s[..n]), if n < |s| then s[n + 1..] else [])
  }

  function ReadFields(s: string): Fields {
    var h := ReadField(s);
    var m := ReadField(h.rest);
    var sec := ReadField(m.rest);
    Fields(h.value, m.value, sec.value, ReadField(sec.rest).value)
  }

  function Parsed(stamp: string): Fields {
    if stamp != [] && stamp[0] == '-'
    then var f := ReadFields(stamp[1..]); f.(hours := -f.hours)
    else ReadFields(stamp)
  }

  function Decode(stamp: string): int { Total(Parsed(stamp)) }

  lemma ReadsField(n: nat, width: nat, sep: char, rest: string)
    requires !IsDigit(sep)
    ensures ReadField(Padded(n, width) + ([sep] + rest)) == Field(n, rest)
  {
    PaddedValue(n, width);
    var p := Padded(n, width);
    DigitRunOf(p, [sep] + rest);
    assert (p + ([sep] + rest))[|p| + 1..] == rest;
  }

  lemma ReadsLastField(n: nat, width: nat)
    ensures ReadField(Padded(n, width)).value == n
  {
    PaddedValue(n, width);
    var p := Padded(n, width);
    DigitRunOf(p, []);
    assert p + [] == p && p[..|p|] == p;
  }

  lemma ReadsAllFields(h: nat, width: nat, f: Fields)
    ensures ReadFields(Padded(h, width)
              + (":" + (Padded(f.minutes, 2) + (":" + (Padded(f.seconds, 2) + ("," + Padded(f.millis, 3)))))))
            == f.(hours := h)
  {
    var c := Padded(f.millis, 3);
    var b := Padded(f.seconds, 2) + ("," + c);
    var a := Padded(f.minutes, 2) + (":" + b);
    ReadsField(h, width, ':', a);
    ReadsField(f.minutes, 2, ':', b);
    ReadsField(f.seconds, 2, ',', c);
    ReadsLastField(f.millis, 3);
  }

  lemma PrintedParses(f: Fields)
    ensures Parsed(Printed(f)) == f
  {
    hide ReadFields, Padded, Digits;
    var tail := ":" + (Padded(f.minutes, 2) + (":" + (Padded(f.seconds, 2) + ("," + Padded(f.millis, 3)))));
    if f.hours < 0 {
      ReadsAllFields(-f.hours, 1, f);
      assert Printed(f)[1..] == Padded(-f.hours, 1) + tail;
    } else {
      ReadsAllFields(f.hours, 2, f);
      PaddedValue(f.hours, 2);
      assert IsDigit(Padded(f.hours, 2)[0]);
      assert Printed(f)[0] == Padded(f.hours, 2)[0];
    }
  }

  /** Decoding a stamp returns its rounded milliseconds, for any time, negative ones included. */
  lemma StampRoundTrip(seconds: real)
    ensures Decode(Stamp(seconds)) == Milliseconds(seconds)
  {
    SplitTotal(Milliseconds(seconds));
    PrintedParses(Split(Milliseconds(seconds)));
  }

  lemma RoundIsMonotone(x: real, y: real)
    requires x <= y
    ensures Round(x) <= Round(y)
  {
  }

  /** Stamps never put a cue out of order: what plays earlier is stamped no later. */
  lemma StampsKeepOrder(x: real, y: real)
    requires x <= y
    ensures Decode(Stamp(x)) <= Decode(Stamp(y))
  {
    hide Decode, Stamp;
    RoundIsMonotone(x * 1000.0, y * 1000.0);
    StampRoundTrip(x);
    StampRoundTrip(y);
  }

  /** A stamp is within half a millisecond of the time it stands for, and of two as close it is the even one. */
  lemma StampIsClose(x: real)
    ensures var off := Decode(Stamp(x)) as real - x * 1000.0;
            -0.5 <= off <= 0.5 && (off == 0.5 || off == -0.5 ==> Decode(Stamp(x)) % 2 == 0)
  {
    StampRoundTrip(x);
    RoundIsNearest(x * 1000.0);
    hide Decode, Stamp, Round;
  }

  lemma RoundIsNearest(x: real)
    ensures var off := Round(x) as real - x; -0.5 <= off <= 0.5 && (off == 0.5 || off == -0.5 ==> Round(x) % 2 == 0)
  {
  }

  lemma ShortDigits(n: nat)
    ensures n < 10 ==> |Digits(n)| == 1
    ensures 10 <= n < 100 ==> |Digits(n)| == 2
    ensures 100 <= n < 1000 ==> |Digits(n)| == 3
  {
    if n >= 10 {
      assert Digits(n) == Digits(n / 10) + [DigitChar(n % 10)];
      if n >= 100 {
        assert Digits(n / 10) == Digits(n / 100) + [DigitChar(n / 10 % 10)] by {
          assert n / 10 / 10 == n / 100;
        }
      }
    }
  }

  lemma PaddedWidth(n: nat, width: nat)
    requires (width == 2 && n < 100) || (width == 3 && n < 1000)
    ensures |Padded(n, width)| == width && Numeral(Padded(n, width))
  {
    ShortDigits(n);
    PaddedValue(n, width);
  }

  /** hours:minutes:seconds,millis with two, two and three digits, and two characters or more for the hours. */
  ghost predicate HasShape(stamp: string, hours: string) {
    && |hours| >= 2 && |stamp| == |hours| + 10 && hours <= stamp
    && (Numeral(hours) || (hours[0] == '-' && Numeral(hours[1..])))
    && var rest := stamp[|hours|..];
       && rest[0] == ':' && Numeral(rest[1..3]) && rest[3] == ':' && Numeral(rest[4..6]) && rest[6] == ','
       && Numeral(rest[7..])
  }

  lemma HoursShape(h: int)
    ensures |Hours(h)| >= 2 && (Numeral(Hours(h)) || (Hours(h)[0] == '-' && Numeral(Hours(h)[1..])))
  {
    if h < 0 {
      PaddedValue(-h, 1);
    } else {
      PaddedValue(h, 2);
    }
  }

  lemma ShapeOf(h: string, m: string, s: string, ms: string)
    requires |h| >= 2 && (Numeral(h) || (h[0] == '-' && Numeral(h[1..])))
    requires |m| == 2 && |s| == 2 && |ms| == 3 && Numeral(m) && Numeral(s) && Numeral(ms)
    ensures HasShape(h + (":" + (m + (":" + (s + ("," + ms))))), h)
  {
    var rest := ":" + (m + (":" + (s + ("," + ms))));
    assert (h + rest)[|h|..] == rest;
    assert rest[1..3] == m && rest[4..6] == s && rest[7..] == ms;
  }

  /** Every stamp has the shape that players read, whatever the time. */
  lemma StampHasShape(seconds: real)
    ensures HasShape(Stamp(seconds), Hours(Split(Milliseconds(seconds)).hours))
  {
    var f := Split(Milliseconds(seconds));
    SplitTotal(Milliseconds(seconds));
    PaddedWidth(f.minutes, 2);
    PaddedWidth(f.seconds, 2);
    PaddedWidth(f.millis, 3);
    HoursShape(f.hours);
    hide Padded, Hours, Split, HasShape, Numeral;
    ShapeOf(Hours(f.hours), Padded(f.minutes, 2), Padded(f.seconds, 2), Padded(f.millis, 3));
  }

  // ----- what a cue shows -----

  /** The words of a text, cut at its spaces. */
  function WordsOf(text: string): seq<string> {
    var k := FirstSpace(text);
    if k == |text| then [text] else [text[..k]] + WordsOf(text[k + 1..])
  }

  function FirstSpace(text: string): (k: nat)
    ensures k <= |text| && (k < |text| ==> text[k] == ' ') && forall i | 0 <= i < k :: text[i] != ' '
  {
    if text == "" || text[0] == ' ' then 0 else 1 + FirstSpace(text[1..])
  }

  lemma FirstSpaceIs(word: string, rest: string)
    requires ' ' !in word && (rest == "" || rest[0] == ' ')
    ensures FirstSpace(word + rest) == |word|
  {
    var all := word + rest;
    assert forall i | 0 <= i < |word| :: all[i] == word[i] && word[i] in word;
    assert rest != [] ==> all[|word|] == rest[0];
  }

  lemma {:induction false} WordsOfMore(text: string, word: string)
    requires ' ' !in word
    ensures WordsOf(text + " " + word) == WordsOf(text) + [word]
    decreases |text|
  {
    hide FirstSpace;
    var k, all := FirstSpace(text), text + " " + word;
    if k == |text| {
      assert ' ' !in text;
      FirstSpaceIs(text, " " + word);
      assert all == text + (" " + word) && all[..k] == text && all[k + 1..] == word;
      FirstSpaceIs(word, "");
      assert word + "" == word;
    } else {
      SameFirstSpace(text, " " + word);
      assert all == text + (" " + word);
      assert all[..k] == text[..k] && all[k + 1..] == text[k + 1..] + " " + word;
      WordsOfMore(text[k + 1..], word);
      assert WordsOf(text) == [text[..k]] + WordsOf(text[k + 1..]);
    }
  }

  lemma SameFirstSpace(text: string, more: string)
    requires FirstSpace(text) < |text|
    ensures FirstSpace(text + more) == FirstSpace(text)
  {
    var k, l := FirstSpace(text), FirstSpace(text + more);
    assert (text + more)[k] == ' ' && (l < |text| ==> (text + more)[l] == text[l]);
    assert forall i | 0 <= i < k :: (text + more)[i] == text[i];
  }

  /** A line's text, cut at its spaces again, is the line. */
  lemma {:induction false} JoinedIsTheLine(line: seq<string>)
    requires line != [] && forall word <- line :: ' ' !in word
    ensures WordsOf(Joined(line)) == line
    decreases |line|
  {
    var init, last := line[..|line| - 1], line[|line| - 1];
    if init == [] {
      assert line[0] in line;
      FirstSpaceIs(line[0], "");
      assert line[0] + "" == line[0] && line == [line[0]];
    } else {
      JoinedIsTheLine(init);
      assert last in line && line == init + [last];
      WordsOfMore(Joined(init), last);
    }
  }
}
