/** Cutting a prompt to a byte limit without splitting a character, and sanitising a whole package. */
module Truncate {
  import opened Options
  import opened Sanitize

  newtype Byte = x: int | 0 <= x < 256

  predicate Tail(b: Byte) { 0x80 <= b <= 0xBF }

  /** Two to four bytes that RFC 3629, section 4, allows to start a character of that length. */
  predicate Start2(a: Byte) { 0xC2 <= a <= 0xDF }

  predicate Start3(a: Byte, b: Byte) {
    (a == 0xE0 && 0xA0 <= b <= 0xBF) || (a == 0xED && 0x80 <= b <= 0x9F)
    || (((0xE1 <= a <= 0xEC) || (0xEE <= a <= 0xEF)) && Tail(b))
  }

  predicate Start4(a: Byte, b: Byte) {
    (a == 0xF0 && 0x90 <= b <= 0xBF) || (0xF1 <= a <= 0xF3 && Tail(b)) || (a == 0xF4 && 0x80 <= b <= 0x8F)
  }

  /** The length of the well-formed character the bytes start with, 0 if they start with none. */
  function CharLength(s: seq<Byte>): (n: nat)
    ensures n <= 4 && n <= |s|
  {
    if |s| >= 1 && s[0] <= 0x7F then 1
    else if |s| >= 2 && Start2(s[0]) && Tail(s[1]) then 2
    else if |s| >= 3 && Start3(s[0], s[1]) && Tail(s[2]) then 3
    else if |s| >= 4 && Start4(s[0], s[1]) && Tail(s[2]) && Tail(s[3]) then 4
    else 0
  }

  predicate ValidUtf8(s: seq<Byte>) {
    s == [] || (CharLength(s) > 0 && ValidUtf8(s[CharLength(s)..]))
  }

  // ----- what the characters are -----

  /** A character that UTF-8 encodes: any code point but a surrogate. */
  predicate IsScalar(p: int) { 0 <= p <= 0x10FFFF && !(0xD800 <= p <= 0xDFFF) }

  /** RFC 3629, section 3: one to four bytes, by the size of the number. */
  function Encode(p: int): seq<Byte>
    requires IsScalar(p)
  {
    if p < 0x80 then [p as Byte]
    else if p < 0x800 then [(0xC0 + p / 0x40) as Byte, (0x80 + p % 0x40) as Byte]
    else if p < 0x10000 then [(0xE0 + p / 0x1000) as Byte, (0x80 + p / 0x40 % 0x40) as Byte, (0x80 + p % 0x40) as Byte]
    else [(0xF0 + p / 0x40000) as Byte, (0x80 + p / 0x1000 % 0x40) as Byte,
          (0x80 + p / 0x40 % 0x40) as Byte, (0x80 + p % 0x40) as Byte]
  }

  /** The text that the characters make. */
  function Encoded(ps: seq<int>): seq<Byte>
    requires forall p <- ps :: IsScalar(p)
  {
    if ps == [] then [] else Encode(ps[0]) + Encoded(ps[1..])
  }

  lemma EncodedCharIsRead(p: int, rest: seq<Byte>)
    requires IsScalar(p)
    ensures |Encode(p)| >= 1 && CharLength(Encode(p) + rest) == |Encode(p)| && (Encode(p) + rest)[|Encode(p)|..] == rest
  {
    var e := Encode(p);
    EncodedCharStarts(p);
    hide Encode, IsScalar;
    assert forall i | 0 <= i < |e| :: (e + rest)[i] == e[i];
  }

  /** What the bytes of one character look like. */
  lemma EncodedCharStarts(p: int)
    requires IsScalar(p)
    ensures var e := Encode(p);
            && 1 <= |e| <= 4 && (|e| == 1 ==> e[0] <= 0x7F) && (|e| == 2 ==> Start2(e[0]) && Tail(e[1]))
            && (|e| == 3 ==> Start3(e[0], e[1]) && Tail(e[2]))
            && (|e| == 4 ==> Start4(e[0], e[1]) && Tail(e[2]) && Tail(e[3]))
  {
  }

  /** A number in base 64 gives its last digit and the rest back. */
  lemma Base64(high: int, low: int)
    requires 0 <= low < 0x40
    ensures (high * 0x40 + low) / 0x40 == high && (high * 0x40 + low) % 0x40 == low
  {
  }

  lemma ReadTwo(a: int, b: int) returns (p: int)
    requires 0xC2 <= a <= 0xDF && 0x80 <= b <= 0xBF
    ensures IsScalar(p) && Encode(p) == [a as Byte, b as Byte]
  {
    p := (a - 0xC0) * 0x40 + (b - 0x80);
    Base64(a - 0xC0, b - 0x80);
  }

  lemma ReadThree(a: int, b: int, c: int) returns (p: int)
    requires 0xE0 <= a <= 0xEF && 0x80 <= b <= 0xBF && 0x80 <= c <= 0xBF
    requires (a == 0xE0 ==> b >= 0xA0) && (a == 0xED ==> b <= 0x9F)
    ensures IsScalar(p) && Encode(p) == [a as Byte, b as Byte, c as Byte]
  {
    var ab := (a - 0xE0) * 0x40 + (b - 0x80);
    p := ab * 0x40 + (c - 0x80);
    Base64(a - 0xE0, b - 0x80);
    Base64(ab, c - 0x80);
    assert p / 0x1000 == p / 0x40 / 0x40;
  }

  lemma ReadFour(a: int, b: int, c: int, d: int) returns (p: int)
    requires 0xF0 <= a <= 0xF4 && 0x80 <= b <= 0xBF && 0x80 <= c <= 0xBF && 0x80 <= d <= 0xBF
    requires (a == 0xF0 ==> b >= 0x90) && (a == 0xF4 ==> b <= 0x8F)
    ensures IsScalar(p) && Encode(p) == [a as Byte, b as Byte, c as Byte, d as Byte]
  {
    var ab := (a - 0xF0) * 0x40 + (b - 0x80);
    var abc := ab * 0x40 + (c - 0x80);
    p := abc * 0x40 + (d - 0x80);
    Base64(a - 0xF0, b - 0x80);
    Base64(ab, c - 0x80);
    Base64(abc, d - 0x80);
    assert p / 0x1000 == p / 0x40 / 0x40 && p / 0x40000 == p / 0x40 / 0x40 / 0x40;
  }

  lemma ReadCharIsEncoded(s: seq<Byte>) returns (p: int)
    requires CharLength(s) > 0
    ensures IsScalar(p) && Encode(p) == s[..CharLength(s)]
  {
    hide Encode, IsScalar;
    var n := CharLength(s);
    if n == 1 {
      p := s[0] as int;
      ReadOne(s[0]);
    } else if n == 2 {
      p := ReadTwo(s[0] as int, s[1] as int);
    } else if n == 3 {
      p := ReadThree(s[0] as int, s[1] as int, s[2] as int);
    } else {
      p := ReadFour(s[0] as int, s[1] as int, s[2] as int, s[3] as int);
    }
  }

  lemma ReadOne(a: Byte)
    requires a <= 0x7F
    ensures IsScalar(a as int) && Encode(a as int) == [a]
  {
  }

  lemma {:induction false} EncodedIsValid(ps: seq<int>)
    requires forall p <- ps :: IsScalar(p)
    ensures ValidUtf8(Encoded(ps))
  {
    if ps != [] {
      EncodedIsValid(ps[1..]);
      EncodedCharIsRead(ps[0], Encoded(ps[1..]));
    }
  }

  lemma {:induction false} ValidIsEncoded(s: seq<Byte>) returns (ps: seq<int>)
    requires ValidUtf8(s)
    ensures (forall p <- ps :: IsScalar(p)) && Encoded(ps) == s
  {
    if s == [] {
      ps := [];
    } else {
      var rest := ValidIsEncoded(s[CharLength(s)..]);
      var p := ReadCharIsEncoded(s);
      hide CharLength, Encode;
      ps := [p] + rest;
      assert ps[1..] == rest && s == s[..CharLength(s)] + s[CharLength(s)..];
    }
  }

  /** A text is valid exactly when it is the encoding of characters. */
  lemma ValidIff(s: seq<Byte>)
    ensures ValidUtf8(s) <==> exists ps: seq<int> :: (forall p <- ps :: IsScalar(p)) && Encoded(ps) == s
  {
    if ValidUtf8(s) {
      var ps := ValidIsEncoded(s);
    }
    forall ps: seq<int> | (forall p <- ps :: IsScalar(p)) && Encoded(ps) == s ensures ValidUtf8(s) {
      EncodedIsValid(ps);
    }
  }

  // ----- cutting -----

  /** Short texts pass as they are; of longer ones the longest valid prefix within the limit is kept. */
  method TruncateBytes(s: seq<Byte>, n: int) returns (r: seq<Byte>)
    ensures n <= 0 || |s| <= n ==> r == s
    ensures 0 < n < |s| ==>
              && r <= s && |r| <= n && ValidUtf8(r)
              && (forall k | |r| < k <= n :: !ValidUtf8(s[..k]))
  {
    if n <= 0 || |s| <= n {
      return s;
    }
    r := s[..n];
    while |r| > 0 && !ValidUtf8(r)
      invariant |r| <= n && r == s[..|r|]
      invariant forall k | |r| < k <= n :: !ValidUtf8(s[..k])
      decreases |r|
    {
      r := r[..|r| - 1];
    }
  }

  lemma SameFirstChar(s: seq<Byte>, k: nat)
    requires k <= |s| && 0 < CharLength(s) <= k
    ensures CharLength(s[..k]) == CharLength(s) && s[..k][CharLength(s)..] == s[CharLength(s)..][..k - CharLength(s)]
  {
  }

  /** Within three bytes of any cut of a valid text there is one between two characters. */
  lemma {:induction false} CutNearby(s: seq<Byte>, n: nat) returns (k: nat)
    requires ValidUtf8(s) && n <= |s|
    ensures k <= n <= k + 3 && ValidUtf8(s[..k])
    decreases n
  {
    var c := CharLength(s);
    if n == 0 || n < c {
      k := 0;
    } else {
      var rest := CutNearby(s[c..], n - c);
      k := c + rest;
      SameFirstChar(s, k);
    }
  }

  /** Cutting a valid text keeps whole characters and loses at most three bytes below the limit. */
  lemma TruncationLosesLittle(s: seq<Byte>, n: int, r: seq<Byte>)
    requires ValidUtf8(s) && 0 < n < |s|
    requires r <= s && |r| <= n && (forall k | |r| < k <= n :: !ValidUtf8(s[..k]))
    ensures n - 3 <= |r| <= n
  {
    var k := CutNearby(s, n);
  }

  const MaxSystemPrompt: int := 32 * 1024

  /** A skill's two configs; a missing one stays missing. */
  datatype Skill = Skill(config: Option<map<string, Json>>, override: Option<map<string, Json>>)

  function SanitizeOption(m: Option<map<string, Json>>): Option<map<string, Json>> {
    if m.None? then None else Some(SanitizeMap(m.value))
  }

  ghost predicate CleanOption(m: Option<map<string, Json>>) { m.Some? ==> !HasSecretKey(Object(m.value)) }

  lemma OptionIsClean(m: Option<map<string, Json>>)
    ensures CleanOption(SanitizeOption(m)) && SanitizeOption(SanitizeOption(m)) == SanitizeOption(m)
  {
    if m.Some? {
      SanitizedHasNoSecretKey(Object(m.value));
      SanitizingTwice(Object(m.value));
      assert SanitizeValue(Object(m.value)) == Object(SanitizeMap(m.value));
    }
  }

  /** The skill sanitised: nothing secret-shaped is left, and sanitising changes nothing any more. */
  ghost predicate IsSanitized(after: Skill, before: Skill) {
    && after == Skill(SanitizeOption(before.config), SanitizeOption(before.override))
    && CleanOption(after.config) && CleanOption(after.override)
    && SanitizeOption(after.config) == after.config && SanitizeOption(after.override) == after.override
  }

  /** The part of a package that sanitising changes. */
  class Package {
    var engineConfig: Option<map<string, Json>>
    var systemPrompt: seq<Byte>
    var skills: seq<Skill>

    /** Afterwards nothing in the package holds a secret-shaped key, and doing it again changes nothing. */
    method SanitizeInPlace()
      modifies this
      ensures engineConfig == Some(SanitizeEngineConfig(old(engineConfig))) && CleanOption(engineConfig)
      ensures SanitizeEngineConfig(engineConfig) == engineConfig.value
      ensures |skills| == |old(skills)|
      ensures forall i | 0 <= i < |skills| :: IsSanitized(skills[i], old(skills)[i])
      ensures systemPrompt <= old(systemPrompt)
      ensures |old(systemPrompt)| <= MaxSystemPrompt ==> systemPrompt == old(systemPrompt)
      ensures |systemPrompt| <= MaxSystemPrompt && (|old(systemPrompt)| > MaxSystemPrompt ==> ValidUtf8(systemPrompt))
      ensures ValidUtf8(old(systemPrompt)) && |old(systemPrompt)| > MaxSystemPrompt ==> MaxSystemPrompt - 3 <= |systemPrompt|
    {
      EngineConfigHasNoSecret(engineConfig);
      EngineConfigTwice(engineConfig);
      engineConfig := Some(SanitizeEngineConfig(engineConfig));
      if |systemPrompt| > MaxSystemPrompt {
        var cut := TruncateBytes(systemPrompt, MaxSystemPrompt);
        if ValidUtf8(systemPrompt) {
          TruncationLosesLittle(systemPrompt, MaxSystemPrompt, cut);
        }
        systemPrompt := cut;
      }
      for i := 0 to |skills|
        invariant |skills| == |old(skills)| && forall k | i <= k < |skills| :: skills[k] == old(skills)[k]
        invariant forall k | 0 <= k < i :: IsSanitized(skills[k], old(skills)[k])
        invariant engineConfig == Some(SanitizeEngineConfig(old(engineConfig))) && CleanOption(engineConfig)
        invariant systemPrompt <= old(systemPrompt)
        invariant |old(systemPrompt)| <= MaxSystemPrompt ==> systemPrompt == old(systemPrompt)
        invariant |systemPrompt| <= MaxSystemPrompt && (|old(systemPrompt)| > MaxSystemPrompt ==> ValidUtf8(systemPrompt))
        invariant ValidUtf8(old(systemPrompt)) && |old(systemPrompt)| > MaxSystemPrompt ==> MaxSystemPrompt - 3 <= |systemPrompt|
      {
        OptionIsClean(skills[i].config);
        OptionIsClean(skills[i].override);
        skills := skills[i := Skill(SanitizeOption(skills[i].config), SanitizeOption(skills[i].override))];
      }
    }
  }
}
