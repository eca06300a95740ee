/** Finding JSON objects in noisy text: the brace scanner, and what it finds around a printed object. */
module JsonScan {
  import opened Options
  import opened JsonText

  datatype Scan = Scan(depth: int, inString: bool, escaped: bool)

  const Outside: Scan := Scan(0, false, false)

  function Next(s: Scan, c: char): Scan {
    if s.inString then
      if s.escaped then s.(escaped := false)
      else if c == '\\' then s.(escaped := true)
      else if c == '"' then s.(inString := false)
      else s
    else if c == '"' then s.(inString := true)
    else if c == '{' then s.(depth := s.depth + 1)
    else if c == '}' then s.(depth := s.depth - 1)
    else s
  }

  /** The scanner's state after reading the text. */
  function After(s: Scan, text: string): Scan {
    if text == [] then s else Next(After(s, text[..|text| - 1]), text[|text| - 1])
  }

  /** Braces outside strings are even. */
  predicate Balanced(text: string) { text != [] && After(Outside, text).depth == 0 }

  /** text[start..end] is the shortest balanced slice from start. */
  ghost predicate IsSlice(text: string, start: nat, end: nat) {
    && start < end <= |text| && Balanced(text[start..end])
    && forall e | start < e < end :: !Balanced(text[start..e])
  }

  ghost predicate NoSlice(text: string, start: nat) {
    forall e | start < e <= |text| :: !Balanced(text[start..e])
  }

  lemma NothingRead(text: string, start: nat)
    requires start < |text|
    ensures After(Outside, text[start..start]) == Outside
  {
  }

  lemma OneMoreRead(text: string, start: nat, index: nat)
    requires start <= index < |text|
    ensures After(Outside, text[start..index + 1]) == Next(After(Outside, text[start..index]), text[index])
  {
    assert text[start..index + 1][..index - start] == text[start..index];
  }

  method ScanFrom(text: string, start: nat) returns (end: Option<nat>)
    requires start < |text| && text[start] == '{'
    ensures end.Some? ==> IsSlice(text, start, end.value)
    ensures end.None? ==> NoSlice(text, start)
  {
    hide After;
    var depth, inString, escaped := 0, false, false;
    NothingRead(text, start);
    for index := start to |text|
      invariant After(Outside, text[start..index]) == Scan(depth, inString, escaped)
      invariant index > start ==> depth >= 1
      invariant forall e | start < e <= index :: !Balanced(text[start..e])
    {
      var ch := text[index];
      OneMoreRead(text, start, index);
      if inString {
        if escaped {
          escaped := false;
        } else if ch == '\\' {
          escaped := true;
        } else if ch == '"' {
          inString := false;
        }
        continue;
      }
      if ch == '"' {
        inString := true;
      } else if ch == '{' {
        depth := depth + 1;
      } else if ch == '}' {
        depth := depth - 1;
        if depth == 0 {
          return Some(index + 1);
        }
      }
    }
    end := None;
  }

  /** The scan from one start has one outcome: each brace yields at most one slice. */
  lemma SliceIsUnique(text: string, start: nat, e: nat, f: nat)
    requires IsSlice(text, start, e)
    ensures IsSlice(text, start, f) ==> e == f
    ensures !NoSlice(text, start)
  {
  }

  // ----- a printed value leaves the scanner where it found it -----

  lemma {:induction false} AfterAppend(s: Scan, a: string, b: string)
    ensures After(s, a + b) == After(After(s, a), b)
    decreases |b|
  {
    if b == [] {
      assert a + b == a;
    } else {
      assert (a + b)[..|a + b| - 1] == a + b[..|b| - 1];
      AfterAppend(s, a, b[..|b| - 1]);
    }
  }

  /** Reading the text from s comes back to s without ever going below the depth of s. */
  ghost predicate Neutral(s: Scan, text: string) {
    After(s, text) == s && forall k | 0 <= k <= |text| :: After(s, text[..k]).depth >= s.depth
  }

  lemma NeutralAppend(s: Scan, a: string, b: string)
    requires Neutral(s, a) && Neutral(s, b)
    ensures Neutral(s, a + b)
  {
    hide After;
    AfterAppend(s, a, b);
    forall k | 0 <= k <= |a + b| ensures After(s, (a + b)[..k]).depth >= s.depth {
      if k <= |a| {
        assert (a + b)[..k] == a[..k];
      } else {
        assert (a + b)[..k] == a + b[..k - |a|];
        AfterAppend(s, a, b[..k - |a|]);
      }
    }
  }

  predicate Quiet(text: string) { forall c <- text :: c !in "\"{}" }

  lemma {:induction false} QuietIsNeutral(s: Scan, text: string)
    requires !s.inString && Quiet(text)
    ensures Neutral(s, text)
    decreases |text|
  {
    if text != [] {
      var init := text[..|text| - 1];
      QuietIsNeutral(s, init);
      assert text[|text| - 1] in text;
      forall k | 0 <= k <= |text| ensures After(s, text[..k]).depth >= s.depth {
        if k < |text| {
          assert text[..k] == init[..k];
        } else {
          assert text[..k] == text;
        }
      }
    }
  }

  /** One written character of a string, read inside the string. */
  lemma ItemIsNeutral(d: int, it: Item)
    requires ItemOk(it)
    ensures Neutral(Scan(d, true, false), PrintItem(it))
  {
    var s := Scan(d, true, false);
    match it
    case Plain(c) =>
      assert [c][..0] == [] && [c][..1] == [c];
    case Escaped(c) => EscapeIsNeutral(d, c);
    case Unicode(hex) =>
      EscapeIsNeutral(d, 'u');
      HexIsNeutral(s, hex);
      NeutralAppend(s, ['\\', 'u'], hex);
  }

  /** A backslash and whatever follows it. */
  lemma EscapeIsNeutral(d: int, c: char)
    ensures Neutral(Scan(d, true, false), ['\\', c])
  {
    var s, t := Scan(d, true, false), ['\\', c];
    assert t[..0] == [] && t[..1] == ['\\'] && t[..2] == t && ['\\'][..0] == [];
    assert After(s, t[..1]) == Next(After(s, []), '\\') == Scan(d, true, true);
    assert After(s, t) == Next(After(s, t[..1]), c);
  }

  lemma {:induction false} HexIsNeutral(s: Scan, hex: string)
    requires s.inString && !s.escaped && forall x <- hex :: IsHex(x)
    ensures Neutral(s, hex)
    decreases |hex|
  {
    if hex != [] {
      var init := hex[..|hex| - 1];
      HexIsNeutral(s, init);
      assert hex[|hex| - 1] in hex;
      forall k | 0 <= k <= |hex| ensures After(s, hex[..k]).depth >= s.depth {
        if k < |hex| {
          assert hex[..k] == init[..k];
        } else {
          assert hex[..k] == hex;
        }
      }
    }
  }

  lemma {:induction false} ItemsAreNeutral(d: int, items: seq<Item>)
    requires ItemsOk(items)
    ensures Neutral(Scan(d, true, false), PrintItems(items))
    decreases |items|
  {
    if items != [] {
      assert items[0] in items;
      ItemIsNeutral(d, items[0]);
      ItemsAreNeutral(d, items[1..]);
      NeutralAppend(Scan(d, true, false), PrintItem(items[0]), PrintItems(items[1..]));
    }
  }

  /** Between two characters c1 and c2 that take the scanner from s to inner and back. */
  lemma Bracketed(s: Scan, inner: Scan, open: char, body: string, close: char)
    requires Next(s, open) == inner && Next(inner, close) == s && inner.depth >= s.depth && Neutral(inner, body)
    ensures Neutral(s, [open] + body + [close])
    ensures forall k | 0 < k < |body| + 2 :: After(s, ([open] + body + [close])[..k]).depth >= inner.depth
  {
    var text := [open] + body + [close];
    assert [open][..0] == [];
    assert After(s, [open]) == inner;
    forall k | 0 < k < |text| ensures After(s, text[..k]).depth >= inner.depth {
      assert text[..k] == [open] + body[..k - 1];
      AfterAppend(s, [open], body[..k - 1]);
    }
    AfterAppend(s, [open], body);
    assert text[..|text| - 1] == [open] + body;
    assert text[..|text|] == text && text[..0] == [];
  }

  lemma StringIsNeutral(s: Scan, items: seq<Item>)
    requires ItemsOk(items) && !s.inString && !s.escaped
    ensures Neutral(s, PrintString(items))
  {
    ItemsAreNeutral(s.depth, items);
    Bracketed(s, Scan(s.depth, true, false), '"', PrintItems(items), '"');
  }

  lemma KeyIsNeutral(s: Scan, before: string, key: seq<Item>, colon: string, gap: string)
    requires IsSpace(before) && ItemsOk(key) && IsSpace(colon) && IsSpace(gap) && !s.inString && !s.escaped
    ensures Neutral(s, PrintKey(before, key, colon, gap))
  {
    QuietIsNeutral(s, before);
    StringIsNeutral(s, key);
    QuietIsNeutral(s, colon);
    QuietIsNeutral(s, ":");
    QuietIsNeutral(s, gap);
    NeutralAppend(s, before, PrintString(key));
    NeutralAppend(s, before + PrintString(key), colon);
    NeutralAppend(s, before + PrintString(key) + colon, ":");
    NeutralAppend(s, before + PrintString(key) + colon + ":", gap);
  }

  lemma {:induction false} ValueIsNeutral(s: Scan, v: Value)
    requires ValueOk(v) && !s.inString && !s.escaped
    ensures Neutral(s, Print(v))
    decreases v, 0
  {
    hide Neutral, After;
    match v
    case Atom(text) => QuietIsNeutral(s, text);
    case Str(items) => StringIsNeutral(s, items);
    case Arr(es) =>
      ElementsAreNeutral(s, es);
      QuietIsNeutral(s, "[");
      QuietIsNeutral(s, "]");
      NeutralAppend(s, "[", PrintElements(es));
      NeutralAppend(s, "[" + PrintElements(es), "]");
    case Obj(ms) =>
      MembersAreNeutral(s.(depth := s.depth + 1), ms);
      Bracketed(s, s.(depth := s.depth + 1), '{', PrintMembers(ms), '}');
  }

  lemma {:induction false} ElementsAreNeutral(s: Scan, es: Elements)
    requires ElementsOk(es) && !s.inString && !s.escaped
    ensures Neutral(s, PrintElements(es))
    decreases es
  {
    hide Neutral, After;
    match es
    case NoElements(space) => QuietIsNeutral(s, space);
    case Element(before, v, after, more) =>
      PaddedIsNeutral(s, before, v, after);
      QuietIsNeutral(s, ",");
      NeutralAppend(s, before + Print(v) + after, ",");
      ElementsAreNeutral(s, more);
      NeutralAppend(s, before + Print(v) + after + ",", PrintElements(more));
    case LastElement(before, v, after) => PaddedIsNeutral(s, before, v, after);
  }

  lemma {:induction false} PaddedIsNeutral(s: Scan, before: string, v: Value, after: string)
    requires IsSpace(before) && ValueOk(v) && IsSpace(after) && !s.inString && !s.escaped
    ensures Neutral(s, before + Print(v) + after)
    decreases v, 1
  {
    hide Neutral, After;
    QuietIsNeutral(s, before);
    ValueIsNeutral(s, v);
    QuietIsNeutral(s, after);
    NeutralAppend(s, before, Print(v));
    NeutralAppend(s, before + Print(v), after);
  }

  lemma {:induction false} MembersAreNeutral(s: Scan, ms: Members)
    requires MembersOk(ms) && !s.inString && !s.escaped
    ensures Neutral(s, PrintMembers(ms))
    decreases ms
  {
    hide Neutral, After;
    match ms
    case NoMembers(space) => QuietIsNeutral(s, space);
    case Member(before, key, colon, gap, v, after, more) =>
      var k := PrintKey(before, key, colon, gap);
      KeyIsNeutral(s, before, key, colon, gap);
      ValueIsNeutral(s, v);
      QuietIsNeutral(s, after);
      QuietIsNeutral(s, ",");
      MembersAreNeutral(s, more);
      NeutralAppend(s, k, Print(v));
      NeutralAppend(s, k + Print(v), after);
      NeutralAppend(s, k + Print(v) + after, ",");
      NeutralAppend(s, k + Print(v) + after + ",", PrintMembers(more));
    case LastMember(before, key, colon, gap, v, after) =>
      var k := PrintKey(before, key, colon, gap);
      KeyIsNeutral(s, before, key, colon, gap);
      ValueIsNeutral(s, v);
      QuietIsNeutral(s, after);
      NeutralAppend(s, k, Print(v));
      NeutralAppend(s, k + Print(v), after);
  }

  /**
   * Wherever an object is written, whatever stands before and after it, the scan from its opening brace yields
   * exactly its span: braces, quotes and escapes inside its strings do not confuse it.
   */
  lemma PrintedObjectIsSliced(text: string, start: nat, v: Value)
    requires v.Obj? && ValueOk(v) && start <= |text| && Print(v) <= text[start..]
    ensures start < |text| && text[start] == '{'
    ensures IsSlice(text, start, start + |Print(v)|) && text[start..start + |Print(v)|] == Print(v)
  {
    var p, body := Print(v), PrintMembers(v.members);
    assert p == ['{'] + body + ['}'];
    MembersAreNeutral(Scan(1, false, false), v.members);
    Bracketed(Outside, Scan(1, false, false), '{', body, '}');
    assert text[start] == text[start..][0] == p[0];
    forall k | 0 < k <= |p| ensures text[start..start + k] == p[..k] {
      assert text[start..start + k] == text[start..][..k];
    }
    assert p[..|p|] == p;
    forall e | start < e < start + |p| ensures !Balanced(text[start..e]) {
      assert text[start..e] == p[..e - start];
    }
  }
}
