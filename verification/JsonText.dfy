/**
 * JSON objects as RFC 8259 sections 4 and 7 print them: a concrete syntax that keeps every space and every escape,
 * so that printing a value gives exactly the text that was written.
 */
module JsonText {

  /** One character of a string as written: itself, a two-character escape, or four hexadecimal digits. */
  datatype Item = Plain(c: char) | Escaped(c: char) | Unicode(hex: string)

  predicate IsHex(c: char) { '0' <= c <= '9' || 'a' <= c <= 'f' || 'A' <= c <= 'F' }

  predicate ItemOk(it: Item) {
    match it
    case Plain(c) => c != '"' && c != '\\' && c as int >= 0x20
    case Escaped(c) => c in "\"\\/bfnrt"
    case Unicode(hex) => |hex| == 4 && forall x <- hex :: IsHex(x)
  }

  predicate ItemsOk(items: seq<Item>) { forall it <- items :: ItemOk(it) }

  predicate IsSpace(s: string) { forall c <- s :: c in " \t\n\r" }

  /** Numbers and the three literal names: no quote and no brace occurs in them. */
  predicate IsAtom(s: string) { s != [] && forall c <- s :: c as int > 0x20 && c !in "\"{}[],:\\" }

  /**
   * Lists are spelled out so that the spaces around each structural character have a place: Members is what stands
   * between two braces, Elements what stands between two brackets.
   */
  datatype Value =
    | Atom(text: string)
    | Str(items: seq<Item>)
    | Arr(elements: Elements)
    | Obj(members: Members)

  datatype Elements =
    | NoElements(space: string)
    | Element(before: string, value: Value, after: string, more: Elements)
    | LastElement(before: string, value: Value, after: string)

  datatype Members =
    | NoMembers(space: string)
    | Member(before: string, key: seq<Item>, colon: string, gap: string, value: Value, after: string, more: Members)
    | LastMember(before: string, key: seq<Item>, colon: string, gap: string, value: Value, after: string)

  predicate ValueOk(v: Value) {
    match v
    case Atom(text) => IsAtom(text)
    case Str(items) => ItemsOk(items)
    case Arr(es) => ElementsOk(es)
    case Obj(ms) => MembersOk(ms)
  }

  predicate ElementsOk(es: Elements) {
    match es
    case NoElements(space) => IsSpace(space)
    case Element(before, v, after, more) =>
      IsSpace(before) && ValueOk(v) && IsSpace(after) && !more.NoElements? && ElementsOk(more)
    case LastElement(before, v, after) => IsSpace(before) && ValueOk(v) && IsSpace(after)
  }

  predicate MembersOk(ms: Members) {
    match ms
    case NoMembers(space) => IsSpace(space)
    case Member(before, key, colon, gap, v, after, more) =>
      && IsSpace(before) && ItemsOk(key) && IsSpace(colon) && IsSpace(gap) && ValueOk(v) && IsSpace(after)
      && !more.NoMembers? && MembersOk(more)
    case LastMember(before, key, colon, gap, v, after) =>
      IsSpace(before) && ItemsOk(key) && IsSpace(colon) && IsSpace(gap) && ValueOk(v) && IsSpace(after)
  }

  function PrintItem(it: Item): string {
    match it
    case Plain(c) => [c]
    case Escaped(c) => ['\\', c]
    case Unicode(hex) => ['\\', 'u'] + hex
  }

  function PrintItems(items: seq<Item>): string {
    if items == [] then [] else PrintItem(items[0]) + PrintItems(items[1..])
  }

  function PrintString(items: seq<Item>): string { ['"'] + PrintItems(items) + ['"'] }

  function Print(v: Value): string {
    match v
    case Atom(text) => text
    case Str(items) => PrintString(items)
    case Arr(es) => "[" + PrintElements(es) + "]"
    case Obj(ms) => "{" + PrintMembers(ms) + "}"
  }

  function PrintElements(es: Elements): string {
    match es
    case NoElements(space) => space
    case Element(before, v, after, more) => before + Print(v) + after + "," + PrintElements(more)
    case LastElement(before, v, after) => before + Print(v) + after
  }

  /** A key, its colon, and the start of its value. */
  function PrintKey(before: string, key: seq<Item>, colon: string, gap: string): string {
    before + PrintString(key) + colon + ":" + gap
  }

  function PrintMembers(ms: Members): string {
    match ms
    case NoMembers(space) => space
    case Member(before, key, colon, gap, v, after, more) =>
      PrintKey(before, key, colon, gap) + Print(v) + after + "," + PrintMembers(more)
    case LastMember(before, key, colon, gap, v, after) =>
      PrintKey(before, key, colon, gap) + Print(v) + after
  }

  // ----- what lies inside a value -----

  /** No opening brace is written inside a string, keys included. */
  predicate BraceFree(items: seq<Item>) { forall it <- items :: it.Plain? ==> it.c != '{' }

  predicate NoBraceInStrings(v: Value) {
    match v
    case Atom(_) => true
    case Str(items) => BraceFree(items)
    case Arr(es) => NoBraceInElements(es)
    case Obj(ms) => NoBraceInMembers(ms)
  }

  predicate NoBraceInElements(es: Elements) {
    match es
    case NoElements(_) => true
    case Element(_, v, _, more) => NoBraceInStrings(v) && NoBraceInElements(more)
    case LastElement(_, v, _) => NoBraceInStrings(v)
  }

  predicate NoBraceInMembers(ms: Members) {
    match ms
    case NoMembers(_) => true
    case Member(_, key, _, _, v, _, more) => BraceFree(key) && NoBraceInStrings(v) && NoBraceInMembers(more)
    case LastMember(_, key, _, _, v, _) => BraceFree(key) && NoBraceInStrings(v)
  }

  /** The objects written inside a value, itself included. */
  ghost function Objects(v: Value): set<Value> {
    match v
    case Atom(_) => {}
    case Str(_) => {}
    case Arr(es) => ObjectsInElements(es)
    case Obj(ms) => {v} + ObjectsInMembers(ms)
  }

  ghost function ObjectsInElements(es: Elements): set<Value> {
    match es
    case NoElements(_) => {}
    case Element(_, v, _, more) => Objects(v) + ObjectsInElements(more)
    case LastElement(_, v, _) => Objects(v)
  }

  ghost function ObjectsInMembers(ms: Members): set<Value> {
    match ms
    case NoMembers(_) => {}
    case Member(_, _, _, _, v, _, more) => Objects(v) + ObjectsInMembers(more)
    case LastMember(_, _, _, _, v, _) => Objects(v)
  }
}
