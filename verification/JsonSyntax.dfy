/** The JSON grammar that the strict reader of connector registries implements
    (scripts/ffi-connector-registry.js): concrete syntax trees, a printer, and a grammar
    parser that undoes it. Sections 2 to 7 of RFC 8259; whitespace is JavaScript's. */
module JsonSyntax {
  import opened Prelude

  /** A UTF-16 code unit. Nothing below needs its range, so any integer will do. */
  type Unit = int

  type Text = seq<Unit>

  const QUOTE: Unit := 0x22
  const BACKSLASH: Unit := 0x5C
  const SLASH: Unit := 0x2F
  const LBRACE: Unit := 0x7B
  const RBRACE: Unit := 0x7D
  const LBRACKET: Unit := 0x5B
  const RBRACKET: Unit := 0x5D
  const COMMA: Unit := 0x2C
  const COLON: Unit := 0x3A
  const MINUS: Unit := 0x2D
  const PLUS: Unit := 0x2B
  const DOT: Unit := 0x2E
  const ZERO: Unit := 0x30
  const LOWER_E: Unit := 0x65
  const UPPER_E: Unit := 0x45
  const LOWER_U: Unit := 0x75
  const TRUE_TEXT: Text := [0x74, 0x72, 0x75, 0x65]
  const FALSE_TEXT: Text := [0x66, 0x61, 0x6C, 0x73, 0x65]
  const NULL_TEXT: Text := [0x6E, 0x75, 0x6C, 0x6C]

  /** Blanks are whatever JavaScript's `\s` matches: more than the four of section 2. */
  predicate AllSpace(w: Text) {
    forall i :: 0 <= i < |w| ==> IsSpace(w[i])
  }

  predicate IsDigit(u: Unit) {
    ZERO <= u <= 0x39
  }

  // ---------------------------------------------------------------- syntax trees

  /** One item between the quotes of a string. */
  datatype Part =
    | Raw(u: Unit)
    | Short(e: Unit)
    | Hex(a: Unit, b: Unit, c: Unit, d: Unit)

  datatype Word = Null | True | False

  datatype Tree =
    | Literal(word: Word)
    | Number(lexeme: Text)
    | Str(parts: seq<Part>)
    | EmptyArray(inner: Text)
    | Array(elems: seq<Elem>)
    | EmptyObject(inner: Text)
    | Object(members: seq<Member>)

  /** An array element with the blanks around it. */
  datatype Elem = Elem(before: Text, tree: Tree, after: Text)

  /** An object member with the blank after it. */
  datatype Member = Member(entry: Entry, after: Text)

  /** A key and its value, with the blanks before the key and on both sides of the colon. */
  datatype Entry = Entry(before: Text, key: seq<Part>, afterKey: Text, afterColon: Text, tree: Tree)

  predicate IsShort(e: Unit) {
    e == QUOTE || e == BACKSLASH || e == SLASH || e == 0x62 || e == 0x66 || e == 0x6E || e == 0x72 || e == 0x74
  }

  function ShortValue(e: Unit): Unit {
    if e == 0x62 then 8 else if e == 0x66 then 12 else if e == 0x6E then 10
    else if e == 0x72 then 13 else if e == 0x74 then 9 else e
  }

  predicate IsHex(u: Unit) {
    IsDigit(u) || 0x41 <= u <= 0x46 || 0x61 <= u <= 0x66
  }

  function HexValue(u: Unit): (v: Unit)
    ensures IsHex(u) ==> 0 <= v < 16
  {
    if IsDigit(u) then u - ZERO else if u <= 0x46 then u - 0x41 + 10 else u - 0x61 + 10
  }

  predicate WfPart(p: Part) {
    match p
    case Raw(u) => u >= 0x20 && u != QUOTE && u != BACKSLASH
    case Short(e) => IsShort(e)
    case Hex(a, b, c, d) => IsHex(a) && IsHex(b) && IsHex(c) && IsHex(d)
  }

  predicate WfParts(ps: seq<Part>) {
    forall i :: 0 <= i < |ps| ==> WfPart(ps[i])
  }

  function HexDigit(v: Unit): Unit {
    if v < 10 then ZERO + v else 0x61 + v - 10
  }

  /** Characters and code units are never negative. */
  predicate Chars(s: Text) {
    forall i :: 0 <= i < |s| ==> 0 <= s[i]
  }

  function PartUnit(p: Part): Unit {
    match p
    case Raw(u) => u
    case Short(e) => ShortValue(e)
    case Hex(a, b, c, d) => 4096 * HexValue(a) + 256 * HexValue(b) + 16 * HexValue(c) + HexValue(d)
  }

  /** The string that a sequence of parts denotes. */
  function Unescaped(ps: seq<Part>): Text {
    seq(|ps|, i requires 0 <= i < |ps| => PartUnit(ps[i]))
  }

  ghost predicate WfElems(es: seq<Elem>)
    decreases es
  {
    forall i :: 0 <= i < |es| ==> AllSpace(es[i].before) && Wf(es[i].tree) && AllSpace(es[i].after)
  }

  ghost predicate WfMembers(ms: seq<Member>)
    decreases ms
  {
    forall i :: 0 <= i < |ms| ==> WfEntry(ms[i].entry) && AllSpace(ms[i].after)
  }

  ghost predicate WfEntry(e: Entry)
    decreases e
  {
    AllSpace(e.before) && WfParts(e.key) && AllSpace(e.afterKey) && AllSpace(e.afterColon) && Wf(e.tree)
  }

  ghost predicate Wf(t: Tree)
    decreases t
  {
    match t
    case Literal(_) => true
    case Number(lexeme) => NumberLength(lexeme) == Some(|lexeme|)
    case Str(parts) => WfParts(parts)
    case EmptyArray(inner) => AllSpace(inner)
    case Array(elems) => elems != [] && WfElems(elems)
    case EmptyObject(inner) => AllSpace(inner)
    case Object(members) => members != [] && WfMembers(members)
  }

  // ---------------------------------------------------------------- printer

  function WordText(w: Word): Text {
    match w case Null => NULL_TEXT case True => TRUE_TEXT case False => FALSE_TEXT
  }

  // Each printer takes the text that follows, so that no text is ever taken apart again.

  function PrintPart(p: Part, rest: Text): Text {
    match p
    case Raw(u) => [u] + rest
    case Short(e) => [BACKSLASH, e] + rest
    case Hex(a, b, c, d) => [BACKSLASH, LOWER_U, a, b, c, d] + rest
  }

  /** Parts and the closing quote. */
  function PrintParts(ps: seq<Part>, rest: Text): Text {
    if ps == [] then [QUOTE] + rest else PrintPart(ps[0], PrintParts(ps[1..], rest))
  }

  /** Elements separated by commas, and the closing bracket. */
  function PrintElems(es: seq<Elem>, rest: Text): Text
    decreases es
  {
    if es == [] then [RBRACKET] + rest
    else es[0].before + Print(es[0].tree, es[0].after + ElemsTail(es, rest))
  }

  function ElemsTail(es: seq<Elem>, rest: Text): Text
    requires es != []
    decreases es, 0
  {
    if |es| == 1 then [RBRACKET] + rest else [COMMA] + PrintElems(es[1..], rest)
  }

  function PrintMembers(ms: seq<Member>, rest: Text): Text
    decreases ms
  {
    if ms == [] then [RBRACE] + rest
    else PrintEntry(ms[0].entry, ms[0].after + MembersTail(ms, rest))
  }

  function PrintEntry(e: Entry, rest: Text): Text
    decreases e
  {
    e.before + PrintKey(e.key, e.afterKey, e.afterColon + Print(e.tree, rest))
  }

  function PrintKey(key: seq<Part>, w: Text, rest: Text): Text {
    [QUOTE] + PrintParts(key, w + ([COLON] + rest))
  }

  function MembersTail(ms: seq<Member>, rest: Text): Text
    requires ms != []
    decreases ms, 0
  {
    if |ms| == 1 then [RBRACE] + rest else [COMMA] + PrintMembers(ms[1..], rest)
  }

  function Print(t: Tree, rest: Text): Text
    decreases t
  {
    match t
    case Literal(word) => WordText(word) + rest
    case Number(lexeme) => lexeme + rest
    case Str(parts) => [QUOTE] + PrintParts(parts, rest)
    case EmptyArray(inner) => [LBRACKET] + (inner + ([RBRACKET] + rest))
    case Array(elems) => [LBRACKET] + PrintElems(elems, rest)
    case EmptyObject(inner) => [LBRACE] + (inner + ([RBRACE] + rest))
    case Object(members) => [LBRACE] + PrintMembers(members, rest)
  }

  // ---------------------------------------------------------------- tokens

  function SpaceLength(s: Text): (n: nat)
    ensures n <= |s| && AllSpace(s[..n]) && (n < |s| ==> !IsSpace(s[n]))
  {
    if s != [] && IsSpace(s[0]) then
      assert s[..1 + SpaceLength(s[1..])] == [s[0]] + s[1..][..SpaceLength(s[1..])];
      1 + SpaceLength(s[1..])
    else 0
  }

  function Spaces(s: Text): Text {
    s[..SpaceLength(s)]
  }

  function Trim(s: Text): Text {
    s[SpaceLength(s)..]
  }

  function DigitRun(s: Text): (n: nat)
    ensures n <= |s|
  {
    if s != [] && IsDigit(s[0]) then 1 + DigitRun(s[1..]) else 0
  }

  /** `-?(?:0|[1-9][0-9]*)` */
  function IntLength(s: Text): (n: Option<nat>)
    ensures n.Some? ==> 0 < n.value <= |s|
  {
    var o := if s != [] && s[0] == MINUS then 1 else 0;
    if |s| > o && s[o] == ZERO then Some(o + 1)
    else if |s| > o && IsDigit(s[o]) then Some(o + DigitRun(s[o..]))
    else None
  }

  /** `(?:\.[0-9]+)?` */
  function FracLength(s: Text): (n: nat)
    ensures n <= |s|
  {
    if s != [] && s[0] == DOT && DigitRun(s[1..]) > 0 then 1 + DigitRun(s[1..]) else 0
  }

  /** `(?:[eE][+-]?[0-9]+)?` */
  function ExpLength(s: Text): (n: nat)
    ensures n <= |s|
  {
    if s != [] && (s[0] == LOWER_E || s[0] == UPPER_E) then
      var o := if |s| > 1 && (s[1] == PLUS || s[1] == MINUS) then 2 else 1;
      if DigitRun(s[o..]) > 0 then o + DigitRun(s[o..]) else 0
    else 0
  }

  /** The length of the number at the head of `s` (section 6), longest match. */
  function NumberLength(s: Text): (n: Option<nat>)
    ensures n.Some? ==> 0 < n.value <= |s|
  {
    var i := IntLength(s);
    if i.None? then None
    else
      var f := FracLength(s[i.value..]);
      Some(i.value + f + ExpLength(s[i.value + f..]))
  }

  function Decimal(n: nat): Text {
    if n < 10 then [ZERO + n] else Decimal(n / 10) + [ZERO + n % 10]
  }

  // ---------------------------------------------------------------- grammar parser

  datatype Parsed<+T> = Fail | Done(value: T, rest: Text)

  /** The parts of a string up to its closing quote. */
  function ParseParts(s: Text): (r: Parsed<seq<Part>>)
    ensures r.Done? ==> |r.rest| < |s|
    decreases |s|
  {
    if s == [] then Fail
    else if s[0] == QUOTE then Done([], s[1..])
    else
      var head := ParsePart(s);
      if head.Fail? then Fail
      else
        var tail := ParseParts(head.rest);
        if tail.Fail? then Fail else Done([head.value] + tail.value, tail.rest)
  }

  function ParsePart(s: Text): (r: Parsed<Part>)
    requires s != [] && s[0] != QUOTE
    ensures r.Done? ==> |r.rest| < |s| && WfPart(r.value) && s == PrintPart(r.value, r.rest)
  {
    if s[0] == BACKSLASH then
      if |s| == 1 then Fail
      else if IsShort(s[1]) then Done(Short(s[1]), s[2..])
      else if s[1] == LOWER_U && |s| >= 6 && IsHex(s[2]) && IsHex(s[3]) && IsHex(s[4]) && IsHex(s[5])
      then Done(Hex(s[2], s[3], s[4], s[5]), s[6..])
      else Fail
    else if s[0] < 0x20 then Fail
    else Done(Raw(s[0]), s[1..])
  }

  function ParseWord(s: Text, w: Word): (r: Parsed<Tree>)
    ensures r.Done? ==> |r.rest| < |s|
  {
    var text := WordText(w);
    if |text| <= |s| && s[..|text|] == text then Done(Literal(w), s[|text|..]) else Fail
  }

  function ParseString(s: Text): (r: Parsed<Tree>)
    requires s != []
    ensures r.Done? ==> |r.rest| < |s|
  {
    var p := ParseParts(s[1..]);
    if p.Fail? then Fail else Done(Str(p.value), p.rest)
  }

  function ParseNumber(s: Text): (r: Parsed<Tree>)
    ensures r.Done? ==> |r.rest| < |s|
  {
    var n := NumberLength(s);
    if n.None? then Fail else Done(Number(s[..n.value]), s[n.value..])
  }

  /** A value, with no blank before it. */
  function ParseTree(s: Text): (r: Parsed<Tree>)
    ensures r.Done? ==> |r.rest| < |s|
    decreases |s|, 1
  {
    if s == [] then Fail
    else if s[0] == QUOTE then ParseString(s)
    else if s[0] == LBRACE then ParseObject(s)
    else if s[0] == LBRACKET then ParseArray(s)
    else if s[0] == TRUE_TEXT[0] then ParseWord(s, True)
    else if s[0] == FALSE_TEXT[0] then ParseWord(s, False)
    else if s[0] == NULL_TEXT[0] then ParseWord(s, Null)
    else ParseNumber(s)
  }

  function ParseArray(s: Text): (r: Parsed<Tree>)
    requires s != []
    ensures r.Done? ==> |r.rest| < |s|
    decreases |s|, 0
  {
    var body := Trim(s[1..]);
    if body != [] && body[0] == RBRACKET then Done(EmptyArray(Spaces(s[1..])), body[1..])
    else
      var p := ParseElems(s[1..]);
      if p.Fail? then Fail else Done(Array(p.value), p.rest)
  }

  function ParseObject(s: Text): (r: Parsed<Tree>)
    requires s != []
    ensures r.Done? ==> |r.rest| < |s|
    decreases |s|, 0
  {
    var body := Trim(s[1..]);
    if body != [] && body[0] == RBRACE then Done(EmptyObject(Spaces(s[1..])), body[1..])
    else
      var p := ParseMembers(s[1..]);
      if p.Fail? then Fail else Done(Object(p.value), p.rest)
  }

  function ParseElems(s: Text): (r: Parsed<seq<Elem>>)
    ensures r.Done? ==> |r.rest| < |s|
    decreases |s|, 2
  {
    var v := ParseTree(Trim(s));
    if v.Fail? then Fail else MoreElems(Elem(Spaces(s), v.value, Spaces(v.rest)), Trim(v.rest))
  }

  /** What follows an element: the closing bracket, or a comma and further elements. */
  function MoreElems(elem: Elem, next: Text): (r: Parsed<seq<Elem>>)
    ensures r.Done? ==> |r.rest| < |next|
    decreases |next|, 3
  {
    if next == [] then Fail
    else if next[0] == RBRACKET then Done([elem], next[1..])
    else if next[0] != COMMA then Fail
    else
      var tail := ParseElems(next[1..]);
      if tail.Fail? then Fail else Done([elem] + tail.value, tail.rest)
  }

  /** A member's key, up to and including the colon. */
  function ParseKey(s: Text): (r: Parsed<(seq<Part>, Text)>)
    ensures r.Done? ==> |r.rest| < |s|
  {
    if s == [] || s[0] != QUOTE then Fail
    else
      var key := ParseParts(s[1..]);
      if key.Fail? then Fail
      else
        var next := Trim(key.rest);
        if next == [] || next[0] != COLON then Fail
        else Done((key.value, Spaces(key.rest)), next[1..])
  }

  function ParseEntry(s: Text): (r: Parsed<Entry>)
    ensures r.Done? ==> |r.rest| < |s|
    decreases |s|, 2
  {
    var key := ParseKey(Trim(s));
    if key.Fail? then Fail
    else
      var v := ParseTree(Trim(key.rest));
      if v.Fail? then Fail
      else Done(Entry(Spaces(s), key.value.0, key.value.1, Spaces(key.rest), v.value), v.rest)
  }

  function ParseMembers(s: Text): (r: Parsed<seq<Member>>)
    ensures r.Done? ==> |r.rest| < |s|
    decreases |s|, 3
  {
    var e := ParseEntry(s);
    if e.Fail? then Fail else MoreMembers(Member(e.value, Spaces(e.rest)), Trim(e.rest))
  }

  function MoreMembers(member: Member, next: Text): (r: Parsed<seq<Member>>)
    ensures r.Done? ==> |r.rest| < |next|
    decreases |next|, 4
  {
    if next == [] then Fail
    else if next[0] == RBRACE then Done([member], next[1..])
    else if next[0] != COMMA then Fail
    else
      var tail := ParseMembers(next[1..]);
      if tail.Fail? then Fail else Done([member] + tail.value, tail.rest)
  }

  /** A whole document: blanks, one value, blanks. */
  datatype Document = Document(before: Text, tree: Tree, after: Text)

  function PrintDocument(d: Document): Text {
    d.before + Print(d.tree, d.after)
  }

  ghost predicate WfDocument(d: Document) {
    AllSpace(d.before) && Wf(d.tree) && AllSpace(d.after)
  }

  function ParseDocument(s: Text): Option<Document> {
    var v := ParseTree(Trim(s));
    if v.Done? && Trim(v.rest) == [] then Some(Document(Spaces(s), v.value, v.rest)) else None
  }

  // ---------------------------------------------------------------- values

  /** What the reader returns; numbers keep their lexeme. */
  datatype Json =
    | JNull
    | JBool(b: bool)
    | JNumber(lexeme: Text)
    | JString(text: Text)
    | JArray(items: seq<Json>)
    | JObject(members: map<Text, Json>)

  function WordValue(w: Word): Json {
    match w case Null => JNull case True => JBool(true) case False => JBool(false)
  }

  function ValueOf(t: Tree): Json
    decreases t
  {
    match t
    case Literal(word) => WordValue(word)
    case Number(lexeme) => JNumber(lexeme)
    case Str(parts) => JString(Unescaped(parts))
    case EmptyArray(_) => JArray([])
    case Array(elems) => JArray(ElemValues(elems))
    case EmptyObject(_) => JObject(map[])
    case Object(members) => JObject(MemberValues(members))
  }

  function ElemValues(es: seq<Elem>): seq<Json>
    decreases es
  {
    if es == [] then [] else [ValueOf(es[0].tree)] + ElemValues(es[1..])
  }

  function KeyOf(m: Member): Text {
    Unescaped(m.entry.key)
  }

  /** Where a key is repeated the first member counts; a strict reader never sees that. */
  function MemberValues(ms: seq<Member>): map<Text, Json>
    decreases ms
  {
    if ms == [] then map[] else MemberValues(ms[1..])[KeyOf(ms[0]) := ValueOf(ms[0].entry.tree)]
  }

  /** No object anywhere in the tree repeats a key. */
  predicate Distinct(t: Tree)
    decreases t
  {
    match t
    case Array(elems) => DistinctElems(elems)
    case Object(members) => DistinctMembers(members)
    case _ => true
  }

  predicate DistinctElems(es: seq<Elem>)
    decreases es
  {
    es == [] || (Distinct(es[0].tree) && DistinctElems(es[1..]))
  }

  predicate DistinctMembers(ms: seq<Member>)
    decreases ms
  {
    ms == [] || (KeyOf(ms[0]) !in MemberValues(ms[1..]) && Distinct(ms[0].entry.tree) && DistinctMembers(ms[1..]))
  }
}
