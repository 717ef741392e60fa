/** The record text of the Rust producer (callgraph-rust/src/main.rs:64-98): string
    escaping, flat records, one record a line, and reading all of it back with the strict
    JSON reader. */
module NdJson {
  import opened Prelude
  import opened JsonSyntax
  import opened JsonRoundTrip
  import opened JsonReader

  const NEWLINE: Unit := 10

  // ---------------------------------------------------------------- escaping

  /** The part that `json_escape` writes for one character. */
  function EscapePart(c: Unit): Part {
    if c == QUOTE then Short(QUOTE)
    else if c == BACKSLASH then Short(BACKSLASH)
    else if c == 10 then Short(0x6E)
    else if c == 13 then Short(0x72)
    else if c == 9 then Short(0x74)
    else if c < 0x20 then Hex(ZERO, ZERO, HexDigit(c / 16), HexDigit(c % 16))
    else Raw(c)
  }

  /** The text of one character: the short escapes of quote, backslash, line feed, carriage
      return and tab, four lower-case digits for any other control character, and the character
      itself otherwise. */
  lemma EscapeMeans(c: Unit)
    requires 0 <= c
    ensures PrintPart(EscapePart(c), []) ==
            if c == 0x22 then [0x5C, 0x22]
            else if c == 0x5C then [0x5C, 0x5C]
            else if c == 0x0A then [0x5C, 'n' as int]
            else if c == 0x0D then [0x5C, 'r' as int]
            else if c == 0x09 then [0x5C, 't' as int]
            else if c <= 0x1F then
              [0x5C, 'u' as int, '0' as int, '0' as int, "0123456789abcdef"[c / 16] as int, "0123456789abcdef"[c % 16] as int]
            else [c]
  {
  }

  function EscapeParts(s: Text): seq<Part> {
    Map(EscapePart, s)
  }

  lemma EscapePartReads(c: Unit)
    requires 0 <= c
    ensures WfPart(EscapePart(c)) && PartUnit(EscapePart(c)) == c
  {
  }

  lemma EscapePartsRead(s: Text)
    requires Chars(s)
    ensures WfParts(EscapeParts(s)) && Unescaped(EscapeParts(s)) == s
  {
    forall i | 0 <= i < |s|
      ensures WfPart(EscapeParts(s)[i]) && PartUnit(EscapeParts(s)[i]) == s[i]
    {
      EscapePartReads(s[i]);
    }
  }

  /** The text of a string's parts without the closing quote. */
  function PartsText(ps: seq<Part>): Text {
    if ps == [] then [] else PrintPart(ps[0], []) + PartsText(ps[1..])
  }

  lemma {:induction false} PartsTextAppend(ps: seq<Part>, p: Part)
    ensures PartsText(ps + [p]) == PartsText(ps) + PrintPart(p, [])
  {
    if ps == [] {
      assert ([] + [p])[1..] == [];
      assert PartsText([p]) == PrintPart(p, []) + [];
    } else {
      assert (ps + [p])[1..] == ps[1..] + [p];
      PartsTextAppend(ps[1..], p);
    }
  }

  lemma PrintPartAppend(p: Part, rest: Text)
    ensures PrintPart(p, rest) == PrintPart(p, []) + rest
  {
  }

  lemma {:induction false} PartsTextPrints(ps: seq<Part>, rest: Text)
    ensures PartsText(ps) + ([QUOTE] + rest) == PrintParts(ps, rest)
  {
    hide PrintPart;
    if ps == [] {
      assert [] + ([QUOTE] + rest) == [QUOTE] + rest;
    } else {
      PartsTextPrints(ps[1..], rest);
      PrintPartAppend(ps[0], PrintParts(ps[1..], rest));
      JoinThree(PrintPart(ps[0], []), PartsText(ps[1..]), [QUOTE] + rest);
    }
  }

  lemma JoinThree(a: Text, b: Text, c: Text)
    ensures a + b + c == a + (b + c)
  {
  }

  /** No raw control character, in particular no line feed. */
  predicate Printable(s: Text) {
    forall i :: 0 <= i < |s| ==> s[i] >= 0x20
  }

  lemma {:induction false} EscapedIsPrintable(s: Text)
    requires Chars(s)
    ensures Printable(PartsText(EscapeParts(s)))
  {
    if s != [] {
      assert EscapeParts(s)[1..] == EscapeParts(s[1..]);
      EscapedIsPrintable(s[1..]);
      EscapePartReads(s[0]);
      assert Printable(PrintPart(EscapePart(s[0]), []));
    }
  }

  /** `json_escape`, character by character. */
  method JsonEscape(s: Text) returns (out: Text)
    requires Chars(s)
    ensures out == PartsText(EscapeParts(s))
    ensures Printable(out)
  {
    out := [];
    for i := 0 to |s|
      invariant out == PartsText(EscapeParts(s[..i]))
    {
      var c := s[i];
      TakeNext(s, i);
      MapAppend(EscapePart, s[..i], c);
      PartsTextAppend(EscapeParts(s[..i]), EscapePart(c));
      if c == QUOTE {
        out := out + [BACKSLASH, QUOTE];
      } else if c == BACKSLASH {
        out := out + [BACKSLASH, BACKSLASH];
      } else if c == 10 {
        out := out + [BACKSLASH, 0x6E];
      } else if c == 13 {
        out := out + [BACKSLASH, 0x72];
      } else if c == 9 {
        out := out + [BACKSLASH, 0x74];
      } else if c < 0x20 {
        out := out + [BACKSLASH, LOWER_U, ZERO, ZERO, HexDigit(c / 16), HexDigit(c % 16)];
      } else {
        out := out + [c];
      }
    }
    TakeAll(s);
    EscapedIsPrintable(s);
  }

  /** Section 7 read against the escaper: the reader returns the very string that was escaped
      and stops behind the quote. */
  lemma EscapeReadsBack(s: Text, rest: Text)
    requires Chars(s)
    ensures ReadParts(PartsText(EscapeParts(s)) + ([QUOTE] + rest)) == Got(s, rest)
  {
    EscapePartsRead(s);
    PartsTextPrints(EscapeParts(s), rest);
    PartsComplete(EscapeParts(s), rest);
  }

  // ---------------------------------------------------------------- fields

  /** The values of a record: escaped strings or null, numbers or null, and booleans. */
  datatype Value = TextValue(text: Option<Text>) | NumberValue(number: Option<nat>) | FlagValue(flag: bool)

  datatype Field = Field(name: Text, value: Value)

  predicate PlainName(name: Text) {
    forall i :: 0 <= i < |name| ==> name[i] >= 0x20 && name[i] != QUOTE && name[i] != BACKSLASH
  }

  predicate WfValue(v: Value) {
    v.TextValue? && v.text.Some? ==> Chars(v.text.value)
  }

  predicate WfField(f: Field) {
    PlainName(f.name) && WfValue(f.value)
  }

  function StringText(s: Text): Text {
    [QUOTE] + PartsText(EscapeParts(s)) + [QUOTE]
  }

  function ValueText(v: Value): Text {
    match v
    case TextValue(Some(text)) => StringText(text)
    case NumberValue(Some(n)) => Decimal(n)
    case FlagValue(flag) => if flag then TRUE_TEXT else FALSE_TEXT
    case _ => NULL_TEXT
  }

  /** `"name":value`, as the format strings of lines 82-98 put it. */
  function RenderField(f: Field): Text {
    [QUOTE] + f.name + [QUOTE] + [COLON] + ValueText(f.value)
  }

  function ReadValueOf(v: Value): Json {
    match v
    case TextValue(Some(text)) => JString(text)
    case NumberValue(Some(n)) => JNumber(Decimal(n))
    case FlagValue(flag) => JBool(flag)
    case _ => JNull
  }

  // ---------------------------------------------------------------- records

  function FieldsText(fs: seq<Field>): Text {
    if fs == [] then [] else RenderField(fs[0]) + (if |fs| == 1 then [] else [COMMA] + FieldsText(fs[1..]))
  }

  function RenderRecord(fs: seq<Field>): Text {
    [LBRACE] + FieldsText(fs) + [RBRACE]
  }

  function ValueTree(v: Value): Tree {
    match v
    case TextValue(Some(text)) => Str(EscapeParts(text))
    case NumberValue(Some(n)) => Number(Decimal(n))
    case FlagValue(flag) => Literal(if flag then True else False)
    case _ => Literal(Null)
  }

  function RawParts(name: Text): seq<Part> {
    Map((u: Unit) => Raw(u), name)
  }

  function FieldMember(f: Field): Member {
    Member(Entry([], RawParts(f.name), [], [], ValueTree(f.value)), [])
  }

  lemma {:induction false} RawPartsPrint(name: Text, rest: Text)
    ensures PrintParts(RawParts(name), rest) == name + ([QUOTE] + rest)
  {
    if name == [] {
      assert [] + ([QUOTE] + rest) == [QUOTE] + rest;
    } else {
      assert RawParts(name)[1..] == RawParts(name[1..]);
      RawPartsPrint(name[1..], rest);
      assert name + ([QUOTE] + rest) == [name[0]] + (name[1..] + ([QUOTE] + rest));
    }
  }

  lemma ValueTreeReads(v: Value)
    requires WfValue(v)
    ensures Wf(ValueTree(v)) && ValueOf(ValueTree(v)) == ReadValueOf(v) && Distinct(ValueTree(v))
  {
    match v {
      case TextValue(Some(text)) => EscapePartsRead(text);
      case NumberValue(Some(n)) => DecimalIsNumber(n);
      case _ =>
    }
  }

  lemma StringTextPrints(s: Text, rest: Text)
    ensures StringText(s) + rest == [QUOTE] + PrintParts(EscapeParts(s), rest)
  {
    PartsTextPrints(EscapeParts(s), rest);
    assert StringText(s) + rest == [QUOTE] + (PartsText(EscapeParts(s)) + ([QUOTE] + rest));
  }

  lemma ValueTextPrints(v: Value, rest: Text)
    ensures ValueText(v) + rest == Print(ValueTree(v), rest)
  {
    if v.TextValue? && v.text.Some? {
      StringTextPrints(v.text.value, rest);
    }
  }

  lemma EmptyLeft(s: Text)
    ensures [] + s == s
  {
  }

  lemma JoinField(name: Text, t: Text, rest: Text)
    ensures [QUOTE] + name + [QUOTE] + [COLON] + t + rest == [QUOTE] + (name + ([QUOTE] + ([COLON] + (t + rest))))
  {
  }

  lemma RawKeyPrints(name: Text, rest: Text)
    ensures PrintKey(RawParts(name), [], rest) == [QUOTE] + (name + ([QUOTE] + ([COLON] + rest)))
  {
    EmptyLeft([COLON] + rest);
    RawPartsPrint(name, [COLON] + rest);
  }

  lemma FieldPrints(f: Field, rest: Text)
    ensures RenderField(f) + rest == PrintEntry(FieldMember(f).entry, rest)
  {
    JoinField(f.name, ValueText(f.value), rest);
    ValueTextPrints(f.value, rest);
    RawKeyPrints(f.name, Print(ValueTree(f.value), rest));
    EmptyLeft(Print(ValueTree(f.value), rest));
    EmptyLeft(PrintKey(RawParts(f.name), [], Print(ValueTree(f.value), rest)));
  }

  function FieldMembers(fs: seq<Field>): seq<Member> {
    Map(FieldMember, fs)
  }

  lemma JoinFields(a: Text, b: Text, rest: Text)
    ensures a + ([COMMA] + b) + rest == a + ([COMMA] + (b + rest))
    ensures a + [] == a
  {
  }

  lemma {:induction false} FieldsPrint(fs: seq<Field>, rest: Text)
    requires fs != []
    ensures FieldsText(fs) + ([RBRACE] + rest) == PrintMembers(FieldMembers(fs), rest)
  {
    var ms := FieldMembers(fs);
    var head, tail := RenderField(fs[0]), MembersTail(ms, rest);
    FieldPrints(fs[0], tail);
    EmptyLeft(tail);
    if |fs| == 1 {
      JoinFields(head, [], []);
      assert FieldsText(fs) == head;
    } else {
      FieldsPrint(fs[1..], rest);
      assert ms[1..] == FieldMembers(fs[1..]);
      JoinFields(head, FieldsText(fs[1..]), [RBRACE] + rest);
    }
    assert PrintMembers(ms, rest) == PrintEntry(FieldMember(fs[0]).entry, [] + tail);
  }

  predicate DistinctNames(fs: seq<Field>) {
    forall i, j :: 0 <= i < j < |fs| ==> fs[i].name != fs[j].name
  }

  lemma NameOfMember(f: Field)
    ensures KeyOf(FieldMember(f)) == f.name
  {
    assert forall i :: 0 <= i < |f.name| ==> Unescaped(RawParts(f.name))[i] == f.name[i];
  }

  /** The object whose members are the fields. */
  ghost predicate IsRecord(m: map<Text, Json>, fs: seq<Field>) {
    && (forall k :: k in m <==> exists i :: 0 <= i < |fs| && fs[i].name == k)
    && (forall i :: 0 <= i < |fs| ==> m[fs[i].name] == ReadValueOf(fs[i].value))
  }

  lemma FieldsRead(fs: seq<Field>)
    requires DistinctNames(fs) && forall f :: f in fs ==> WfField(f)
    ensures WfMembers(FieldMembers(fs)) && DistinctMembers(FieldMembers(fs))
    ensures IsRecord(MemberValues(FieldMembers(fs)), fs)
  {
    var ms := FieldMembers(fs);
    forall i | 0 <= i < |fs|
      ensures KeyOf(ms[i]) == fs[i].name && WfEntry(ms[i].entry) && AllSpace(ms[i].after)
      ensures Distinct(ms[i].entry.tree) && ValueOf(ms[i].entry.tree) == ReadValueOf(fs[i].value)
    {
      assert fs[i] in fs;
      NameOfMember(fs[i]);
      ValueTreeReads(fs[i].value);
      assert ms[i] == FieldMember(fs[i]);
    }
    DistinctMeansDistinct(ms);
  }

  /** A rendered record is a JSON document, and the strict reader finds in it exactly the
      fields that were rendered. */
  lemma RecordReadsBack(fs: seq<Field>)
    requires fs != [] && DistinctNames(fs) && forall f :: f in fs ==> WfField(f)
    ensures ReadDocument(RenderRecord(fs)).Some?
    ensures var v := ReadDocument(RenderRecord(fs)).value; v.JObject? && IsRecord(v.members, fs)
  {
    hide FieldMembers;
    hide FieldsText;
    hide RenderRecord;
    hide PrintDocument;
    hide ParseDocument;
    hide WfMembers;
    hide IsRecord;
    hide DistinctMembers;
    hide MemberValues;
    RecordPrints(fs);
    FieldsRead(fs);
    NonEmptyMembers(fs);
    DocumentExact(RenderRecord(fs), Document([], Object(FieldMembers(fs)), []));
  }

  lemma NonEmptyMembers(fs: seq<Field>)
    requires fs != []
    ensures FieldMembers(fs) != []
  {
  }

  lemma RecordPrints(fs: seq<Field>)
    requires fs != []
    ensures RenderRecord(fs) == PrintDocument(Document([], Object(FieldMembers(fs)), []))
  {
    hide FieldMembers;
    hide FieldsText;
    hide PrintMembers;
    FieldsPrint(fs, []);
    Bracketed([LBRACE], FieldsText(fs), [RBRACE]);
  }

  lemma Bracketed(a: Text, b: Text, c: Text)
    ensures a + b + c == a + (b + (c + [])) && [] + a == a
  {
  }

  // ---------------------------------------------------------------- lines

  /** Every line followed by a line feed. */
  function Unlines(lines: seq<Text>): Text {
    if lines == [] then [] else Unlines(lines[..|lines| - 1]) + lines[|lines| - 1] + [NEWLINE]
  }

  /** Split a stream of terminated lines at its line feeds. */
  function Lines(s: Text): seq<Text> {
    if s == [] then []
    else if s[0] == NEWLINE then [[]] + Lines(s[1..])
    else
      var rest := Lines(s[1..]);
      if rest == [] then [[s[0]]] else [[s[0]] + rest[0]] + rest[1..]
  }

  lemma {:induction false} LinesOfOne(line: Text, s: Text)
    requires Printable(line)
    ensures Lines(line + [NEWLINE] + s) == [line] + Lines(s)
  {
    var t := line + [NEWLINE] + s;
    if line == [] {
      assert t[1..] == s;
    } else {
      assert t[1..] == line[1..] + [NEWLINE] + s;
      LinesOfOne(line[1..], s);
      assert line == [line[0]] + line[1..];
    }
  }

  /** Splitting at line feeds recovers exactly the records, because no record contains one. */
  lemma {:induction false} LinesRecovered(lines: seq<Text>, s: Text)
    requires forall l :: l in lines ==> Printable(l)
    ensures Lines(Unlines(lines) + s) == lines + Lines(s)
  {
    hide Lines;
    if lines == [] {
      assert [] + s == s;
    } else {
      var front, last := lines[..|lines| - 1], lines[|lines| - 1];
      assert Unlines(lines) + s == Unlines(front) + (last + [NEWLINE] + s);
      LinesRecovered(front, last + [NEWLINE] + s);
      LinesOfOne(last, s);
      assert lines == front + [last];
    }
  }

  lemma FieldPrintable(f: Field)
    requires WfField(f)
    ensures Printable(RenderField(f))
  {
    if f.value.TextValue? && f.value.text.Some? {
      EscapedIsPrintable(f.value.text.value);
    } else if f.value.NumberValue? && f.value.number.Some? {
      DecimalDigits(f.value.number.value);
    }
    assert Printable(ValueText(f.value));
  }

  lemma {:induction false} RecordPrintable(fs: seq<Field>)
    requires forall f :: f in fs ==> WfField(f)
    ensures Printable(FieldsText(fs)) && Printable(RenderRecord(fs))
  {
    if fs != [] {
      FieldPrintable(fs[0]);
      RecordPrintable(fs[1..]);
    }
  }
}
