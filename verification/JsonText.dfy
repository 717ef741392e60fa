/** The text that JSON.stringify writes, compact or indented by two
    (scripts/analysis-report-consumer.js:18-27). */
module JsonText {
  import opened JsonMeaning
  import opened JsonSyntax
  import opened JsonValue
  import opened Prelude

  /** The text of one character. */
  function CharText(u: Unit): Text {
    if u == 0x22 then [0x5C, 0x22]
    else if u == 0x5C then [0x5C, 0x5C]
    else if u == 0x08 then [0x5C, 'b' as int]
    else if u == 0x09 then [0x5C, 't' as int]
    else if u == 0x0A then [0x5C, 'n' as int]
    else if u == 0x0C then [0x5C, 'f' as int]
    else if u == 0x0D then [0x5C, 'r' as int]
    else if 0 <= u <= 0x1F then
      [0x5C, 'u' as int, '0' as int, '0' as int, "0123456789abcdef"[u / 16] as int, "0123456789abcdef"[u % 16] as int]
    else [u]
  }

  function CharsText(s: Text): Text {
    if s == [] then [] else CharText(s[0]) + CharsText(s[1..])
  }

  function Quoted(s: Text): Text {
    [0x22] + CharsText(s) + [0x22]
  }

  /** A line break and two blanks a level. */
  function NewLine(pretty: bool, depth: nat): Text {
    if pretty then [0x0A] + Blanks2(depth) else []
  }

  function Blanks2(depth: nat): Text {
    if depth == 0 then [] else [0x20, 0x20] + Blanks2(depth - 1)
  }

  function TextOf(v: Value, pretty: bool, depth: nat): Text
    decreases v
  {
    match v
    case VWord(word) => (match word case Null => Spelled("null") case True => Spelled("true") case False => Spelled("false"))
    case VNumber(lexeme) => lexeme
    case VString(text) => Quoted(text)
    case VArray(items) => if items == [] then Spelled("[]") else Spelled("[") + ItemsText(items, pretty, depth + 1) + NewLine(pretty, depth) + Spelled("]")
    case VObject(fields) => if fields == [] then Spelled("{}") else Spelled("{") + FieldsText(fields, pretty, depth + 1) + NewLine(pretty, depth) + Spelled("}")
  }

  function ItemsText(vs: seq<Value>, pretty: bool, depth: nat): Text
    decreases vs
  {
    if vs == [] then []
    else NewLine(pretty, depth) + TextOf(vs[0], pretty, depth) + (if |vs| == 1 then [] else Spelled(",") + ItemsText(vs[1..], pretty, depth))
  }

  function FieldsText(fs: seq<Field>, pretty: bool, depth: nat): Text
    decreases fs
  {
    if fs == [] then []
    else
      NewLine(pretty, depth) + Quoted(fs[0].key) + Spelled(if pretty then ": " else ":") + TextOf(fs[0].value, pretty, depth)
      + (if |fs| == 1 then [] else Spelled(",") + FieldsText(fs[1..], pretty, depth))
  }

  // ---------------------------------------------------------------- the writer writes it

  lemma CharWritten(u: Unit)
    requires u >= 0
    ensures PartText(StringifyPart(u)) == CharText(u)
  {
  }

  lemma {:induction false} CharsWritten(s: Text)
    requires Chars(s)
    ensures PartsText(Stringified(s)) == CharsText(s)
  {
    hide CharText;
    hide StringifyPart;
    if s != [] {
      CharsWritten(s[1..]);
      CharWritten(s[0]);
      assert Stringified(s)[1..] == Stringified(s[1..]) && Stringified(s)[0] == StringifyPart(s[0]);
    }
  }

  lemma QuotedWritten(s: Text, rest: Text)
    requires Chars(s)
    ensures [QUOTE] + PrintParts(Stringified(s), rest) == Quoted(s) + rest
  {
    CharsWritten(s);
    PartsApart(Stringified(s), rest);
    hide CharsText;
  }

  lemma {:induction false} GapWritten(pretty: bool, depth: nat)
    ensures Gap(pretty, depth) == NewLine(pretty, depth)
  {
    if pretty {
      BlanksWritten(depth);
    }
  }

  lemma {:induction false} BlanksWritten(depth: nat)
    ensures seq(2 * depth, _ => 0x20) == Blanks2(depth)
  {
    if depth > 0 {
      BlanksWritten(depth - 1);
      assert seq(2 * depth, _ => 0x20) == [0x20, 0x20] + seq(2 * (depth - 1), _ => 0x20);
    }
  }

  /** The tree that the writer prints has this text. */
  lemma {:induction false} TextWritten(v: Value, pretty: bool, depth: nat, rest: Text)
    requires Plain(v)
    ensures Print(TreeOf(v, pretty, depth), rest) == TextOf(v, pretty, depth) + rest
    decreases v, 0
  {
    hide Gap;
    hide NewLine;
    match v
    case VWord(word) =>
    case VNumber(lexeme) =>
    case VString(text) => QuotedWritten(text, rest);
    case VArray(items) => ArrayWritten(items, pretty, depth, rest);
    case VObject(fields) => ObjectWritten(fields, pretty, depth, rest);
  }

  lemma ArrayWritten(items: seq<Value>, pretty: bool, depth: nat, rest: Text)
    requires PlainItems(items)
    ensures Print(TreeOf(VArray(items), pretty, depth), rest) == TextOf(VArray(items), pretty, depth) + rest
    decreases items, 1
  {
    hide Gap;
    hide NewLine;
    hide ItemsText;
    hide ElemsOf;
    if items != [] {
      ItemsWritten(items, pretty, depth + 1, rest);
      FiveParts(Spelled("["), ItemsText(items, pretty, depth + 1), NewLine(pretty, depth), Spelled("]"), rest);
      assert Spelled("[") == [LBRACKET] && Spelled("]") == [RBRACKET];
    } else {
      assert Spelled("[]") == [LBRACKET, RBRACKET];
    }
  }

  lemma ObjectWritten(fields: seq<Field>, pretty: bool, depth: nat, rest: Text)
    requires PlainFields(fields)
    ensures Print(TreeOf(VObject(fields), pretty, depth), rest) == TextOf(VObject(fields), pretty, depth) + rest
    decreases fields, 1
  {
    hide Gap;
    hide NewLine;
    hide FieldsText;
    hide MembersOf;
    if fields != [] {
      FieldsWritten(fields, pretty, depth + 1, rest);
      FiveParts(Spelled("{"), FieldsText(fields, pretty, depth + 1), NewLine(pretty, depth), Spelled("}"), rest);
      assert Spelled("{") == [LBRACE] && Spelled("}") == [RBRACE];
    } else {
      assert Spelled("{}") == [LBRACE, RBRACE];
    }
  }

  lemma FiveParts(a: Text, b: Text, c: Text, d: Text, e: Text)
    ensures a + b + c + d + e == a + (b + (c + (d + e)))
  {
  }

  lemma {:induction false} ItemsWritten(vs: seq<Value>, pretty: bool, depth: nat, rest: Text)
    requires vs != [] && PlainItems(vs) && depth > 0
    ensures PrintElems(ElemsOf(vs, pretty, depth), rest) ==
            ItemsText(vs, pretty, depth) + (NewLine(pretty, depth - 1) + ([RBRACKET] + rest))
    decreases vs, 0
  {
    hide Gap;
    hide NewLine;
    hide Plain;
    hide TextOf;
    hide Print;
    var es := ElemsOf(vs, pretty, depth);
    GapWritten(pretty, depth);
    GapWritten(pretty, depth - 1);
    var tail := es[0].after + ElemsTail(es, rest);
    TextWritten(vs[0], pretty, depth, tail);
    if |vs| > 1 {
      ItemsWritten(vs[1..], pretty, depth, rest);
      assert es[1..] == ElemsOf(vs[1..], pretty, depth) && |es| > 1;
      assert Spelled(",") == [COMMA];
      FiveParts(NewLine(pretty, depth), TextOf(vs[0], pretty, depth), Spelled(","), ItemsText(vs[1..], pretty, depth),
                NewLine(pretty, depth - 1) + ([RBRACKET] + rest));
      Regroup(NewLine(pretty, depth), TextOf(vs[0], pretty, depth), Spelled(","), ItemsText(vs[1..], pretty, depth));
    } else {
      Regroup(NewLine(pretty, depth), TextOf(vs[0], pretty, depth), NewLine(pretty, depth - 1), [RBRACKET] + rest);
    }
  }

  lemma Regroup(a: Text, b: Text, c: Text, d: Text)
    ensures a + (b + (c + d)) == a + b + (c + d) && a + b + c + d == a + b + (c + d) && a + b + [] == a + b
  {
  }

  function FirstText(f: Field, pretty: bool, depth: nat): Text
    decreases f, 1
  {
    NewLine(pretty, depth) + Quoted(f.key) + Spelled(if pretty then ": " else ":") + TextOf(f.value, pretty, depth)
  }

  lemma {:induction false} FieldsWritten(fs: seq<Field>, pretty: bool, depth: nat, rest: Text)
    requires fs != [] && PlainFields(fs) && depth > 0
    ensures PrintMembers(MembersOf(fs, pretty, depth), rest) ==
            FieldsText(fs, pretty, depth) + (NewLine(pretty, depth - 1) + ([RBRACE] + rest))
    decreases fs, 0
  {
    hide Gap;
    hide NewLine;
    hide Plain;
    hide TextOf;
    hide Print;
    hide Quoted;
    hide EntryOf;
    hide PrintEntry;
    hide Spelled;
    hide FirstText;
    var ms := MembersOf(fs, pretty, depth);
    GapWritten(pretty, depth - 1);
    EntryWritten(fs[0], pretty, depth, ms[0].after + MembersTail(ms, rest));
    FirstThen(fs, pretty, depth);
    if |fs| > 1 {
      FieldsWritten(fs[1..], pretty, depth, rest);
      assert ms[1..] == MembersOf(fs[1..], pretty, depth) && |ms| > 1;
      CommaUnit();
      FiveParts([], FirstText(fs[0], pretty, depth), Spelled(","), FieldsText(fs[1..], pretty, depth), NewLine(pretty, depth - 1) + ([RBRACE] + rest));
      Regroup([], FirstText(fs[0], pretty, depth), Spelled(","), FieldsText(fs[1..], pretty, depth));
    }
  }

  lemma CommaUnit()
    ensures Spelled(",") == [COMMA]
  {
  }

  lemma FirstThen(fs: seq<Field>, pretty: bool, depth: nat)
    requires fs != []
    ensures FieldsText(fs, pretty, depth) ==
            FirstText(fs[0], pretty, depth) + (if |fs| == 1 then [] else Spelled(",") + FieldsText(fs[1..], pretty, depth))
  {
  }

  lemma EntryWritten(f: Field, pretty: bool, depth: nat, rest: Text)
    requires Chars(f.key) && Plain(f.value)
    ensures PrintEntry(EntryOf(f, pretty, depth), rest) ==
            FirstText(f, pretty, depth) + rest
    decreases f, 0
  {
    hide Gap;
    hide NewLine;
    hide Plain;
    hide TextOf;
    hide Print;
    hide Quoted;
    GapWritten(pretty, depth);
    TextWritten(f.value, pretty, depth, rest);
    var e := EntryOf(f, pretty, depth);
    var tail := e.afterColon + Print(e.tree, rest);
    QuotedWritten(f.key, [] + ([COLON] + tail));
    assert Spelled(if pretty then ": " else ":") == [COLON] + e.afterColon;
    Around(NewLine(pretty, depth), Quoted(f.key), [COLON], e.afterColon, TextOf(f.value, pretty, depth), rest);
  }

  lemma Around(a: Text, b: Text, c: Text, d: Text, e: Text, f: Text)
    ensures a + (b + ([] + (c + (d + (e + f))))) == a + b + (c + d) + e + f
  {
  }

  /** A value is written as that text. */
  lemma WrittenMeans(v: Value, pretty: bool, after: Text)
    requires Plain(v)
    ensures Written(v, pretty, after) == TextOf(v, pretty, 0) + after
  {
    TextWritten(v, pretty, 0, after);
  }
}
