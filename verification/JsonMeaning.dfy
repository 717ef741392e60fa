/** What the strict reader makes of a text, character by character and without syntax trees
    (scripts/ffi-connector-registry.js:17-83). */
module JsonMeaning {
  import opened JsonReader
  import opened JsonRoundTrip
  import opened JsonSyntax
  import opened Prelude

  /** The reader accepts the text and returns the value. */
  predicate Reads(text: Text, v: Json) {
    ReadDocument(text) == Some(v)
  }

  lemma ReadsTree(text: Text, v: Json)
    ensures Reads(text, v) <==> exists d :: WfDocument(d) && Distinct(d.tree) && text == PrintDocument(d) && ValueOf(d.tree) == v
  {
    if Reads(text, v) {
      DocumentExact(text, ParseDocument(text).value);
    }
    if d :| WfDocument(d) && Distinct(d.tree) && text == PrintDocument(d) && ValueOf(d.tree) == v {
      DocumentExact(text, d);
    }
  }

  // ---------------------------------------------------------------- strings

  /** The character after a backslash and what the two denote. */
  predicate ShortEscape(e: Unit, u: Unit) {
    || (e == 0x22 && u == 0x22) || (e == 0x5C && u == 0x5C) || (e == 0x2F && u == 0x2F) || (e == 0x62 && u == 0x08)
    || (e == 0x66 && u == 0x0C) || (e == 0x6E && u == 0x0A) || (e == 0x72 && u == 0x0D) || (e == 0x74 && u == 0x09)
  }

  /** The character is a hexadecimal digit, in either case, of that value. */
  predicate HexDigitOf(c: Unit, v: int) {
    0 <= v < 16 && (c == "0123456789abcdef"[v] as int || c == "0123456789ABCDEF"[v] as int)
  }

  predicate FourDigits(a: Unit, b: Unit, c: Unit, d: Unit, u: Unit) {
    && 0 <= u < 65536
    && HexDigitOf(a, u / 4096) && HexDigitOf(b, u / 256 % 16) && HexDigitOf(c, u / 16 % 16) && HexDigitOf(d, u % 16)
  }

  /** The characters between the quotes denote the string. */
  predicate Spells(s: Text, v: Text)
    decreases |s|
  {
    if s == [] then v == []
    else if v == [] then false
    else if s[0] != 0x5C then s[0] >= 0x20 && s[0] != 0x22 && v[0] == s[0] && Spells(s[1..], v[1..])
    else
      || (|s| >= 2 && ShortEscape(s[1], v[0]) && Spells(s[2..], v[1..]))
      || (|s| >= 6 && s[1] == 0x75 && FourDigits(s[2], s[3], s[4], s[5], v[0]) && Spells(s[6..], v[1..]))
  }

  function PartText(p: Part): Text {
    match p
    case Raw(u) => [u]
    case Short(e) => [0x5C, e]
    case Hex(a, b, c, d) => [0x5C, 0x75, a, b, c, d]
  }

  function PartsText(ps: seq<Part>): Text {
    if ps == [] then [] else PartText(ps[0]) + PartsText(ps[1..])
  }

  lemma {:induction false} PartsApart(ps: seq<Part>, rest: Text)
    ensures PrintParts(ps, rest) == PartsText(ps) + ([QUOTE] + rest)
  {
    if ps != [] {
      PartsApart(ps[1..], rest);
      assert PrintPart(ps[0], PrintParts(ps[1..], rest)) == PartText(ps[0]) + PrintParts(ps[1..], rest);
    }
  }

  lemma HexMeans(c: Unit, v: int)
    ensures HexDigitOf(c, v) <==> IsHex(c) && HexValue(c) == v
  {
  }

  lemma FourDigitsMean(a: Unit, b: Unit, c: Unit, d: Unit, u: Unit)
    ensures FourDigits(a, b, c, d, u) <==>
            IsHex(a) && IsHex(b) && IsHex(c) && IsHex(d) && 4096 * HexValue(a) + 256 * HexValue(b) + 16 * HexValue(c) + HexValue(d) == u
  {
    if FourDigits(a, b, c, d, u) {
      FourDigitsSum(a, b, c, d, u);
    }
    hide HexDigitOf;
    hide IsHex;
    hide HexValue;
    if IsHex(a) && IsHex(b) && IsHex(c) && IsHex(d) && 4096 * HexValue(a) + 256 * HexValue(b) + 16 * HexValue(c) + HexValue(d) == u {
      DigitsOfSum(HexValue(a), HexValue(b), HexValue(c), HexValue(d), u);
      HexMeans(a, u / 4096);
      HexMeans(b, u / 256 % 16);
      HexMeans(c, u / 16 % 16);
      HexMeans(d, u % 16);
    }
  }

  lemma FourDigitsSum(a: Unit, b: Unit, c: Unit, d: Unit, u: Unit)
    requires FourDigits(a, b, c, d, u)
    ensures IsHex(a) && IsHex(b) && IsHex(c) && IsHex(d) && 4096 * HexValue(a) + 256 * HexValue(b) + 16 * HexValue(c) + HexValue(d) == u
  {
    hide HexDigitOf;
    hide IsHex;
    hide HexValue;
    HexMeans(a, u / 4096);
    HexMeans(b, u / 256 % 16);
    HexMeans(c, u / 16 % 16);
    HexMeans(d, u % 16);
    SumOfDigits(u);
  }

  lemma SumOfDigits(u: int)
    requires 0 <= u
    ensures 4096 * (u / 4096) + 256 * (u / 256 % 16) + 16 * (u / 16 % 16) + u % 16 == u
  {
    assert u / 16 / 16 == u / 256 && u / 256 / 16 == u / 4096;
    assert u == 16 * (u / 16) + u % 16;
    assert u / 16 == 16 * (u / 256) + u / 16 % 16;
    assert u / 256 == 16 * (u / 4096) + u / 256 % 16;
  }

  lemma DigitsOfSum(a: int, b: int, c: int, d: int, u: int)
    requires 0 <= a < 16 && 0 <= b < 16 && 0 <= c < 16 && 0 <= d < 16 && u == 4096 * a + 256 * b + 16 * c + d
    ensures 0 <= u < 65536 && u / 4096 == a && u / 256 % 16 == b && u / 16 % 16 == c && u % 16 == d
  {
    assert u / 256 == 16 * a + b;
    assert u / 16 == 256 * a + 16 * b + c;
  }

  lemma {:induction false} PartsSpell(ps: seq<Part>)
    requires WfParts(ps)
    ensures Spells(PartsText(ps), Unescaped(ps))
  {
    if ps != [] {
      var s, v := PartsText(ps), Unescaped(ps);
      var t := PartText(ps[0]);
      PartsSpell(ps[1..]);
      assert s[|t|..] == PartsText(ps[1..]) && v[1..] == Unescaped(ps[1..]) && s[..|t|] == t;
      assert WfPart(ps[0]);
      if ps[0].Hex? {
        FourDigitsMean(ps[0].a, ps[0].b, ps[0].c, ps[0].d, v[0]);
      }
    }
  }

  lemma {:induction false} SpelledParts(s: Text, v: Text) returns (ps: seq<Part>)
    requires Spells(s, v)
    ensures WfParts(ps) && PartsText(ps) == s && Unescaped(ps) == v
    decreases |s|
  {
    if s == [] {
      ps := [];
    } else {
      var p, n := SpelledPart(s, v);
      var tail := SpelledParts(s[n..], v[1..]);
      ps := [p] + tail;
      assert s == s[..n] + s[n..] && v == [v[0]] + v[1..] && ps[1..] == tail;
      assert Unescaped(ps) == [PartUnit(p)] + Unescaped(tail);
    }
  }

  lemma SpelledPart(s: Text, v: Text) returns (p: Part, n: nat)
    requires s != [] && Spells(s, v)
    ensures 0 < n <= |s| && v != [] && Spells(s[n..], v[1..])
    ensures PartText(p) == s[..n] && PartUnit(p) == v[0] && WfPart(p)
  {
    if s[0] != 0x5C {
      p, n := Raw(s[0]), 1;
    } else if ShortEscape(s[1], v[0]) && Spells(s[2..], v[1..]) {
      p, n := Short(s[1]), 2;
    } else {
      p, n := Hex(s[2], s[3], s[4], s[5]), 6;
      FourDigitsMean(s[2], s[3], s[4], s[5], v[0]);
    }
  }

  /** A quoted text is read as a string exactly when its characters denote that string: each
      character itself, but no control character, quote or backslash; the eight short escapes;
      and four hexadecimal digits of either case for any code unit. */
  lemma StringMeaning(s: Text, v: Text)
    ensures Reads([0x22] + s + [0x22], JString(v)) <==> Spells(s, v)
  {
    hide Spells;
    hide ReadDocument;
    hide WfParts;
    hide Unescaped;
    if Spells(s, v) {
      SpelledReads(s, v);
    }
    if Reads([0x22] + s + [0x22], JString(v)) {
      ReadSpells(s, v);
    }
  }

  lemma SpelledReads(s: Text, v: Text)
    requires Spells(s, v)
    ensures Reads([0x22] + s + [0x22], JString(v))
  {
    hide Spells;
    hide ReadDocument;
    hide WfParts;
    hide Unescaped;
    var text := [0x22] + s + [0x22];
    var ps := SpelledParts(s, v);
    PartsApart(ps, []);
    var d := Document([], Str(ps), []);
    assert PrintDocument(d) == text;
    assert Distinct(d.tree) && WfDocument(d) && ValueOf(d.tree) == JString(v);
    ReadsTree(text, JString(v));
  }

  lemma ReadSpells(s: Text, v: Text)
    requires Reads([0x22] + s + [0x22], JString(v))
    ensures Spells(s, v)
  {
    hide Spells;
    hide ReadDocument;
    hide WfParts;
    hide Unescaped;
    var text := [0x22] + s + [0x22];
    ReadsTree(text, JString(v));
    var d :| WfDocument(d) && Distinct(d.tree) && text == PrintDocument(d) && ValueOf(d.tree) == JString(v);
    var ps := d.tree.parts;
    QuotedDocument(text, d);
    PartsApart(ps, []);
    PartsSpell(ps);
    assert s == text[1..|text| - 1] && PartsText(ps) == text[1..|text| - 1];
  }

  lemma QuotedDocument(text: Text, d: Document)
    requires |text| >= 2 && text[0] == QUOTE && text[|text| - 1] == QUOTE
    requires WfDocument(d) && text == PrintDocument(d) && d.tree.Str?
    ensures d.before == [] && d.after == []
    ensures text == [QUOTE] + PrintParts(d.tree.parts, [])
  {
    NoBlankFirst(text, d);
    PartsApart(d.tree.parts, d.after);
    NoBlankLast(text, [QUOTE] + PartsText(d.tree.parts), d.after);
    assert d.before + Print(d.tree, d.after) == Print(d.tree, d.after);
  }

  lemma NoBlankFirst(text: Text, d: Document)
    requires text != [] && !IsSpace(text[0]) && AllSpace(d.before) && text == PrintDocument(d)
    ensures d.before == []
  {
    hide Print;
    if d.before != [] {
      FirstOf(d.before, Print(d.tree, d.after));
    }
  }

  lemma FirstOf<T>(a: seq<T>, b: seq<T>)
    requires a != []
    ensures (a + b)[0] == a[0]
  {
  }

  lemma LastOf<T>(a: seq<T>, b: seq<T>)
    requires b != []
    ensures (a + b)[|a| + |b| - 1] == b[|b| - 1]
  {
  }

  lemma NoBlankLast(text: Text, body: Text, after: Text)
    requires text != [] && !IsSpace(text[|text| - 1]) && AllSpace(after) && text == body + ([QUOTE] + after)
    ensures after == []
  {
    assert body + [QUOTE] + after == body + ([QUOTE] + after);
    if after != [] {
      LastOf(body + [QUOTE], after);
    }
  }

  // ---------------------------------------------------------------- numbers and words

  predicate Digits(s: Text) {
    forall i :: 0 <= i < |s| ==> '0' as int <= s[i] <= '9' as int
  }

  /** An integer without superfluous zeros. */
  predicate Whole(s: Text) {
    s != [] && Digits(s) && (s[0] == '0' as int ==> |s| == 1)
  }

  predicate Fraction(s: Text) {
    s == [] || (|s| >= 2 && s[0] == '.' as int && Digits(s[1..]))
  }

  predicate Exponent(s: Text) {
    || s == []
    || (|s| >= 2 && (s[0] == 'e' as int || s[0] == 'E' as int) && Digits(s[1..]))
    || (|s| >= 3 && (s[0] == 'e' as int || s[0] == 'E' as int) && (s[1] == '+' as int || s[1] == '-' as int) && Digits(s[2..]))
  }

  /** A sign, an integer, a fraction and an exponent (section 6 of RFC 8259). */
  ghost predicate NumberText(s: Text) {
    exists sign, whole, fraction, exponent ::
      (sign == [] || sign == ['-' as int]) && Whole(whole) && Fraction(fraction) && Exponent(exponent)
      && s == sign + whole + fraction + exponent
  }

  lemma {:induction false} DigitRunStops(s: Text, n: nat)
    requires n <= |s| && Digits(s[..n]) && (n < |s| ==> !IsDigit(s[n]))
    ensures DigitRun(s) == n
  {
    if n > 0 {
      assert s[..n][0] == s[0] && s[..n][1..] == s[1..][..n - 1];
      DigitRunStops(s[1..], n - 1);
    }
  }

  lemma {:induction false} DigitRunDigits(s: Text)
    ensures Digits(s[..DigitRun(s)]) && (DigitRun(s) < |s| ==> !IsDigit(s[DigitRun(s)]))
  {
    if s != [] && IsDigit(s[0]) {
      DigitRunDigits(s[1..]);
      assert s[..DigitRun(s)] == [s[0]] + s[1..][..DigitRun(s[1..])];
    }
  }

  lemma ExponentLength(s: Text)
    ensures Exponent(s) ==> ExpLength(s) == |s|
    ensures ExpLength(s) == |s| ==> Exponent(s)
  {
    if s != [] {
      DigitRunDigits(s[1..]);
      if |s| > 1 {
        DigitRunDigits(s[2..]);
        if Digits(s[2..]) {
          DigitRunStops(s[2..], |s| - 2);
        }
      }
      if Digits(s[1..]) {
        DigitRunStops(s[1..], |s| - 1);
      }
    }
  }

  lemma FractionLength(f: Text, e: Text)
    requires Fraction(f) && Exponent(e)
    ensures FracLength(f + e) == |f|
  {
    if f != [] {
      assert (f + e)[1..] == f[1..] + e;
      assert (f[1..] + e)[..|f| - 1] == f[1..];
      DigitRunStops(f[1..] + e, |f| - 1);
    }
  }

  lemma WholeLength(sign: Text, w: Text, rest: Text)
    requires (sign == [] || sign == ['-' as int]) && Whole(w) && (rest != [] ==> !IsDigit(rest[0]))
    ensures IntLength(sign + w + rest) == Some(|sign| + |w|)
  {
    var s := sign + w + rest;
    assert s[|sign|] == w[0];
    if w[0] != '0' as int {
      assert s[|sign|..] == w + rest;
      assert (w + rest)[..|w|] == w;
      DigitRunStops(w + rest, |w|);
    }
  }

  lemma NumberTextLength(s: Text)
    requires NumberText(s)
    ensures NumberLength(s) == Some(|s|)
  {
    var sign, w, f, e :|
      (sign == [] || sign == ['-' as int]) && Whole(w) && Fraction(f) && Exponent(e) && s == sign + w + f + e;
    WholeLength(sign, w, f + e);
    FractionLength(f, e);
    ExponentLength(e);
    hide IntLength;
    hide FracLength;
    hide ExpLength;
    hide Whole;
    hide Fraction;
    hide Exponent;
    Joined3(sign + w, f, e);
    var i := |sign| + |w|;
    assert s[i..] == f + e && s[i + |f|..] == e;
  }

  lemma IntParts(s: Text) returns (sign: Text, w: Text)
    requires IntLength(s).Some?
    ensures (sign == [] || sign == ['-' as int]) && Whole(w) && sign + w == s[..IntLength(s).value]
  {
    var o := if s[0] == MINUS then 1 else 0;
    sign, w := s[..o], s[o..IntLength(s).value];
    if s[o] != ZERO {
      DigitRunDigits(s[o..]);
      assert w == s[o..][..DigitRun(s[o..])];
    }
  }

  lemma FracParts(s: Text)
    ensures Fraction(s[..FracLength(s)])
  {
    if FracLength(s) > 0 {
      DigitRunDigits(s[1..]);
      assert s[..FracLength(s)][1..] == s[1..][..DigitRun(s[1..])];
    }
  }

  lemma NumberLengthText(s: Text)
    requires NumberLength(s) == Some(|s|)
    ensures NumberText(s)
  {
    hide IntLength;
    hide FracLength;
    hide ExpLength;
    hide Whole;
    hide Fraction;
    hide Exponent;
    var i := IntLength(s).value;
    var sign, w := IntParts(s);
    var f := FracLength(s[i..]);
    FracParts(s[i..]);
    var fraction, exponent := s[i..][..f], s[i + f..];
    ExponentLength(exponent);
    Reassembled(s, i, f);
    assert s == sign + w + fraction + exponent;
  }

  lemma Reassembled(s: Text, i: nat, f: nat)
    requires i <= |s| && f <= |s| - i
    ensures s == s[..i] + s[i..][..f] + s[i + f..]
  {
  }

  /** A text is read as a number, itself its lexeme, exactly when it is one. */
  lemma NumberMeaning(s: Text)
    ensures Reads(s, JNumber(s)) <==> NumberText(s)
  {
    hide ReadDocument;
    hide NumberLength;
    ReadsTree(s, JNumber(s));
    if NumberText(s) {
      NumberTextLength(s);
      var d := Document([], Number(s), []);
      assert s + [] == s && PrintDocument(d) == s;
    }
    if d :| WfDocument(d) && Distinct(d.tree) && s == PrintDocument(d) && ValueOf(d.tree) == JNumber(s) {
      assert |s| == |d.before| + |s| + |d.after|;
      NumberLengthText(s);
    }
  }

  /** The three words. */
  lemma WordMeaning()
    ensures Reads(Spelled("true"), JBool(true)) && Reads(Spelled("false"), JBool(false)) && Reads(Spelled("null"), JNull)
  {
    hide ReadDocument;
    WordReads(True, "true");
    WordReads(False, "false");
    WordReads(Word.Null, "null");
  }

  function Spelled(s: string): (t: Text)
    ensures |t| == |s| && forall i :: 0 <= i < |s| ==> t[i] == s[i] as int
  {
    seq(|s|, i requires 0 <= i < |s| => s[i] as int)
  }

  lemma WordReads(w: Word, s: string)
    requires WordText(w) == Spelled(s)
    ensures Reads(Spelled(s), WordValue(w))
  {
    hide ReadDocument;
    ReadsTree(Spelled(s), WordValue(w));
    assert PrintDocument(Document([], Literal(w), [])) == Spelled(s);
  }

  /** The blanks are those of JavaScript's `\s`. */
  lemma BlankMeaning(u: Unit)
    ensures Reads([u, 0x30], JNumber([0x30])) <==>
            || u == 0x09 || u == 0x0A || u == 0x0B || u == 0x0C || u == 0x0D || u == 0x20 || u == 0xA0 || u == 0x1680
            || (0x2000 <= u <= 0x200A) || u == 0x2028 || u == 0x2029 || u == 0x202F || u == 0x205F || u == 0x3000 || u == 0xFEFF
    ensures Reads([0x30, u], JNumber([0x30])) <==> Reads([u, 0x30], JNumber([0x30]))
  {
    hide ReadDocument;
    var zero := [0x30];
    BlankBefore(u);
    BlankAfter(u);
  }

  lemma BlankBefore(u: Unit)
    ensures Reads([u, 0x30], JNumber([0x30])) <==> IsSpace(u)
  {
    hide ReadDocument;
    ReadsTree([u, 0x30], JNumber([0x30]));
    if IsSpace(u) {
      var d := Document([u], Number([0x30]), []);
      assert PrintDocument(d) == [u, 0x30];
    }
    if d :| WfDocument(d) && Distinct(d.tree) && [u, 0x30] == PrintDocument(d) && ValueOf(d.tree) == JNumber([0x30]) {
      ZeroAt([u, 0x30], d);
    }
  }

  lemma BlankAfter(u: Unit)
    ensures Reads([0x30, u], JNumber([0x30])) <==> IsSpace(u)
  {
    hide ReadDocument;
    ReadsTree([0x30, u], JNumber([0x30]));
    if IsSpace(u) {
      var d := Document([], Number([0x30]), [u]);
      assert PrintDocument(d) == [0x30, u];
    }
    if d :| WfDocument(d) && Distinct(d.tree) && [0x30, u] == PrintDocument(d) && ValueOf(d.tree) == JNumber([0x30]) {
      ZeroAt([0x30, u], d);
    }
  }

  lemma ZeroAt(text: Text, d: Document)
    requires |text| == 2 && WfDocument(d) && text == PrintDocument(d) && ValueOf(d.tree) == JNumber([0x30])
    ensures (text[0] == 0x30 && IsSpace(text[1])) || (text[1] == 0x30 && IsSpace(text[0]))
  {
    assert text == d.before + ([0x30] + d.after);
    assert |d.before| + |d.after| == 1;
    if |d.before| == 1 {
      assert text[0] == d.before[0] && text[1] == 0x30;
    } else {
      assert text[1] == d.after[0] && text[0] == 0x30;
    }
  }

  /** Blanks around a text that is read change nothing. */
  lemma BlanksAround(before: Text, text: Text, after: Text, v: Json)
    requires AllSpace(before) && AllSpace(after) && Reads(text, v)
    ensures Reads(before + text + after, v)
  {
    hide ReadDocument;
    ReadsTree(text, v);
    var d :| WfDocument(d) && Distinct(d.tree) && text == PrintDocument(d) && ValueOf(d.tree) == v;
    var wide := Document(before + d.before, d.tree, d.after + after);
    PrintApart(d.tree, d.after);
    PrintApart(d.tree, d.after + after);
    AroundBoth(before, d.before, Print(d.tree, []), d.after, after);
    hide Print;
    assert PrintDocument(wide) == before + text + after;
    ReadsTree(before + text + after, v);
  }

  lemma AroundBoth(a: Text, b: Text, c: Text, d: Text, e: Text)
    ensures a + (b + (c + d)) + e == a + b + (c + (d + e))
  {
  }

  // ---------------------------------------------------------------- arrays

  /** The texts with commas between them. */
  function Commas(texts: seq<Text>): Text
    requires texts != []
  {
    if |texts| == 1 then texts[0] else texts[0] + [',' as int] + Commas(texts[1..])
  }

  lemma Joined3(a: Text, b: Text, c: Text)
    ensures a + b + c == a + (b + c)
  {
  }

  /** What a printer is given to follow a tree, follows it. */
  lemma {:induction false} PrintApart(t: Tree, rest: Text)
    ensures Print(t, rest) == Print(t, []) + rest
    decreases t
  {
    match t
    case Literal(word) => assert WordText(word) + [] == WordText(word);
    case Number(lexeme) => assert lexeme + [] == lexeme;
    case Str(parts) =>
      PartsApart(parts, rest);
      PartsApart(parts, []);
    case EmptyArray(inner) =>
    case Array(elems) => ElemsApart(elems, rest);
    case EmptyObject(inner) =>
    case Object(members) => MembersApart(members, rest);
  }

  lemma {:induction false} ElemsApart(es: seq<Elem>, rest: Text)
    ensures PrintElems(es, rest) == PrintElems(es, []) + rest
    decreases es
  {
    if es != [] {
      var tail, bare := ElemsTail(es, rest), ElemsTail(es, []);
      if |es| > 1 {
        ElemsApart(es[1..], rest);
        Joined3([COMMA], PrintElems(es[1..], []), rest);
      }
      assert tail == bare + rest;
      PrintApart(es[0].tree, es[0].after + tail);
      PrintApart(es[0].tree, es[0].after + bare);
      FourParts(es[0].before, Print(es[0].tree, []), es[0].after, bare, rest);
    }
  }

  lemma FourParts(a: Text, b: Text, c: Text, d: Text, e: Text)
    ensures a + (b + (c + (d + e))) == a + (b + (c + d)) + e
  {
    assert c + (d + e) == (c + d) + e;
    assert b + ((c + d) + e) == (b + (c + d)) + e;
  }

  lemma {:induction false} MembersApart(ms: seq<Member>, rest: Text)
    ensures PrintMembers(ms, rest) == PrintMembers(ms, []) + rest
    decreases ms
  {
    if ms != [] {
      var tail, bare := MembersTail(ms, rest), MembersTail(ms, []);
      if |ms| > 1 {
        MembersApart(ms[1..], rest);
        Joined3([COMMA], PrintMembers(ms[1..], []), rest);
      }
      assert tail == bare + rest;
      EntryApart(ms[0].entry, ms[0].after + tail);
      EntryApart(ms[0].entry, ms[0].after + bare);
      FourParts([], PrintEntry(ms[0].entry, []), ms[0].after, bare, rest);
      assert ms[0].after + tail == ms[0].after + (bare + rest);
    }
  }

  /** The text of a key with the blanks around it, and that of a value with those around it. */
  function KeyText(e: Entry): Text {
    e.before + ([QUOTE] + PrintParts(e.key, e.afterKey))
  }

  lemma EntryApart(e: Entry, rest: Text)
    ensures PrintEntry(e, rest) == PrintEntry(e, []) + rest
    ensures PrintEntry(e, rest) == KeyText(e) + [COLON] + (e.afterColon + (Print(e.tree, []) + rest))
    decreases e, 0
  {
    hide Print;
    PrintApart(e.tree, rest);
    KeyApart(e, e.afterColon + Print(e.tree, rest));
    KeyApart(e, e.afterColon + Print(e.tree, []));
    FourParts([], KeyText(e) + [COLON], e.afterColon, Print(e.tree, []), rest);
    assert e.afterColon + (Print(e.tree, []) + rest) == e.afterColon + Print(e.tree, rest);
  }

  lemma KeyApart(e: Entry, rest: Text)
    ensures e.before + PrintKey(e.key, e.afterKey, rest) == KeyText(e) + [COLON] + rest
  {
    var tail := e.afterKey + ([COLON] + rest);
    PartsApart(e.key, tail);
    PartsApart(e.key, e.afterKey);
    var body := PartsText(e.key);
    assert body + ([QUOTE] + tail) == body + ([QUOTE] + e.afterKey) + ([COLON] + rest);
    assert e.before + ([QUOTE] + (body + ([QUOTE] + tail))) == e.before + ([QUOTE] + (body + ([QUOTE] + e.afterKey))) + [COLON] + rest;
  }

  /** The text of an element, and of an entry's value, with the blanks around it. */
  function ElemText(e: Elem): Text {
    e.before + Print(e.tree, []) + e.after
  }

  function ElemTexts(es: seq<Elem>): seq<Text> {
    seq(|es|, i requires 0 <= i < |es| => ElemText(es[i]))
  }

  lemma ElemApart(e: Elem, tail: Text)
    ensures e.before + Print(e.tree, e.after + tail) == ElemText(e) + tail
  {
    PrintApart(e.tree, e.after + tail);
    hide Print;
    FourParts([], e.before + Print(e.tree, []), e.after, tail, []);
    assert e.before + (Print(e.tree, []) + (e.after + tail)) == e.before + Print(e.tree, []) + e.after + tail;
  }

  lemma {:induction false} ElemsCommas(es: seq<Elem>)
    requires es != []
    ensures PrintElems(es, []) == Commas(ElemTexts(es)) + [RBRACKET]
  {
    hide Print;
    hide ElemText;
    var tail := ElemsTail(es, []);
    ElemApart(es[0], tail);
    if |es| > 1 {
      ElemsCommas(es[1..]);
      assert ElemTexts(es)[1..] == ElemTexts(es[1..]);
      CommasThen(ElemTexts(es), [RBRACKET]);
    }
  }

  /** The documents that the elements are, blanks included. */
  function ElemDocument(e: Elem): Document {
    Document(e.before, e.tree, e.after)
  }

  lemma ElemReads(e: Elem)
    requires AllSpace(e.before) && Wf(e.tree) && AllSpace(e.after)
    ensures if Distinct(e.tree) then Reads(ElemText(e), ValueOf(e.tree)) else ReadDocument(ElemText(e)) == None
  {
    PrintApart(e.tree, e.after);
    Joined3(e.before, Print(e.tree, []), e.after);
    DocumentExact(ElemText(e), ElemDocument(e));
  }

  lemma {:induction false} ElemValuesAre(es: seq<Elem>)
    ensures |ElemValues(es)| == |es| && forall i :: 0 <= i < |es| ==> ElemValues(es)[i] == ValueOf(es[i].tree)
    ensures DistinctElems(es) <==> forall i :: 0 <= i < |es| ==> Distinct(es[i].tree)
  {
    hide ValueOf;
    hide Distinct;
    if es != [] {
      ElemValuesAre(es[1..]);
      assert forall i :: 1 <= i < |es| ==> es[i] == es[1..][i - 1];
    }
  }

  /** The texts of an array's elements. */
  ghost predicate ElementsRead(texts: seq<Text>, vs: seq<Json>) {
    |texts| == |vs| && forall i :: 0 <= i < |vs| ==> Reads(texts[i], vs[i])
  }

  function Bracketed(open: Unit, before: Text, body: Text, close: Unit, after: Text): Text {
    before + ([open] + (body + ([close] + after)))
  }

  lemma ElemReadFrom(text: Text, v: Json) returns (e: Elem)
    requires Reads(text, v)
    ensures AllSpace(e.before) && Wf(e.tree) && AllSpace(e.after) && Distinct(e.tree) && ValueOf(e.tree) == v && ElemText(e) == text
  {
    hide ReadDocument;
    ReadsTree(text, v);
    var d :| WfDocument(d) && Distinct(d.tree) && text == PrintDocument(d) && ValueOf(d.tree) == v;
    PrintApart(d.tree, d.after);
    hide Print;
    Joined3(d.before, Print(d.tree, []), d.after);
    e := Elem(d.before, d.tree, d.after);
  }

  lemma ElemsReadFrom(texts: seq<Text>, vs: seq<Json>) returns (es: seq<Elem>)
    requires ElementsRead(texts, vs)
    ensures WfElems(es) && DistinctElems(es) && ElemValues(es) == vs
    ensures texts == ElemTexts(es)
  {
    hide ReadDocument;
    hide Wf;
    hide Distinct;
    hide ValueOf;
    hide ElemText;
    hide AllSpace;
    es := [];
    for k := 0 to |texts|
      invariant |es| == k && WfElems(es)
      invariant forall i :: 0 <= i < k ==> ElemText(es[i]) == texts[i] && ValueOf(es[i].tree) == vs[i] && Distinct(es[i].tree)
    {
      var e := ElemReadFrom(texts[k], vs[k]);
      es := es + [e];
    }
    ElemValuesAre(es);
  }

  lemma ArrayReads(texts: seq<Text>, vs: seq<Json>, before: Text, after: Text)
    requires texts != [] && ElementsRead(texts, vs) && AllSpace(before) && AllSpace(after)
    ensures Reads(Bracketed('[' as int, before, Commas(texts), ']' as int, after), JArray(vs))
  {
    hide ReadDocument;
    hide ElementsRead;
    hide WfElems;
    var es := ElemsReadFrom(texts, vs);
    var d := Document(before, Array(es), after);
    ElemsCommas(es);
    ElemsApart(es, after);
    assert Commas(texts) + [RBRACKET] + after == Commas(texts) + ([RBRACKET] + after);
    ReadsTree(PrintDocument(d), JArray(vs));
  }

  /** A bracket, the texts with commas between them, or only blanks, and a bracket. */
  ghost predicate ArrayAround(text: Text, vs: seq<Json>, texts: seq<Text>, before: Text, body: Text, after: Text) {
    && AllSpace(before) && AllSpace(after) && text == Bracketed('[' as int, before, body, ']' as int, after)
    && ElementsRead(texts, vs) && if texts == [] then AllSpace(body) else body == Commas(texts)
  }

  ghost predicate ArrayText(text: Text, vs: seq<Json>) {
    exists texts, before, body, after :: ArrayAround(text, vs, texts, before, body, after)
  }

  lemma AllElemsRead(es: seq<Elem>) returns (texts: seq<Text>)
    requires WfElems(es) && DistinctElems(es)
    ensures texts == ElemTexts(es) && ElementsRead(texts, ElemValues(es))
  {
    hide ReadDocument;
    hide Wf;
    hide Distinct;
    hide ElemText;
    texts := ElemTexts(es);
    ElemValuesAre(es);
    forall i | 0 <= i < |es|
      ensures Reads(texts[i], ElemValues(es)[i])
    {
      ElemReads(es[i]);
    }
  }

  lemma ArrayRead(text: Text, vs: seq<Json>)
    requires Reads(text, JArray(vs))
    ensures ArrayText(text, vs)
  {
    hide ReadDocument;
    hide ElementsRead;
    ReadsTree(text, JArray(vs));
    var d :| WfDocument(d) && Distinct(d.tree) && text == PrintDocument(d) && ValueOf(d.tree) == JArray(vs);
    if d.tree.EmptyArray? {
      assert ElementsRead([], []) by {
        NothingRead();
      }
      assert ArrayAround(text, vs, [], d.before, d.tree.inner, d.after);
    } else {
      var es := d.tree.elems;
      var texts := AllElemsRead(es);
      ElemsCommas(es);
      ElemsApart(es, d.after);
      Joined3(Commas(texts), [RBRACKET], d.after);
      assert ArrayAround(text, vs, texts, d.before, Commas(texts), d.after);
    }
  }

  lemma NothingRead()
    ensures ElementsRead([], [])
  {
  }

  /** A text is read as an array exactly when it is a bracket, the texts that are read as its
      elements with commas between them, and a bracket, with blanks around. */
  lemma ArrayMeaning(text: Text, vs: seq<Json>)
    ensures Reads(text, JArray(vs)) <==> ArrayText(text, vs)
  {
    hide ReadDocument;
    hide ElementsRead;
    if Reads(text, JArray(vs)) {
      ArrayRead(text, vs);
    }
    if texts, before, body, after :| ArrayAround(text, vs, texts, before, body, after) {
      if texts == [] {
        EmptyArrayReads(before, body, after);
        assert vs == [] by {
          assert ElementsRead(texts, vs);
          NothingElse(vs);
        }
      } else {
        ArrayReads(texts, vs, before, after);
      }
    }
  }

  lemma NothingElse(vs: seq<Json>)
    requires ElementsRead([], vs)
    ensures vs == []
  {
  }

  lemma EmptyArrayReads(before: Text, body: Text, after: Text)
    requires AllSpace(before) && AllSpace(body) && AllSpace(after)
    ensures Reads(Bracketed('[' as int, before, body, ']' as int, after), JArray([]))
  {
    hide ReadDocument;
    var d := Document(before, EmptyArray(body), after);
    ReadsTree(PrintDocument(d), JArray([]));
  }

  // ---------------------------------------------------------------- objects

  function EntryText(key: Text, value: Text): Text {
    key + [':' as int] + value
  }

  function EntryTexts(keys: seq<Text>, values: seq<Text>): (r: seq<Text>)
    requires |keys| == |values|
    ensures |r| == |keys|
  {
    seq(|keys|, i requires 0 <= i < |keys| => EntryText(keys[i], values[i]))
  }

  function MemberKey(m: Member): Text {
    KeyText(m.entry)
  }

  function MemberValue(m: Member): Text {
    m.entry.afterColon + Print(m.entry.tree, []) + m.after
  }

  function MemberKeys(ms: seq<Member>): seq<Text> {
    seq(|ms|, i requires 0 <= i < |ms| => MemberKey(ms[i]))
  }

  function MemberTexts(ms: seq<Member>): seq<Text> {
    seq(|ms|, i requires 0 <= i < |ms| => MemberValue(ms[i]))
  }

  lemma MemberApart(m: Member, rest: Text)
    ensures PrintEntry(m.entry, m.after + rest) == EntryText(MemberKey(m), MemberValue(m)) + rest
  {
    hide Print;
    hide KeyText;
    EntryApart(m.entry, m.after + rest);
    var t := Print(m.entry.tree, []);
    assert m.entry.afterColon + (t + (m.after + rest)) == (m.entry.afterColon + t + m.after) + rest;
    Joined3(KeyText(m.entry) + [COLON], MemberValue(m), rest);
  }

  lemma {:induction false} MembersCommas(ms: seq<Member>)
    requires ms != []
    ensures PrintMembers(ms, []) == Commas(EntryTexts(MemberKeys(ms), MemberTexts(ms))) + [RBRACE]
  {
    hide Print;
    hide MemberKey;
    hide MemberValue;
    var texts := EntryTexts(MemberKeys(ms), MemberTexts(ms));
    var tail := MembersTail(ms, []);
    MemberApart(ms[0], tail);
    if |ms| > 1 {
      MembersCommas(ms[1..]);
      assert texts[1..] == EntryTexts(MemberKeys(ms[1..]), MemberTexts(ms[1..]));
      CommasThen(texts, [RBRACE]);
    }
  }

  lemma CommasThen(texts: seq<Text>, rest: Text)
    requires |texts| > 1
    ensures Commas(texts) + rest == texts[0] + ([',' as int] + (Commas(texts[1..]) + rest))
  {
  }

  /** The key's text is read as a string and the value's as a value. */
  lemma MemberReads(m: Member)
    requires WfEntry(m.entry) && AllSpace(m.after)
    ensures Reads(MemberKey(m), JString(KeyOf(m)))
    ensures Distinct(m.entry.tree) ==> Reads(MemberValue(m), ValueOf(m.entry.tree))
  {
    hide ReadDocument;
    var e := m.entry;
    ReadsTree(MemberKey(m), JString(KeyOf(m)));
    var k := Document(e.before, Str(e.key), e.afterKey);
    assert PrintDocument(k) == MemberKey(m) && WfDocument(k) && Distinct(k.tree);
    if Distinct(e.tree) {
      ElemReads(Elem(e.afterColon, e.tree, m.after));
    }
  }

  ghost predicate MembersRead(keys: seq<Text>, values: seq<Text>, names: seq<Text>, vs: seq<Json>) {
    |keys| == |values| == |names| == |vs| && forall i :: 0 <= i < |keys| ==> Reads(keys[i], JString(names[i])) && Reads(values[i], vs[i])
  }

  ghost predicate MapsTo(m: map<Text, Json>, names: seq<Text>, vs: seq<Json>) {
    && |names| == |vs| && (forall i :: 0 <= i < |names| ==> names[i] in m && m[names[i]] == vs[i])
    && forall k :: k in m ==> exists i :: 0 <= i < |names| && names[i] == k
  }

  ghost predicate NoneRepeated(names: seq<Text>) {
    forall i, j :: 0 <= i < j < |names| ==> names[i] != names[j]
  }

  /** A member whose key and value are written so. */
  lemma MemberReadFrom(key: Text, value: Text, name: Text, v: Json) returns (m: Member)
    requires Reads(key, JString(name)) && Reads(value, v)
    ensures WfEntry(m.entry) && AllSpace(m.after) && MemberKey(m) == key && MemberValue(m) == value
    ensures KeyOf(m) == name && ValueOf(m.entry.tree) == v && Distinct(m.entry.tree)
  {
    hide ReadDocument;
    ReadsTree(key, JString(name));
    ReadsTree(value, v);
    var k :| WfDocument(k) && Distinct(k.tree) && key == PrintDocument(k) && ValueOf(k.tree) == JString(name);
    var d :| WfDocument(d) && Distinct(d.tree) && value == PrintDocument(d) && ValueOf(d.tree) == v;
    m := Member(Entry(k.before, k.tree.parts, k.after, d.before, d.tree), d.after);
    PrintApart(d.tree, d.after);
    Joined3(d.before, Print(d.tree, []), d.after);
  }

  lemma MembersReadFrom(keys: seq<Text>, values: seq<Text>, names: seq<Text>, vs: seq<Json>) returns (ms: seq<Member>)
    requires MembersRead(keys, values, names, vs)
    ensures |ms| == |keys| && WfMembers(ms) && MemberKeys(ms) == keys && MemberTexts(ms) == values
    ensures forall i :: 0 <= i < |ms| ==> KeyOf(ms[i]) == names[i] && ValueOf(ms[i].entry.tree) == vs[i] && Distinct(ms[i].entry.tree)
  {
    hide ReadDocument;
    hide MemberKey;
    hide MemberValue;
    hide ValueOf;
    hide Distinct;
    hide KeyOf;
    hide WfEntry;
    ms := [];
    for k := 0 to |keys|
      invariant |ms| == k && WfMembers(ms)
      invariant forall i :: 0 <= i < k ==> MemberKey(ms[i]) == keys[i] && MemberValue(ms[i]) == values[i]
      invariant forall i :: 0 <= i < k ==> KeyOf(ms[i]) == names[i] && ValueOf(ms[i].entry.tree) == vs[i] && Distinct(ms[i].entry.tree)
    {
      var m := MemberReadFrom(keys[k], values[k], names[k], vs[k]);
      ms := ms + [m];
    }
  }

  lemma MembersMap(ms: seq<Member>, names: seq<Text>, vs: seq<Json>)
    requires |ms| == |names| == |vs|
    requires forall i :: 0 <= i < |ms| ==> KeyOf(ms[i]) == names[i] && ValueOf(ms[i].entry.tree) == vs[i] && Distinct(ms[i].entry.tree)
    ensures DistinctMembers(ms) <==> NoneRepeated(names)
    ensures DistinctMembers(ms) ==> MapsTo(MemberValues(ms), names, vs)
  {
    hide KeyOf;
    hide ValueOf;
    hide Distinct;
    DistinctMeansDistinct(ms);
  }

  /** A brace, the texts of keys and values with a colon and commas between them, or only
      blanks, and a brace. */
  ghost predicate ObjectAround(text: Text, m: map<Text, Json>, keys: seq<Text>, values: seq<Text>, names: seq<Text>, vs: seq<Json>,
                               before: Text, body: Text, after: Text) {
    && AllSpace(before) && AllSpace(after) && text == Bracketed('{' as int, before, body, '}' as int, after)
    && MembersRead(keys, values, names, vs) && NoneRepeated(names) && MapsTo(m, names, vs)
    && if keys == [] then AllSpace(body) else body == Commas(EntryTexts(keys, values))
  }

  ghost predicate ObjectText(text: Text, m: map<Text, Json>) {
    exists keys, values, names, vs, before, body, after :: ObjectAround(text, m, keys, values, names, vs, before, body, after)
  }

  lemma ObjectReads(keys: seq<Text>, values: seq<Text>, names: seq<Text>, vs: seq<Json>, before: Text, after: Text)
    requires keys != [] && MembersRead(keys, values, names, vs) && AllSpace(before) && AllSpace(after)
    ensures var text := Bracketed('{' as int, before, Commas(EntryTexts(keys, values)), '}' as int, after);
            if NoneRepeated(names) then forall m :: MapsTo(m, names, vs) ==> Reads(text, JObject(m)) else ReadDocument(text) == None
  {
    hide MembersRead;
    hide WfMembers;
    hide KeyOf;
    hide ValueOf;
    hide NoneRepeated;
    hide MapsTo;
    hide EntryTexts;
    hide MemberKeys;
    hide MemberTexts;
    assert |keys| == |values| by {
      SameCounts(keys, values, names, vs);
    }
    var ms := MembersReadFrom(keys, values, names, vs);
    SameCounts(keys, values, names, vs);
    MembersMap(ms, names, vs);
    var d := Document(before, Object(ms), after);
    MembersCommas(ms);
    MembersApart(ms, after);
    Joined3(Commas(EntryTexts(keys, values)), [RBRACE], after);
    DocumentExact(PrintDocument(d), d);
    forall m | MapsTo(m, names, vs) && NoneRepeated(names)
      ensures Reads(PrintDocument(d), JObject(m))
    {
      SameMap(m, MemberValues(ms), names, vs);
      ObjectValue(ms);
    }
  }

  lemma ObjectValue(ms: seq<Member>)
    ensures ValueOf(Object(ms)) == JObject(MemberValues(ms))
  {
  }

  lemma SameCounts(keys: seq<Text>, values: seq<Text>, names: seq<Text>, vs: seq<Json>)
    requires MembersRead(keys, values, names, vs)
    ensures |keys| == |values| == |names| == |vs|
  {
  }

  lemma SameMap(m: map<Text, Json>, m': map<Text, Json>, names: seq<Text>, vs: seq<Json>)
    requires MapsTo(m, names, vs) && MapsTo(m', names, vs)
    ensures m == m'
  {
  }

  lemma AllMembersRead(ms: seq<Member>) returns (names: seq<Text>, vs: seq<Json>)
    requires WfMembers(ms) && DistinctMembers(ms)
    ensures MembersRead(MemberKeys(ms), MemberTexts(ms), names, vs) && NoneRepeated(names) && MapsTo(MemberValues(ms), names, vs)
  {
    hide ReadDocument;
    hide MemberKey;
    hide MemberValue;
    hide KeyOf;
    hide ValueOf;
    hide Distinct;
    hide WfEntry;
    names := seq(|ms|, i requires 0 <= i < |ms| => KeyOf(ms[i]));
    vs := seq(|ms|, i requires 0 <= i < |ms| => ValueOf(ms[i].entry.tree));
    DistinctMeansDistinct(ms);
    MembersMap(ms, names, vs);
    forall i | 0 <= i < |ms|
      ensures Reads(MemberKeys(ms)[i], JString(names[i])) && Reads(MemberTexts(ms)[i], vs[i])
    {
      MemberReads(ms[i]);
    }
  }

  lemma ObjectRead(text: Text, m: map<Text, Json>)
    requires Reads(text, JObject(m))
    ensures ObjectText(text, m)
  {
    hide ReadDocument;
    hide MembersRead;
    hide NoneRepeated;
    hide MapsTo;
    ReadsTree(text, JObject(m));
    var d :| WfDocument(d) && Distinct(d.tree) && text == PrintDocument(d) && ValueOf(d.tree) == JObject(m);
    if d.tree.EmptyObject? {
      NoMembersRead();
      assert ObjectAround(text, m, [], [], [], [], d.before, d.tree.inner, d.after);
    } else {
      var ms := d.tree.members;
      var names, vs := AllMembersRead(ms);
      MembersCommas(ms);
      MembersApart(ms, d.after);
      Joined3(Commas(EntryTexts(MemberKeys(ms), MemberTexts(ms))), [RBRACE], d.after);
      assert ObjectAround(text, m, MemberKeys(ms), MemberTexts(ms), names, vs, d.before, Commas(EntryTexts(MemberKeys(ms), MemberTexts(ms))), d.after);
    }
  }

  lemma NoMembersRead()
    ensures MembersRead([], [], [], []) && NoneRepeated([]) && MapsTo(map[], [], [])
  {
  }

  lemma EmptyObjectReads(before: Text, body: Text, after: Text)
    requires AllSpace(before) && AllSpace(body) && AllSpace(after)
    ensures Reads(Bracketed('{' as int, before, body, '}' as int, after), JObject(map[]))
  {
    hide ReadDocument;
    var d := Document(before, EmptyObject(body), after);
    ReadsTree(PrintDocument(d), JObject(map[]));
  }

  /** A text is read as an object exactly when it is a brace, texts that are read as its keys
      and values with colons and commas between them, no key twice, and a brace. */
  lemma ObjectMeaning(text: Text, m: map<Text, Json>)
    ensures Reads(text, JObject(m)) <==> ObjectText(text, m)
  {
    hide ReadDocument;
    hide MembersRead;
    hide NoneRepeated;
    hide MapsTo;
    if Reads(text, JObject(m)) {
      ObjectRead(text, m);
    }
    if keys, values, names, vs, before, body, after :| ObjectAround(text, m, keys, values, names, vs, before, body, after) {
      SameCounts(keys, values, names, vs);
      if keys == [] {
        NoMembersRead();
        SameMap(m, map[], names, vs);
        EmptyObjectReads(before, body, after);
      } else {
        ObjectReads(keys, values, names, vs, before, after);
      }
    }
  }
}
