/** Printer and grammar parser undo each other, in both directions. */
module JsonRoundTrip {
  import opened Prelude
  import opened JsonSyntax

  // ---------------------------------------------------------------- parsing, then printing

  lemma SpacesAndTrim(s: Text)
    ensures s == Spaces(s) + Trim(s) && AllSpace(Spaces(s))
    ensures Trim(s) != [] ==> !IsSpace(Trim(s)[0])
  {
  }

  lemma Cons(s: Text)
    requires s != []
    ensures s == [s[0]] + s[1..]
  {
  }

  lemma {:induction false} PartsSound(s: Text)
    requires ParseParts(s).Done?
    ensures WfParts(ParseParts(s).value) && s == PrintParts(ParseParts(s).value, ParseParts(s).rest)
    decreases |s|
  {
    Cons(s);
    if s[0] != QUOTE {
      var head := ParsePart(s);
      var tail := ParseParts(head.rest);
      PartsSound(head.rest);
      assert ([head.value] + tail.value)[1..] == tail.value;
    }
  }

  ghost predicate NumberSplit(s: Text, i: nat, f: nat, e: nat) {
    i + f + e <= |s| && IntLength(s) == Some(i) && FracLength(s[i..]) == f && ExpLength(s[i + f..]) == e
  }

  lemma NumberParts(s: Text) returns (i: nat, f: nat, e: nat)
    requires NumberLength(s).Some?
    ensures NumberSplit(s, i, f, e) && NumberLength(s).value == i + f + e
  {
    i := IntLength(s).value;
    f := FracLength(s[i..]);
    e := ExpLength(s[i + f..]);
  }

  lemma NumberWhole(s: Text, i: nat, f: nat, e: nat)
    requires NumberSplit(s, i, f, e)
    ensures NumberLength(s) == Some(i + f + e)
  {
  }

  lemma NumberSound(s: Text)
    requires NumberLength(s).Some?
    ensures NumberLength(s[..NumberLength(s).value]) == NumberLength(s)
  {
    var i, f, e := NumberParts(s);
    var n := i + f + e;
    IntPrefix(s, n);
    assert s[..n][i..] == s[i..][..f + e];
    FracPrefix(s[i..], f + e);
    assert s[..n][i + f..] == s[i + f..][..e];
    ExpPrefix(s[i + f..]);
    NumberWhole(s[..n], i, f, e);
  }

  lemma {:induction false} DigitRunPrefix(s: Text, m: nat)
    requires DigitRun(s) <= m <= |s|
    ensures DigitRun(s[..m]) == DigitRun(s)
  {
    if s != [] && IsDigit(s[0]) {
      assert s[..m][1..] == s[1..][..m - 1];
      DigitRunPrefix(s[1..], m - 1);
    }
  }

  lemma IntPrefix(s: Text, m: nat)
    requires IntLength(s).Some? && IntLength(s).value <= m <= |s|
    ensures IntLength(s[..m]) == IntLength(s)
  {
    var o := if s != [] && s[0] == MINUS then 1 else 0;
    if s[o] != ZERO {
      assert s[..m][o..] == s[o..][..m - o];
      DigitRunPrefix(s[o..], m - o);
    }
  }

  lemma FracPrefix(s: Text, m: nat)
    requires FracLength(s) <= m <= |s| && (FracLength(s) == 0 ==> m > 0 ==> s[0] == LOWER_E || s[0] == UPPER_E)
    ensures FracLength(s[..m]) == FracLength(s)
  {
    if FracLength(s) > 0 {
      assert s[..m][1..] == s[1..][..m - 1];
      DigitRunPrefix(s[1..], m - 1);
    }
  }

  lemma ExpPrefix(s: Text)
    ensures ExpLength(s[..ExpLength(s)]) == ExpLength(s)
  {
    var n := ExpLength(s);
    if n > 0 {
      var o := if |s| > 1 && (s[1] == PLUS || s[1] == MINUS) then 2 else 1;
      assert s[..n][o..] == s[o..][..n - o];
      DigitRunPrefix(s[o..], n - o);
    }
  }

  ghost predicate SoundTree(s: Text, r: Parsed<Tree>) {
    r.Done? ==> Wf(r.value) && s == Print(r.value, r.rest)
  }

  ghost predicate SoundElems(s: Text, r: Parsed<seq<Elem>>) {
    r.Done? ==> r.value != [] && WfElems(r.value) && s == PrintElems(r.value, r.rest)
  }

  ghost predicate SoundMembers(s: Text, r: Parsed<seq<Member>>) {
    r.Done? ==> r.value != [] && WfMembers(r.value) && s == PrintMembers(r.value, r.rest)
  }

  lemma StringSound(s: Text)
    requires s != [] && s[0] == QUOTE
    ensures SoundTree(s, ParseString(s))
  {
    Cons(s);
    if ParseString(s).Done? {
      PartsSound(s[1..]);
    }
  }

  lemma NumberTreeSound(s: Text)
    ensures SoundTree(s, ParseNumber(s))
  {
    if ParseNumber(s).Done? {
      NumberSound(s);
    }
  }

  lemma WordSound(s: Text, w: Word)
    ensures SoundTree(s, ParseWord(s, w))
  {
  }

  lemma {:induction false} ArraySound(s: Text)
    requires s != [] && s[0] == LBRACKET
    ensures SoundTree(s, ParseArray(s))
    decreases |s|, 0
  {
    Cons(s);
    var body := Trim(s[1..]);
    SpacesAndTrim(s[1..]);
    if body != [] && body[0] == RBRACKET {
      Cons(body);
    } else {
      ElemsSound(s[1..]);
    }
  }

  lemma {:induction false} ObjectSound(s: Text)
    requires s != [] && s[0] == LBRACE
    ensures SoundTree(s, ParseObject(s))
    decreases |s|, 0
  {
    Cons(s);
    var body := Trim(s[1..]);
    SpacesAndTrim(s[1..]);
    if body != [] && body[0] == RBRACE {
      Cons(body);
    } else {
      MembersSound(s[1..]);
    }
  }

  /** Whatever the grammar parser reads is a well-formed tree, and printing the tree gives
      back exactly the text that was read. */
  lemma {:induction false} TreeSound(s: Text)
    ensures SoundTree(s, ParseTree(s))
    decreases |s|, 1
  {
    if s == [] {
    } else if s[0] == QUOTE {
      StringSound(s);
    } else if s[0] == LBRACE {
      ObjectSound(s);
    } else if s[0] == LBRACKET {
      ArraySound(s);
    } else {
      WordSound(s, True);
      WordSound(s, False);
      WordSound(s, Null);
      NumberTreeSound(s);
    }
  }

  lemma ElemsJoin(e: Elem, es: seq<Elem>, rest: Text)
    requires AllSpace(e.before) && Wf(e.tree) && AllSpace(e.after) && WfElems(es) && es != []
    ensures WfElems([e] + es)
    ensures PrintElems([e] + es, rest) == e.before + Print(e.tree, e.after + ([COMMA] + PrintElems(es, rest)))
  {
    assert ([e] + es)[1..] == es;
  }

  lemma {:induction false} ElemsSound(s: Text)
    ensures SoundElems(s, ParseElems(s))
    decreases |s|, 2
  {
    var v := ParseTree(Trim(s));
    TreeSound(Trim(s));
    SpacesAndTrim(s);
    if v.Done? {
      SpacesAndTrim(v.rest);
      MoreElemsSound(Elem(Spaces(s), v.value, Spaces(v.rest)), Trim(v.rest));
    }
  }

  lemma {:induction false} MoreElemsSound(e: Elem, next: Text)
    requires AllSpace(e.before) && Wf(e.tree) && AllSpace(e.after)
    ensures SoundElems(e.before + Print(e.tree, e.after + next), MoreElems(e, next))
    decreases |next|, 3
  {
    if next != [] {
      Cons(next);
      ElemsSound(next[1..]);
      var tail := ParseElems(next[1..]);
      if tail.Done? {
        ElemsJoin(e, tail.value, tail.rest);
      }
    }
  }

  lemma KeySound(s: Text)
    requires ParseKey(s).Done?
    ensures var k := ParseKey(s);
            WfParts(k.value.0) && AllSpace(k.value.1) && s == PrintKey(k.value.0, k.value.1, k.rest)
  {
    Cons(s);
    var key := ParseParts(s[1..]);
    PartsSound(s[1..]);
    SpacesAndTrim(key.rest);
    Cons(Trim(key.rest));
  }

  ghost predicate SoundEntry(s: Text, r: Parsed<Entry>) {
    r.Done? ==> WfEntry(r.value) && s == PrintEntry(r.value, r.rest)
  }

  lemma {:induction false} EntrySound(s: Text)
    ensures SoundEntry(s, ParseEntry(s))
    decreases |s|, 2
  {
    var key := ParseKey(Trim(s));
    SpacesAndTrim(s);
    if key.Done? {
      KeySound(Trim(s));
      SpacesAndTrim(key.rest);
      TreeSound(Trim(key.rest));
    }
  }

  lemma MembersJoin(m: Member, ms: seq<Member>, rest: Text)
    requires WfEntry(m.entry) && AllSpace(m.after) && WfMembers(ms) && ms != []
    ensures WfMembers([m] + ms)
    ensures PrintMembers([m] + ms, rest) == PrintEntry(m.entry, m.after + ([COMMA] + PrintMembers(ms, rest)))
  {
    assert ([m] + ms)[1..] == ms;
  }

  lemma {:induction false} MembersSound(s: Text)
    ensures SoundMembers(s, ParseMembers(s))
    decreases |s|, 3
  {
    var e := ParseEntry(s);
    EntrySound(s);
    if e.Done? {
      SpacesAndTrim(e.rest);
      MoreMembersSound(Member(e.value, Spaces(e.rest)), Trim(e.rest));
    }
  }

  lemma {:induction false} MoreMembersSound(m: Member, next: Text)
    requires WfEntry(m.entry) && AllSpace(m.after)
    ensures SoundMembers(PrintEntry(m.entry, m.after + next), MoreMembers(m, next))
    decreases |next|, 4
  {
    if next != [] {
      Cons(next);
      MembersSound(next[1..]);
      var tail := ParseMembers(next[1..]);
      if tail.Done? {
        MembersJoin(m, tail.value, tail.rest);
      }
    }
  }

  // ---------------------------------------------------------------- printing, then parsing

  /** No prefix of the text continues a number. */
  predicate Delimited(s: Text) {
    s == [] || !(IsDigit(s[0]) || s[0] == DOT || s[0] == LOWER_E || s[0] == UPPER_E)
  }

  lemma {:induction false} DigitRunExtend(s: Text, rest: Text)
    requires rest == [] || !IsDigit(rest[0]) || DigitRun(s) < |s|
    ensures DigitRun(s + rest) == DigitRun(s)
  {
    if s == [] {
      assert s + rest == rest;
    } else if IsDigit(s[0]) {
      assert (s + rest)[1..] == s[1..] + rest;
      DigitRunExtend(s[1..], rest);
    }
  }

  lemma IntExtend(s: Text, rest: Text)
    requires IntLength(s).Some? && (Delimited(rest) || IntLength(s).value < |s|)
    ensures IntLength(s + rest) == IntLength(s)
  {
    var o := if s != [] && s[0] == MINUS then 1 else 0;
    if s[o] != ZERO {
      assert (s + rest)[o..] == s[o..] + rest;
      DigitRunExtend(s[o..], rest);
    }
  }

  lemma FracExtend(s: Text, rest: Text)
    requires Delimited(rest) && (s != [] && s[0] == DOT ==> FracLength(s) > 0)
    ensures FracLength(s + rest) == FracLength(s)
  {
    if s == [] {
      assert s + rest == rest;
    } else if s[0] == DOT {
      assert (s + rest)[1..] == s[1..] + rest;
      DigitRunExtend(s[1..], rest);
    }
  }

  lemma ExpExtend(s: Text, rest: Text)
    requires Delimited(rest) && ExpLength(s) == |s|
    ensures ExpLength(s + rest) == |s|
  {
    if s == [] {
      assert s + rest == rest;
    } else {
      var o := if |s| > 1 && (s[1] == PLUS || s[1] == MINUS) then 2 else 1;
      assert (s + rest)[o..] == s[o..] + rest;
      DigitRunExtend(s[o..], rest);
    }
  }

  lemma NumberExtend(s: Text, rest: Text)
    requires NumberLength(s) == Some(|s|) && Delimited(rest)
    ensures NumberLength(s + rest) == Some(|s|)
  {
    hide IntLength;
    hide FracLength;
    hide ExpLength;
    hide DigitRun;
    hide NumberLength;
    var i, f, e := NumberParts(s);
    NoDotWithoutFraction(s, i, f, e);
    IntExtend(s, rest);
    assert (s + rest)[i..] == s[i..] + rest;
    FracExtend(s[i..], rest);
    assert (s + rest)[i + f..] == s[i + f..] + rest;
    ExpExtend(s[i + f..], rest);
    NumberWhole(s + rest, i, f, e);
  }

  lemma NoDotWithoutFraction(s: Text, i: nat, f: nat, e: nat)
    requires NumberSplit(s, i, f, e) && i + f + e == |s|
    ensures s[i..] != [] && s[i..][0] == DOT ==> f > 0
    ensures ExpLength(s[i + f..]) == |s[i + f..]|
  {
  }

  lemma Head(u: Unit, rest: Text)
    ensures ([u] + rest)[0] == u && ([u] + rest)[1..] == rest
  {
  }

  lemma {:induction false} PartsComplete(ps: seq<Part>, rest: Text)
    requires WfParts(ps)
    ensures ParseParts(PrintParts(ps, rest)) == Done(ps, rest)
  {
    if ps == [] {
      Head(QUOTE, rest);
    } else {
      PartsComplete(ps[1..], rest);
      PartComplete(ps[0], PrintParts(ps[1..], rest));
      assert ps == [ps[0]] + ps[1..];
    }
  }

  lemma PartComplete(p: Part, rest: Text)
    requires WfPart(p)
    ensures PrintPart(p, rest)[0] != QUOTE && ParsePart(PrintPart(p, rest)) == Done(p, rest)
  {
    assert PrintPart(p, rest)[|PrintPart(p, [])|..] == rest;
  }

  lemma {:induction false} SpaceThen(w: Text, s: Text)
    requires AllSpace(w) && (s == [] || !IsSpace(s[0]))
    ensures Spaces(w + s) == w && Trim(w + s) == s
  {
    if w == [] {
      assert w + s == s;
    } else {
      assert (w + s)[1..] == w[1..] + s;
      SpaceThen(w[1..], s);
      assert w == [w[0]] + w[1..];
    }
  }

  predicate StartsToken(s: Text) {
    s != [] && !IsSpace(s[0]) && s[0] != RBRACE && s[0] != RBRACKET
  }

  lemma PrintStartsToken(t: Tree, rest: Text)
    requires Wf(t)
    ensures StartsToken(Print(t, rest))
  {
  }

  lemma SpaceDelimits(w: Text, s: Text)
    requires AllSpace(w) && Delimited(s)
    ensures Delimited(w + s)
  {
  }

  lemma StringComplete(parts: seq<Part>, rest: Text)
    requires WfParts(parts)
    ensures ParseTree(Print(Str(parts), rest)) == Done(Str(parts), rest)
  {
    PartsComplete(parts, rest);
    Head(QUOTE, PrintParts(parts, rest));
  }

  lemma NumberComplete(lexeme: Text, rest: Text)
    requires NumberLength(lexeme) == Some(|lexeme|) && Delimited(rest)
    ensures ParseTree(lexeme + rest) == Done(Number(lexeme), rest)
  {
    hide IntLength;
    hide FracLength;
    hide ExpLength;
    hide NumberLength;
    NumberExtend(lexeme, rest);
    var s := lexeme + rest;
    assert s[..|lexeme|] == lexeme && s[|lexeme|..] == rest;
    NumberStart(lexeme);
  }

  lemma NumberStart(lexeme: Text)
    requires NumberLength(lexeme).Some?
    ensures lexeme[0] == MINUS || IsDigit(lexeme[0])
  {
  }

  lemma WordComplete(w: Word, rest: Text)
    ensures ParseTree(WordText(w) + rest) == Done(Literal(w), rest)
  {
    var s := WordText(w) + rest;
    assert s[..|WordText(w)|] == WordText(w) && s[|WordText(w)|..] == rest;
  }

  lemma EmptyComplete(inner: Text, rest: Text)
    requires AllSpace(inner)
    ensures ParseTree(Print(EmptyArray(inner), rest)) == Done(EmptyArray(inner), rest)
    ensures ParseTree(Print(EmptyObject(inner), rest)) == Done(EmptyObject(inner), rest)
  {
    Head(LBRACKET, inner + ([RBRACKET] + rest));
    SpaceThen(inner, [RBRACKET] + rest);
    Head(RBRACKET, rest);
    Head(LBRACE, inner + ([RBRACE] + rest));
    SpaceThen(inner, [RBRACE] + rest);
    Head(RBRACE, rest);
  }

  lemma Opens(s: Text)
    requires Trim(s) != []
    ensures Trim(s)[0] != RBRACKET && ParseElems(s).Done? ==>
              ParseTree([LBRACKET] + s) == Done(Array(ParseElems(s).value), ParseElems(s).rest)
    ensures Trim(s)[0] != RBRACE && ParseMembers(s).Done? ==>
              ParseTree([LBRACE] + s) == Done(Object(ParseMembers(s).value), ParseMembers(s).rest)
  {
    Head(LBRACKET, s);
    Head(LBRACE, s);
  }

  /** Every well-formed tree is read back from its text, and what follows is left over. */
  lemma {:induction false} TreeComplete(t: Tree, rest: Text)
    requires Wf(t) && Delimited(rest)
    ensures ParseTree(Print(t, rest)) == Done(t, rest)
    decreases t
  {
    match t {
      case Literal(word) => WordComplete(word, rest);
      case Number(lexeme) => NumberComplete(lexeme, rest);
      case Str(parts) => StringComplete(parts, rest);
      case EmptyArray(inner) => EmptyComplete(inner, rest);
      case Array(elems) =>
        ElemsComplete(elems, rest);
        Opens(PrintElems(elems, rest));
      case EmptyObject(inner) => EmptyComplete(inner, rest);
      case Object(members) =>
        MembersComplete(members, rest);
        Opens(PrintMembers(members, rest));
    }
  }

  lemma TailDelimits(es: seq<Elem>, ms: seq<Member>, rest: Text)
    ensures es != [] ==> Delimited(ElemsTail(es, rest)) && !IsSpace(ElemsTail(es, rest)[0])
    ensures ms != [] ==> Delimited(MembersTail(ms, rest)) && !IsSpace(MembersTail(ms, rest)[0])
  {
  }

  lemma {:induction false} ElemsComplete(es: seq<Elem>, rest: Text)
    requires es != [] && WfElems(es)
    ensures ParseElems(PrintElems(es, rest)) == Done(es, rest)
    ensures StartsToken(Trim(PrintElems(es, rest)))
    decreases es, 1
  {
    var e, next := es[0], ElemsTail(es, rest);
    var afterTree := e.after + next;
    PrintStartsToken(e.tree, afterTree);
    SpaceThen(e.before, Print(e.tree, afterTree));
    TailDelimits(es, [], rest);
    SpaceDelimits(e.after, next);
    TreeComplete(e.tree, afterTree);
    SpaceThen(e.after, next);
    MoreElemsComplete(es, rest);
  }

  lemma {:induction false} MoreElemsComplete(es: seq<Elem>, rest: Text)
    requires es != [] && WfElems(es)
    ensures MoreElems(es[0], ElemsTail(es, rest)) == Done(es, rest)
    decreases es, 0
  {
    if |es| == 1 {
      Head(RBRACKET, rest);
      assert es == [es[0]];
    } else {
      ElemsComplete(es[1..], rest);
      Head(COMMA, PrintElems(es[1..], rest));
      assert es == [es[0]] + es[1..];
    }
  }

  lemma KeyComplete(key: seq<Part>, w: Text, rest: Text)
    requires WfParts(key) && AllSpace(w)
    ensures ParseKey(PrintKey(key, w, rest)) == Done((key, w), rest)
    ensures StartsToken(PrintKey(key, w, rest))
  {
    var tail := w + ([COLON] + rest);
    Head(QUOTE, PrintParts(key, tail));
    PartsComplete(key, tail);
    SpaceThen(w, [COLON] + rest);
    Head(COLON, rest);
  }

  lemma {:induction false} EntryComplete(e: Entry, rest: Text)
    requires WfEntry(e) && Delimited(rest)
    ensures ParseEntry(PrintEntry(e, rest)) == Done(e, rest)
    ensures StartsToken(Trim(PrintEntry(e, rest)))
    decreases e
  {
    var value := Print(e.tree, rest);
    PrintStartsToken(e.tree, rest);
    KeyComplete(e.key, e.afterKey, e.afterColon + value);
    SpaceThen(e.before, PrintKey(e.key, e.afterKey, e.afterColon + value));
    SpaceThen(e.afterColon, value);
    TreeComplete(e.tree, rest);
  }

  lemma {:induction false} MembersComplete(ms: seq<Member>, rest: Text)
    requires ms != [] && WfMembers(ms)
    ensures ParseMembers(PrintMembers(ms, rest)) == Done(ms, rest)
    ensures StartsToken(Trim(PrintMembers(ms, rest)))
    decreases ms, 1
  {
    var m, next := ms[0], MembersTail(ms, rest);
    TailDelimits([], ms, rest);
    SpaceDelimits(m.after, next);
    EntryComplete(m.entry, m.after + next);
    SpaceThen(m.after, next);
    MoreMembersComplete(ms, rest);
  }

  lemma {:induction false} MoreMembersComplete(ms: seq<Member>, rest: Text)
    requires ms != [] && WfMembers(ms)
    ensures MoreMembers(ms[0], MembersTail(ms, rest)) == Done(ms, rest)
    decreases ms, 0
  {
    if |ms| == 1 {
      Head(RBRACE, rest);
      assert ms == [ms[0]];
    } else {
      MembersComplete(ms[1..], rest);
      Head(COMMA, PrintMembers(ms[1..], rest));
      assert ms == [ms[0]] + ms[1..];
    }
  }

  // ---------------------------------------------------------------- whole documents

  /** A text is a document exactly when it is the printing of one, and of one only. */
  lemma DocumentExact(s: Text, d: Document)
    ensures ParseDocument(s) == Some(d) <==> WfDocument(d) && s == PrintDocument(d)
  {
    if ParseDocument(s) == Some(d) {
      SpacesAndTrim(s);
      var v := ParseTree(Trim(s));
      TreeSound(Trim(s));
      SpacesAndTrim(v.rest);
      assert v.rest == Spaces(v.rest);
    }
    if WfDocument(d) && s == PrintDocument(d) {
      PrintStartsToken(d.tree, d.after);
      SpaceThen(d.before, Print(d.tree, d.after));
      TreeComplete(d.tree, d.after);
      SpaceThen(d.after, []);
      assert d.after + [] == d.after;
    }
  }

  lemma {:induction false} DecimalDigits(n: nat)
    ensures |Decimal(n)| > 0 && forall i :: 0 <= i < |Decimal(n)| ==> IsDigit(Decimal(n)[i])
    ensures Decimal(n)[0] == ZERO ==> n == 0
    ensures n >= 10 ==> Decimal(n)[0] != ZERO
  {
    if n >= 10 {
      DecimalDigits(n / 10);
    }
  }

  lemma {:induction false} AllDigits(s: Text)
    requires forall i :: 0 <= i < |s| ==> IsDigit(s[i])
    ensures DigitRun(s) == |s|
  {
    if s != [] {
      AllDigits(s[1..]);
    }
  }

  lemma DecimalIsNumber(n: nat)
    ensures NumberLength(Decimal(n)) == Some(|Decimal(n)|)
  {
    var s := Decimal(n);
    DecimalDigits(n);
    AllDigits(s);
    assert s[0..] == s;
    assert s[|s|..] == [];
  }
}
