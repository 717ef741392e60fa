/** What JSON.parse makes of a text, part by part: only four blanks, and a repeated key keeps
    its first place and its last value (scripts/analysis-report-consumer.js:19). */
module JsonParsing {
  import opened JsonMeaning
  import opened JsonRoundTrip
  import opened JsonSyntax
  import opened JsonValue
  import opened Prelude

  predicate Parses(text: Text, v: Value) {
    ParseJson(text) == Some(v)
  }

  /** A document with no other blanks than JSON's, and its value. */
  ghost predicate Holds(d: Document, v: Value) {
    WfDocument(d) && Blank(d.before) && Blanks(d.tree) && Blank(d.after) && ValueIn(d.tree) == v
  }

  lemma ParsesTree(text: Text, v: Value)
    ensures Parses(text, v) <==> exists d :: Holds(d, v) && text == PrintDocument(d)
  {
    if Parses(text, v) {
      DocumentExact(text, ParseDocument(text).value);
      assert Holds(ParseDocument(text).value, v);
    }
    if d :| Holds(d, v) && text == PrintDocument(d) {
      DocumentExact(text, d);
    }
  }

  // ---------------------------------------------------------------- scalars and blanks

  lemma StringParsed(s: Text, v: Text)
    ensures Parses([0x22] + s + [0x22], VString(v)) <==> Spells(s, v)
  {
    hide Spells;
    hide ParseJson;
    if Spells(s, v) {
      SpelledParses(s, v);
    }
    if Parses([0x22] + s + [0x22], VString(v)) {
      ParsedSpells(s, v);
    }
  }

  lemma SpelledParses(s: Text, v: Text)
    requires Spells(s, v)
    ensures Parses([0x22] + s + [0x22], VString(v))
  {
    hide Spells;
    hide ParseJson;
    hide WfParts;
    hide Unescaped;
    var text := [0x22] + s + [0x22];
    ParsesTree(text, VString(v));
    var ps := SpelledParts(s, v);
    PartsApart(ps, []);
    var d := Document([], Str(ps), []);
    assert Holds(d, VString(v)) && PrintDocument(d) == text;
  }

  lemma StringHeld(d: Document, v: Text)
    requires Holds(d, VString(v))
    ensures d.tree.Str? && WfDocument(d) && WfParts(d.tree.parts) && Unescaped(d.tree.parts) == v
  {
  }

  lemma ParsedSpells(s: Text, v: Text)
    requires Parses([0x22] + s + [0x22], VString(v))
    ensures Spells(s, v)
  {
    hide Spells;
    hide ParseJson;
    hide WfParts;
    hide Unescaped;
    hide Holds;
    hide WfDocument;
    hide PrintParts;
    hide PartsText;
    var text := [0x22] + s + [0x22];
    ParsesTree(text, VString(v));
    var d :| Holds(d, VString(v)) && text == PrintDocument(d);
    StringHeld(d, v);
    QuotedDocument(text, d);
    PartsApart(d.tree.parts, []);
    PartsSpell(d.tree.parts);
    assert s == text[1..|text| - 1] && PartsText(d.tree.parts) == text[1..|text| - 1];
  }

  lemma NumberParsed(s: Text)
    ensures Parses(s, VNumber(s)) <==> NumberText(s)
  {
    hide ParseJson;
    hide NumberLength;
    ParsesTree(s, VNumber(s));
    if NumberText(s) {
      NumberTextLength(s);
      var d := Document([], Number(s), []);
      assert s + [] == s && PrintDocument(d) == s && Holds(d, VNumber(s));
    }
    if d :| Holds(d, VNumber(s)) && s == PrintDocument(d) {
      NumberLengthText(s);
    }
  }

  lemma WordParsed(w: Word)
    ensures Parses(WordText(w), VWord(w))
  {
    hide ParseJson;
    ParsesTree(WordText(w), VWord(w));
    var d := Document([], Literal(w), []);
    assert PrintDocument(d) == WordText(w) && Holds(d, VWord(w));
  }

  /** JSON's blanks are the tab, the line feed, the carriage return and the space. */
  predicate JsonBlank(u: Unit) {
    u == 0x09 || u == 0x0A || u == 0x0D || u == 0x20
  }

  /** A document of a zero. */
  lemma ZeroHeld(d: Document)
    requires Holds(d, VNumber([0x30]))
    ensures Blank(d.before) && Blank(d.after) && PrintDocument(d) == d.before + ([0x30] + d.after)
  {
  }

  lemma ZeroParses(before: Text, after: Text)
    requires Blank(before) && Blank(after)
    ensures Parses(before + ([0x30] + after), VNumber([0x30]))
  {
    hide ParseJson;
    var d := Document(before, Number([0x30]), after);
    BlankIsSpace(before);
    BlankIsSpace(after);
    assert Holds(d, VNumber([0x30])) && PrintDocument(d) == before + ([0x30] + after);
    ParsesTree(PrintDocument(d), VNumber([0x30]));
  }

  lemma BlankBeforeParsed(u: Unit)
    ensures Parses([u, 0x30], VNumber([0x30])) <==> JsonBlank(u)
  {
    hide Parses;
    hide Holds;
    hide PrintDocument;
    var text := [u, 0x30];
    ParsesTree(text, VNumber([0x30]));
    if JsonBlank(u) {
      ZeroParses([u], []);
      assert text == [u] + ([0x30] + []);
    }
    if d :| Holds(d, VNumber([0x30])) && text == PrintDocument(d) {
      ZeroHeld(d);
      ZeroLength(text, d.before, d.after);
      LastBlank(text, d.before + [0x30], d.after);
      FirstBlank(text, d.before, [0x30] + d.after);
    }
  }

  lemma ZeroLength(text: Text, before: Text, after: Text)
    requires text == before + ([0x30] + after)
    ensures |text| == |before| + 1 + |after| && text == before + [0x30] + after
  {
  }

  lemma LastBlank(text: Text, rest: Text, after: Text)
    requires Blank(after) && text == rest + after && text != []
    ensures after == [] || JsonBlank(text[|text| - 1])
  {
    if after != [] {
      LastOf(rest, after);
    }
  }

  lemma FirstBlank(text: Text, before: Text, rest: Text)
    requires Blank(before) && text == before + rest && text != []
    ensures before == [] || JsonBlank(text[0])
  {
  }

  lemma BlankAfterParsed(u: Unit)
    ensures Parses([0x30, u], VNumber([0x30])) <==> JsonBlank(u)
  {
    hide Parses;
    hide Holds;
    hide PrintDocument;
    var text := [0x30, u];
    ParsesTree(text, VNumber([0x30]));
    if JsonBlank(u) {
      ZeroParses([], [u]);
      assert text == [] + ([0x30] + [u]);
    }
    if d :| Holds(d, VNumber([0x30])) && text == PrintDocument(d) {
      ZeroHeld(d);
      ZeroLength(text, d.before, d.after);
      LastBlank(text, d.before + [0x30], d.after);
      FirstBlank(text, d.before, [0x30] + d.after);
    }
  }

  lemma AroundParsed(before: Text, text: Text, after: Text, v: Value)
    requires Parses(text, v) && (forall i :: 0 <= i < |before| ==> JsonBlank(before[i])) && (forall i :: 0 <= i < |after| ==> JsonBlank(after[i]))
    ensures Parses(before + text + after, v)
  {
    hide ParseJson;
    ParsesTree(text, v);
    var d :| Holds(d, v) && text == PrintDocument(d);
    var wide := Document(before + d.before, d.tree, d.after + after);
    PrintApart(d.tree, d.after);
    PrintApart(d.tree, d.after + after);
    AroundBoth(before, d.before, Print(d.tree, []), d.after, after);
    hide Print;
    assert PrintDocument(wide) == before + text + after && Holds(wide, v);
    ParsesTree(before + text + after, v);
  }

  // ---------------------------------------------------------------- arrays

  ghost predicate ElementsParse(texts: seq<Text>, vs: seq<Value>) {
    |texts| == |vs| && forall i :: 0 <= i < |vs| ==> Parses(texts[i], vs[i])
  }

  /** An element of an array, with its value. */
  ghost predicate Held(e: Elem, v: Value) {
    AllSpace(e.before) && Wf(e.tree) && AllSpace(e.after) && Blank(e.before) && Blanks(e.tree) && Blank(e.after) && ValueIn(e.tree) == v
  }

  ghost predicate AllHeld(es: seq<Elem>, vs: seq<Value>) {
    |es| == |vs| && forall i :: 0 <= i < |es| ==> Held(es[i], vs[i])
  }

  lemma {:induction false} AllHeldMeans(es: seq<Elem>, vs: seq<Value>)
    ensures AllHeld(es, vs) <==> WfElems(es) && ElemBlanks(es) && ItemsIn(es) == vs
  {
    hide ValueIn;
    hide Wf;
    hide Blanks;
    hide Blank;
    hide AllSpace;
    if es != [] && vs != [] {
      AllHeldMeans(es[1..], vs[1..]);
      assert es == [es[0]] + es[1..] && vs == [vs[0]] + vs[1..];
      AllHeldCons(es, vs);
      WfElemsCons(es);
    } else if es != [] {
      assert ItemsIn(es) != [];
    }
  }

  lemma AllHeldCons(es: seq<Elem>, vs: seq<Value>)
    requires es != [] && vs != []
    ensures AllHeld(es, vs) <==> Held(es[0], vs[0]) && AllHeld(es[1..], vs[1..])
  {
    hide Held;
    if |es| == |vs| && Held(es[0], vs[0]) && AllHeld(es[1..], vs[1..]) {
      forall i | 0 <= i < |es|
        ensures Held(es[i], vs[i])
      {
        if i > 0 {
          assert Held(es[1..][i - 1], vs[1..][i - 1]);
        }
      }
    }
  }

  lemma WfElemsCons(es: seq<Elem>)
    requires es != []
    ensures WfElems(es) <==> AllSpace(es[0].before) && Wf(es[0].tree) && AllSpace(es[0].after) && WfElems(es[1..])
  {
    hide Wf;
    hide AllSpace;
    assert es == [es[0]] + es[1..];
    assert forall i :: 1 <= i < |es| ==> es[i] == es[1..][i - 1];
  }

  lemma HeldParses(e: Elem, v: Value)
    requires Held(e, v)
    ensures Parses(ElemText(e), v)
  {
    hide ParseJson;
    PrintApart(e.tree, e.after);
    Joined3(e.before, Print(e.tree, []), e.after);
    hide Print;
    assert Holds(ElemDocument(e), v) && PrintDocument(ElemDocument(e)) == ElemText(e);
    ParsesTree(ElemText(e), v);
  }

  lemma ParsedHeld(text: Text, v: Value) returns (e: Elem)
    requires Parses(text, v)
    ensures Held(e, v) && ElemText(e) == text
  {
    hide ParseJson;
    ParsesTree(text, v);
    var d :| Holds(d, v) && text == PrintDocument(d);
    PrintApart(d.tree, d.after);
    hide Print;
    Joined3(d.before, Print(d.tree, []), d.after);
    e := Elem(d.before, d.tree, d.after);
  }

  lemma ElementsHeld(texts: seq<Text>, vs: seq<Value>) returns (es: seq<Elem>)
    requires ElementsParse(texts, vs)
    ensures AllHeld(es, vs) && ElemTexts(es) == texts
  {
    hide Parses;
    hide Held;
    hide ElemText;
    es := [];
    for k := 0 to |texts|
      invariant |es| == k && forall i :: 0 <= i < k ==> Held(es[i], vs[i]) && ElemText(es[i]) == texts[i]
    {
      var e := ParsedHeld(texts[k], vs[k]);
      es := es + [e];
    }
  }

  ghost predicate ArrayIs(text: Text, vs: seq<Value>, texts: seq<Text>, before: Text, body: Text, after: Text) {
    && Blank(before) && Blank(after) && text == Bracketed('[' as int, before, body, ']' as int, after)
    && ElementsParse(texts, vs) && if texts == [] then Blank(body) else body == Commas(texts)
  }

  lemma ArrayHolds(texts: seq<Text>, vs: seq<Value>, before: Text, body: Text, after: Text) returns (d: Document)
    requires ArrayIs(Bracketed('[' as int, before, body, ']' as int, after), vs, texts, before, body, after) && texts != []
    ensures Holds(d, VArray(vs)) && PrintDocument(d) == Bracketed('[' as int, before, body, ']' as int, after)
  {
    hide Parses;
    hide Held;
    BlankIsSpace(before);
    BlankIsSpace(after);
    var es := ElementsHeld(texts, vs);
    d := Document(before, Array(es), after);
    AllHeldMeans(es, vs);
    ElemsCommas(es);
    ElemsApart(es, after);
    Joined3(Commas(texts), [RBRACKET], after);
  }

  lemma EmptyArrayHolds(before: Text, inner: Text, after: Text)
    requires Blank(before) && Blank(inner) && Blank(after)
    ensures Parses(Bracketed('[' as int, before, inner, ']' as int, after), VArray([]))
  {
    hide ParseJson;
    var d := Document(before, EmptyArray(inner), after);
    BlankIsSpace(before);
    BlankIsSpace(inner);
    BlankIsSpace(after);
    assert Holds(d, VArray([]));
    ParsesTree(PrintDocument(d), VArray([]));
  }

  lemma BlankIsSpace(w: Text)
    requires Blank(w)
    ensures AllSpace(w)
  {
  }

  /** A text is parsed as an array exactly when it is a bracket, texts that are parsed as its
      elements with commas between them, and a bracket, with JSON's blanks around. */
  lemma ArrayParsed(text: Text, vs: seq<Value>)
    ensures Parses(text, VArray(vs)) <==> exists texts, before, body, after :: ArrayIs(text, vs, texts, before, body, after)
  {
    hide ParseJson;
    hide ElementsParse;
    ParsesTree(text, VArray(vs));
    if d :| Holds(d, VArray(vs)) && text == PrintDocument(d) {
      ArrayHeld(text, vs, d);
    }
    if texts, before, body, after :| ArrayIs(text, vs, texts, before, body, after) {
      NoElements(texts, vs);
      if texts == [] {
        EmptyArrayHolds(before, body, after);
      } else {
        var d := ArrayHolds(texts, vs, before, body, after);
      }
    }
  }

  lemma NoElements(texts: seq<Text>, vs: seq<Value>)
    requires ElementsParse(texts, vs)
    ensures texts == [] <==> vs == []
  {
  }

  lemma ArrayHeld(text: Text, vs: seq<Value>, d: Document)
    requires Holds(d, VArray(vs)) && text == PrintDocument(d)
    ensures exists texts, before, body, after :: ArrayIs(text, vs, texts, before, body, after)
  {
    hide Parses;
    hide Held;
    if d.tree.EmptyArray? {
      assert ArrayIs(text, vs, [], d.before, d.tree.inner, d.after);
    } else {
      var es := d.tree.elems;
      var texts := ElemTexts(es);
      AllHeldMeans(es, vs);
      forall i | 0 <= i < |es|
        ensures Parses(texts[i], vs[i])
      {
        HeldParses(es[i], vs[i]);
      }
      ElemsCommas(es);
      ElemsApart(es, d.after);
      Joined3(Commas(texts), [RBRACKET], d.after);
      assert ArrayIs(text, vs, texts, d.before, Commas(texts), d.after);
    }
  }

  // ---------------------------------------------------------------- objects

  /** The fields are the names, each once, in the order of their first places and with the
      values of their last. */
  ghost predicate Kept(names: seq<Text>, vs: seq<Value>, fs: seq<Field>)
    requires |names| == |vs|
  {
    && (forall i :: 0 <= i < |names| ==> names[i] in KeySet(fs))
    && (forall k :: 0 <= k < |fs| ==> HasLast(names, vs, fs[k]))
    && forall k, l :: 0 <= k < l < |fs| ==> Sooner(names, fs[k].key, fs[l].key)
  }

  /** The value is that of the last place of the name. */
  ghost predicate HasLast(names: seq<Text>, vs: seq<Value>, f: Field)
    requires |names| == |vs|
  {
    exists i :: 0 <= i < |names| && names[i] == f.key && vs[i] == f.value && f.key !in names[i + 1..]
  }

  /** The name has a place before every place of the other. */
  ghost predicate Sooner(names: seq<Text>, name: Text, other: Text) {
    exists i :: 0 <= i < |names| && names[i] == name && other !in names[..i + 1]
  }

  lemma HasLastShifts(names: seq<Text>, vs: seq<Value>, f: Field)
    requires |names| == |vs| && names != [] && HasLast(names[1..], vs[1..], f)
    ensures HasLast(names, vs, f)
  {
    var i :| 0 <= i < |names[1..]| && names[1..][i] == f.key && vs[1..][i] == f.value && f.key !in names[1..][i + 1..];
    assert names[1..][i + 1..] == names[i + 1 + 1..] && names[i + 1] == f.key && vs[i + 1] == f.value;
  }

  lemma SoonerShifts(names: seq<Text>, name: Text, other: Text)
    requires names != [] && Sooner(names[1..], name, other) && other != names[0]
    ensures Sooner(names, name, other)
  {
    var i :| 0 <= i < |names[1..]| && names[1..][i] == name && other !in names[1..][..i + 1];
    assert names[..i + 1 + 1] == [names[0]] + names[1..][..i + 1] && names[i + 1] == name;
  }

  lemma SoonerFirst(names: seq<Text>, other: Text)
    requires names != [] && other != names[0]
    ensures Sooner(names, names[0], other)
  {
    assert names[..0 + 1] == [names[0]];
  }

  lemma SoonerApart(names: seq<Text>, name: Text)
    ensures !Sooner(names, name, name)
  {
    forall i | 0 <= i < |names| && names[i] == name
      ensures name in names[..i + 1]
    {
      assert names[..i + 1][i] == name;
    }
  }

  lemma {:induction false} PromoteMoves(fs: seq<Field>, key: Text) returns (n: nat)
    requires key in KeySet(fs)
    ensures n < |fs| && fs[n].key == key && Promote(fs, key) == [fs[n]] + fs[..n] + fs[n + 1..]
  {
    hide KeySet;
    NoKeys();
    KeySetCons(fs);
    if fs[0].key == key {
      n := 0;
    } else {
      var m := PromoteMoves(fs[1..], key);
      n := m + 1;
      Around(fs, n);
      MoveFront(fs[0], fs[n], fs[1..n], fs[n + 1..]);
    }
  }

  lemma Around(fs: seq<Field>, n: nat)
    requires 0 < n < |fs|
    ensures fs[1..][..n - 1] == fs[1..n] && fs[1..][n..] == fs[n + 1..] && fs[..n] == [fs[0]] + fs[1..n]
  {
  }

  lemma MoveFront(first: Field, x: Field, mid: seq<Field>, tail: seq<Field>)
    ensures [x, first] + ([x] + mid + tail)[1..] == [x] + ([first] + mid) + tail
  {
  }

  lemma NoKeys()
    ensures KeySet([]) == {}
  {
  }

  /** The place before the move of what is at `k` after it. */
  function Whence(n: nat, k: nat): nat {
    if k == 0 then n else if k <= n then k - 1 else k
  }

  lemma PromotedAt(fs: seq<Field>, key: Text) returns (n: nat)
    requires key in KeySet(fs)
    ensures n < |fs| && fs[n].key == key && KeySet(Promote(fs, key)) == KeySet(fs)
    ensures var r := Promote(fs, key);
            |r| == |fs| && forall k :: 0 <= k < |r| ==> Whence(n, k) < |fs| && r[k] == fs[Whence(n, k)]
  {
    hide KeySet;
    hide Promote;
    n := PromoteMoves(fs, key);
    MovedKeys(fs, n);
  }

  lemma PromotedKept(names: seq<Text>, vs: seq<Value>, fs: seq<Field>)
    requires |names| == |vs| && names != [] && Kept(names[1..], vs[1..], fs) && names[0] in KeySet(fs)
    ensures Kept(names, vs, Promote(fs, names[0]))
  {
    hide HasLast;
    hide Sooner;
    hide KeySet;
    hide Promote;
    var n := PromotedAt(fs, names[0]);
    var r := Promote(fs, names[0]);
    KeysApart(names[1..], vs[1..], fs);
    assert forall i :: 1 <= i < |names| ==> names[1..][i - 1] == names[i];
    forall k | 0 <= k < |r|
      ensures HasLast(names, vs, r[k])
    {
      HasLastShifts(names, vs, fs[Whence(n, k)]);
    }
    forall k, l | 0 <= k < l < |r|
      ensures Sooner(names, r[k].key, r[l].key)
    {
      PromotedSooner(names, fs, n, k, l);
    }
  }

  lemma PromotedSooner(names: seq<Text>, fs: seq<Field>, n: nat, k: nat, l: nat)
    requires names != [] && n < |fs| && fs[n].key == names[0] && k < l < |fs|
    requires forall k, l :: 0 <= k < l < |fs| ==> fs[k].key != fs[l].key && Sooner(names[1..], fs[k].key, fs[l].key)
    ensures Sooner(names, fs[Whence(n, k)].key, fs[Whence(n, l)].key)
  {
    hide Sooner;
    if k == 0 {
      SoonerFirst(names, fs[Whence(n, l)].key);
    } else {
      SoonerShifts(names, fs[Whence(n, k)].key, fs[Whence(n, l)].key);
    }
  }

  lemma KeysApart(names: seq<Text>, vs: seq<Value>, fs: seq<Field>)
    requires |names| == |vs| && Kept(names, vs, fs)
    ensures forall k, l :: 0 <= k < l < |fs| ==> fs[k].key != fs[l].key
  {
    hide HasLast;
    hide Sooner;
    forall k, l | 0 <= k < l < |fs|
      ensures fs[k].key != fs[l].key
    {
      SoonerApart(names, fs[k].key);
    }
  }

  lemma MovedKeys(fs: seq<Field>, n: nat)
    requires n < |fs|
    ensures KeySet([fs[n]] + fs[..n] + fs[n + 1..]) == KeySet(fs)
  {
    assert fs == fs[..n] + [fs[n]] + fs[n + 1..];
  }

  lemma NewKept(names: seq<Text>, vs: seq<Value>, fs: seq<Field>)
    requires |names| == |vs| && names != [] && Kept(names[1..], vs[1..], fs) && names[0] !in KeySet(fs)
    ensures Kept(names, vs, [Field(names[0], vs[0])] + fs)
  {
    var r := [Field(names[0], vs[0])] + fs;
    KeySetCons(r);
    assert r[1..] == fs;
    forall k | 0 <= k < |r|
      ensures HasLast(names, vs, r[k])
    {
      if k == 0 {
        assert names[0] !in names[0 + 1..];
      } else {
        HasLastShifts(names, vs, fs[k - 1]);
      }
    }
    forall k, l | 0 <= k < l < |r|
      ensures Sooner(names, r[k].key, r[l].key)
    {
      assert fs[l - 1].key in KeySet(fs);
      if k == 0 {
        SoonerFirst(names, r[l].key);
      } else {
        SoonerShifts(names, r[k].key, r[l].key);
      }
    }
    assert forall i :: 1 <= i < |names| ==> names[i] == names[1..][i - 1];
  }

  /** A member of an object, with its name and its value. */
  ghost predicate MemberHeld(m: Member, name: Text, v: Value) {
    && WfEntry(m.entry) && AllSpace(m.after) && Blank(m.entry.before) && Blank(m.entry.afterKey) && Blank(m.entry.afterColon)
    && Blank(m.after) && Blanks(m.entry.tree) && Unescaped(m.entry.key) == name && ValueIn(m.entry.tree) == v
  }

  ghost predicate AllMembersHeld(ms: seq<Member>, names: seq<Text>, vs: seq<Value>) {
    |ms| == |names| == |vs| && forall i :: 0 <= i < |ms| ==> MemberHeld(ms[i], names[i], vs[i])
  }

  lemma MembersHeldCons(ms: seq<Member>, names: seq<Text>, vs: seq<Value>)
    requires AllMembersHeld(ms, names, vs) && ms != []
    ensures MemberHeld(ms[0], names[0], vs[0]) && AllMembersHeld(ms[1..], names[1..], vs[1..])
  {
    hide MemberHeld;
    forall i | 0 <= i < |ms[1..]|
      ensures MemberHeld(ms[1..][i], names[1..][i], vs[1..][i])
    {
      assert MemberHeld(ms[i + 1], names[i + 1], vs[i + 1]);
    }
  }

  lemma {:induction false} FieldsKept(ms: seq<Member>, names: seq<Text>, vs: seq<Value>)
    requires AllMembersHeld(ms, names, vs)
    ensures WfMembers(ms) && MemberBlanks(ms) && Kept(names, vs, FieldsIn(ms))
  {
    hide ValueIn;
    hide Blanks;
    hide Kept;
    hide Promote;
    hide KeySet;
    if ms == [] {
      NoneKept();
    } else {
      MembersHeldCons(ms, names, vs);
      FieldsKept(ms[1..], names[1..], vs[1..]);
      assert ms == [ms[0]] + ms[1..];
      if names[0] in KeySet(FieldsIn(ms[1..])) {
        PromotedKept(names, vs, FieldsIn(ms[1..]));
      } else {
        NewKept(names, vs, FieldsIn(ms[1..]));
      }
    }
  }

  lemma NoneKept()
    ensures Kept([], [], [])
  {
  }

  ghost predicate MembersParse(keys: seq<Text>, values: seq<Text>, names: seq<Text>, vs: seq<Value>) {
    && |keys| == |values| == |names| == |vs|
    && forall i :: 0 <= i < |keys| ==> Parses(keys[i], VString(names[i])) && Parses(values[i], vs[i])
  }

  lemma MemberHeldParses(m: Member, name: Text, v: Value)
    requires MemberHeld(m, name, v)
    ensures Parses(MemberKey(m), VString(name)) && Parses(MemberValue(m), v)
  {
    hide ParseJson;
    var e := m.entry;
    var k := Document(e.before, Str(e.key), e.afterKey);
    assert PrintDocument(k) == MemberKey(m) && Holds(k, VString(name));
    ParsesTree(MemberKey(m), VString(name));
    HeldParses(Elem(e.afterColon, e.tree, m.after), v);
  }

  lemma ParsedMemberHeld(key: Text, value: Text, name: Text, v: Value) returns (m: Member)
    requires Parses(key, VString(name)) && Parses(value, v)
    ensures MemberHeld(m, name, v) && MemberKey(m) == key && MemberValue(m) == value
  {
    hide ParseJson;
    ParsesTree(key, VString(name));
    ParsesTree(value, v);
    var k :| Holds(k, VString(name)) && key == PrintDocument(k);
    var d :| Holds(d, v) && value == PrintDocument(d);
    m := Member(Entry(k.before, k.tree.parts, k.after, d.before, d.tree), d.after);
    PrintApart(d.tree, d.after);
    Joined3(d.before, Print(d.tree, []), d.after);
  }

  lemma MembersHeld(keys: seq<Text>, values: seq<Text>, names: seq<Text>, vs: seq<Value>) returns (ms: seq<Member>)
    requires MembersParse(keys, values, names, vs)
    ensures AllMembersHeld(ms, names, vs) && MemberKeys(ms) == keys && MemberTexts(ms) == values
  {
    hide Parses;
    hide MemberHeld;
    hide MemberKey;
    hide MemberValue;
    ms := [];
    for k := 0 to |keys|
      invariant |ms| == k
      invariant forall i :: 0 <= i < k ==> MemberHeld(ms[i], names[i], vs[i]) && MemberKey(ms[i]) == keys[i] && MemberValue(ms[i]) == values[i]
    {
      var m := ParsedMemberHeld(keys[k], values[k], names[k], vs[k]);
      ms := ms + [m];
    }
  }

  ghost predicate ObjectIs(text: Text, keys: seq<Text>, values: seq<Text>, names: seq<Text>, vs: seq<Value>, before: Text, body: Text, after: Text) {
    && Blank(before) && Blank(after) && text == Bracketed('{' as int, before, body, '}' as int, after)
    && MembersParse(keys, values, names, vs)
    && if keys == [] then Blank(body) else body == Commas(EntryTexts(keys, values))
  }

  lemma EmptyObjectHolds(before: Text, inner: Text, after: Text)
    requires Blank(before) && Blank(inner) && Blank(after)
    ensures Parses(Bracketed('{' as int, before, inner, '}' as int, after), VObject([]))
  {
    hide ParseJson;
    var d := Document(before, EmptyObject(inner), after);
    BlankIsSpace(before);
    BlankIsSpace(inner);
    BlankIsSpace(after);
    assert Holds(d, VObject([]));
    ParsesTree(PrintDocument(d), VObject([]));
  }

  /** A brace, texts that are parsed as keys and values with a colon and commas between them,
      and a brace, with JSON's blanks around, are parsed as an object of the names that are
      kept. */
  lemma ObjectParses(text: Text, keys: seq<Text>, values: seq<Text>, names: seq<Text>, vs: seq<Value>, before: Text, body: Text, after: Text)
    returns (fs: seq<Field>)
    requires ObjectIs(text, keys, values, names, vs, before, body, after)
    ensures |names| == |vs| && Parses(text, VObject(fs)) && Kept(names, vs, fs)
  {
    hide ParseJson;
    hide Kept;
    hide Wf;
    hide MemberHeld;
    if keys == [] {
      EmptyObjectHolds(before, body, after);
      NoneKept();
      fs := [];
    } else {
      var ms := MembersHeld(keys, values, names, vs);
      FieldsKept(ms, names, vs);
      fs := FieldsIn(ms);
      ObjectHolds(text, ms, before, after);
    }
  }

  lemma ObjectHolds(text: Text, ms: seq<Member>, before: Text, after: Text)
    requires ms != [] && WfMembers(ms) && MemberBlanks(ms) && Blank(before) && Blank(after)
    requires text == Bracketed('{' as int, before, Commas(EntryTexts(MemberKeys(ms), MemberTexts(ms))), '}' as int, after)
    ensures Parses(text, VObject(FieldsIn(ms)))
  {
    hide ParseJson;
    hide FieldsIn;
    hide WfMembers;
    BlankIsSpace(before);
    BlankIsSpace(after);
    var d := Document(before, Object(ms), after);
    MembersCommas(ms);
    MembersApart(ms, after);
    Joined3(Commas(EntryTexts(MemberKeys(ms), MemberTexts(ms))), [RBRACE], after);
    assert Holds(d, VObject(FieldsIn(ms))) && PrintDocument(d) == text;
    ParsesTree(text, VObject(FieldsIn(ms)));
  }

  lemma {:induction false} AllHeldMembers(ms: seq<Member>) returns (names: seq<Text>, vs: seq<Value>)
    requires WfMembers(ms) && MemberBlanks(ms)
    ensures AllMembersHeld(ms, names, vs)
  {
    hide ValueIn;
    hide Blanks;
    hide Blank;
    hide WfEntry;
    hide AllSpace;
    if ms == [] {
      names, vs := [], [];
    } else {
      var ns, rest := AllHeldMembers(ms[1..]);
      names, vs := [Unescaped(ms[0].entry.key)] + ns, [ValueIn(ms[0].entry.tree)] + rest;
      assert MemberHeld(ms[0], names[0], vs[0]);
      assert forall i :: 1 <= i < |ms| ==> ms[i] == ms[1..][i - 1] && names[i] == ns[i - 1] && vs[i] == rest[i - 1];
    }
  }

  /** And nothing else is parsed as an object. */
  lemma ObjectParsed(text: Text, fs: seq<Field>)
    returns (keys: seq<Text>, values: seq<Text>, names: seq<Text>, vs: seq<Value>, before: Text, body: Text, after: Text)
    requires Parses(text, VObject(fs))
    ensures ObjectIs(text, keys, values, names, vs, before, body, after) && |names| == |vs| && Kept(names, vs, fs)
  {
    hide ParseJson;
    hide Kept;
    hide MemberHeld;
    hide MemberKey;
    hide MemberValue;
    ParsesTree(text, VObject(fs));
    var d :| Holds(d, VObject(fs)) && text == PrintDocument(d);
    before, after := d.before, d.after;
    if d.tree.EmptyObject? {
      NoneKept();
      keys, values, names, vs, body := [], [], [], [], d.tree.inner;
    } else {
      var ms := d.tree.members;
      names, vs := AllHeldMembers(ms);
      FieldsKept(ms, names, vs);
      keys, values := MemberKeys(ms), MemberTexts(ms);
      body := Commas(EntryTexts(keys, values));
      forall i | 0 <= i < |ms|
        ensures Parses(keys[i], VString(names[i])) && Parses(values[i], vs[i])
      {
        MemberHeldParses(ms[i], names[i], vs[i]);
      }
      MembersCommas(ms);
      MembersApart(ms, after);
      Joined3(body, [RBRACE], after);
    }
  }
}
