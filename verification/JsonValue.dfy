/** JSON values with their key order, written and read back, and the canonical form that
    forgets the order (scripts/analysis-report-consumer.js:12-20). */
module JsonValue {
  import opened JsonRoundTrip
  import opened JsonSyntax
  import opened Order
  import opened Prelude

  /** A JavaScript value that JSON can hold. Objects list their fields in key order. */
  datatype Value =
    | VWord(word: Word)
    | VNumber(lexeme: Text)
    | VString(text: Text)
    | VArray(items: seq<Value>)
    | VObject(fields: seq<Field>)

  datatype Field = Field(key: Text, value: Value)

  function KeySet(fs: seq<Field>): set<Text> {
    set f | f in fs :: f.key
  }

  /** Valid number lexemes, valid strings, and no key twice in one object. */
  predicate Plain(v: Value)
    decreases v
  {
    match v
    case VWord(_) => true
    case VNumber(lexeme) => NumberLength(lexeme) == Some(|lexeme|)
    case VString(text) => Chars(text)
    case VArray(items) => PlainItems(items)
    case VObject(fields) => PlainFields(fields)
  }

  predicate PlainItems(vs: seq<Value>)
    decreases vs
  {
    vs == [] || (Plain(vs[0]) && PlainItems(vs[1..]))
  }

  predicate PlainFields(fs: seq<Field>)
    decreases fs
  {
    fs == [] || (Chars(fs[0].key) && fs[0].key !in KeySet(fs[1..]) && Plain(fs[0].value) && PlainFields(fs[1..]))
  }

  // ---------------------------------------------------------------- writing

  /** How JSON.stringify writes one code unit. */
  function StringifyPart(u: Unit): Part {
    if u == QUOTE || u == BACKSLASH then Short(u)
    else if u == 8 then Short(0x62)
    else if u == 12 then Short(0x66)
    else if u == 10 then Short(0x6E)
    else if u == 13 then Short(0x72)
    else if u == 9 then Short(0x74)
    else if u < 0x20 then Hex(ZERO, ZERO, HexDigit(u / 16), HexDigit(u % 16))
    else Raw(u)
  }

  function Stringified(s: Text): seq<Part> {
    Map(StringifyPart, s)
  }

  lemma StringifiedReads(s: Text)
    requires Chars(s)
    ensures WfParts(Stringified(s)) && Unescaped(Stringified(s)) == s
  {
    forall i | 0 <= i < |s|
      ensures WfPart(StringifyPart(s[i])) && PartUnit(StringifyPart(s[i])) == s[i]
    {
    }
  }

  /** A line break and two blanks a level, or nothing in the compact form. */
  function Gap(pretty: bool, depth: nat): Text {
    if pretty then [10] + seq(2 * depth, _ => 0x20) else []
  }

  /** The layout of JSON.stringify, compact or indented by two. */
  function TreeOf(v: Value, pretty: bool, depth: nat): Tree
    decreases v
  {
    match v
    case VWord(word) => Literal(word)
    case VNumber(lexeme) => Number(lexeme)
    case VString(text) => Str(Stringified(text))
    case VArray(items) => if items == [] then EmptyArray([]) else Array(ElemsOf(items, pretty, depth + 1))
    case VObject(fields) => if fields == [] then EmptyObject([]) else Object(MembersOf(fields, pretty, depth + 1))
  }

  function ElemsOf(vs: seq<Value>, pretty: bool, depth: nat): seq<Elem>
    requires depth > 0
    decreases vs
  {
    if vs == [] then []
    else
      [Elem(Gap(pretty, depth), TreeOf(vs[0], pretty, depth), if |vs| == 1 then Gap(pretty, depth - 1) else [])]
      + ElemsOf(vs[1..], pretty, depth)
  }

  function MembersOf(fs: seq<Field>, pretty: bool, depth: nat): seq<Member>
    requires depth > 0
    decreases fs
  {
    if fs == [] then []
    else
      [Member(EntryOf(fs[0], pretty, depth), if |fs| == 1 then Gap(pretty, depth - 1) else [])]
      + MembersOf(fs[1..], pretty, depth)
  }

  function EntryOf(f: Field, pretty: bool, depth: nat): Entry
    decreases f
  {
    Entry(Gap(pretty, depth), Stringified(f.key), [], if pretty then [0x20] else [], TreeOf(f.value, pretty, depth))
  }

  // ---------------------------------------------------------------- reading

  /** What JSON.parse makes of a tree. A repeated key keeps its first place and its last value. */
  function ValueIn(t: Tree): Value
    decreases t
  {
    match t
    case Literal(word) => VWord(word)
    case Number(lexeme) => VNumber(lexeme)
    case Str(parts) => VString(Unescaped(parts))
    case EmptyArray(_) => VArray([])
    case Array(elems) => VArray(ItemsIn(elems))
    case EmptyObject(_) => VObject([])
    case Object(members) => VObject(FieldsIn(members))
  }

  function ItemsIn(es: seq<Elem>): seq<Value>
    decreases es
  {
    if es == [] then [] else [ValueIn(es[0].tree)] + ItemsIn(es[1..])
  }

  function FieldsIn(ms: seq<Member>): seq<Field>
    decreases ms
  {
    if ms == [] then []
    else
      var first, rest := Field(Unescaped(ms[0].entry.key), ValueIn(ms[0].entry.tree)), FieldsIn(ms[1..]);
      if first.key in KeySet(rest) then Promote(rest, first.key) else [first] + rest
  }

  /** The field of a key, moved to the front. */
  function Promote(fs: seq<Field>, key: Text): seq<Field> {
    if fs == [] then []
    else if fs[0].key == key then fs
    else
      var rest := Promote(fs[1..], key);
      if rest == [] then fs else [rest[0], fs[0]] + rest[1..]
  }

  /** The four blanks of RFC 8259 section 2, the only ones that JSON.parse takes. */
  predicate Blank(w: Text) {
    forall i :: 0 <= i < |w| ==> w[i] == 9 || w[i] == 10 || w[i] == 13 || w[i] == 0x20
  }

  predicate Blanks(t: Tree)
    decreases t
  {
    match t
    case EmptyArray(inner) => Blank(inner)
    case Array(elems) => ElemBlanks(elems)
    case EmptyObject(inner) => Blank(inner)
    case Object(members) => MemberBlanks(members)
    case _ => true
  }

  predicate ElemBlanks(es: seq<Elem>)
    decreases es
  {
    es == [] || (Blank(es[0].before) && Blanks(es[0].tree) && Blank(es[0].after) && ElemBlanks(es[1..]))
  }

  predicate MemberBlanks(ms: seq<Member>)
    decreases ms
  {
    ms == []
    || (Blank(ms[0].entry.before) && Blank(ms[0].entry.afterKey) && Blank(ms[0].entry.afterColon) && Blanks(ms[0].entry.tree)
        && Blank(ms[0].after) && MemberBlanks(ms[1..]))
  }

  /** JSON.parse. */
  function ParseJson(text: Text): Option<Value> {
    var d := ParseDocument(text);
    if d.Some? && Blank(d.value.before) && Blanks(d.value.tree) && Blank(d.value.after) then Some(ValueIn(d.value.tree)) else None
  }

  /** The text of a value, with what follows it. */
  function Written(v: Value, pretty: bool, after: Text): Text {
    PrintDocument(Document([], TreeOf(v, pretty, 0), after))
  }

  lemma GapIsSpace(pretty: bool, depth: nat)
    ensures AllSpace(Gap(pretty, depth)) && Blank(Gap(pretty, depth))
  {
  }

  lemma {:induction false} TreeReads(v: Value, pretty: bool, depth: nat)
    requires Plain(v)
    ensures Wf(TreeOf(v, pretty, depth)) && ValueIn(TreeOf(v, pretty, depth)) == v && Blanks(TreeOf(v, pretty, depth))
    decreases v
  {
    match v {
      case VString(text) => StringifiedReads(text);
      case VArray(items) => ElemsRead(items, pretty, depth + 1);
      case VObject(fields) => MembersRead(fields, pretty, depth + 1);
      case _ =>
    }
  }

  lemma {:induction false} ElemsRead(vs: seq<Value>, pretty: bool, depth: nat)
    requires depth > 0 && PlainItems(vs)
    ensures |ElemsOf(vs, pretty, depth)| == |vs| && ElemBlanks(ElemsOf(vs, pretty, depth))
    ensures WfElems(ElemsOf(vs, pretty, depth)) && ItemsIn(ElemsOf(vs, pretty, depth)) == vs
    decreases vs
  {
    hide ValueIn;
    hide TreeOf;
    hide Gap;
    hide Wf;
    hide Blanks;
    if vs != [] {
      var es, rest := ElemsOf(vs, pretty, depth), ElemsOf(vs[1..], pretty, depth);
      GapIsSpace(pretty, depth);
      GapIsSpace(pretty, depth - 1);
      TreeReads(vs[0], pretty, depth);
      ElemsRead(vs[1..], pretty, depth);
      assert es[1..] == rest;
      assert forall i :: 1 <= i < |es| ==> es[i] == rest[i - 1];
    }
  }

  lemma {:induction false} MembersRead(fs: seq<Field>, pretty: bool, depth: nat)
    requires depth > 0 && PlainFields(fs)
    ensures |MembersOf(fs, pretty, depth)| == |fs| && MemberBlanks(MembersOf(fs, pretty, depth))
    ensures WfMembers(MembersOf(fs, pretty, depth)) && FieldsIn(MembersOf(fs, pretty, depth)) == fs
    decreases fs
  {
    hide ValueIn;
    hide TreeOf;
    hide Gap;
    hide Stringified;
    hide Unescaped;
    hide Wf;
    hide Blanks;
    hide Promote;
    if fs != [] {
      var ms, rest := MembersOf(fs, pretty, depth), MembersOf(fs[1..], pretty, depth);
      GapIsSpace(pretty, depth);
      GapIsSpace(pretty, depth - 1);
      StringifiedReads(fs[0].key);
      TreeReads(fs[0].value, pretty, depth);
      MembersRead(fs[1..], pretty, depth);
      assert ms[1..] == rest;
      assert forall i :: 1 <= i < |ms| ==> ms[i] == rest[i - 1];
      assert fs == [fs[0]] + fs[1..];
    }
  }

  /** Reading what was written gives the value back, in either layout. */
  lemma WrittenReadsBack(v: Value, pretty: bool, after: Text)
    requires Plain(v) && Blank(after)
    ensures ParseJson(Written(v, pretty, after)) == Some(v)
  {
    TreeReads(v, pretty, 0);
    DocumentExact(Written(v, pretty, after), Document([], TreeOf(v, pretty, 0), after));
  }

  lemma {:induction false} PromoteKeeps(fs: seq<Field>, key: Text)
    requires PlainFields(fs)
    ensures PlainFields(Promote(fs, key)) && KeySet(Promote(fs, key)) == KeySet(fs)
    ensures Promote(fs, key) == [] <==> fs == []
    decreases fs
  {
    if fs != [] && fs[0].key != key {
      var rest := Promote(fs[1..], key);
      PromoteKeeps(fs[1..], key);
      KeySetCons(fs);
      if rest != [] {
        var r := [rest[0], fs[0]] + rest[1..];
        KeySetCons(rest);
        assert r[1..] == [fs[0]] + rest[1..] && r[1..][1..] == rest[1..];
        KeySetCons(r);
        KeySetCons(r[1..]);
        assert rest[0].key in KeySet(rest);
      }
    }
  }

  lemma KeySetCons(fs: seq<Field>)
    requires fs != []
    ensures KeySet(fs) == {fs[0].key} + KeySet(fs[1..])
  {
    assert fs == [fs[0]] + fs[1..];
  }

  lemma PartsAreChars(parts: seq<Part>)
    requires WfParts(parts)
    ensures Chars(Unescaped(parts))
  {
    forall i | 0 <= i < |parts|
      ensures 0 <= PartUnit(parts[i])
    {
      assert WfPart(parts[i]);
    }
  }

  /** Whatever was parsed has valid lexemes and strings, and no key twice. */
  lemma {:induction false} ValueInPlain(t: Tree)
    requires Wf(t)
    ensures Plain(ValueIn(t))
    decreases t
  {
    match t {
      case Str(parts) => PartsAreChars(parts);
      case Array(elems) => ItemsInPlain(elems);
      case Object(members) => FieldsInPlain(members);
      case _ =>
    }
  }

  lemma {:induction false} ItemsInPlain(es: seq<Elem>)
    requires WfElems(es)
    ensures PlainItems(ItemsIn(es))
    decreases es
  {
    if es != [] {
      ValueInPlain(es[0].tree);
      ItemsInPlain(es[1..]);
      assert ItemsIn(es)[1..] == ItemsIn(es[1..]);
    }
  }

  lemma {:induction false} FieldsInPlain(ms: seq<Member>)
    requires WfMembers(ms)
    ensures PlainFields(FieldsIn(ms))
    decreases ms
  {
    if ms != [] {
      var entry, rest := ms[0].entry, FieldsIn(ms[1..]);
      assert WfEntry(entry);
      PartsAreChars(entry.key);
      ValueInPlain(entry.tree);
      FieldsInPlain(ms[1..]);
      var first := Field(Unescaped(entry.key), ValueIn(entry.tree));
      PromoteKeeps(rest, first.key);
      assert ([first] + rest)[1..] == rest;
    }
  }

  lemma ParsedIsPlain(text: Text)
    requires ParseJson(text).Some?
    ensures Plain(ParseJson(text).value)
  {
    var d := ParseDocument(text).value;
    DocumentExact(text, d);
    ValueInPlain(d.tree);
  }

  // ---------------------------------------------------------------- canonical form

  function Insert(f: Field, fs: seq<Field>): seq<Field> {
    if fs == [] then [f]
    else if UnitsLe(f.key, fs[0].key) then [f] + fs
    else [fs[0]] + Insert(f, fs[1..])
  }

  /** `canonical`: the same value with the keys of every object sorted. */
  function Canonical(v: Value): Value
    decreases v
  {
    match v
    case VArray(items) => VArray(CanonicalItems(items))
    case VObject(fields) => VObject(CanonicalFields(fields))
    case _ => v
  }

  function CanonicalItems(vs: seq<Value>): seq<Value>
    decreases vs
  {
    if vs == [] then [] else [Canonical(vs[0])] + CanonicalItems(vs[1..])
  }

  function CanonicalFields(fs: seq<Field>): seq<Field>
    decreases fs
  {
    if fs == [] then [] else Insert(Field(fs[0].key, Canonical(fs[0].value)), CanonicalFields(fs[1..]))
  }

  /** `encoded`: the compact text of the canonical form. */
  function Encoded(v: Value): Text {
    Written(Canonical(v), false, [])
  }

  /** The value with objects as finite maps: what is left when the key order is forgotten. */
  function Data(v: Value): Json
    decreases v
  {
    match v
    case VWord(word) => WordValue(word)
    case VNumber(lexeme) => JNumber(lexeme)
    case VString(text) => JString(text)
    case VArray(items) => JArray(DataItems(items))
    case VObject(fields) => JObject(DataFields(fields))
  }

  function DataItems(vs: seq<Value>): seq<Json>
    decreases vs
  {
    if vs == [] then [] else [Data(vs[0])] + DataItems(vs[1..])
  }

  function DataFields(fs: seq<Field>): (m: map<Text, Json>)
    ensures m.Keys == KeySet(fs)
    decreases fs
  {
    if fs == [] then map[]
    else
      assert KeySet(fs) == {fs[0].key} + KeySet(fs[1..]) by { KeySetCons(fs); }
      DataFields(fs[1..])[fs[0].key := Data(fs[0].value)]
  }

  /** Every object's keys in strictly increasing order. */
  ghost predicate SortedValue(v: Value)
    decreases v
  {
    match v
    case VArray(items) => SortedItems(items)
    case VObject(fields) => SortedFields(fields)
    case _ => true
  }

  ghost predicate SortedItems(vs: seq<Value>)
    decreases vs
  {
    vs == [] || (SortedValue(vs[0]) && SortedItems(vs[1..]))
  }

  ghost predicate SortedFields(fs: seq<Field>)
    decreases fs
  {
    fs == [] || (Below(fs[0].key, KeySet(fs[1..])) && SortedValue(fs[0].value) && SortedFields(fs[1..]))
  }

  ghost predicate Below(key: Text, keys: set<Text>) {
    key !in keys && forall k :: k in keys ==> UnitsLe(key, k)
  }

  lemma {:induction false} InsertKeys(f: Field, fs: seq<Field>)
    ensures KeySet(Insert(f, fs)) == {f.key} + KeySet(fs)
  {
    var r := Insert(f, fs);
    KeySetCons(r);
    if fs != [] {
      KeySetCons(fs);
      if UnitsLe(f.key, fs[0].key) {
        assert r[1..] == fs;
      } else {
        InsertKeys(f, fs[1..]);
        assert r[1..] == Insert(f, fs[1..]);
      }
    }
  }

  lemma DataCons(f: Field, rest: seq<Field>)
    ensures DataFields([f] + rest) == DataFields(rest)[f.key := Data(f.value)]
    ensures PlainFields([f] + rest) <==> Chars(f.key) && f.key !in KeySet(rest) && Plain(f.value) && PlainFields(rest)
  {
    hide Data;
    hide Plain;
    assert ([f] + rest)[1..] == rest;
  }

  lemma Commute<K, V>(m: map<K, V>, k: K, v: V, k': K, v': V)
    requires k != k'
    ensures m[k := v][k' := v'] == m[k' := v'][k := v]
  {
  }

  lemma {:induction false} InsertKeepsData(f: Field, fs: seq<Field>)
    requires f.key !in KeySet(fs)
    ensures DataFields(Insert(f, fs)) == DataFields(fs)[f.key := Data(f.value)]
    ensures PlainFields(fs) && Chars(f.key) && Plain(f.value) ==> PlainFields(Insert(f, fs))
  {
    hide DataFields;
    hide PlainFields;
    hide Data;
    hide Plain;
    hide UnitsLe;
    hide Chars;
    hide KeySet;
    if fs == [] || UnitsLe(f.key, fs[0].key) {
      DataCons(f, fs);
      assert Insert(f, fs) == [f] + fs;
    } else {
      var first, rest := fs[0], fs[1..];
      assert fs == [first] + rest;
      KeySetCons(fs);
      DataCons(first, rest);
      InsertKeepsData(f, rest);
      InsertKeys(f, rest);
      DataCons(first, Insert(f, rest));
      Commute(DataFields(rest), f.key, Data(f.value), first.key, Data(first.value));
    }
  }

  lemma BelowAll(key: Text, next: Text, keys: set<Text>)
    requires UnitsLe(key, next) && key != next && Below(next, keys) && key !in keys
    ensures Below(key, {next} + keys)
  {
    forall k | k in keys
      ensures UnitsLe(key, k)
    {
      LexTransitive(UnitRank, key, next, k);
    }
  }

  lemma {:induction false} InsertSorts(f: Field, fs: seq<Field>)
    requires SortedFields(fs) && SortedValue(f.value) && f.key !in KeySet(fs)
    ensures SortedFields(Insert(f, fs))
  {
    if fs != [] {
      var r := Insert(f, fs);
      KeySetCons(fs);
      if UnitsLe(f.key, fs[0].key) {
        BelowAll(f.key, fs[0].key, KeySet(fs[1..]));
        assert r[1..] == fs;
      } else {
        InsertSorts(f, fs[1..]);
        InsertKeys(f, fs[1..]);
        LexTotal(UnitRank, f.key, fs[0].key);
        assert r[0] == fs[0] && r[1..] == Insert(f, fs[1..]);
      }
    }
  }

  /** The canonical form is sorted and keeps the data. */
  lemma {:induction false} CanonicalSorts(v: Value)
    requires Plain(v)
    ensures SortedValue(Canonical(v)) && Plain(Canonical(v)) && Data(Canonical(v)) == Data(v)
    decreases v
  {
    match v {
      case VArray(items) => ItemsSort(items);
      case VObject(fields) => FieldsSort(fields);
      case _ =>
    }
  }

  lemma {:induction false} ItemsSort(vs: seq<Value>)
    requires PlainItems(vs)
    ensures SortedItems(CanonicalItems(vs)) && PlainItems(CanonicalItems(vs)) && DataItems(CanonicalItems(vs)) == DataItems(vs)
    decreases vs
  {
    if vs != [] {
      CanonicalSorts(vs[0]);
      ItemsSort(vs[1..]);
      assert CanonicalItems(vs)[1..] == CanonicalItems(vs[1..]);
    }
  }

  lemma {:induction false} FieldsSort(fs: seq<Field>)
    requires PlainFields(fs)
    ensures SortedFields(CanonicalFields(fs)) && PlainFields(CanonicalFields(fs))
    ensures DataFields(CanonicalFields(fs)) == DataFields(fs)
    decreases fs
  {
    if fs != [] {
      CanonicalSorts(fs[0].value);
      FieldsSort(fs[1..]);
      assert DataFields(CanonicalFields(fs[1..])).Keys == KeySet(CanonicalFields(fs[1..]));
      var f := Field(fs[0].key, Canonical(fs[0].value));
      InsertSorts(f, CanonicalFields(fs[1..]));
      InsertKeepsData(f, CanonicalFields(fs[1..]));
    }
  }

  /** Sorted values with the same data are the same value. */
  lemma {:induction false} SortedUniquely(v: Value, w: Value)
    requires SortedValue(v) && SortedValue(w) && Data(v) == Data(w)
    ensures v == w
    decreases v
  {
    match v {
      case VArray(items) => SortedItemsUniquely(items, w.items);
      case VObject(fields) => SortedFieldsUniquely(fields, w.fields);
      case _ =>
    }
  }

  lemma {:induction false} SortedItemsUniquely(vs: seq<Value>, ws: seq<Value>)
    requires SortedItems(vs) && SortedItems(ws) && DataItems(vs) == DataItems(ws)
    ensures vs == ws
    decreases vs
  {
    if vs != [] && ws != [] {
      assert DataItems(vs)[0] == DataItems(ws)[0];
      assert DataItems(vs)[1..] == DataItems(vs[1..]) && DataItems(ws)[1..] == DataItems(ws[1..]);
      SortedUniquely(vs[0], ws[0]);
      SortedItemsUniquely(vs[1..], ws[1..]);
      assert vs == [vs[0]] + vs[1..] && ws == [ws[0]] + ws[1..];
    }
  }

  lemma {:induction false} SortedFieldsUniquely(fs: seq<Field>, gs: seq<Field>)
    requires SortedFields(fs) && SortedFields(gs) && DataFields(fs) == DataFields(gs)
    ensures fs == gs
    decreases fs
  {
    assert DataFields(fs).Keys == KeySet(fs) && DataFields(gs).Keys == KeySet(gs);
    BothEmpty(fs, gs);
    if fs != [] {
      SameFirstKey(fs, gs);
      TakeFirst(fs);
      TakeFirst(gs);
      SortedUniquely(fs[0].value, gs[0].value);
      SortedFieldsUniquely(fs[1..], gs[1..]);
      assert fs == [fs[0]] + fs[1..] && gs == [gs[0]] + gs[1..];
    }
  }

  lemma BothEmpty(fs: seq<Field>, gs: seq<Field>)
    requires KeySet(fs) == KeySet(gs)
    ensures fs == [] <==> gs == []
  {
    assert fs != [] ==> fs[0].key in KeySet(fs);
    assert gs != [] ==> gs[0].key in KeySet(gs);
  }

  /** With distinct keys, the first field is what the map loses when its key goes. */
  lemma TakeFirst(fs: seq<Field>)
    requires fs != [] && SortedFields(fs)
    ensures fs[0].key in DataFields(fs) && DataFields(fs)[fs[0].key] == Data(fs[0].value)
    ensures DataFields(fs[1..]) == DataFields(fs) - {fs[0].key}
  {
    FirstIsNew(fs);
    hide Data;
    hide SortedFields;
    hide KeySet;
    DropUpdate(DataFields(fs[1..]), fs[0].key, Data(fs[0].value));
  }

  lemma FirstIsNew(fs: seq<Field>)
    requires fs != [] && SortedFields(fs)
    ensures fs[0].key !in KeySet(fs[1..])
  {
  }

  lemma DropUpdate<K, V>(m: map<K, V>, k: K, v: V)
    requires k !in m.Keys
    ensures m[k := v] - {k} == m
  {
  }

  lemma SameFirstKey(fs: seq<Field>, gs: seq<Field>)
    requires fs != [] && gs != [] && SortedFields(fs) && SortedFields(gs) && KeySet(fs) == KeySet(gs)
    ensures fs[0].key == gs[0].key
  {
    KeySetCons(fs);
    KeySetCons(gs);
    LexTotal(UnitRank, fs[0].key, gs[0].key);
  }

  /** Canonicalising twice is canonicalising once. */
  lemma CanonicalIdempotent(v: Value)
    requires Plain(v)
    ensures Canonical(Canonical(v)) == Canonical(v)
  {
    CanonicalSorts(v);
    CanonicalSorts(Canonical(v));
    SortedUniquely(Canonical(Canonical(v)), Canonical(v));
  }

  /** Two values encode to the same text exactly when they differ in key order at most. */
  lemma EncodedExact(v: Value, w: Value)
    requires Plain(v) && Plain(w)
    ensures Encoded(v) == Encoded(w) <==> Data(v) == Data(w)
    ensures Canonical(v) == Canonical(w) <==> Data(v) == Data(w)
  {
    CanonicalSorts(v);
    CanonicalSorts(w);
    if Data(v) == Data(w) {
      SortedUniquely(Canonical(v), Canonical(w));
    }
    WrittenReadsBack(Canonical(v), false, []);
    WrittenReadsBack(Canonical(w), false, []);
  }

  /** A value that went through its canonical text and back encodes as before. */
  lemma StoredEncodesAlike(v: Value, after: Text)
    requires Plain(v) && Blank(after)
    ensures var stored := ParseJson(Written(Canonical(v), true, after));
            stored.Some? && Plain(stored.value) && Encoded(stored.value) == Encoded(v)
  {
    CanonicalSorts(v);
    CanonicalIdempotent(v);
    WrittenReadsBack(Canonical(v), true, after);
  }
}
