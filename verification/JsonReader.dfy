/** The strict JSON reader itself: one cursor moved by mutually recursive closures, refusing
    repeated keys (scripts/ffi-connector-registry.js:23-82). */
module JsonReader {
  import opened Prelude
  import opened JsonSyntax
  import opened JsonRoundTrip

  datatype JsonError = Malformed | DuplicateKey(key: Text)

  // ---------------------------------------------------------------- specification on values

  datatype Read<+T> = Refused | Got(value: T, rest: Text)

  /** The value at the head of a text, if it is grammatical and repeats no key. */
  function ReadTree(s: Text): Read<Json> {
    var p := ParseTree(s);
    if p.Done? && Distinct(p.value) then Got(ValueOf(p.value), p.rest) else Refused
  }

  function ReadElems(s: Text): Read<seq<Json>> {
    var p := ParseElems(s);
    if p.Done? && DistinctElems(p.value) then Got(ElemValues(p.value), p.rest) else Refused
  }

  function ReadMembers(s: Text): Read<map<Text, Json>> {
    var p := ParseMembers(s);
    if p.Done? && DistinctMembers(p.value) then Got(MemberValues(p.value), p.rest) else Refused
  }

  function ReadParts(s: Text): Read<Text> {
    var p := ParseParts(s);
    if p.Done? then Got(Unescaped(p.value), p.rest) else Refused
  }

  /** A key, up to and including its colon. */
  function ReadKey(s: Text): Read<Text> {
    var p := ParseKey(s);
    if p.Done? then Got(Unescaped(p.value.0), p.rest) else Refused
  }

  function Prepend<T>(xs: seq<T>, r: Read<seq<T>>): Read<seq<T>> {
    if r.Got? then Got(xs + r.value, r.rest) else Refused
  }

  function Merge(m: map<Text, Json>, r: Read<map<Text, Json>>): Read<map<Text, Json>> {
    if r.Got? && m.Keys !! r.value.Keys then Got(m + r.value, r.rest) else Refused
  }

  lemma PrependTwice<T>(a: seq<T>, b: seq<T>, r: Read<seq<T>>)
    ensures Prepend([], r) == r
    ensures Prepend(a, Prepend(b, r)) == Prepend(a + b, r)
  {
    if r.Got? {
      assert [] + r.value == r.value && a + (b + r.value) == a + b + r.value;
    }
  }

  lemma MergeTwice(m: map<Text, Json>, k: Text, v: Json, r: Read<map<Text, Json>>)
    ensures Merge(map[], r) == r
    ensures k in m ==> Merge(m, Merge(map[k := v], r)) == Refused
    ensures k !in m ==> Merge(m, Merge(map[k := v], r)) == Merge(m[k := v], r)
  {
    if r.Got? {
      assert map[] + r.value == r.value;
      assert m + (map[k := v] + r.value) == m[k := v] + r.value;
      if k in m {
        assert k in map[k := v] + r.value;
      }
    }
  }

  /** One element and the delimiter after it; `last` tells a bracket from a comma. */
  datatype Item = Item(value: Json, last: bool)

  datatype Keyed = Keyed(key: Text, item: Item)

  function ElemHead(s: Text): Read<Item> {
    var v := ReadTree(Trim(s));
    if v.Refused? then Refused else Delimiter(v.value, Trim(v.rest), RBRACKET)
  }

  function Delimiter(v: Json, next: Text, close: Unit): Read<Item> {
    if next == [] then Refused
    else if next[0] == close then Got(Item(v, true), next[1..])
    else if next[0] == COMMA then Got(Item(v, false), next[1..])
    else Refused
  }

  /** How a list of elements is read, one element at a time. */
  lemma ElemsStep(s: Text)
    ensures ReadElems(s) ==
            var h := ElemHead(s);
            if h.Refused? then Refused
            else if h.value.last then Got([h.value.value], h.rest)
            else Prepend([h.value.value], ReadElems(h.rest))
  {
    var v := ParseTree(Trim(s));
    if v.Done? {
      var elem, next := Elem(Spaces(s), v.value, Spaces(v.rest)), Trim(v.rest);
      MoreElemsStep(elem, next);
      var p := ParseElems(s);
      if p.Done? {
        ElemCons(elem, p.value[1..]);
        assert p.value == [elem] + p.value[1..];
        assert [ValueOf(elem.tree)] + [] == [ValueOf(elem.tree)];
      }
    }
  }

  lemma ElemCons(e: Elem, es: seq<Elem>)
    ensures ElemValues([e] + es) == [ValueOf(e.tree)] + ElemValues(es)
    ensures DistinctElems([e] + es) <==> Distinct(e.tree) && DistinctElems(es)
  {
    assert ([e] + es)[1..] == es;
  }

  lemma MoreElemsStep(elem: Elem, next: Text)
    ensures MoreElems(elem, next).Done? ==>
              && next != [] && (next[0] == RBRACKET || next[0] == COMMA)
              && var es := MoreElems(elem, next).value;
                 es != [] && es[0] == elem && es[1..] == if next[0] == RBRACKET then [] else ParseElems(next[1..]).value
  {
  }

  /** The value of a member, after its colon, and the delimiter. */
  function MemberHead(s: Text): Read<Item> {
    var v := ReadTree(Trim(s));
    if v.Refused? then Refused else Delimiter(v.value, Trim(v.rest), RBRACE)
  }

  lemma MembersStep(s: Text)
    ensures ReadMembers(s) ==
            var k := ReadKey(Trim(s));
            if k.Refused? then Refused
            else
              var h := MemberHead(k.rest);
              if h.Refused? then Refused
              else if h.value.last then Got(map[k.value := h.value.value], h.rest)
              else Merge(map[k.value := h.value.value], ReadMembers(h.rest))
  {
    hide ValueOf;
    hide Distinct;
    hide ParseTree;
    hide SpaceLength;
    hide ParseParts;
    var e := ParseEntry(s);
    if e.Done? {
      var member, next := Member(e.value, Spaces(e.rest)), Trim(e.rest);
      MoreMembersStep(member, next);
      var p := ParseMembers(s);
      if p.Done? {
        MemberCons(member, p.value[1..]);
        assert p.value == [member] + p.value[1..];
      }
    }
  }

  lemma MemberCons(m: Member, ms: seq<Member>)
    ensures MemberValues([m] + ms) == MemberValues(ms)[KeyOf(m) := ValueOf(m.entry.tree)]
    ensures DistinctMembers([m] + ms) <==> KeyOf(m) !in MemberValues(ms) && Distinct(m.entry.tree) && DistinctMembers(ms)
    ensures KeyOf(m) !in MemberValues(ms) ==>
              MemberValues([m] + ms) == map[KeyOf(m) := ValueOf(m.entry.tree)] + MemberValues(ms)
  {
    assert ([m] + ms)[1..] == ms;
  }

  lemma MoreMembersStep(member: Member, next: Text)
    ensures MoreMembers(member, next).Done? ==>
              && next != [] && (next[0] == RBRACE || next[0] == COMMA)
              && var ms := MoreMembers(member, next).value;
                 ms != [] && ms[0] == member && ms[1..] == if next[0] == RBRACE then [] else ParseMembers(next[1..]).value
  {
  }

  lemma TrimTwice(s: Text)
    ensures Trim(Trim(s)) == Trim(s)
  {
  }

  // ---------------------------------------------------------------- the reader

  ghost predicate Reads<T>(text: Text, spec: Read<T>, r: Result<T, JsonError>, i: nat) {
    match spec
    case Got(v, rest) => r == Ok(v) && i <= |text| && text[i..] == rest
    case Refused => r.Err?
  }

  /** A string with its opening quote at position `i`. */
  function StringSpec(text: Text, i: nat): Read<Text> {
    if i < |text| && text[i] == QUOTE then ReadParts(text[i + 1..]) else Refused
  }

  class Reader {
    const text: Text
    var i: nat

    constructor (text: Text)
      ensures this.text == text && i == 0
    {
      this.text := text;
      i := 0;
    }

    method Ws()
      requires i <= |text|
      modifies `i
      ensures old(i) <= i <= |text| && text[i..] == Trim(text[old(i)..])
    {
      assert text[i..] == text[old(i)..];
      while i < |text| && IsSpace(text[i])
        invariant old(i) <= i <= |text|
        invariant Trim(text[i..]) == Trim(text[old(i)..])
      {
        TrimStep(text[i..]);
        assert text[i..][1..] == text[i + 1..];
        i := i + 1;
      }
      TrimStop(text[i..]);
    }

    method ReadLiteral(w: Word) returns (r: Result<Json, JsonError>)
      requires i < |text|
      modifies `i
      ensures Reads(text, if ParseWord(text[old(i)..], w).Done? then Got(WordValue(w), ParseWord(text[old(i)..], w).rest) else Refused, r, i)
    {
      var s := WordText(w);
      if i + |s| <= |text| {
        assert text[i..][..|s|] == text[i..i + |s|] && text[i..][|s|..] == text[i + |s|..];
      }
      if i + |s| > |text| || text[i..i + |s|] != s {
        return Err(Malformed);
      }
      i := i + |s|;
      return Ok(WordValue(w));
    }

    /** Lines 36-49: the character or escape at the cursor, which is no quote. */
    method ReadPart() returns (r: Result<Unit, JsonError>)
      requires i < |text| && text[i] != QUOTE
      modifies `i
      ensures Reads(text, PartSpec(text[old(i)..]), r, i)
      ensures r.Ok? ==> i > old(i)
    {
      ghost var s := text[i..];
      var c := text[i];
      i := i + 1;
      assert s[1..] == text[i..];
      if c == BACKSLASH {
        if i == |text| {
          return Err(Malformed);
        }
        var e := text[i];
        i := i + 1;
        assert e == s[1] && s[2..] == text[i..];
        if IsShort(e) {
          return Ok(ShortValue(e));
        } else if e == LOWER_U {
          if i + 4 > |text| || !IsHex(text[i]) || !IsHex(text[i + 1]) || !IsHex(text[i + 2]) || !IsHex(text[i + 3]) {
            return Err(Malformed);
          }
          var u := 4096 * HexValue(text[i]) + 256 * HexValue(text[i + 1]) + 16 * HexValue(text[i + 2]) + HexValue(text[i + 3]);
          i := i + 4;
          assert s[6..] == text[i..];
          return Ok(u);
        } else {
          return Err(Malformed);
        }
      } else if c < 0x20 {
        return Err(Malformed);
      } else {
        return Ok(c);
      }
    }

    /** Lines 30-51, from the opening quote. */
    method ReadString() returns (r: Result<Text, JsonError>)
      requires i <= |text|
      modifies `i
      ensures Reads(text, StringSpec(text, old(i)), r, i)
      ensures r.Ok? ==> i > old(i)
    {
      if i == |text| || text[i] != QUOTE {
        return Err(Malformed);
      }
      i := i + 1;
      var out := [];
      PrependTwice(out, [], ReadParts(text[i..]));
      while i < |text|
        invariant old(i) < i <= |text|
        invariant ReadParts(text[old(i) + 1..]) == Prepend(out, ReadParts(text[i..]))
      {
        PartsStep(text[i..]);
        assert text[i..][1..] == text[i + 1..];
        if text[i] == QUOTE {
          assert out + [] == out;
          i := i + 1;
          return Ok(out);
        }
        var u := ReadPart();
        if u.Err? {
          return Err(u.error);
        }
        PrependTwice(out, [u.value], ReadParts(text[i..]));
        out := out + [u.value];
      }
      return Err(Malformed);
    }

    method ReadNumber() returns (r: Result<Json, JsonError>)
      requires i <= |text|
      modifies `i
      ensures Reads(text, NumberSpec(text[old(i)..]), r, i)
      ensures r.Ok? ==> i > old(i)
    {
      var n := NumberLength(text[i..]);
      if n.None? {
        return Err(Malformed);
      }
      r := Ok(JNumber(text[i..i + n.value]));
      assert text[i..][..n.value] == text[i..i + n.value] && text[i..][n.value..] == text[i + n.value..];
      i := i + n.value;
    }

    method ReadValue() returns (r: Result<Json, JsonError>)
      requires i <= |text|
      modifies `i
      ensures Reads(text, ReadTree(Trim(text[old(i)..])), r, i)
      ensures r.Ok? ==> i > old(i)
      decreases |text| - i, 1
    {
      ghost var start := text[i..];
      Ws();
      if i == |text| {
        return Err(Malformed);
      }
      var c := text[i];
      ghost var s := text[i..];
      assert c == s[0] && s[1..] == text[i + 1..];
      if c == QUOTE {
        var str := ReadString();
        return if str.Ok? then Ok(JString(str.value)) else Err(str.error);
      } else if c == LBRACE {
        r := ReadObject();
      } else if c == LBRACKET {
        r := ReadArray();
      } else if c == TRUE_TEXT[0] {
        r := ReadLiteral(True);
      } else if c == FALSE_TEXT[0] {
        r := ReadLiteral(False);
      } else if c == NULL_TEXT[0] {
        r := ReadLiteral(Null);
      } else {
        r := ReadNumber();
      }
    }

    /** A value, blanks, and a comma or `close`: lines 67-68 and 77-78. */
    method ReadItem(close: Unit) returns (r: Result<Item, JsonError>)
      requires i <= |text| && (close == RBRACKET || close == RBRACE)
      modifies `i
      ensures Reads(text, if close == RBRACKET then ElemHead(text[old(i)..]) else MemberHead(text[old(i)..]), r, i)
      ensures r.Ok? ==> i > old(i)
      decreases |text| - i, 2
    {
      var v := ReadValue();
      if v.Err? {
        return Err(v.error);
      }
      Ws();
      if i == |text| {
        return Err(Malformed);
      }
      assert text[i..][1..] == text[i + 1..];
      i := i + 1;
      if text[i - 1] == close {
        return Ok(Item(v.value, true));
      }
      if text[i - 1] != COMMA {
        return Err(Malformed);
      }
      return Ok(Item(v.value, false));
    }

    method ReadArray() returns (r: Result<Json, JsonError>)
      requires i < |text| && text[i] == LBRACKET
      modifies `i
      ensures Reads(text, ReadTree(text[old(i)..]), r, i)
      ensures r.Ok? ==> i > old(i)
      decreases |text| - i, 0
    {
      ghost var s := text[i..];
      i := i + 1;
      assert s[1..] == text[i..];
      Ws();
      ArraySpec(s);
      ElemsTrim(s[1..]);
      if i < |text| && text[i] == RBRACKET {
        i := i + 1;
        assert Trim(s[1..])[1..] == text[i..];
        return Ok(JArray([]));
      }
      var out := [];
      PrependTwice(out, [], ReadElems(text[i..]));
      while true
        invariant old(i) < i <= |text|
        invariant ReadElems(s[1..]) == Prepend(out, ReadElems(text[i..]))
        decreases |text| - i
      {
        ElemsStep(text[i..]);
        var item := ReadItem(RBRACKET);
        if item.Err? {
          return Err(item.error);
        }
        PrependTwice(out, [item.value.value], ReadElems(text[i..]));
        out := out + [item.value.value];
        if item.value.last {
          return Ok(JArray(out));
        }
      }
    }

    /** Lines 74-76: blanks, a new key, blanks and a colon. */
    method ReadNewKey(keys: set<Text>) returns (r: Result<Text, JsonError>)
      requires i <= |text|
      modifies `i
      ensures r.Ok? ==> i > old(i) && Reads(text, ReadKey(Trim(text[old(i)..])), r, i) && r.value !in keys
      ensures r.Err? ==> ReadKey(Trim(text[old(i)..])).Got? ==> ReadKey(Trim(text[old(i)..])).value in keys
    {
      Ws();
      KeyStep(text, i);
      r := ReadString();
      if r.Err? {
        return;
      }
      if r.value in keys {
        return Err(DuplicateKey(r.value));
      }
      Ws();
      if i == |text| || text[i] != COLON {
        return Err(Malformed);
      }
      assert text[i..][1..] == text[i + 1..];
      i := i + 1;
    }

    method ReadObject() returns (r: Result<Json, JsonError>)
      requires i < |text| && text[i] == LBRACE
      modifies `i
      ensures Reads(text, ReadTree(text[old(i)..]), r, i)
      ensures r.Ok? ==> i > old(i)
      decreases |text| - i, 0
    {
      ghost var s := text[i..];
      i := i + 1;
      assert s[1..] == text[i..];
      Ws();
      ObjectSpec(s);
      MembersTrim(s[1..]);
      if i < |text| && text[i] == RBRACE {
        i := i + 1;
        assert Trim(s[1..])[1..] == text[i..];
        return Ok(JObject(map[]));
      }
      var ms := ReadMemberList();
      return if ms.Ok? then Ok(JObject(ms.value)) else Err(ms.error);
    }

    /** One turn of the loop: a key not seen before, and its value. */
    method ReadMember(keys: set<Text>, ghost seen: map<Text, Json>) returns (r: Result<Keyed, JsonError>)
      requires i <= |text| && keys == seen.Keys
      modifies `i
      ensures r.Ok? ==> old(i) < i <= |text| && r.value.key !in keys
                        && ReadMembers(text[old(i)..]) ==
                           var m := map[r.value.key := r.value.item.value];
                           if r.value.item.last then Got(m, text[i..]) else Merge(m, ReadMembers(text[i..]))
      ensures r.Err? ==> Merge(seen, ReadMembers(text[old(i)..])).Refused?
      decreases |text| - i, 3
    {
      ghost var at := text[i..];
      MembersStep(at);
      var k := ReadNewKey(keys);
      if k.Err? {
        DuplicateRefused(seen, at);
        return Err(k.error);
      }
      var item := ReadItem(RBRACE);
      return if item.Ok? then Ok(Keyed(k.value, item.value)) else Err(item.error);
    }

    /** Lines 73-79: the members of an object that is not empty. */
    method ReadMemberList() returns (r: Result<map<Text, Json>, JsonError>)
      requires i <= |text|
      modifies `i
      ensures Reads(text, ReadMembers(text[old(i)..]), r, i)
      ensures r.Ok? ==> i > old(i)
      decreases |text| - i, 4
    {
      hide ReadMembers;
      ghost var s := text[i..];
      var out: map<Text, Json> := map[];
      var keys: set<Text> := {};
      MergeTwice(out, [], JNull, ReadMembers(s));
      while true
        invariant old(i) <= i <= |text|
        invariant keys == out.Keys
        invariant ReadMembers(s) == Merge(out, ReadMembers(text[i..]))
        decreases |text| - i
      {
        var m := ReadMember(keys, out);
        if m.Err? {
          return Err(m.error);
        }
        MergeTwice(out, m.value.key, m.value.item.value, ReadMembers(text[i..]));
        assert out + map[m.value.key := m.value.item.value] == out[m.value.key := m.value.item.value];
        keys := keys + {m.value.key};
        out := out[m.value.key := m.value.item.value];
        if m.value.item.last {
          return Ok(out);
        }
      }
    }
  }

  /** One part at the head of a text. */
  function PartSpec(s: Text): Read<Unit>
    requires s != [] && s[0] != QUOTE
  {
    var p := ParsePart(s);
    if p.Done? then Got(PartUnit(p.value), p.rest) else Refused
  }

  function NumberSpec(s: Text): Read<Json> {
    var p := ParseNumber(s);
    if p.Done? then Got(ValueOf(p.value), p.rest) else Refused
  }

  lemma PartsStep(s: Text)
    ensures ReadParts(s) ==
            if s == [] then Refused
            else if s[0] == QUOTE then Got([], s[1..])
            else
              var u := PartSpec(s);
              if u.Refused? then Refused else Prepend([u.value], ReadParts(u.rest))
  {
    assert Unescaped([]) == [];
    if s != [] && s[0] != QUOTE && ParsePart(s).Done? {
      var head := ParsePart(s);
      var tail := ParseParts(head.rest);
      if tail.Done? {
        assert Unescaped([head.value] + tail.value) == [PartUnit(head.value)] + Unescaped(tail.value);
      }
    }
  }

  /** A key is a string, blanks and a colon. */
  lemma KeyStep(text: Text, i: nat)
    requires i <= |text|
    ensures ReadKey(text[i..]) ==
            var k := StringSpec(text, i);
            if k.Refused? then Refused
            else
              var next := Trim(k.rest);
              if next == [] || next[0] != COLON then Refused else Got(k.value, next[1..])
  {
    if i < |text| {
      assert text[i..][1..] == text[i + 1..];
    }
  }

  /** Once a key comes again, or none comes, the rest of the object cannot be read. */
  lemma DuplicateRefused(m: map<Text, Json>, s: Text)
    requires ReadKey(Trim(s)).Got? ==> ReadKey(Trim(s)).value in m
    ensures Merge(m, ReadMembers(s)).Refused?
  {
    MembersStep(s);
    if ReadMembers(s).Got? {
      assert ReadKey(Trim(s)).value in ReadMembers(s).value;
    }
  }

  lemma ElemsTrim(s: Text)
    ensures ReadElems(s) == ReadElems(Trim(s))
  {
    TrimTwice(s);
    ElemsStep(s);
    ElemsStep(Trim(s));
  }

  lemma MembersTrim(s: Text)
    ensures ReadMembers(s) == ReadMembers(Trim(s))
  {
    TrimTwice(s);
    MembersStep(s);
    MembersStep(Trim(s));
  }

  lemma ArraySpec(s: Text)
    requires s != [] && s[0] == LBRACKET
    ensures ReadTree(s) ==
            var body := Trim(s[1..]);
            if body != [] && body[0] == RBRACKET then Got(JArray([]), body[1..])
            else
              var es := ReadElems(s[1..]);
              if es.Refused? then Refused else Got(JArray(es.value), es.rest)
  {
    assert ParseTree(s) == ParseArray(s);
  }

  lemma ObjectSpec(s: Text)
    requires s != [] && s[0] == LBRACE
    ensures ReadTree(s) ==
            var body := Trim(s[1..]);
            if body != [] && body[0] == RBRACE then Got(JObject(map[]), body[1..])
            else
              var ms := ReadMembers(s[1..]);
              if ms.Refused? then Refused else Got(JObject(ms.value), ms.rest)
  {
    assert ParseTree(s) == ParseObject(s);
  }

  lemma TrimStep(s: Text)
    requires s != [] && IsSpace(s[0])
    ensures Trim(s[1..]) == Trim(s)
  {
    assert s[1..][SpaceLength(s[1..])..] == s[1 + SpaceLength(s[1..])..];
  }

  lemma TrimStop(s: Text)
    requires s == [] || !IsSpace(s[0])
    ensures Trim(s) == s
  {
  }

  // ---------------------------------------------------------------- whole documents

  /** The document that `text` is the printing of, if it is one that repeats no key. */
  function ReadDocument(text: Text): Option<Json> {
    var d := ParseDocument(text);
    if d.Some? && Distinct(d.value.tree) then Some(ValueOf(d.value.tree)) else None
  }

  /** `parseJsonStrict`. */
  method ParseJsonStrict(text: Text) returns (r: Result<Json, JsonError>)
    ensures r.Ok? <==> exists d :: WfDocument(d) && Distinct(d.tree) && text == PrintDocument(d)
    ensures forall d :: WfDocument(d) && text == PrintDocument(d) ==>
              if Distinct(d.tree) then r == Ok(ValueOf(d.tree)) else r.Err?
    ensures match ReadDocument(text) case Some(v) => r == Ok(v) case None => r.Err?
  {
    var reader := new Reader(text);
    assert text[0..] == text;
    r := reader.ReadValue();
    if r.Ok? {
      reader.Ws();
      if reader.i != |text| {
        r := Err(Malformed);
      }
    }
    assert match ReadDocument(text) case Some(v) => r == Ok(v) case None => r.Err?;
    if d :| WfDocument(d) && text == PrintDocument(d) {
      DocumentExact(text, d);
    }
    forall d | WfDocument(d) && text == PrintDocument(d)
      ensures ParseDocument(text) == Some(d)
    {
      DocumentExact(text, d);
    }
    if ParseDocument(text).Some? {
      DocumentExact(text, ParseDocument(text).value);
    }
  }

  /** The keys of the members, pairwise different. */
  lemma {:induction false} DistinctMeansDistinct(ms: seq<Member>)
    ensures forall k :: k in MemberValues(ms) <==> exists i :: 0 <= i < |ms| && KeyOf(ms[i]) == k
    ensures DistinctMembers(ms) <==>
            && (forall i, j :: 0 <= i < j < |ms| ==> KeyOf(ms[i]) != KeyOf(ms[j]))
            && (forall i :: 0 <= i < |ms| ==> Distinct(ms[i].entry.tree))
    ensures DistinctMembers(ms) ==>
              forall i :: 0 <= i < |ms| ==> MemberValues(ms)[KeyOf(ms[i])] == ValueOf(ms[i].entry.tree)
  {
    hide ValueOf;
    hide Distinct;
    hide KeyOf;
    if ms != [] {
      var rest := ms[1..];
      DistinctMeansDistinct(rest);
      assert forall i :: 1 <= i < |ms| ==> ms[i] == rest[i - 1];
      assert forall i :: 0 <= i < |rest| ==> rest[i] == ms[i + 1];
      forall k
        ensures k in MemberValues(ms) <==> exists i :: 0 <= i < |ms| && KeyOf(ms[i]) == k
      {
        KeysOfMembers(ms, k);
      }
    }
  }

  lemma {:induction false} KeysOfMembers(ms: seq<Member>, k: Text)
    ensures k in MemberValues(ms) <==> exists i :: 0 <= i < |ms| && KeyOf(ms[i]) == k
  {
    hide ValueOf;
    hide KeyOf;
    if ms != [] {
      var rest := ms[1..];
      KeysOfMembers(rest, k);
      if k in MemberValues(rest) {
        var i :| 0 <= i < |rest| && KeyOf(rest[i]) == k;
        assert KeyOf(ms[i + 1]) == k;
      }
      if i :| 0 <= i < |ms| && KeyOf(ms[i]) == k {
        if i > 0 {
          assert KeyOf(rest[i - 1]) == k;
        }
      }
    }
  }
}
