/** The Rust producer's records as NDJSON text, and what a strict reader gets back. */
module RustRecords {
  import opened Prelude
  import opened JsonSyntax
  import opened JsonReader
  import opened NdJson
  import opened RustWalk

  function KindText(k: Kind): Text {
    match k case MUST => Ascii("MUST") case MAY_TOP => Ascii("MAY_TOP")
  }

  const FUNCTION_NAMES := ["type", "name", "file_path", "line_start", "line_end", "exported"]
  const CALL_NAMES := ["type", "caller_name", "caller_file", "callee_name", "callee_file", "call_site", "kind"]
  const DYN_NAMES := CALL_NAMES + ["x_dyn_trait", "x_dyn_method"]
  const FACT_SUBJECT_NAMES := ["type", "trait_path", "self_type_path", "method_name"]
  const FACT_DETAIL_NAMES := ["impl_crate", "publish_false", "is_blanket", "impl_fn_stable_name"]
  const FACT_NAMES := FACT_SUBJECT_NAMES + FACT_DETAIL_NAMES

  function Names(r: Record): seq<string> {
    match r
    case Function(_) => FUNCTION_NAMES
    case Call(_, _, _, _, _, _) => CALL_NAMES
    case DynCall(_, _, _, _, _) => DYN_NAMES
    case TraitImplFact(_, _, _, _, _, _, _) => FACT_NAMES
  }

  function Values(r: Record): seq<Value> {
    match r
    case Function(f) =>
      [TextValue(Some(Ascii("function"))), TextValue(Some(f.name)), TextValue(f.file), NumberValue(f.lineStart),
       NumberValue(f.lineEnd), FlagValue(f.exported)]
    case Call(caller, callerFile, callee, calleeFile, site, kind) =>
      [TextValue(Some(Ascii("call"))), TextValue(Some(caller)), TextValue(callerFile), TextValue(Some(callee)),
       TextValue(calleeFile), TextValue(Some(site)), TextValue(Some(KindText(kind)))]
    case DynCall(caller, callerFile, site, traitPath, methodName) =>
      [TextValue(Some(Ascii("call"))), TextValue(Some(caller)), TextValue(callerFile), TextValue(Some(TOP)),
       TextValue(None), TextValue(Some(site)), TextValue(Some(KindText(MAY_TOP))), TextValue(Some(traitPath)),
       TextValue(Some(methodName))]
    case TraitImplFact(traitPath, selfTypePath, methodName, implCrate, publishFalse, isBlanket, implName) =>
      [TextValue(Some(Ascii("trait_impl_fact"))), TextValue(Some(traitPath)), TextValue(Some(selfTypePath)),
       TextValue(Some(methodName)), TextValue(Some(implCrate)), FlagValue(publishFalse), FlagValue(isBlanket),
       TextValue(Some(implName))]
  }

  /** The named values of a record, in the order of its format string. */
  function Fields(r: Record): seq<Field> {
    seq(|Names(r)|, i requires 0 <= i < |Names(r)| => Field(Ascii(Names(r)[i]), Values(r)[i]))
  }

  function Render(r: Record): Text {
    RenderRecord(Fields(r))
  }

  function RenderAll(rs: seq<Record>): seq<Text> {
    Map(Render, rs)
  }

  /** Every text of the record is made of characters. */
  predicate CharsOnly(r: Record) {
    match r
    case Function(f) => Chars(f.name) && (f.file.Some? ==> Chars(f.file.value))
    case Call(caller, callerFile, callee, calleeFile, site, _) =>
      && Chars(caller) && (callerFile.Some? ==> Chars(callerFile.value)) && Chars(callee)
      && (calleeFile.Some? ==> Chars(calleeFile.value)) && Chars(site)
    case DynCall(caller, callerFile, site, traitPath, methodName) =>
      Chars(caller) && (callerFile.Some? ==> Chars(callerFile.value)) && Chars(site) && Chars(traitPath) && Chars(methodName)
    case TraitImplFact(traitPath, selfTypePath, methodName, implCrate, _, _, implName) =>
      Chars(traitPath) && Chars(selfTypePath) && Chars(methodName) && Chars(implCrate) && Chars(implName)
  }

  /** A name that needs no escaping. */
  predicate PlainString(s: string) {
    forall i :: 0 <= i < |s| ==> ' ' <= s[i] && s[i] != '"' && s[i] != '\\'
  }

  predicate PlainNames(names: seq<string>) {
    forall i :: 0 <= i < |names| ==> PlainString(names[i])
  }

  predicate GoodNames(names: seq<string>) {
    PlainNames(names) && forall i, j :: 0 <= i < j < |names| ==> names[i] != names[j]
  }

  lemma GoodNamesAscii(names: seq<string>)
    requires GoodNames(names)
    ensures forall i :: 0 <= i < |names| ==> PlainName(Ascii(names[i]))
    ensures forall i, j :: 0 <= i < j < |names| ==> Ascii(names[i]) != Ascii(names[j])
  {
    forall i, j | 0 <= i < j < |names|
      ensures Ascii(names[i]) != Ascii(names[j])
    {
      if |names[i]| == |names[j]| {
        var k :| 0 <= k < |names[i]| && names[i][k] != names[j][k];
        assert Ascii(names[i])[k] != Ascii(names[j])[k];
      }
    }
  }

  lemma PlainFunction1()
    ensures PlainString("type")
    ensures PlainString("name")
  {
  }

  lemma PlainFunction2()
    ensures PlainString("file_path")
    ensures PlainString("line_start")
  {
  }

  lemma PlainFunction3()
    ensures PlainString("line_end")
    ensures PlainString("exported")
  {
  }

  lemma FunctionNamesPlain()
    ensures PlainNames(FUNCTION_NAMES)
  {
    hide PlainString;
    PlainFunction1();
    PlainFunction2();
    PlainFunction3();
  }

  lemma FunctionNames()
    ensures GoodNames(FUNCTION_NAMES)
  {
    FunctionNamesPlain();
    hide PlainNames;
    assert "type"[0] != "name"[0];
    assert "line_end"[0] != "exported"[0];
  }

  lemma PlainCall1()
    ensures PlainString("caller_name")
    ensures PlainString("caller_file")
  {
  }

  lemma PlainCall2()
    ensures PlainString("callee_name")
    ensures PlainString("callee_file")
  {
  }

  lemma PlainCall3()
    ensures PlainString("call_site")
    ensures PlainString("kind")
  {
  }

  lemma CallNamesPlain()
    ensures PlainNames(CALL_NAMES)
  {
    hide PlainString;
    PlainFunction1();
    PlainCall1();
    PlainCall2();
    PlainCall3();
  }

  lemma CallNames()
    ensures GoodNames(CALL_NAMES)
  {
    CallNamesPlain();
    hide PlainNames;
    assert "type"[0] != "kind"[0];
    assert "caller_name"[7] != "caller_file"[7];
    assert "caller_name"[5] != "callee_name"[5];
    assert "caller_name"[5] != "callee_file"[5];
    assert "caller_file"[5] != "callee_name"[5];
    assert "caller_file"[5] != "callee_file"[5];
    assert "callee_name"[7] != "callee_file"[7];
  }

  lemma DynNames()
    ensures GoodNames(DYN_NAMES)
  {
    CallNames();
    assert "caller_name"[0] != "x_dyn_trait"[0];
    assert "caller_file"[0] != "x_dyn_trait"[0];
    assert "callee_name"[0] != "x_dyn_trait"[0];
    assert "callee_file"[0] != "x_dyn_trait"[0];
  }

  lemma PlainSubject1()
    ensures PlainString("trait_path")
    ensures PlainString("self_type_path")
  {
  }

  lemma PlainSubject2()
    ensures PlainString("method_name")
  {
  }

  lemma FactSubjectPlain()
    ensures PlainNames(FACT_SUBJECT_NAMES)
  {
    hide PlainString;
    PlainFunction1();
    PlainSubject1();
    PlainSubject2();
  }

  lemma PlainDetail1()
    ensures PlainString("impl_crate")
    ensures PlainString("publish_false")
  {
  }

  lemma PlainDetail2()
    ensures PlainString("is_blanket")
    ensures PlainString("impl_fn_stable_name")
  {
  }

  lemma FactDetailPlain()
    ensures PlainNames(FACT_DETAIL_NAMES)
  {
    hide PlainString;
    PlainDetail1();
    PlainDetail2();
  }

  lemma FactNames()
    ensures GoodNames(FACT_NAMES)
  {
    FactSubjectPlain();
    FactDetailPlain();
    assert "trait_path"[0] != "impl_crate"[0];
    assert "trait_path"[0] != "is_blanket"[0];
    assert "impl_crate"[1] != "is_blanket"[1];
  }

  lemma FixedTexts()
    ensures Chars(TOP) && Chars(Ascii("function")) && Chars(Ascii("call")) && Chars(Ascii("trait_impl_fact"))
    ensures Chars(KindText(MUST)) && Chars(KindText(MAY_TOP))
  {
  }

  lemma FieldsWf(r: Record)
    requires CharsOnly(r)
    ensures Fields(r) != [] && DistinctNames(Fields(r)) && forall f :: f in Fields(r) ==> WfField(f)
  {
    FunctionNames();
    CallNames();
    DynNames();
    FactNames();
    GoodNamesAscii(Names(r));
    ValuesWf(r);
  }

  lemma ValuesWf(r: Record)
    requires CharsOnly(r)
    ensures |Values(r)| == |Names(r)| && forall i :: 0 <= i < |Values(r)| ==> WfValue(Values(r)[i])
  {
    FixedTexts();
  }

  /** The strict reader finds in a rendered record exactly its fields. */
  lemma LineReadsBack(r: Record)
    requires CharsOnly(r)
    ensures ReadDocument(Render(r)).Some?
    ensures var v := ReadDocument(Render(r)).value; v.JObject? && IsRecord(v.members, Fields(r))
    ensures Printable(Render(r))
  {
    FieldsWf(r);
    RecordReadsBack(Fields(r));
    RecordPrintable(Fields(r));
  }

  /** The emitted stream of any records splits at its line feeds into exactly those records,
      each of which the strict reader reads back. */
  lemma StreamReadsBack(rs: seq<Record>)
    requires forall r :: r in rs ==> CharsOnly(r)
    ensures Lines(Unlines(RenderAll(rs))) == RenderAll(rs)
    ensures forall r :: r in rs ==>
              ReadDocument(Render(r)).Some? && ReadDocument(Render(r)).value.JObject?
              && IsRecord(ReadDocument(Render(r)).value.members, Fields(r))
  {
    forall r | r in rs
      ensures ReadDocument(Render(r)).Some? && ReadDocument(Render(r)).value.JObject?
      ensures IsRecord(ReadDocument(Render(r)).value.members, Fields(r))
    {
      LineReadsBack(r);
    }
    AllPrintable(rs);
    LinesRecovered(RenderAll(rs), []);
    assert Unlines(RenderAll(rs)) + [] == Unlines(RenderAll(rs));
    assert RenderAll(rs) + [] == RenderAll(rs);
  }

  lemma AllPrintable(rs: seq<Record>)
    requires forall r :: r in rs ==> CharsOnly(r)
    ensures forall l :: l in RenderAll(rs) ==> Printable(l)
  {
    forall i | 0 <= i < |rs|
      ensures Printable(RenderAll(rs)[i])
    {
      LineReadsBack(rs[i]);
      assert RenderAll(rs)[i] == Render(rs[i]);
    }
  }

  // ---------------------------------------------------------------- the lines

  function Optional(t: Option<Text>): Json {
    if t.Some? then JString(t.value) else JNull
  }

  function Number(n: Option<nat>): Json {
    if n.Some? then JNumber(Decimal(n.value)) else JNull
  }

  /** The members of an object, by name. */
  ghost predicate Members(v: Option<Json>, names: seq<string>, values: seq<Json>) {
    && |names| == |values| && v.Some? && v.value.JObject?
    && (forall i :: 0 <= i < |names| ==> Ascii(names[i]) in v.value.members && v.value.members[Ascii(names[i])] == values[i])
    && forall k :: k in v.value.members ==> exists i :: 0 <= i < |names| && Ascii(names[i]) == k
  }

  /** What the reader finds in the line of each kind of record. */
  lemma LinesMean(r: Record)
    requires CharsOnly(r)
    ensures match r
            case Function(f) =>
              Members(ReadDocument(Render(r)), ["type", "name", "file_path", "line_start", "line_end", "exported"],
                      [JString(Ascii("function")), JString(f.name), Optional(f.file), Number(f.lineStart), Number(f.lineEnd), JBool(f.exported)])
            case Call(caller, callerFile, callee, calleeFile, site, kind) =>
              Members(ReadDocument(Render(r)), ["type", "caller_name", "caller_file", "callee_name", "callee_file", "call_site", "kind"],
                      [JString(Ascii("call")), JString(caller), Optional(callerFile), JString(callee), Optional(calleeFile), JString(site),
                       JString(if kind == MUST then Ascii("MUST") else Ascii("MAY_TOP"))])
            case DynCall(caller, callerFile, site, traitPath, methodName) =>
              Members(ReadDocument(Render(r)),
                      ["type", "caller_name", "caller_file", "callee_name", "callee_file", "call_site", "kind", "x_dyn_trait", "x_dyn_method"],
                      [JString(Ascii("call")), JString(caller), Optional(callerFile), JString(Ascii("*TOP*")), JNull, JString(site),
                       JString(Ascii("MAY_TOP")), JString(traitPath), JString(methodName)])
            case TraitImplFact(traitPath, selfTypePath, methodName, implCrate, publishFalse, isBlanket, implName) =>
              Members(ReadDocument(Render(r)),
                      ["type", "trait_path", "self_type_path", "method_name", "impl_crate", "publish_false", "is_blanket", "impl_fn_stable_name"],
                      [JString(Ascii("trait_impl_fact")), JString(traitPath), JString(selfTypePath), JString(methodName), JString(implCrate),
                       JBool(publishFalse), JBool(isBlanket), JString(implName)])
  {
    LineReadsBack(r);
    RecordMembers(r);
    NamesMean(r);
    ValuesMean(r);
    hide ReadDocument;
    hide Render;
    hide Ascii;
    hide Members;
    hide Values;
    hide Names;
    hide Fields;
    hide IsRecord;
    hide CharsOnly;
    hide ReadValueOf;
    hide Number;
    hide Optional;
  }

  function ReadValues(vs: seq<Value>): seq<Json> {
    seq(|vs|, i requires 0 <= i < |vs| => ReadValueOf(vs[i]))
  }

  lemma NamesMean(r: Record)
    ensures match r
            case Function(_) => Names(r) == ["type", "name", "file_path", "line_start", "line_end", "exported"]
            case Call(_, _, _, _, _, _) =>
              Names(r) == ["type", "caller_name", "caller_file", "callee_name", "callee_file", "call_site", "kind"]
            case DynCall(_, _, _, _, _) =>
              Names(r) == ["type", "caller_name", "caller_file", "callee_name", "callee_file", "call_site", "kind", "x_dyn_trait", "x_dyn_method"]
            case TraitImplFact(_, _, _, _, _, _, _) =>
              Names(r) == ["type", "trait_path", "self_type_path", "method_name", "impl_crate", "publish_false", "is_blanket", "impl_fn_stable_name"]
  {
  }

  lemma ValuesMean(r: Record)
    ensures match r
            case Function(f) =>
              ReadValues(Values(r)) ==
              [JString(Ascii("function")), JString(f.name), Optional(f.file), Number(f.lineStart), Number(f.lineEnd), JBool(f.exported)]
            case Call(caller, callerFile, callee, calleeFile, site, kind) =>
              ReadValues(Values(r)) ==
              [JString(Ascii("call")), JString(caller), Optional(callerFile), JString(callee), Optional(calleeFile), JString(site),
               JString(if kind == MUST then Ascii("MUST") else Ascii("MAY_TOP"))]
            case DynCall(caller, callerFile, site, traitPath, methodName) =>
              ReadValues(Values(r)) ==
              [JString(Ascii("call")), JString(caller), Optional(callerFile), JString(Ascii("*TOP*")), JNull, JString(site),
               JString(Ascii("MAY_TOP")), JString(traitPath), JString(methodName)]
            case TraitImplFact(traitPath, selfTypePath, methodName, implCrate, publishFalse, isBlanket, implName) =>
              ReadValues(Values(r)) ==
              [JString(Ascii("trait_impl_fact")), JString(traitPath), JString(selfTypePath), JString(methodName), JString(implCrate),
               JBool(publishFalse), JBool(isBlanket), JString(implName)]
  {
    hide Ascii;
    hide Decimal;
    assert TOP == Ascii("*TOP*");
  }

  lemma SameLengths(r: Record)
    ensures |Values(r)| == |Names(r)|
  {
  }

  lemma RecordMembers(r: Record)
    requires ReadDocument(Render(r)).Some?
    requires var v := ReadDocument(Render(r)).value; v.JObject? && IsRecord(v.members, Fields(r))
    ensures |Values(r)| == |Names(r)|
    ensures Members(ReadDocument(Render(r)), Names(r), ReadValues(Values(r)))
  {
    hide ReadDocument;
    hide Render;
    hide Ascii;
    hide ReadValueOf;
    SameLengths(r);
    hide Names;
    hide Values;
    var m := ReadDocument(Render(r)).value.members;
    forall i | 0 <= i < |Names(r)|
      ensures Ascii(Names(r)[i]) in m && m[Ascii(Names(r)[i])] == ReadValueOf(Values(r)[i])
    {
      assert Fields(r)[i] == Field(Ascii(Names(r)[i]), Values(r)[i]);
      assert Fields(r)[i] in Fields(r);
    }
    forall k | k in m
      ensures exists i :: 0 <= i < |Names(r)| && Ascii(Names(r)[i]) == k
    {
      var f :| f in Fields(r) && f.name == k;
      var i :| 0 <= i < |Fields(r)| && Fields(r)[i] == f;
      assert Ascii(Names(r)[i]) == k;
    }
  }
}
