/** Canonical call rows (roster/tezos-call-resolution/comparison.js:4-24). */
module Rows {
  import opened Prelude

  datatype Kind = MUST | MAY_ENUMERATED | MAY_TOP

  datatype Form = ValueAlias | ModuleAlias

  /** A canonical row: the ten fields that identify a call fact. */
  datatype Row = Row(
    callerPath: string, caller: string, callSite: Option<string>,
    targetPath: Option<string>, target: Option<string>, calleeName: string,
    kind: Kind, edgeForm: Option<Form>, topReason: Option<string>, topAnchor: Option<string>)

  /** A canonical row with the line ranges of its caller and target. */
  datatype PosRow = PosRow(row: Row, callerStart: Option<int>, callerEnd: Option<int>, targetStart: Option<int>, targetEnd: Option<int>)

  function RowOf(p: PosRow): Row { p.row }

  // ---------------------------------------------------------------- canonical rows

  /** A field value of a raw row; `Other` stands for numbers, booleans and objects. */
  datatype Js = Undefined | Null | Text(s: string) | Other

  datatype Field =
    | CallerPath | Caller | CallSite | TargetPath | Target | CalleeName | KindField
    | EdgeForm | TopReason | TopAnchor
    | Unnamed(name: string)

  type RawRow = map<Field, Js>

  datatype InputError =
    | Lacks(field: Field)
    | UndefinedField(field: Field)
    | InvalidIdentity
    | PartialTarget
    | InvalidTarget
    | InvalidCallSite
    | InvalidKind
    | InvalidEdgeForm
    | InvalidTopReason
    | InvalidTopAnchor

  const CANONICAL_FIELDS: seq<Field> :=
    [CallerPath, Caller, CallSite, TargetPath, Target, CalleeName, KindField, EdgeForm, TopReason, TopAnchor]

  predicate Named(f: Field) {
    !f.Unnamed?
  }

  lemma NamedFields()
    ensures forall f :: f in CANONICAL_FIELDS <==> Named(f)
  {
    forall f
      ensures f in CANONICAL_FIELDS <==> Named(f)
    {
      assert CANONICAL_FIELDS[0] == CallerPath && CANONICAL_FIELDS[1] == Caller && CANONICAL_FIELDS[2] == CallSite;
      assert CANONICAL_FIELDS[3] == TargetPath && CANONICAL_FIELDS[4] == Target && CANONICAL_FIELDS[5] == CalleeName;
      assert CANONICAL_FIELDS[6] == KindField && CANONICAL_FIELDS[7] == EdgeForm && CANONICAL_FIELDS[8] == TopReason;
      assert CANONICAL_FIELDS[9] == TopAnchor;
    }
  }

  /** The first of the listed fields that the row lacks or leaves undefined. */
  function FirstMissing(raw: RawRow, fields: seq<Field>): (e: Option<InputError>)
    ensures e.None? <==> forall f :: f in fields ==> f in raw && raw[f] != Undefined
  {
    if fields == [] then None
    else if fields[0] !in raw then Some(Lacks(fields[0]))
    else if raw[fields[0]] == Undefined then Some(UndefinedField(fields[0]))
    else FirstMissing(raw, fields[1..])
  }

  predicate NonEmptyText(v: Js) {
    v.Text? && v.s != ""
  }

  predicate NullOrText(v: Js) {
    v.Null? || v.Text?
  }

  function Optional(v: Js): Option<string> {
    if v.Text? then Some(v.s) else None
  }

  function ParseKind(v: Js): Option<Kind> {
    if v == Text("MUST") then Some(MUST)
    else if v == Text("MAY_ENUMERATED") then Some(MAY_ENUMERATED)
    else if v == Text("MAY_TOP") then Some(MAY_TOP)
    else None
  }

  function ParseForm(v: Js): Option<Option<Form>> {
    if v == Null then Some(None)
    else if v == Text("value_alias") then Some(Some(ValueAlias))
    else if v == Text("module_alias") then Some(Some(ModuleAlias))
    else None
  }

  predicate Present(raw: RawRow) {
    && CallerPath in raw && Caller in raw && CallSite in raw && TargetPath in raw && Target in raw
    && CalleeName in raw && KindField in raw && EdgeForm in raw && TopReason in raw && TopAnchor in raw
  }

  function CanonicalRow(raw: RawRow): Result<Row, InputError> {
    var missing := FirstMissing(raw, CANONICAL_FIELDS);
    if missing.Some? then Err(missing.value) else
    NamedFields();
    assert forall f :: Named(f) ==> f in raw;
    CheckTypes(raw)
  }

  /** Lines 14-22: the checks on the ten fields, all of which are there. */
  function CheckTypes(raw: RawRow): Result<Row, InputError>
    requires Present(raw)
  {
    var kind, form := ParseKind(raw[KindField]), ParseForm(raw[EdgeForm]);
    if !NonEmptyText(raw[CallerPath]) || !NonEmptyText(raw[Caller]) || !NonEmptyText(raw[CalleeName]) then Err(InvalidIdentity)
    else if raw[TargetPath].Null? != raw[Target].Null? then Err(PartialTarget)
    else if !raw[Target].Null? && (!NonEmptyText(raw[Target]) || !NonEmptyText(raw[TargetPath])) then Err(InvalidTarget)
    else if !NullOrText(raw[CallSite]) then Err(InvalidCallSite)
    else if kind.None? then Err(InvalidKind)
    else if form.None? then Err(InvalidEdgeForm)
    else if !NullOrText(raw[TopReason]) then Err(InvalidTopReason)
    else if !NullOrText(raw[TopAnchor]) then Err(InvalidTopAnchor)
    else Ok(Row(raw[CallerPath].s, raw[Caller].s, Optional(raw[CallSite]), Optional(raw[TargetPath]),
                Optional(raw[Target]), raw[CalleeName].s, kind.value, form.value,
                Optional(raw[TopReason]), Optional(raw[TopAnchor])))
  }

  predicate ValidRow(r: Row) {
    && r.callerPath != "" && r.caller != "" && r.calleeName != ""
    && (r.target.None? <==> r.targetPath.None?)
    && r.target != Some("") && r.targetPath != Some("")
  }

  function FromOptional(v: Option<string>): Js {
    if v.Some? then Text(v.value) else Null
  }

  function RenderKind(k: Kind): string {
    match k case MUST => "MUST" case MAY_ENUMERATED => "MAY_ENUMERATED" case MAY_TOP => "MAY_TOP"
  }

  function RenderForm(f: Option<Form>): Js {
    match f case None => Null case Some(ValueAlias) => Text("value_alias") case Some(ModuleAlias) => Text("module_alias")
  }

  /** The object that canonicalRow builds for a row. */
  function ToRaw(r: Row): RawRow {
    map[CallerPath := Text(r.callerPath), Caller := Text(r.caller), CallSite := FromOptional(r.callSite),
        TargetPath := FromOptional(r.targetPath), Target := FromOptional(r.target),
        CalleeName := Text(r.calleeName), KindField := Text(RenderKind(r.kind)), EdgeForm := RenderForm(r.edgeForm),
        TopReason := FromOptional(r.topReason), TopAnchor := FromOptional(r.topAnchor)]
  }

  lemma RenderParse(k: Kind, f: Option<Form>)
    ensures ParseKind(Text(RenderKind(k))) == Some(k) && ParseForm(RenderForm(f)) == Some(f)
  {
    assert "MUST"[1] == 'U' && "MAY_ENUMERATED"[4] == 'E' && "MAY_TOP"[4] == 'T';
    assert "value_alias"[0] == 'v' && "module_alias"[0] == 'm';
  }

  /** Canonicalisation keeps every well-formed row, refuses every other, and ignores fields
      it does not name. */
  lemma CanonicalRoundTrip(r: Row, extra: RawRow)
    requires forall f :: f in extra ==> !Named(f)
    ensures CanonicalRow(ToRaw(r) + extra) ==
            if r.callerPath == "" || r.caller == "" || r.calleeName == "" then Err(InvalidIdentity)
            else if r.targetPath.None? != r.target.None? then Err(PartialTarget)
            else if r.target == Some("") || r.targetPath == Some("") then Err(InvalidTarget)
            else Ok(r)
  {
    hide CheckTypes;
    hide ToRaw;
    var raw := ToRaw(r) + extra;
    NamedFields();
    forall f | Named(f)
      ensures f in raw && f in ToRaw(r) && raw[f] == ToRaw(r)[f] && raw[f] != Undefined
    {
      NamedFieldKept(r, extra, f);
    }
    assert FirstMissing(raw, CANONICAL_FIELDS).None?;
    CheckedRoundTrip(r, raw);
  }

  lemma NamedFieldKept(r: Row, extra: RawRow, f: Field)
    requires Named(f) && f !in extra
    ensures var raw := ToRaw(r) + extra; f in raw && f in ToRaw(r) && raw[f] == ToRaw(r)[f] && raw[f] != Undefined
  {
  }

  lemma CheckedRoundTrip(r: Row, raw: RawRow)
    requires Present(raw) && forall f :: Named(f) ==> f in ToRaw(r) && raw[f] == ToRaw(r)[f]
    ensures CheckTypes(raw) ==
            if r.callerPath == "" || r.caller == "" || r.calleeName == "" then Err(InvalidIdentity)
            else if r.targetPath.None? != r.target.None? then Err(PartialTarget)
            else if r.target == Some("") || r.targetPath == Some("") then Err(InvalidTarget)
            else Ok(r)
  {
    RenderParse(r.kind, r.edgeForm);
    assert raw[CallerPath] == Text(r.callerPath) && raw[Caller] == Text(r.caller) && raw[CalleeName] == Text(r.calleeName);
    assert raw[TargetPath] == FromOptional(r.targetPath) && raw[Target] == FromOptional(r.target);
    assert raw[CallSite] == FromOptional(r.callSite) && raw[TopReason] == FromOptional(r.topReason);
    assert raw[TopAnchor] == FromOptional(r.topAnchor);
    assert raw[KindField] == Text(RenderKind(r.kind)) && raw[EdgeForm] == RenderForm(r.edgeForm);
  }

  /** What canonicalisation accepts is a well-formed row that agrees with the raw row on all
      ten fields. */
  lemma CanonicalAgrees(raw: RawRow)
    requires CanonicalRow(raw).Ok?
    ensures ValidRow(CanonicalRow(raw).value)
    ensures forall f :: Named(f) ==> f in raw && raw[f] == ToRaw(CanonicalRow(raw).value)[f]
  {
    NamedFields();
    assert FirstMissing(raw, CANONICAL_FIELDS).None?;
    assert Present(raw);
    CheckedFieldsAgree(raw);
  }

  lemma CheckedFieldsAgree(raw: RawRow)
    requires Present(raw) && CheckTypes(raw).Ok?
    ensures ValidRow(CheckTypes(raw).value)
    ensures forall f :: Named(f) ==> f in raw && raw[f] == ToRaw(CheckTypes(raw).value)[f]
  {
    CheckedIsValid(raw);
    forall f | Named(f)
      ensures f in raw && raw[f] == ToRaw(CheckTypes(raw).value)[f]
    {
      CheckedFieldAgrees(raw, f);
    }
  }

  lemma CheckedIsValid(raw: RawRow)
    requires Present(raw) && CheckTypes(raw).Ok?
    ensures ValidRow(CheckTypes(raw).value)
  {
  }

  lemma CheckedFieldAgrees(raw: RawRow, f: Field)
    requires Present(raw) && CheckTypes(raw).Ok? && Named(f)
    ensures f in raw && raw[f] == ToRaw(CheckTypes(raw).value)[f]
  {
  }

  /** A row is valid exactly when the object made of it canonicalises back to it. */
  lemma ValidMeans(r: Row)
    ensures ValidRow(r) <==> CanonicalRow(ToRaw(r)) == Ok(r)
  {
    hide CanonicalRow;
    CanonicalRoundTrip(r, map[]);
    assert ToRaw(r) + map[] == ToRaw(r);
  }

  predicate SameText(v: Js, t: Option<string>) {
    v == (if t.Some? then Text(t.value) else Null)
  }

  /** The texts of kinds and forms, and where each field of a canonical row comes from. */
  lemma CanonicalMeans(raw: RawRow)
    requires CanonicalRow(raw).Ok?
    ensures forall f :: Named(f) ==> f in raw
    ensures var r := CanonicalRow(raw).value;
            && raw[CallerPath] == Text(r.callerPath) && raw[Caller] == Text(r.caller) && raw[CalleeName] == Text(r.calleeName)
            && SameText(raw[CallSite], r.callSite) && SameText(raw[TargetPath], r.targetPath) && SameText(raw[Target], r.target)
            && SameText(raw[TopReason], r.topReason) && SameText(raw[TopAnchor], r.topAnchor)
            && raw[KindField] == Text(match r.kind case MUST => "MUST" case MAY_ENUMERATED => "MAY_ENUMERATED" case MAY_TOP => "MAY_TOP")
            && SameText(raw[EdgeForm], match r.edgeForm case None => None case Some(ValueAlias) => Some("value_alias")
                                                        case Some(ModuleAlias) => Some("module_alias"))
  {
    hide CanonicalRow;
    CanonicalAgrees(raw);
    var r := CanonicalRow(raw).value;
    var fields := ToRaw(r);
    assert raw[CallerPath] == fields[CallerPath] && raw[Caller] == fields[Caller] && raw[CalleeName] == fields[CalleeName];
    assert raw[CallSite] == fields[CallSite] && raw[TargetPath] == fields[TargetPath] && raw[Target] == fields[Target];
    assert raw[TopReason] == fields[TopReason] && raw[TopAnchor] == fields[TopAnchor];
    assert raw[KindField] == fields[KindField] && raw[EdgeForm] == fields[EdgeForm];
  }
}
