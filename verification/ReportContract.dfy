/** The contracts and the delta of the api-review consumer
    (scripts/analysis-report-consumer.js:22-75). */
module ReportContract {
  import opened JsonRoundTrip
  import opened JsonSyntax
  import opened JsonValue
  import opened Order
  import opened Prelude
  import opened Splitting

  function Units(s: string): Text {
    seq(|s|, i requires 0 <= i < |s| => s[i] as int)
  }

  // ---------------------------------------------------------------- looking into values

  function FindField(fs: seq<Field>, key: Text): Option<Value> {
    if fs == [] then None else if fs[0].key == key then Some(fs[0].value) else FindField(fs[1..], key)
  }

  /** A property of a value; `None` stands for undefined. */
  function Get(v: Value, key: string): Option<Value> {
    if v.VObject? then FindField(v.fields, Units(key)) else None
  }

  predicate IsText(v: Option<Value>, s: string) {
    v == Some(VString(Units(s)))
  }

  predicate NonEmpty(v: Option<Value>) {
    v.Some? && v.value.VString? && v.value.text != []
  }

  predicate IsArray(v: Option<Value>) {
    v.Some? && v.value.VArray?
  }

  lemma {:induction false} FindsField(fs: seq<Field>, i: nat)
    requires PlainFields(fs) && i < |fs|
    ensures FindField(fs, fs[i].key) == Some(fs[i].value)
  {
    if i > 0 {
      assert fs[1..][i - 1] == fs[i];
      FindsField(fs[1..], i - 1);
      assert fs[i] in fs[1..];
    }
  }

  // ---------------------------------------------------------------- reports

  datatype Refusal =
    | NotJson | NotAnObject | WrongProfile | NoSchema | NoSections | NoSurface | BadProducer
    | BadFinding | BadIdentity | DuplicateIdentity | CountDisagrees
    | BadScope | BadRun | NoReportFile | HashDiffers | Incompatible | Unreadable

  datatype ApiRow = ApiRow(identity: Text, location: Option<Value>, id: Text)

  /** `schema` and `coverage` as written, `producers` both as written and as compared. */
  datatype Report = Report(schema: Text, producers: seq<Value>, identity: seq<Value>, coverage: Value, rows: seq<ApiRow>)

  const BAR: int := 0x7C

  /** `file:function`. */
  function Identity(file: Text, name: Text): Text {
    file + [COLON] + name
  }

  /** Lines 48-53, for one finding. */
  function ApiRowOf(finding: Value): Result<ApiRow, Refusal> {
    var id := Get(finding, "id");
    if !IsText(Get(finding, "kind"), "api_surface") || !NonEmpty(id) then Err(BadFinding)
    else
      var parts := Split(BAR, id.value.text);
      if parts[0] != Units("api_surface") || |parts| == 1 then Err(BadFinding)
      else if |parts| != 3 || parts[1] == [] || parts[2] == [] || Get(finding, "subject") != Some(VString(parts[2])) then Err(BadIdentity)
      else Ok(ApiRow(Identity(parts[1], parts[2]), Get(finding, "location"), id.value.text))
  }

  /** A finding is no finding of the kind exactly when it has another kind, or an id that does
      not start with the kind and a bar; any other refusal is one of its identity. */
  lemma NoFindingExact(finding: Value)
    ensures ApiRowOf(finding) == Err(BadFinding) <==>
            !(IsText(Get(finding, "kind"), "api_surface")
              && exists rest :: Get(finding, "id") == Some(VString(Units("api_surface") + [BAR] + rest)))
    ensures ApiRowOf(finding).Err? ==> ApiRowOf(finding).error in {BadFinding, BadIdentity}
  {
    hide Split;
    var id := Get(finding, "id");
    if NonEmpty(id) {
      SplitFirst(BAR, id.value.text, Units("api_surface"));
      if Units("api_surface") + [BAR] <= id.value.text {
        assert id.value.text == Units("api_surface") + [BAR] + id.value.text[|Units("api_surface") + [BAR]|..];
      }
    }
  }

  /** What a finding of this kind must look like, for its file and its function. */
  ghost predicate Names(finding: Value, file: Text, name: Text) {
    && IsText(Get(finding, "kind"), "api_surface")
    && file != [] && name != [] && BAR !in file && BAR !in name
    && Get(finding, "id") == Some(VString(Joined(BAR, [Units("api_surface"), file, name])))
    && Get(finding, "subject") == Some(VString(name))
  }

  lemma ThreeParts(file: Text, name: Text)
    requires BAR !in file && BAR !in name
    ensures Split(BAR, Joined(BAR, [Units("api_surface"), file, name])) == [Units("api_surface"), file, name]
  {
    var parts := [Units("api_surface"), file, name];
    assert forall p :: p in parts ==> p == Units("api_surface") || p == file || p == name;
    JoinSplits(BAR, parts);
  }

  lemma JoinedNonEmpty(file: Text, name: Text)
    ensures Joined(BAR, [Units("api_surface"), file, name]) != []
  {
    assert |Units("api_surface")| == 11;
  }

  /** A finding is accepted exactly when its id names a file and a function, and its subject
      is that function; its row is then theirs. */
  lemma FindingExact(finding: Value)
    ensures ApiRowOf(finding).Ok? <==> exists file, name :: Names(finding, file, name)
    ensures forall file, name :: Names(finding, file, name) ==>
              && ApiRowOf(finding).Ok? && ApiRowOf(finding).value.identity == Identity(file, name)
              && ApiRowOf(finding).value.id == Joined(BAR, [Units("api_surface"), file, name])
              && ApiRowOf(finding).value.location == Get(finding, "location")
  {
    hide Units;
    hide Joined;
    forall file, name | Names(finding, file, name)
      ensures && ApiRowOf(finding).Ok? && ApiRowOf(finding).value.identity == Identity(file, name)
              && ApiRowOf(finding).value.id == Joined(BAR, [Units("api_surface"), file, name])
              && ApiRowOf(finding).value.location == Get(finding, "location")
    {
      ThreeParts(file, name);
      JoinedNonEmpty(file, name);
    }
    if ApiRowOf(finding).Ok? {
      var text := Get(finding, "id").value.text;
      var parts := Split(BAR, text);
      SplitJoins(BAR, text);
      assert parts == [Units("api_surface"), parts[1], parts[2]];
      assert parts[1] in parts && parts[2] in parts;
      assert Names(finding, parts[1], parts[2]);
    }
  }

  predicate Has(rows: seq<ApiRow>, identity: Text) {
    exists e :: e in rows && e.identity == identity
  }

  /** The rows of the findings in order, or the first refusal. */
  function RowsOf(findings: seq<Value>): Result<seq<ApiRow>, Refusal> {
    if findings == [] then Ok([])
    else
      var front := RowsOf(findings[..|findings| - 1]);
      if front.Err? then front
      else
        var entry := ApiRowOf(findings[|findings| - 1]);
        if entry.Err? then Err(entry.error)
        else if Has(front.value, entry.value.identity) then Err(DuplicateIdentity)
        else Ok(front.value + [entry.value])
  }

  /** Lines 46-54. */
  method CollectRows(findings: seq<Value>) returns (r: Result<seq<ApiRow>, Refusal>)
    ensures r == RowsOf(findings)
  {
    var rows: seq<ApiRow> := [];
    for i := 0 to |findings|
      invariant RowsOf(findings[..i]) == Ok(rows)
    {
      assert findings[..i + 1][..i] == findings[..i];
      var entry := ApiRowOf(findings[i]);
      if entry.Err? {
        RefusalStays(findings, i + 1);
        return Err(entry.error);
      }
      if Has(rows, entry.value.identity) {
        RefusalStays(findings, i + 1);
        return Err(DuplicateIdentity);
      }
      rows := rows + [entry.value];
    }
    TakeAll(findings);
    r := Ok(rows);
  }

  lemma {:induction false} RefusalStays(findings: seq<Value>, i: nat)
    requires i <= |findings| && RowsOf(findings[..i]).Err?
    ensures RowsOf(findings) == RowsOf(findings[..i])
    decreases |findings|
  {
    if i < |findings| {
      var front := findings[..|findings| - 1];
      assert front[..i] == findings[..i];
      RefusalStays(front, i);
    } else {
      TakeAll(findings);
    }
  }

  predicate DistinctRows(rows: seq<ApiRow>) {
    forall i, j :: 0 <= i < j < |rows| ==> rows[i].identity != rows[j].identity
  }

  /** The rows are the findings one by one, and their identities differ. */
  lemma {:induction false} RowsExact(findings: seq<Value>)
    ensures RowsOf(findings).Ok? <==>
            && (forall i :: 0 <= i < |findings| ==> ApiRowOf(findings[i]).Ok?)
            && (forall i, j :: 0 <= i < j < |findings| ==> ApiRowOf(findings[i]).value.identity != ApiRowOf(findings[j]).value.identity)
    ensures RowsOf(findings).Ok? ==>
              && |RowsOf(findings).value| == |findings| && DistinctRows(RowsOf(findings).value)
              && forall i :: 0 <= i < |findings| ==> ApiRowOf(findings[i]) == Ok(RowsOf(findings).value[i])
  {
    hide ApiRowOf;
    hide Has;
    if findings != [] {
      var n := |findings| - 1;
      var front := findings[..n];
      RowsExact(front);
      assert forall i :: 0 <= i < n ==> front[i] == findings[i];
      if RowsOf(front).Ok? && ApiRowOf(findings[n]).Ok? {
        HasIndex(RowsOf(front).value, ApiRowOf(findings[n]).value.identity);
      }
    }
  }

  lemma HasIndex(rows: seq<ApiRow>, identity: Text)
    ensures Has(rows, identity) <==> exists i :: 0 <= i < |rows| && rows[i].identity == identity
  {
    if Has(rows, identity) {
      var e :| e in rows && e.identity == identity;
      var i :| 0 <= i < |rows| && rows[i] == e;
    }
  }

  /** An extended file name that ends where the colon of the identity stands. */
  predicate Extends(file: Text, longer: Text) {
    file + [COLON] <= longer
  }

  /** Names that give two entries of such files one identity; the second is refused as a
      duplicate of the first. */
  lemma IdentityCollides(file: Text, file': Text, name': Text) returns (name: Text)
    requires Extends(file, file') && name' != []
    ensures name != [] && Identity(file, name) == Identity(file', name')
  {
    var rest := file'[|file| + 1..];
    name := rest + [COLON] + name';
    assert file' == file + [COLON] + rest;
  }

  /** The identities of entries in one file tell them apart. Those of entries in two files do,
      whatever the names, if and only if neither file name goes on with a colon after the
      other. */
  lemma IdentityExact(file: Text, file': Text)
    ensures file == file' ==> forall n, n' :: Identity(file, n) == Identity(file', n') ==> n == n'
    ensures file != file' ==>
              ((forall n, n' :: n != [] && n' != [] ==> Identity(file, n) != Identity(file', n')) <==>
               !Extends(file, file') && !Extends(file', file))
  {
    forall n, n' | Identity(file, n) == Identity(file', n')
      ensures file == file' ==> n == n'
      ensures file != file' ==> Extends(file, file') || Extends(file', file)
    {
      var id := Identity(file, n);
      assert id[..|file|] == file && id[|file| + 1..] == n && id[..|file| + 1] == file + [COLON];
      assert id[..|file'|] == file' && id[|file'| + 1..] == n' && id[..|file'| + 1] == file' + [COLON];
      if |file| < |file'| {
        assert file' == id[..|file| + 1] + id[|file| + 1..|file'|];
      } else if |file'| < |file| {
        assert file == id[..|file'| + 1] + id[|file'| + 1..|file|];
      }
    }
    if Extends(file, file') {
      var n := IdentityCollides(file, file', [COLON]);
    } else if Extends(file', file) {
      var n' := IdentityCollides(file', file, [COLON]);
    }
  }

  /** The sort of producers by their encoded text under the reader's locale. */
  type Arrange = seq<Value> -> seq<Value>

  type Hash = Text -> Text

  function ProducerOf(p: Value): Option<Value> {
    var name, version, soundness := Get(p, "producer"), Get(p, "producer_version"), Get(p, "soundness_class");
    if !NonEmpty(name) || version.None? || !(version.value == VWord(Null) || version.value.VString?) || !NonEmpty(soundness) then None
    else Some(VObject([Field(Units("producer"), name.value), Field(Units("producer_version"), version.value),
                       Field(Units("soundness_class"), soundness.value)]))
  }

  /** A producer names itself and its soundness class, and its version or null. */
  ghost predicate ProducerNames(p: Value, name: Text, version: Value, soundness: Text) {
    && |name| > 0 && |soundness| > 0 && (version == VWord(Null) || version.VString?)
    && Get(p, "producer") == Some(VString(name)) && Get(p, "producer_version") == Some(version)
    && Get(p, "soundness_class") == Some(VString(soundness))
  }

  /** A producer is accepted exactly when it does, and compared by these three alone. */
  lemma ProducerExact(p: Value)
    ensures ProducerOf(p).Some? <==> exists name, version, soundness :: ProducerNames(p, name, version, soundness)
    ensures forall name, version, soundness :: ProducerNames(p, name, version, soundness) ==>
              ProducerOf(p) == Some(VObject([Field(Units("producer"), VString(name)), Field(Units("producer_version"), version),
                                             Field(Units("soundness_class"), VString(soundness))]))
  {
    hide Get;
    hide Units;
    if ProducerOf(p).Some? {
      var name, version, soundness := Get(p, "producer").value.text, Get(p, "producer_version").value, Get(p, "soundness_class").value.text;
      assert ProducerNames(p, name, version, soundness);
    }
  }

  function Producers(ps: seq<Value>): Option<seq<Value>> {
    if ps == [] then Some([])
    else
      var first, rest := ProducerOf(ps[0]), Producers(ps[1..]);
      if first.None? || rest.None? then None else Some([first.value] + rest.value)
  }

  function Surfaces(sections: seq<Value>): seq<Value> {
    if sections == [] then []
    else (if IsText(Get(sections[0], "analysis"), "api_surface") then [sections[0]] else []) + Surfaces(sections[1..])
  }

  /** `reportContract`. */
  function ReportOf(v: Value, arrange: Arrange): Result<Report, Refusal> {
    var schema, producers, coverage, sections :=
      Get(v, "schema_version"), Get(v, "producers"), Get(v, "analysis_coverage"), Get(v, "sections");
    if !v.VObject? then Err(NotAnObject)
    else if !IsText(Get(v, "profile"), "api-review") then Err(WrongProfile)
    else if !NonEmpty(schema) then Err(NoSchema)
    else if !IsArray(producers) || !IsArray(coverage) || !IsArray(sections) then Err(NoSections)
    else
      var api := Surfaces(sections.value.items);
      if |api| != 1 || !IsText(Get(api[0], "status"), "covered") || !IsArray(Get(api[0], "findings")) then Err(NoSurface)
      else
        var rows := RowsOf(Get(api[0], "findings").value.items);
        if rows.Err? then Err(rows.error)
        else if Get(api[0], "finding_count") != Some(VNumber(Decimal(|rows.value|))) then Err(CountDisagrees)
        else
          var identity := Producers(producers.value.items);
          if identity.None? then Err(BadProducer)
          else Ok(Report(schema.value.text, producers.value.items, arrange(identity.value), coverage.value, rows.value))
  }

  /** Exactly one section is the API surface, and it is `api`. */
  ghost predicate OnlySurface(sections: seq<Value>, api: Value) {
    exists i :: && 0 <= i < |sections| && sections[i] == api
                && forall j :: 0 <= j < |sections| ==> (IsText(Get(sections[j], "analysis"), "api_surface") <==> j == i)
  }

  lemma {:induction false} SurfacesExact(sections: seq<Value>)
    ensures Surfaces(sections) == [] <==> forall j :: 0 <= j < |sections| ==> !IsText(Get(sections[j], "analysis"), "api_surface")
    ensures forall api :: Surfaces(sections) == [api] <==> OnlySurface(sections, api)
  {
    hide Get;
    hide IsText;
    if sections != [] {
      var rest := sections[1..];
      SurfacesExact(rest);
      assert forall j :: 0 <= j < |rest| ==> rest[j] == sections[j + 1];
      forall api
        ensures Surfaces(sections) == [api] <==> OnlySurface(sections, api)
      {
        if Surfaces(sections) == [api] {
          FirstOrLater(sections, api);
        }
        if i :| 0 <= i < |sections| && sections[i] == api && forall j :: 0 <= j < |sections| ==> (IsText(Get(sections[j], "analysis"), "api_surface") <==> j == i) {
          if i > 0 {
            assert rest[i - 1] == api && forall j :: 0 <= j < |rest| ==> (IsText(Get(rest[j], "analysis"), "api_surface") <==> j == i - 1);
            assert OnlySurface(rest, api);
          }
        }
      }
    }
  }

  lemma FirstOrLater(sections: seq<Value>, api: Value)
    requires sections != [] && Surfaces(sections) == [api]
    requires Surfaces(sections[1..]) == [] <==> forall j :: 0 <= j < |sections[1..]| ==> !IsText(Get(sections[1..][j], "analysis"), "api_surface")
    requires Surfaces(sections[1..]) == [api] <==> OnlySurface(sections[1..], api)
    ensures OnlySurface(sections, api)
  {
    hide Get;
    hide IsText;
    var rest := sections[1..];
    assert forall j :: 0 < j < |sections| ==> rest[j - 1] == sections[j];
    if IsText(Get(sections[0], "analysis"), "api_surface") {
      assert Surfaces(sections) == [sections[0]] + Surfaces(rest);
      assert [sections[0]] + Surfaces(rest) == [api] && Surfaces(sections)[0] == sections[0];
    } else {
      var i :| 0 <= i < |rest| && rest[i] == api && forall j :: 0 <= j < |rest| ==> (IsText(Get(rest[j], "analysis"), "api_surface") <==> j == i);
      assert sections[i + 1] == api;
    }
  }

  /** A report of the api-review profile with one API surface, covered, whose findings are
      valid, distinct and as many as it says, from valid producers. */
  ghost predicate Accepted(v: Value, api: Value, findings: seq<Value>) {
    && v.VObject? && IsText(Get(v, "profile"), "api-review") && NonEmpty(Get(v, "schema_version"))
    && IsArray(Get(v, "producers")) && IsArray(Get(v, "analysis_coverage")) && IsArray(Get(v, "sections"))
    && OnlySurface(Get(v, "sections").value.items, api)
    && IsText(Get(api, "status"), "covered") && Get(api, "findings") == Some(VArray(findings))
    && (forall i :: 0 <= i < |findings| ==> ApiRowOf(findings[i]).Ok?)
    && (forall i, j :: 0 <= i < j < |findings| ==> ApiRowOf(findings[i]).value.identity != ApiRowOf(findings[j]).value.identity)
    && Get(api, "finding_count") == Some(VNumber(Decimal(|findings|)))
    && forall p :: p in Get(v, "producers").value.items ==> ProducerOf(p).Some?
  }

  lemma {:induction false} ProducersExact(ps: seq<Value>)
    ensures Producers(ps).Some? <==> forall p :: p in ps ==> ProducerOf(p).Some?
    ensures Producers(ps).Some? ==> && |Producers(ps).value| == |ps|
                                    && forall i :: 0 <= i < |ps| ==> ProducerOf(ps[i]) == Some(Producers(ps).value[i])
  {
    hide ProducerOf;
    if ps != [] {
      ProducersExact(ps[1..]);
      assert ps == [ps[0]] + ps[1..];
    }
  }

  /** What a report keeps of an accepted value. */
  ghost predicate Keeps(r: Report, v: Value, arrange: Arrange, findings: seq<Value>) {
    && (exists ids :: && |ids| == |r.producers| && r.identity == arrange(ids)
                      && forall i :: 0 <= i < |ids| ==> ProducerOf(r.producers[i]) == Some(ids[i]))
    && Get(v, "schema_version") == Some(VString(r.schema)) && r.schema != [] && Get(v, "producers") == Some(VArray(r.producers))
    && Get(v, "analysis_coverage") == Some(r.coverage)
    && |r.rows| == |findings| && DistinctRows(r.rows) && forall i :: 0 <= i < |findings| ==> ApiRowOf(findings[i]) == Ok(r.rows[i])
  }

  /** `reportContract` accepts exactly those values, and keeps the findings one by one. */
  lemma ReportExact(v: Value, arrange: Arrange)
    ensures ReportOf(v, arrange).Ok? <==> exists api, findings :: Accepted(v, api, findings)
    ensures forall api, findings :: Accepted(v, api, findings) ==> ReportOf(v, arrange).Ok? && Keeps(ReportOf(v, arrange).value, v, arrange, findings)
  {
    hide Get;
    hide IsText;
    hide ApiRowOf;
    hide ProducerOf;
    hide OnlySurface;
    hide DistinctRows;
    forall api, findings | Accepted(v, api, findings)
      ensures ReportOf(v, arrange).Ok? && Keeps(ReportOf(v, arrange).value, v, arrange, findings)
    {
      SurfacesExact(Get(v, "sections").value.items);
      RowsExact(findings);
      ProducersExact(Get(v, "producers").value.items);
    }
    if ReportOf(v, arrange).Ok? {
      var sections := Get(v, "sections").value.items;
      var api := Surfaces(sections)[0];
      var findings := Get(api, "findings").value.items;
      assert Surfaces(sections) == [api];
      SurfacesExact(sections);
      RowsExact(findings);
      ProducersExact(Get(v, "producers").value.items);
      assert Accepted(v, api, findings);
    }
  }

  /** `reportContract`, with the rows collected one by one. */
  method CheckReport(v: Value, arrange: Arrange) returns (r: Result<Report, Refusal>)
    ensures r == ReportOf(v, arrange)
    ensures r.Ok? <==> exists api, findings :: Accepted(v, api, findings)
    ensures r.Ok? ==> exists api, findings :: Accepted(v, api, findings) && Keeps(r.value, v, arrange, findings)
  {
    ReportExact(v, arrange);
    if !v.VObject? {
      return Err(NotAnObject);
    }
    if !IsText(Get(v, "profile"), "api-review") {
      return Err(WrongProfile);
    }
    if !NonEmpty(Get(v, "schema_version")) {
      return Err(NoSchema);
    }
    if !IsArray(Get(v, "producers")) || !IsArray(Get(v, "analysis_coverage")) || !IsArray(Get(v, "sections")) {
      return Err(NoSections);
    }
    var api := Surfaces(Get(v, "sections").value.items);
    if |api| != 1 || !IsText(Get(api[0], "status"), "covered") || !IsArray(Get(api[0], "findings")) {
      return Err(NoSurface);
    }
    var rows := CollectRows(Get(api[0], "findings").value.items);
    if rows.Err? {
      return Err(rows.error);
    }
    if Get(api[0], "finding_count") != Some(VNumber(Decimal(|rows.value|))) {
      return Err(CountDisagrees);
    }
    var identity := Producers(Get(v, "producers").value.items);
    if identity.None? {
      return Err(BadProducer);
    }
    r := Ok(Report(Get(v, "schema_version").value.text, Get(v, "producers").value.items, arrange(identity.value),
                   Get(v, "analysis_coverage").value, rows.value));
  }

  lemma ReportRowsDistinct(v: Value, arrange: Arrange)
    requires ReportOf(v, arrange).Ok?
    ensures DistinctRows(ReportOf(v, arrange).value.rows)
  {
    RowsExact(Get(Surfaces(Get(v, "sections").value.items)[0], "findings").value.items);
  }

  /** `scopeContract`: the hash of the encoded scope. */
  function ScopeOf(v: Value, sha: Hash): Result<Text, Refusal> {
    if v.VObject? && Get(v, "version") == Some(VNumber(Decimal(1))) && NonEmpty(Get(v, "corpus")) && NonEmpty(Get(v, "configuration"))
    then Ok(sha(Encoded(v)))
    else Err(BadScope)
  }

  /** A scope is accepted exactly when it is a version 1 object that names a corpus and a
      configuration; its hash is that of its encoding. */
  lemma ScopeExact(v: Value, sha: Hash)
    ensures ScopeOf(v, sha).Ok? <==>
            && v.VObject? && Get(v, "version") == Some(VNumber(['1' as int]))
            && exists corpus, configuration :: && |corpus| > 0 && |configuration| > 0 && Get(v, "corpus") == Some(VString(corpus))
                                               && Get(v, "configuration") == Some(VString(configuration))
    ensures ScopeOf(v, sha).Ok? ==> ScopeOf(v, sha).value == sha(Encoded(v))
  {
    hide Get;
    hide Encoded;
    if ScopeOf(v, sha).Ok? {
      assert Get(v, "corpus") == Some(VString(Get(v, "corpus").value.text));
      assert Get(v, "configuration") == Some(VString(Get(v, "configuration").value.text));
    }
  }

  // ---------------------------------------------------------------- delta

  function InsertText(t: Text, ts: seq<Text>): (r: seq<Text>)
    ensures multiset(r) == multiset(ts) + multiset{t}
  {
    if ts == [] then [t]
    else if UnitsLe(t, ts[0]) then [t] + ts
    else
      assert ts == [ts[0]] + ts[1..];
      [ts[0]] + InsertText(t, ts[1..])
  }

  function SortTexts(ts: seq<Text>): (r: seq<Text>)
    ensures multiset(r) == multiset(ts)
  {
    if ts == [] then []
    else
      assert ts == [ts[0]] + ts[1..];
      InsertText(ts[0], SortTexts(ts[1..]))
  }

  function Identities(rows: seq<ApiRow>): seq<Text> {
    seq(|rows|, i requires 0 <= i < |rows| => rows[i].identity)
  }

  /** The identities that do, or do not, occur among the others. */
  function Filter(ids: seq<Text>, others: seq<Text>, present: bool): (r: seq<Text>)
    ensures forall t :: t in r <==> t in ids && (t in others <==> present)
  {
    if ids == [] then []
    else (if (ids[0] in others) == present then [ids[0]] else []) + Filter(ids[1..], others, present)
  }

  datatype Classified = Classified(identity: Text, baseline: bool, current: bool)

  function Classify(ids: seq<Text>, base: seq<Text>, current: seq<Text>): seq<Classified> {
    seq(|ids|, i requires 0 <= i < |ids| => Classified(ids[i], ids[i] in base, ids[i] in current))
  }

  datatype Delta = Delta(baseline: nat, current: nat, added: seq<Classified>, kept: seq<Classified>, absent: seq<Classified>)

  /** `delta`. */
  function DeltaOf(base: Report, current: Report): Delta {
    var before, now := Identities(base.rows), Identities(current.rows);
    Delta(|before|, |now|,
          Classify(SortTexts(Filter(now, before, false)), before, now),
          Classify(SortTexts(Filter(now, before, true)), before, now),
          Classify(SortTexts(Filter(before, now, false)), before, now))
  }

  function IdsOf(cs: seq<Classified>): seq<Text> {
    seq(|cs|, i requires 0 <= i < |cs| => cs[i].identity)
  }

  lemma {:induction false} FilterSplits(ids: seq<Text>, others: seq<Text>)
    ensures multiset(Filter(ids, others, true)) + multiset(Filter(ids, others, false)) == multiset(ids)
  {
    if ids != [] {
      FilterSplits(ids[1..], others);
      assert ids == [ids[0]] + ids[1..];
    }
  }

  lemma {:induction false} FilterOnce(ids: seq<Text>, others: seq<Text>, t: Text)
    ensures multiset(Filter(ids, others, true))[t] == if t in others then multiset(ids)[t] else 0
  {
    if ids != [] {
      FilterOnce(ids[1..], others, t);
      assert ids == [ids[0]] + ids[1..];
    }
  }

  lemma {:induction false} EachOnce(ids: seq<Text>, t: Text)
    requires forall i, j :: 0 <= i < j < |ids| ==> ids[i] != ids[j]
    ensures multiset(ids)[t] == if t in ids then 1 else 0
  {
    if ids != [] {
      assert ids == [ids[0]] + ids[1..];
      assert forall i :: 1 <= i < |ids| ==> ids[i] == ids[1..][i - 1];
      EachOnce(ids[1..], t);
    }
  }

  /** The three parts split both reports: new and unchanged make the current one, unchanged
      and absent the baseline. Every entry says truly on which sides it occurs. */
  lemma DeltaPartitions(base: Report, current: Report)
    requires DistinctRows(base.rows) && DistinctRows(current.rows)
    ensures var d := DeltaOf(base, current);
            && multiset(IdsOf(d.added)) + multiset(IdsOf(d.kept)) == multiset(Identities(current.rows))
            && multiset(IdsOf(d.kept)) + multiset(IdsOf(d.absent)) == multiset(Identities(base.rows))
            && |d.added| + |d.kept| == d.current == |current.rows|
            && |d.kept| + |d.absent| == d.baseline == |base.rows|
            && (forall c :: c in d.added ==> c.current && !c.baseline)
            && (forall c :: c in d.kept ==> c.current && c.baseline)
            && (forall c :: c in d.absent ==> !c.current && c.baseline)
  {
    hide Filter;
    hide SortTexts;
    hide Classify;
    hide IdsOf;
    var before, now := Identities(base.rows), Identities(current.rows);
    var d := DeltaOf(base, current);
    FilterSplits(now, before);
    FilterSplits(before, now);
    SharedAlike(before, now);
    Classifies(SortTexts(Filter(now, before, false)), Filter(now, before, false), before, now);
    Classifies(SortTexts(Filter(now, before, true)), Filter(now, before, true), before, now);
    Classifies(SortTexts(Filter(before, now, false)), Filter(before, now, false), before, now);
    SizeOf(now, d.added, d.kept);
    SizeOf(before, d.kept, d.absent);
  }

  ghost predicate Ascending(ts: seq<Text>) {
    forall i, j :: 0 <= i < j < |ts| ==> UnitsLe(ts[i], ts[j])
  }

  lemma {:induction false} SortedAscend(ts: seq<Text>)
    ensures Ascending(SortTexts(ts))
  {
    if ts != [] {
      SortedAscend(ts[1..]);
      InsertAscends(ts[0], SortTexts(ts[1..]));
    }
  }

  lemma {:induction false} InsertAscends(t: Text, ts: seq<Text>)
    requires Ascending(ts)
    ensures Ascending(InsertText(t, ts))
  {
    hide UnitsLe;
    if ts != [] {
      if UnitsLe(t, ts[0]) {
        forall j | 0 <= j < |ts|
          ensures UnitsLe(t, ts[j])
        {
          UnitsOrdered(t, ts[0], ts[j]);
        }
      } else {
        var rest := InsertText(t, ts[1..]);
        InsertAscends(t, ts[1..]);
        forall j | 0 <= j < |rest|
          ensures UnitsLe(ts[0], rest[j])
        {
          assert rest[j] in multiset(rest);
          UnitsOrdered(ts[0], t, t);
        }
      }
    }
  }

  /** Each of the three lists is sorted by the code units of the identities. */
  lemma DeltaSorted(base: Report, current: Report)
    ensures var d := DeltaOf(base, current); Ascending(IdsOf(d.added)) && Ascending(IdsOf(d.kept)) && Ascending(IdsOf(d.absent))
  {
    hide SortTexts;
    hide Filter;
    var before, now := Identities(base.rows), Identities(current.rows);
    SortedAscend(Filter(now, before, false));
    SortedAscend(Filter(now, before, true));
    SortedAscend(Filter(before, now, false));
    assert IdsOf(DeltaOf(base, current).added) == SortTexts(Filter(now, before, false)) by {
      ClassifyKeeps(SortTexts(Filter(now, before, false)), before, now);
    }
    ClassifyKeeps(SortTexts(Filter(now, before, true)), before, now);
    ClassifyKeeps(SortTexts(Filter(before, now, false)), before, now);
  }

  lemma ClassifyKeeps(ids: seq<Text>, base: seq<Text>, current: seq<Text>)
    ensures IdsOf(Classify(ids, base, current)) == ids
  {
  }

  lemma SharedAlike(before: seq<Text>, now: seq<Text>)
    requires forall i, j :: 0 <= i < j < |before| ==> before[i] != before[j]
    requires forall i, j :: 0 <= i < j < |now| ==> now[i] != now[j]
    ensures multiset(Filter(now, before, true)) == multiset(Filter(before, now, true))
  {
    forall t
      ensures multiset(Filter(now, before, true))[t] == multiset(Filter(before, now, true))[t]
    {
      FilterOnce(now, before, t);
      FilterOnce(before, now, t);
      EachOnce(now, t);
      EachOnce(before, t);
    }
  }

  lemma Classifies(ids: seq<Text>, source: seq<Text>, base: seq<Text>, current: seq<Text>)
    requires multiset(ids) == multiset(source)
    ensures IdsOf(Classify(ids, base, current)) == ids
    ensures forall c :: c in Classify(ids, base, current) ==>
              c.identity in source && c.baseline == (c.identity in base) && c.current == (c.identity in current)
  {
    SameMembers(ids, source);
  }

  lemma SizeOf(ids: seq<Text>, a: seq<Classified>, b: seq<Classified>)
    requires multiset(IdsOf(a)) + multiset(IdsOf(b)) == multiset(ids)
    ensures |a| + |b| == |ids|
  {
    assert |multiset(IdsOf(a))| == |a| && |multiset(IdsOf(b))| == |b| && |multiset(ids)| == |ids|;
  }

  /** Against itself a report has nothing new and nothing absent. */
  lemma SelfDelta(r: Report)
    ensures DeltaOf(r, r).added == [] && DeltaOf(r, r).absent == []
  {
    var ids := Identities(r.rows);
    var none := Filter(ids, ids, false);
    forall t
      ensures t !in multiset(none)
    {
      assert t !in none;
    }
    assert |none| == |multiset(none)|;
  }
}
