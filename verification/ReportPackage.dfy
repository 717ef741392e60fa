/** The package that the api-review consumer leaves when any step may fail, and when that
    package passes for a baseline (scripts/analysis-report-consumer.js:77-139). */
module ReportPackage {
  import opened JsonRoundTrip
  import opened JsonSyntax
  import opened JsonValue
  import opened Order
  import opened Prelude
  import opened ReportContract
  import opened Splitting

  // ---------------------------------------------------------------- packages

  datatype Name = ReportJson | ScopeJson | DeltaJson | DiagnosticsTxt | RunJson

  type Files = map<Name, Text>

  function NameText(n: Name): Text {
    match n
    case ReportJson => Units("report.json")
    case ScopeJson => Units("scope.json")
    case DeltaJson => Units("delta.json")
    case DiagnosticsTxt => Units("diagnostics.txt")
    case RunJson => Units("run.json")
  }

  datatype Previous = Previous(report: Report, hash: Text)

  function TextOf(v: Option<Value>): Option<Text> {
    if v.Some? && v.value.VString? then Some(v.value.text) else None
  }

  function Within(v: Option<Value>, key: string): Option<Value> {
    if v.Some? then Get(v.value, key) else None
  }

  /** A run record that claims a complete package, with the two hashes it must carry. */
  predicate RunOk(run: Value) {
    && Get(run, "version") == Some(VNumber(Decimal(1))) && Get(run, "complete") == Some(VWord(True))
    && (IsText(Get(run, "status"), "first-run") || IsText(Get(run, "status"), "compared"))
    && TextOf(Within(Get(run, "scope"), "sha256")).Some?
    && TextOf(Within(Get(run, "artifacts"), "report.json")).Some?
  }

  function ReadJson(files: Files, name: Name): Option<Value> {
    if name in files then ParseJson(files[name]) else None
  }

  /** `baselineContract`, on the files of a package. */
  function BaselineOf(files: Files, arrange: Arrange, sha: Hash): Result<Previous, Refusal> {
    var run := ReadJson(files, RunJson);
    if run.None? || !RunOk(run.value) then Err(BadRun)
    else if ReportJson !in files || ScopeJson !in files then Err(NoReportFile)
    else if Some(sha(files[ReportJson])) != TextOf(Within(Get(run.value, "artifacts"), "report.json")) then Err(HashDiffers)
    else
      var scope, report := ReadJson(files, ScopeJson), ReadJson(files, ReportJson);
      if scope.None? then Err(NotJson)
      else
        var hash := ScopeOf(scope.value, sha);
        if hash.Err? then Err(hash.error)
        else if Some(hash.value) != TextOf(Within(Get(run.value, "scope"), "sha256")) then Err(HashDiffers)
        else if report.None? then Err(NotJson)
        else
          var r := ReportOf(report.value, arrange);
          if r.Err? then Err(r.error) else Ok(Previous(r.value, hash.value))
  }

  function Same(v: Value, w: Value): bool {
    Encoded(v) == Encoded(w)
  }

  predicate Compatible(base: Previous, current: Report, hash: Text) {
    && base.report.schema == current.schema && Same(VArray(base.report.identity), VArray(current.identity))
    && Same(base.report.coverage, current.coverage) && base.hash == hash
  }

  /** What the command line names; an unreadable file has no text. */
  datatype Inputs = Inputs(report: Option<Text>, scope: Option<Text>, baseline: Option<Files>)

  datatype Assessed = Assessed(current: Report, scope: Value, hash: Text, delta: Option<Delta>)

  /** Lines 109-122: everything before the first write. */
  function Assess(inp: Inputs, arrange: Arrange, sha: Hash): Result<Assessed, Refusal> {
    if inp.report.None? then Err(Unreadable)
    else
      var report := ParseJson(inp.report.value);
      if report.None? then Err(NotJson)
      else
        var current := ReportOf(report.value, arrange);
        if current.Err? then Err(current.error)
        else if inp.scope.None? then Err(Unreadable)
        else
          var scope := ParseJson(inp.scope.value);
          if scope.None? then Err(NotJson)
          else
            var hash := ScopeOf(scope.value, sha);
            if hash.Err? then Err(hash.error)
            else if inp.baseline.None? then Ok(Assessed(current.value, scope.value, hash.value, None))
            else
              var previous := BaselineOf(inp.baseline.value, arrange, sha);
              if previous.Err? then Err(previous.error)
              else if !Compatible(previous.value, current.value, hash.value) then Err(Incompatible)
              else Ok(Assessed(current.value, scope.value, hash.value, Some(DeltaOf(previous.value.report, current.value))))
  }

  // ---------------------------------------------------------------- the run record

  function CountValue(n: nat): Value { VNumber(Decimal(n)) }

  function StringValue(s: string): Value { VString(Units(s)) }

  /** A count, or null without a baseline. */
  function Cell(n: Option<nat>): Value {
    if n.Some? then CountValue(n.value) else VWord(Null)
  }

  function Counts(d: Option<Delta>, current: nat): Value {
    if d.None? then SummaryOf(None, current, None, None, None)
    else SummaryOf(Some(d.value.baseline), current, Some(|d.value.added|), Some(|d.value.kept|), Some(|d.value.absent|))
  }

  function SummaryOf(baseline: Option<nat>, current: nat, added: Option<nat>, kept: Option<nat>, absent: Option<nat>): Value {
    VObject([Field(Units("baseline"), Cell(baseline)), Field(Units("current"), CountValue(current)), Field(Units("new"), Cell(added)),
             Field(Units("unchanged"), Cell(kept)), Field(Units("absent"), Cell(absent))])
  }

  function ReportSummary(r: Report): Value {
    VObject([Field(Units("profile"), StringValue("api-review")), Field(Units("schema_version"), VString(r.schema)),
             Field(Units("producers"), VArray(r.producers))])
  }

  /** `outcome`: nothing assessed until the three reports are written, and the hashes so far. */
  datatype Outcome = Outcome(done: Option<Assessed>, artifacts: seq<Field>)

  function RunFields(o: Outcome): seq<Field> {
    if o.done.None? then
      [Field(Units("version"), CountValue(1)), Field(Units("complete"), VWord(False)), Field(Units("status"), StringValue("error")),
       Field(Units("artifacts"), VObject(o.artifacts))]
    else
      [Field(Units("version"), CountValue(1)), Field(Units("complete"), VWord(True)),
       Field(Units("status"), StringValue(if o.done.value.delta.Some? then "compared" else "first-run")),
       Field(Units("report"), ReportSummary(o.done.value.current)),
       Field(Units("scope"), VObject([Field(Units("sha256"), VString(o.done.value.hash))])),
       Field(Units("comparison"), Counts(o.done.value.delta, |o.done.value.current.rows|)),
       Field(Units("artifacts"), VObject(o.artifacts))]
  }

  /** run.json's value; the error message comes last, if there is one. */
  function RunValue(o: Outcome, message: Option<Text>): Value {
    VObject(RunFields(o) + (if message.Some? then [Field(Units("diagnostics"), VString(message.value))] else []))
  }

  predicate AllPlain(fs: seq<Field>) {
    forall f :: f in fs ==> Chars(f.key) && Plain(f.value)
  }

  predicate DistinctKeys(fs: seq<Field>) {
    forall i, j :: 0 <= i < j < |fs| ==> fs[i].key != fs[j].key
  }

  lemma {:induction false} PlainPairwise(fs: seq<Field>)
    requires AllPlain(fs) && DistinctKeys(fs)
    ensures PlainFields(fs)
  {
    if fs != [] {
      assert forall i :: 0 <= i < |fs[1..]| ==> fs[1..][i] == fs[i + 1];
      assert fs[0] in fs;
      PlainPairwise(fs[1..]);
    }
  }

  lemma UnitsAreChars(s: string)
    ensures Chars(Units(s)) && |Units(s)| == |s|
  {
  }

  lemma PlainNumber(n: nat)
    ensures Plain(CountValue(n))
  {
    DecimalIsNumber(n);
  }

  lemma CellPlain(n: Option<nat>)
    ensures Plain(Cell(n))
  {
    if n.Some? {
      PlainNumber(n.value);
    }
  }

  lemma SummaryPlain(baseline: Option<nat>, current: nat, added: Option<nat>, kept: Option<nat>, absent: Option<nat>)
    ensures Plain(SummaryOf(baseline, current, added, kept, absent))
  {
    CellPlain(baseline);
    PlainNumber(current);
    CellPlain(added);
    CellPlain(kept);
    CellPlain(absent);
    hide Cell;
    hide CountValue;
    UnitsAreChars("baseline");
    UnitsAreChars("current");
    UnitsAreChars("new");
    UnitsAreChars("unchanged");
    UnitsAreChars("absent");
    PlainPairwise(SummaryOf(baseline, current, added, kept, absent).fields);
  }

  lemma ReportSummaryPlain(r: Report)
    requires Chars(r.schema) && PlainItems(r.producers)
    ensures Plain(ReportSummary(r))
  {
    UnitsAreChars("profile");
    UnitsAreChars("schema_version");
    UnitsAreChars("producers");
    UnitsAreChars("api-review");
    PlainPairwise(ReportSummary(r).fields);
  }

  predicate AssessedPlain(a: Assessed) {
    Chars(a.current.schema) && PlainItems(a.current.producers) && Chars(a.hash) && Plain(a.scope)
  }

  ghost predicate TextHash(sha: Hash) {
    forall t :: Chars(sha(t))
  }

  lemma {:induction false} FieldPlain(fs: seq<Field>, key: Text)
    requires PlainFields(fs) && FindField(fs, key).Some?
    ensures Plain(FindField(fs, key).value)
  {
    if fs[0].key != key {
      FieldPlain(fs[1..], key);
    }
  }

  lemma GetPlain(v: Value, key: string)
    requires Plain(v) && Get(v, key).Some?
    ensures Plain(Get(v, key).value)
  {
    FieldPlain(v.fields, Units(key));
  }

  lemma ReportPlain(v: Value, arrange: Arrange)
    requires Plain(v) && ReportOf(v, arrange).Ok?
    ensures Chars(ReportOf(v, arrange).value.schema) && PlainItems(ReportOf(v, arrange).value.producers)
  {
    GetPlain(v, "schema_version");
    GetPlain(v, "producers");
  }

  lemma AssessPlain(inp: Inputs, arrange: Arrange, sha: Hash)
    requires TextHash(sha) && Assess(inp, arrange, sha).Ok?
    ensures AssessedPlain(Assess(inp, arrange, sha).value)
  {
    hide Assess;
    hide ParseJson;
    hide ReportOf;
    hide ScopeOf;
    hide Plain;
    hide PlainItems;
    hide Chars;
    var a := Assess(inp, arrange, sha).value;
    AssessParts(inp, arrange, sha, a);
    ParsedIsPlain(inp.report.value);
    ParsedIsPlain(inp.scope.value);
    ReportPlain(ParseJson(inp.report.value).value, arrange);
    HashIsText(a.scope, sha);
  }

  lemma HashIsText(v: Value, sha: Hash)
    requires TextHash(sha) && ScopeOf(v, sha).Ok?
    ensures Chars(ScopeOf(v, sha).value)
  {
    hide Encoded;
  }

  ghost predicate OutcomePlain(o: Outcome, message: Option<Text>) {
    && (o.done.Some? ==> AssessedPlain(o.done.value)) && PlainFields(o.artifacts)
    && (message.Some? ==> Chars(message.value))
  }

  lemma RunKeys()
    ensures |Units("version")| == 7 && |Units("complete")| == 8 && |Units("status")| == 6 && |Units("report")| == 6
    ensures |Units("scope")| == 5 && |Units("comparison")| == 10 && |Units("artifacts")| == 9 && |Units("diagnostics")| == 11
    ensures Units("status") != Units("report")
  {
    assert Units("status")[0] == 's' as int && Units("report")[0] == 'r' as int;
  }

  lemma RunKeysDiffer(o: Outcome)
    ensures DistinctKeys(RunFields(o)) && forall f :: f in RunFields(o) ==> f.key != Units("diagnostics")
  {
    RunKeys();
    hide Units;
    hide Counts;
    hide ReportSummary;
    hide CountValue;
    hide StringValue;
  }

  lemma RunKeysChars(o: Outcome)
    ensures forall f :: f in RunFields(o) ==> Chars(f.key)
  {
    UnitsAreChars("version");
    UnitsAreChars("complete");
    UnitsAreChars("status");
    UnitsAreChars("report");
    UnitsAreChars("scope");
    UnitsAreChars("comparison");
    UnitsAreChars("artifacts");
    hide Units;
    hide Chars;
    hide Counts;
    hide ReportSummary;
    hide CountValue;
    hide StringValue;
  }

  lemma RunPartsPlain(o: Outcome)
    requires o.done.Some? ==> AssessedPlain(o.done.value)
    requires PlainFields(o.artifacts)
    ensures forall f :: f in RunFields(o) ==> Plain(f.value)
  {
    hide Counts;
    hide ReportSummary;
    hide CountValue;
    hide StringValue;
    hide Units;
    hide PlainFields;
    hide AssessedPlain;
    PlainNumber(1);
    WordsPlain();
    PlainObject(o.artifacts);
    if o.done.Some? {
      DonePlain(o.done.value);
    }
  }

  lemma PlainObject(fs: seq<Field>)
    requires PlainFields(fs)
    ensures Plain(VObject(fs))
    ensures Plain(VWord(True)) && Plain(VWord(False))
  {
  }

  lemma WordsPlain()
    ensures Plain(StringValue("error")) && Plain(StringValue("compared")) && Plain(StringValue("first-run"))
  {
    UnitsAreChars("error");
    UnitsAreChars("compared");
    UnitsAreChars("first-run");
  }

  lemma DonePlain(a: Assessed)
    requires AssessedPlain(a)
    ensures Plain(ReportSummary(a.current)) && Plain(Counts(a.delta, |a.current.rows|))
    ensures Plain(VObject([Field(Units("sha256"), VString(a.hash))]))
  {
    ReportSummaryPlain(a.current);
    UnitsAreChars("sha256");
    PlainPairwise([Field(Units("sha256"), VString(a.hash))]);
    if a.delta.Some? {
      var d := a.delta.value;
      SummaryPlain(Some(d.baseline), |a.current.rows|, Some(|d.added|), Some(|d.kept|), Some(|d.absent|));
    } else {
      SummaryPlain(None, |a.current.rows|, None, None, None);
    }
  }

  lemma TextPlain(t: Text)
    requires Chars(t)
    ensures Plain(VString(t))
  {
  }

  lemma RunValuePlain(o: Outcome, message: Option<Text>)
    requires OutcomePlain(o, message)
    ensures Plain(RunValue(o, message))
  {
    hide RunFields;
    hide Units;
    hide Chars;
    hide PlainFields;
    hide AssessedPlain;
    RunKeysDiffer(o);
    RunKeysChars(o);
    RunPartsPlain(o);
    UnitsAreChars("diagnostics");
    var fs := RunFields(o);
    if message.Some? {
      var last := Field(Units("diagnostics"), VString(message.value));
      TextPlain(message.value);
      assert RunValue(o, message) == VObject(fs + [last]);
      assert DistinctKeys(fs + [last]);
      PlainPairwise(fs + [last]);
      PlainObject(fs + [last]);
    } else {
      assert fs + [] == fs;
      PlainPairwise(fs);
      PlainObject(fs);
    }
  }

  /** Reading back the fields that a baseline needs. */
  lemma RunReads(o: Outcome, message: Option<Text>)
    requires OutcomePlain(o, message)
    ensures RunOk(RunValue(o, message)) <==> o.done.Some? && TextOf(FindField(o.artifacts, Units("report.json"))).Some?
    ensures TextOf(Within(Get(RunValue(o, message), "artifacts"), "report.json")) == TextOf(FindField(o.artifacts, Units("report.json")))
    ensures o.done.Some? ==> TextOf(Within(Get(RunValue(o, message), "scope"), "sha256")) == Some(o.done.value.hash)
  {
    hide Units;
    hide ReportSummary;
    hide Counts;
    hide PlainFields;
    hide OutcomePlain;
    hide FindField;
    hide Decimal;
    var run := RunValue(o, message);
    RunValuePlain(o, message);
    ObjectPlain(run);
    FindsField(run.fields, 0);
    FindsField(run.fields, 1);
    FindsField(run.fields, 2);
    if o.done.None? {
      FindsField(run.fields, 3);
    } else {
      FindsField(run.fields, 4);
      FindsField(run.fields, 6);
      FirstField(Units("sha256"), VString(o.done.value.hash));
    }
  }

  lemma ObjectPlain(v: Value)
    requires Plain(v) && v.VObject?
    ensures PlainFields(v.fields)
  {
  }

  lemma FirstField(key: Text, v: Value)
    ensures FindField([Field(key, v)], key) == Some(v)
  {
  }

  // ---------------------------------------------------------------- what a package is worth

  function JsonFile(v: Value): Text {
    Written(v, true, [10])
  }

  /** The three files and the record that a later run looks at, as this run wrote them. */
  ghost predicate Holds(files: Files, inp: Inputs, a: Assessed, o: Outcome, message: Option<Text>) {
    && RunJson in files && files[RunJson] == JsonFile(RunValue(o, message))
    && ReportJson in files && Some(files[ReportJson]) == inp.report
    && ScopeJson in files && files[ScopeJson] == JsonFile(Canonical(a.scope))
  }

  lemma AssessParts(inp: Inputs, arrange: Arrange, sha: Hash, a: Assessed)
    requires Assess(inp, arrange, sha) == Ok(a)
    ensures inp.report.Some? && ParseJson(inp.report.value).Some? && ReportOf(ParseJson(inp.report.value).value, arrange) == Ok(a.current)
    ensures inp.scope.Some? && ParseJson(inp.scope.value) == Some(a.scope) && ScopeOf(a.scope, sha) == Ok(a.hash)
  {
    hide ReportOf;
    hide ScopeOf;
    hide BaselineOf;
    hide ParseJson;
  }

  /** A record that claims completion and carries the report's hash makes the package its own
      baseline, whatever else went wrong. */
  lemma PackageIsBaseline(files: Files, inp: Inputs, arrange: Arrange, sha: Hash, a: Assessed, o: Outcome, message: Option<Text>)
    requires TextHash(sha) && Assess(inp, arrange, sha) == Ok(a)
    requires OutcomePlain(o, message) && o.done == Some(a) && Holds(files, inp, a, o, message)
    requires TextOf(FindField(o.artifacts, Units("report.json"))) == Some(sha(files[ReportJson]))
    ensures BaselineOf(files, arrange, sha) == Ok(Previous(a.current, a.hash))
  {
    hide Assess;
    hide RunValue;
    hide RunOk;
    hide ReportOf;
    hide ScopeOf;
    hide ParseJson;
    hide Canonical;
    hide OutcomePlain;
    hide FindField;
    AssessParts(inp, arrange, sha, a);
    RunReads(o, message);
    RunValuePlain(o, message);
    WrittenReadsBack(RunValue(o, message), true, [10]);
    StoredScope(inp, arrange, sha, a);
  }

  /** The scope file reads back as a scope with the same hash. */
  lemma StoredScope(inp: Inputs, arrange: Arrange, sha: Hash, a: Assessed)
    requires TextHash(sha) && Assess(inp, arrange, sha) == Ok(a)
    ensures ParseJson(JsonFile(Canonical(a.scope))) == Some(Canonical(a.scope))
    ensures ScopeOf(Canonical(a.scope), sha) == Ok(a.hash)
  {
    AssessPlain(inp, arrange, sha);
    AssessParts(inp, arrange, sha, a);
    hide Assess;
    CanonicalSorts(a.scope);
    WrittenReadsBack(Canonical(a.scope), true, [10]);
    CanonicalScope(a.scope, sha);
  }

  lemma CanonicalScope(v: Value, sha: Hash)
    requires Plain(v) && ScopeOf(v, sha).Ok?
    ensures ScopeOf(Canonical(v), sha) == ScopeOf(v, sha)
  {
    CanonicalIdempotent(v);
    CanonicalGet(v, "version");
    CanonicalGet(v, "corpus");
    CanonicalGet(v, "configuration");
    assert Encoded(Canonical(v)) == Encoded(v);
    hide Get;
    hide Encoded;
  }

  lemma {:induction false} InsertFinds(f: Field, fs: seq<Field>, key: Text)
    requires f.key !in KeySet(fs)
    ensures FindField(Insert(f, fs), key) == if f.key == key then Some(f.value) else FindField(fs, key)
  {
    if fs != [] {
      KeySetCons(fs);
      if !UnitsLe(f.key, fs[0].key) {
        InsertFinds(f, fs[1..], key);
      }
    }
  }

  lemma {:induction false} CanonicalFinds(fs: seq<Field>, key: Text)
    requires PlainFields(fs)
    ensures var v := FindField(fs, key);
            FindField(CanonicalFields(fs), key) == if v.Some? then Some(Canonical(v.value)) else None
  {
    if fs != [] {
      CanonicalFinds(fs[1..], key);
      FieldsSort(fs[1..]);
      assert DataFields(CanonicalFields(fs[1..])).Keys == KeySet(CanonicalFields(fs[1..])) == KeySet(fs[1..]);
      InsertFinds(Field(fs[0].key, Canonical(fs[0].value)), CanonicalFields(fs[1..]), key);
    }
  }

  /** Canonicalising moves properties around and canonicalises them, no more. */
  lemma CanonicalGet(v: Value, key: string)
    requires Plain(v)
    ensures Get(Canonical(v), key) == match Get(v, key) case Some(w) => Some(Canonical(w)) case None => None
  {
    if v.VObject? {
      CanonicalFinds(v.fields, Units(key));
    }
  }

  /** Without a complete record, or without the report's hash in it, no package is accepted. */
  lemma PackageRefused(files: Files, arrange: Arrange, sha: Hash, o: Outcome, message: Option<Text>)
    requires RunJson in files ==> files[RunJson] == JsonFile(RunValue(o, message)) && OutcomePlain(o, message)
    requires RunJson in files ==> o.done.None? || FindField(o.artifacts, Units("report.json")).None?
    ensures BaselineOf(files, arrange, sha) == Err(BadRun)
  {
    if RunJson in files {
      RunReads(o, message);
      RunValuePlain(o, message);
      WrittenReadsBack(RunValue(o, message), true, [10]);
    }
  }

  /** The same report and scope, run again against such a package: compatible, with nothing
      new and nothing absent. */
  lemma RerunFindsNothing(inp: Inputs, arrange: Arrange, sha: Hash, a: Assessed, files: Files)
    requires Assess(inp, arrange, sha) == Ok(a)
    requires BaselineOf(files, arrange, sha) == Ok(Previous(a.current, a.hash))
    ensures var again := Assess(inp.(baseline := Some(files)), arrange, sha);
            && again.Ok? && again.value.current == a.current && again.value.hash == a.hash
            && again.value.delta.Some? && again.value.delta.value.added == [] && again.value.delta.value.absent == []
            && |again.value.delta.value.kept| == |a.current.rows|
  {
    hide ReportOf;
    hide ScopeOf;
    hide BaselineOf;
    hide ParseJson;
    hide DeltaOf;
    hide Encoded;
    AssessParts(inp, arrange, sha, a);
    ReportRowsDistinct(ParseJson(inp.report.value).value, arrange);
    RunAgain(a.current);
  }

  lemma RunAgain(r: Report)
    requires DistinctRows(r.rows)
    ensures DeltaOf(r, r).added == [] && DeltaOf(r, r).absent == [] && |DeltaOf(r, r).kept| == |r.rows|
  {
    SelfDelta(r);
    DeltaPartitions(r, r);
  }

  // ---------------------------------------------------------------- the run

  /** A write succeeds, or throws and leaves the file untouched or with any content. */
  datatype Write = Saved | Failed(leftover: Option<Text>)

  /** Everything that the file system decides about one run. */
  datatype Schedule = Schedule(
    write: Name -> Write, unreadable: Name -> bool,
    rescueDiagnostics: Write, rescueRun: Write, message: Text)

  function Put(files: Files, name: Name, text: Text, w: Write): Files {
    match w
    case Saved => files[name := text]
    case Failed(None) => files
    case Failed(Some(left)) => files[name := left]
  }

  /** What the `try` block leaves: the files, the outcome so far, and whether all went well. */
  datatype Attempt = Attempt(files: Files, outcome: Outcome, ok: bool)

  const HASHED: seq<Name> := [ReportJson, ScopeJson, DeltaJson, DiagnosticsTxt]

  /** The hashes recorded after `i` files. */
  function Hashes(files: Files, sha: Hash, i: nat): seq<Field>
    requires i <= |HASHED| && forall n :: n in HASHED ==> n in files
  {
    if i == 0 then []
    else
      assert HASHED[i - 1] in HASHED;
      Hashes(files, sha, i - 1) + [Field(NameText(HASHED[i - 1]), VString(sha(files[HASHED[i - 1]])))]
  }

  /** Line 130: hashing in order, up to the first file that cannot be read back. */
  method HashAll(files: Files, s: Schedule, sha: Hash) returns (artifacts: seq<Field>, ok: bool)
    requires (forall n :: n in HASHED ==> n in files) && TextHash(sha)
    ensures ReportJson in files && PlainFields(artifacts)
    ensures FindField(artifacts, Units("report.json")) ==
            if s.unreadable(ReportJson) then None else Some(VString(sha(files[ReportJson])))
    ensures ok <==> forall n :: n in HASHED ==> !s.unreadable(n)
    ensures ok ==> artifacts == Hashes(files, sha, 4)
  {
    artifacts, ok := [], true;
    var i := 0;
    while i < |HASHED| && ok
      decreases |HASHED| - i, ok
      invariant 0 <= i <= |HASHED| && artifacts == Hashes(files, sha, i)
      invariant forall k :: 0 <= k < i ==> !s.unreadable(HASHED[k])
      invariant !ok ==> i < |HASHED| && s.unreadable(HASHED[i])
    {
      assert HASHED[i] in HASHED;
      if s.unreadable(HASHED[i]) {
        ok := false;
      } else {
        artifacts := artifacts + [Field(NameText(HASHED[i]), VString(sha(files[HASHED[i]])))];
        i := i + 1;
      }
    }
    assert HASHED[0] == ReportJson;
    HashesRead(files, sha, i);
    if ok {
      forall n | n in HASHED
        ensures !s.unreadable(n)
      {
        var k :| 0 <= k < |HASHED| && HASHED[k] == n;
      }
    } else {
      assert HASHED[i] in HASHED;
    }
  }

  lemma NameTexts()
    ensures |NameText(ReportJson)| == 11 && |NameText(ScopeJson)| == |NameText(DeltaJson)| == 10 && |NameText(DiagnosticsTxt)| == 15
    ensures NameText(ScopeJson) != NameText(DeltaJson) && forall n :: Chars(NameText(n))
  {
    assert NameText(ScopeJson)[0] == 's' as int && NameText(DeltaJson)[0] == 'd' as int;
  }

  lemma NamesDiffer(i: nat, j: nat)
    requires i < j < |HASHED|
    ensures NameText(HASHED[i]) != NameText(HASHED[j])
  {
    NameTexts();
    hide NameText;
  }

  lemma {:induction false} HashesShape(files: Files, sha: Hash, i: nat)
    requires i <= |HASHED| && forall n :: n in HASHED ==> n in files
    ensures |Hashes(files, sha, i)| == i
    ensures forall k :: 0 <= k < i ==> HASHED[k] in files && Hashes(files, sha, i)[k] == Field(NameText(HASHED[k]), VString(sha(files[HASHED[k]])))
  {
    hide NameText;
    if i > 0 {
      HashesShape(files, sha, i - 1);
      assert HASHED[i - 1] in HASHED;
    }
  }

  lemma HashesRead(files: Files, sha: Hash, i: nat)
    requires i <= |HASHED| && (forall n :: n in HASHED ==> n in files) && TextHash(sha)
    ensures PlainFields(Hashes(files, sha, i))
    ensures ReportJson in files
    ensures FindField(Hashes(files, sha, i), Units("report.json")) == if i > 0 then Some(VString(sha(files[ReportJson]))) else None
  {
    var fs := Hashes(files, sha, i);
    assert HASHED[0] == ReportJson && HASHED[0] in HASHED;
    HashesShape(files, sha, i);
    NameTexts();
    assert NameText(ReportJson) == Units("report.json");
    hide NameText;
    hide Hashes;
    forall j, k | 0 <= j < k < |fs|
      ensures fs[j].key != fs[k].key
    {
      NamesDiffer(j, k);
    }
    PlainPairwise(fs);
    if i > 0 {
      FindsField(fs, 0);
    }
  }

  function ClassifiedValue(c: Classified): Value {
    VObject([Field(Units("identity"), VString(c.identity)), Field(Units("baseline"), VWord(if c.baseline then True else False)),
             Field(Units("current"), VWord(if c.current then True else False))])
  }

  /** delta.json's value. */
  function DeltaValue(d: Option<Delta>, current: nat): Value {
    if d.None? then
      DeltaObject("no_baseline",
                  [StringValue("No semantic comparison was requested."),
                   StringValue("Promote this completed package explicitly after review.")],
                  Counts(d, current), [], [], [])
    else
      DeltaObject("compared",
                  [StringValue("An absent API entry is not a correction or risk verdict."),
                   StringValue("MUST/MAY reachability and MAY_TOP frontiers are not compared by this consumer.")],
                  Counts(d, current), d.value.added, d.value.kept, d.value.absent)
  }

  function DeltaObject(status: string, limitations: seq<Value>, summary: Value,
                       added: seq<Classified>, kept: seq<Classified>, absent: seq<Classified>): Value
  {
    VObject(
      [Field(Units("version"), CountValue(1)), Field(Units("status"), StringValue(status)),
       Field(Units("identity"), StringValue("api_surface file:function")), Field(Units("limitations"), VArray(limitations)),
       Field(Units("summary"), summary), Field(Units("new"), VArray(Map(ClassifiedValue, added))),
       Field(Units("unchanged"), VArray(Map(ClassifiedValue, kept))), Field(Units("absent"), VArray(Map(ClassifiedValue, absent)))])
  }

  /** The assessed result goes on record once the three reports are written. */
  predicate Recorded(s: Schedule) {
    s.write(ReportJson).Saved? && s.write(ScopeJson).Saved? && s.write(DeltaJson).Saved?
  }

  /** Then the report's hash, once the diagnostics are written and the report reads back. */
  predicate Hashed(s: Schedule) {
    Recorded(s) && s.write(DiagnosticsTxt).Saved? && !s.unreadable(ReportJson)
  }

  ghost predicate AllSucceed(s: Schedule) {
    Hashed(s) && (forall n :: n in HASHED ==> !s.unreadable(n)) && s.write(RunJson).Saved?
  }

  predicate Rescued(s: Schedule) {
    s.rescueDiagnostics.Saved? && s.rescueRun.Saved?
  }

  /** No failed write leaves anything under the name of the run record. */
  predicate NoPartialRun(s: Schedule) {
    && (s.write(RunJson).Saved? || s.write(RunJson).leftover.None?)
    && (s.rescueRun.Saved? || s.rescueRun.leftover.None?)
  }

  ghost predicate AttemptOf(inp: Inputs, a: Assessed, s: Schedule, sha: Hash, t: Attempt) {
    && (t.ok <==> AllSucceed(s))
    && t.outcome.done == (if Recorded(s) then Some(a) else None)
    && PlainFields(t.outcome.artifacts)
    && (Recorded(s) ==> && ReportJson in t.files && Some(t.files[ReportJson]) == inp.report
                        && ScopeJson in t.files && t.files[ScopeJson] == JsonFile(Canonical(a.scope)))
    && (Hashed(s) ==> TextOf(FindField(t.outcome.artifacts, Units("report.json"))) == Some(sha(t.files[ReportJson])))
    && (!Hashed(s) ==> FindField(t.outcome.artifacts, Units("report.json")).None?)
    && (t.ok ==> RunJson in t.files && t.files[RunJson] == JsonFile(RunValue(t.outcome, None)))
    && (!t.ok && NoPartialRun(s) ==> RunJson !in t.files)
    && (t.ok ==> Complete(a, sha, t.files, t.outcome))
  }

  /** The files of a run in which nothing failed, but for the report, the scope and the record. */
  ghost predicate Complete(a: Assessed, sha: Hash, files: Files, o: Outcome) {
    && files.Keys == {ReportJson, ScopeJson, DeltaJson, DiagnosticsTxt, RunJson}
    && files[DeltaJson] == JsonFile(DeltaValue(a.delta, |a.current.rows|)) && files[DiagnosticsTxt] == []
    && o == Outcome(Some(a), Hashes(files, sha, 4))
  }

  lemma NoHashes()
    ensures PlainFields([]) && FindField([], Units("report.json")).None?
  {
  }

  /** Lines 123-131. */
  method Publish(inp: Inputs, a: Assessed, s: Schedule, sha: Hash) returns (t: Attempt)
    requires inp.report.Some? && TextHash(sha)
    ensures AttemptOf(inp, a, s, sha, t)
  {
    hide Canonical;
    hide RunValue;
    hide Units;
    hide PlainFields;
    hide FindField;
    hide Complete;
    hide DeltaValue;
    hide Hashes;
    hide JsonFile;
    NoHashes();
    var files, written := PublishReports(inp, a, s);
    if !written {
      return Attempt(files, Outcome(None, []), false);
    }
    ghost var reports := files;
    files := Put(files, DiagnosticsTxt, [], s.write(DiagnosticsTxt));
    if s.write(DiagnosticsTxt).Failed? {
      return Attempt(files, Outcome(Some(a), []), false);
    }
    var artifacts, hashed := HashAll(files, s, sha);
    var outcome := Outcome(Some(a), artifacts);
    if !hashed {
      return Attempt(files, outcome, false);
    }
    ghost var hashedFiles := files;
    files := Put(files, RunJson, JsonFile(RunValue(outcome, None)), s.write(RunJson));
    t := Attempt(files, outcome, s.write(RunJson).Saved?);
    if t.ok {
      AllComplete(a, sha, reports, hashedFiles, JsonFile(RunValue(outcome, None)));
    }
  }

  lemma AllComplete(a: Assessed, sha: Hash, reports: Files, hashed: Files, record: Text)
    requires reports.Keys == {ReportJson, ScopeJson, DeltaJson} && reports[DeltaJson] == JsonFile(DeltaValue(a.delta, |a.current.rows|))
    requires hashed == reports[DiagnosticsTxt := []]
    ensures forall n :: n in HASHED ==> n in hashed
    ensures Complete(a, sha, hashed[RunJson := record], Outcome(Some(a), Hashes(hashed, sha, 4)))
  {
    hide JsonFile;
    hide DeltaValue;
    HashesKept(hashed, hashed[RunJson := record], sha, 4);
  }

  /** The record itself is not hashed. */
  lemma {:induction false} HashesKept(files: Files, files': Files, sha: Hash, i: nat)
    requires i <= |HASHED| && forall n :: n in HASHED ==> n in files && n in files' && files[n] == files'[n]
    ensures Hashes(files, sha, i) == Hashes(files', sha, i)
  {
    if i > 0 {
      assert HASHED[i - 1] in HASHED;
      HashesKept(files, files', sha, i - 1);
    }
  }

  /** Lines 123-125. */
  method PublishReports(inp: Inputs, a: Assessed, s: Schedule) returns (files: Files, ok: bool)
    requires inp.report.Some?
    ensures ok <==> Recorded(s)
    ensures RunJson !in files
    ensures ok ==> files.Keys == {ReportJson, ScopeJson, DeltaJson} && Some(files[ReportJson]) == inp.report
                   && files[ScopeJson] == JsonFile(Canonical(a.scope))
                   && files[DeltaJson] == JsonFile(DeltaValue(a.delta, |a.current.rows|))
  {
    hide DeltaValue;
    hide JsonFile;
    hide Canonical;
    files, ok := Put(map[], ReportJson, inp.report.value, s.write(ReportJson)), false;
    if s.write(ReportJson).Failed? {
      return;
    }
    files := Put(files, ScopeJson, JsonFile(Canonical(a.scope)), s.write(ScopeJson));
    if s.write(ScopeJson).Failed? {
      return;
    }
    files := Put(files, DeltaJson, JsonFile(DeltaValue(a.delta, |a.current.rows|)), s.write(DeltaJson));
    ok := s.write(DeltaJson).Saved?;
  }

  /** A later run may use what is left as its baseline. */
  ghost predicate LeavesBaseline(s: Schedule) {
    Hashed(s) && (AllSucceed(s) || Rescued(s))
  }

  /** The conditions of the two, one by one. */
  lemma SchedulesMean(s: Schedule)
    ensures AllSucceed(s) <==>
            && s.write(ReportJson) == Saved && s.write(ScopeJson) == Saved && s.write(DeltaJson) == Saved
            && s.write(DiagnosticsTxt) == Saved && s.write(RunJson) == Saved
            && !s.unreadable(ReportJson) && !s.unreadable(ScopeJson) && !s.unreadable(DeltaJson) && !s.unreadable(DiagnosticsTxt)
    ensures LeavesBaseline(s) <==>
            && s.write(ReportJson) == Saved && s.write(ScopeJson) == Saved && s.write(DeltaJson) == Saved
            && s.write(DiagnosticsTxt) == Saved && !s.unreadable(ReportJson)
            && ((s.write(RunJson) == Saved && !s.unreadable(ScopeJson) && !s.unreadable(DeltaJson) && !s.unreadable(DiagnosticsTxt))
                || (s.rescueDiagnostics == Saved && s.rescueRun == Saved))
  {
    assert HASHED[0] == ReportJson && HASHED[1] == ScopeJson && HASHED[2] == DeltaJson && HASHED[3] == DiagnosticsTxt;
  }

  /** A run that exits 0 leaves the report, the scope, the delta, empty diagnostics and a record
      of the four with their hashes. */
  ghost predicate SuccessLeaves(inp: Inputs, a: Assessed, sha: Hash, files: Files) {
    exists o :: && Complete(a, sha, files, o) && Some(files[ReportJson]) == inp.report
                && files[ScopeJson] == JsonFile(Canonical(a.scope)) && files[RunJson] == JsonFile(RunValue(o, None))
  }

  /** One that exits 2, and can write it down, leaves its message and a record with it, which
      tells what was assessed once the three reports were written. */
  ghost predicate FailureLeaves(done: Option<Assessed>, s: Schedule, files: Files) {
    && DiagnosticsTxt in files && files[DiagnosticsTxt] == s.message + [10] && RunJson in files
    && exists o: Outcome :: o.done == done && files[RunJson] == JsonFile(RunValue(o, Some(s.message)))
  }

  /** `runConsumer`. It exits 0 exactly when the inputs pass and nothing fails, and then the
      package is its own baseline. But the package is accepted as a baseline whenever the
      report's hash was taken and a run record written, also by a run that exits 2. */
  method RunConsumer(inp: Inputs, s: Schedule, arrange: Arrange, sha: Hash) returns (exit: nat, files: Files)
    requires TextHash(sha) && Chars(s.message)
    ensures exit == if Assess(inp, arrange, sha).Ok? && AllSucceed(s) then 0 else 2
    ensures Assess(inp, arrange, sha).Ok? && LeavesBaseline(s) ==>
              var a := Assess(inp, arrange, sha).value;
              BaselineOf(files, arrange, sha) == Ok(Previous(a.current, a.hash))
    ensures NoPartialRun(s) ==> (BaselineOf(files, arrange, sha).Ok? <==> Assess(inp, arrange, sha).Ok? && LeavesBaseline(s))
    ensures exit == 0 ==> SuccessLeaves(inp, Assess(inp, arrange, sha).value, sha, files)
    ensures exit == 2 && Rescued(s) ==>
              FailureLeaves(if Assess(inp, arrange, sha).Ok? && Recorded(s) then Some(Assess(inp, arrange, sha).value) else None, s, files)
  {
    hide Assess;
    hide BaselineOf;
    hide AttemptOf;
    hide RescueFiles;
    hide AllSucceed;
    hide NoPartialRun;
    hide SuccessLeaves;
    hide FailureLeaves;
    hide LeavesBaseline;
    hide Recorded;
    hide Rescued;
    hide ReportOf;
    hide ScopeOf;
    hide ParseJson;
    hide AssessedPlain;
    var assessed := Assess(inp, arrange, sha);
    if assessed.Err? {
      files := Rescue(map[], Outcome(None, []), s);
      AfterRefusal(arrange, sha, s);
      RescueLeaves(map[], Outcome(None, []), s);
      return 2, files;
    }
    AssessParts(inp, arrange, sha, assessed.value);
    AssessPlain(inp, arrange, sha);
    var t := Publish(inp, assessed.value, s, sha);
    AttemptMeans(inp, assessed.value, s, sha, t);
    if t.ok {
      AfterSuccess(inp, arrange, sha, assessed.value, s, t);
      return 0, t.files;
    }
    files := Rescue(t.files, t.outcome, s);
    AfterFailure(inp, arrange, sha, assessed.value, s, t);
    RescueLeaves(t.files, t.outcome, s);
    return 2, files;
  }

  lemma RescueLeaves(files: Files, o: Outcome, s: Schedule)
    ensures Rescued(s) ==> FailureLeaves(o.done, s, RescueFiles(files, o, s))
  {
    hide JsonFile;
    hide RunValue;
  }

  lemma AttemptMeans(inp: Inputs, a: Assessed, s: Schedule, sha: Hash, t: Attempt)
    requires inp.report.Some? && AttemptOf(inp, a, s, sha, t)
    ensures t.outcome.done == (if Recorded(s) then Some(a) else None)
    ensures t.ok ==> SuccessLeaves(inp, a, sha, t.files)
  {
    hide JsonFile;
    hide RunValue;
    hide Canonical;
    hide DeltaValue;
    hide Hashes;
  }

  /** The directory after the `catch` block. */
  function RescueFiles(files: Files, o: Outcome, s: Schedule): Files {
    var noted := Put(files, DiagnosticsTxt, s.message + [10], s.rescueDiagnostics);
    if s.rescueDiagnostics.Failed? then noted
    else Put(noted, RunJson, JsonFile(RunValue(o, Some(s.message))), s.rescueRun)
  }

  /** Lines 134-136. */
  method Rescue(files0: Files, o: Outcome, s: Schedule) returns (files: Files)
    ensures files == RescueFiles(files0, o, s)
  {
    files := Put(files0, DiagnosticsTxt, s.message + [10], s.rescueDiagnostics);
    if s.rescueDiagnostics.Saved? {
      files := Put(files, RunJson, JsonFile(RunValue(o, Some(s.message))), s.rescueRun);
    }
  }

  lemma AfterRefusal(arrange: Arrange, sha: Hash, s: Schedule)
    requires Chars(s.message)
    ensures NoPartialRun(s) ==> BaselineOf(RescueFiles(map[], Outcome(None, []), s), arrange, sha).Err?
  {
    if NoPartialRun(s) {
      PackageRefused(RescueFiles(map[], Outcome(None, []), s), arrange, sha, Outcome(None, []), Some(s.message));
    }
  }

  lemma AfterSuccess(inp: Inputs, arrange: Arrange, sha: Hash, a: Assessed, s: Schedule, t: Attempt)
    requires TextHash(sha) && Assess(inp, arrange, sha) == Ok(a) && AttemptOf(inp, a, s, sha, t) && t.ok
    ensures AllSucceed(s) && LeavesBaseline(s) && BaselineOf(t.files, arrange, sha) == Ok(Previous(a.current, a.hash))
  {
    AssessPlain(inp, arrange, sha);
    PackageIsBaseline(t.files, inp, arrange, sha, a, t.outcome, None);
  }

  lemma AfterFailure(inp: Inputs, arrange: Arrange, sha: Hash, a: Assessed, s: Schedule, t: Attempt)
    requires TextHash(sha) && Chars(s.message) && Assess(inp, arrange, sha) == Ok(a)
    requires AttemptOf(inp, a, s, sha, t) && !t.ok
    ensures !AllSucceed(s)
    ensures var left := BaselineOf(RescueFiles(t.files, t.outcome, s), arrange, sha);
            && (LeavesBaseline(s) ==> left == Ok(Previous(a.current, a.hash)))
            && (NoPartialRun(s) && !LeavesBaseline(s) ==> left.Err?)
  {
    hide Assess;
    hide BaselineOf;
    hide RunValue;
    hide PlainFields;
    hide FindField;
    hide Units;
    hide Canonical;
    hide JsonFile;
    hide Chars;
    hide AssessedPlain;
    var files, message := RescueFiles(t.files, t.outcome, s), Some(s.message);
    AssessPlain(inp, arrange, sha);
    assert OutcomePlain(t.outcome, message);
    if Hashed(s) && Rescued(s) {
      PackageIsBaseline(files, inp, arrange, sha, a, t.outcome, message);
    } else if NoPartialRun(s) {
      PackageRefused(files, arrange, sha, t.outcome, message);
    }
  }

  // ---------------------------------------------------------------- a run of each kind

  function ExampleFinding(): Value {
    VObject([Field(Units("kind"), StringValue("api_surface")),
             Field(Units("id"), VString(Joined(BAR, [Units("api_surface"), Units("m.ml"), Units("f")]))),
             Field(Units("subject"), StringValue("f"))])
  }

  function ExampleSurface(): Value {
    VObject([Field(Units("analysis"), StringValue("api_surface")), Field(Units("status"), StringValue("covered")),
             Field(Units("finding_count"), CountValue(1)), Field(Units("findings"), VArray([ExampleFinding()]))])
  }

  function ExampleReport(): Value {
    VObject([Field(Units("profile"), StringValue("api-review")), Field(Units("schema_version"), StringValue("1")),
             Field(Units("producers"), VArray([])), Field(Units("analysis_coverage"), VArray([])),
             Field(Units("sections"), VArray([ExampleSurface()]))])
  }

  function ExampleScope(): Value {
    VObject([Field(Units("version"), CountValue(1)), Field(Units("corpus"), StringValue("all")),
             Field(Units("configuration"), StringValue("default"))])
  }

  ghost predicate Readable(fs: seq<Field>) {
    Plain(VObject(fs)) && forall i :: 0 <= i < |fs| ==> FindField(fs, fs[i].key) == Some(fs[i].value)
  }

  lemma FieldsReadable(fs: seq<Field>)
    requires DistinctKeys(fs) && forall i :: 0 <= i < |fs| ==> Chars(fs[i].key) && Plain(fs[i].value)
    ensures Readable(fs)
  {
    PlainPairwise(fs);
    forall i | 0 <= i < |fs|
      ensures FindField(fs, fs[i].key) == Some(fs[i].value)
    {
      FindsField(fs, i);
    }
  }

  lemma StringPlain(s: string)
    ensures Plain(StringValue(s))
  {
    UnitsAreChars(s);
  }

  lemma ArraysPlain(v: Value)
    ensures Plain(VArray([])) && (Plain(v) ==> Plain(VArray([v])))
  {
    assert PlainItems([v][1..]);
  }

  lemma FindingReadable()
    ensures Readable(ExampleFinding().fields) && Plain(ExampleFinding())
  {
    UnitsAreChars("kind");
    UnitsAreChars("id");
    UnitsAreChars("subject");
    UnitsAreChars("api_surface");
    UnitsAreChars("m.ml");
    UnitsAreChars("f");
    StringPlain("api_surface");
    StringPlain("f");
    hide Units;
    hide StringValue;
    FieldsReadable(ExampleFinding().fields);
  }

  lemma SurfaceReadable()
    ensures Readable(ExampleSurface().fields) && Plain(ExampleSurface())
  {
    UnitsAreChars("analysis");
    UnitsAreChars("status");
    UnitsAreChars("finding_count");
    UnitsAreChars("findings");
    StringPlain("api_surface");
    StringPlain("covered");
    assert Units("analysis")[0] == 'a' as int && Units("findings")[0] == 'f' as int;
    FindingReadable();
    ArraysPlain(ExampleFinding());
    PlainNumber(1);
    hide Units;
    hide CountValue;
    hide StringValue;
    hide Plain;
    hide Chars;
    SurfaceFieldsReadable();
  }

  lemma SurfaceFieldsReadable()
    requires Plain(VArray([ExampleFinding()])) && Plain(StringValue("api_surface")) && Plain(StringValue("covered")) && Plain(CountValue(1))
    requires Chars(Units("analysis")) && Chars(Units("status")) && Chars(Units("finding_count")) && Chars(Units("findings"))
    requires |Units("analysis")| == |Units("findings")| == 8 && |Units("status")| == 6 && |Units("finding_count")| == 13
    requires Units("analysis") != Units("findings")
    ensures Readable(ExampleSurface().fields) && Plain(ExampleSurface())
  {
    hide Units;
    hide CountValue;
    hide StringValue;
    hide Plain;
    hide Chars;
    hide ExampleFinding;
    FieldsReadable(ExampleSurface().fields);
  }

  lemma ReportReadable()
    ensures Readable(ExampleReport().fields)
  {
    UnitsAreChars("profile");
    UnitsAreChars("schema_version");
    UnitsAreChars("producers");
    UnitsAreChars("analysis_coverage");
    UnitsAreChars("sections");
    StringPlain("api-review");
    StringPlain("1");
    SurfaceReadable();
    ArraysPlain(ExampleSurface());
    hide Units;
    hide Plain;
    hide Chars;
    hide StringValue;
    hide ExampleSurface;
    FieldsReadable(ExampleReport().fields);
  }

  lemma ScopeReadable()
    ensures Readable(ExampleScope().fields)
  {
    UnitsAreChars("version");
    UnitsAreChars("corpus");
    UnitsAreChars("configuration");
    StringPlain("all");
    StringPlain("default");
    PlainNumber(1);
    hide Units;
    hide Plain;
    hide Chars;
    hide StringValue;
    hide CountValue;
    FieldsReadable(ExampleScope().fields);
  }

  lemma ReadsAt(fs: seq<Field>, key: string, i: nat)
    requires Readable(fs) && i < |fs| && fs[i].key == Units(key)
    ensures Get(VObject(fs), key) == Some(fs[i].value)
  {
  }

  lemma ExampleNamed()
    ensures Names(ExampleFinding(), Units("m.ml"), Units("f"))
  {
    hide Get;
    hide Readable;
    hide Joined;
    FindingReadable();
    var fs := ExampleFinding().fields;
    ReadsAt(fs, "kind", 0);
    ReadsAt(fs, "id", 1);
    ReadsAt(fs, "subject", 2);
    assert |Units("m.ml")| == 4 && |Units("f")| == 1;
    assert BAR !in Units("m.ml") && BAR !in Units("f");
  }

  lemma SurfaceFields()
    ensures var api := ExampleSurface();
            && IsText(Get(api, "analysis"), "api_surface") && IsText(Get(api, "status"), "covered")
            && Get(api, "finding_count") == Some(VNumber(Decimal(1))) && Get(api, "findings") == Some(VArray([ExampleFinding()]))
  {
    hide Get;
    hide Readable;
    hide Units;
    hide ExampleFinding;
    SurfaceReadable();
    var fs := ExampleSurface().fields;
    ReadsAt(fs, "analysis", 0);
    ReadsAt(fs, "status", 1);
    ReadsAt(fs, "finding_count", 2);
    ReadsAt(fs, "findings", 3);
  }

  lemma ReportFields()
    ensures var v := ExampleReport();
            && v.VObject? && IsText(Get(v, "profile"), "api-review") && NonEmpty(Get(v, "schema_version"))
            && Get(v, "producers") == Some(VArray([])) && IsArray(Get(v, "analysis_coverage"))
            && Get(v, "sections") == Some(VArray([ExampleSurface()]))
  {
    hide Get;
    hide Readable;
    hide Units;
    hide ExampleSurface;
    ReportReadable();
    var fs := ExampleReport().fields;
    ReadsAt(fs, "profile", 0);
    ReadsAt(fs, "schema_version", 1);
    ReadsAt(fs, "producers", 2);
    ReadsAt(fs, "analysis_coverage", 3);
    ReadsAt(fs, "sections", 4);
    UnitsAreChars("1");
  }

  lemma ExampleAccepted(arrange: Arrange)
    ensures ReportOf(ExampleReport(), arrange).Ok?
  {
    ReportFields();
    SurfaceFields();
    ExampleNamed();
    FindingExact(ExampleFinding());
    var api, findings := ExampleSurface(), [ExampleFinding()];
    hide Get;
    hide Units;
    hide Names;
    hide ApiRowOf;
    hide Decimal;
    hide ReportOf;
    hide IsText;
    hide ExampleReport;
    hide ExampleSurface;
    hide ExampleFinding;
    assert OnlySurface([api], api) by {
      assert [api][0] == api;
    }
    assert Accepted(ExampleReport(), api, findings);
    ReportExact(ExampleReport(), arrange);
  }

  /** A report and a scope that the consumer accepts. */
  function ExampleInputs(): Inputs {
    Inputs(Some(JsonFile(ExampleReport())), Some(JsonFile(ExampleScope())), None)
  }

  /** A first run is accepted when its two inputs are. */
  lemma FirstRunAccepted(report: Text, scope: Text, arrange: Arrange, sha: Hash)
    requires ParseJson(report).Some? && ReportOf(ParseJson(report).value, arrange).Ok?
    requires ParseJson(scope).Some? && ScopeOf(ParseJson(scope).value, sha).Ok?
    ensures Assess(Inputs(Some(report), Some(scope), None), arrange, sha).Ok?
  {
    hide ParseJson;
    hide ReportOf;
    hide ScopeOf;
    hide BaselineOf;
  }

  lemma ScopeAccepted(sha: Hash)
    ensures ScopeOf(ExampleScope(), sha).Ok?
  {
    ScopeFields();
    hide Get;
    hide Encoded;
  }

  lemma ExampleAssessed(arrange: Arrange, sha: Hash)
    ensures Assess(ExampleInputs(), arrange, sha).Ok?
  {
    hide ParseJson;
    hide ReportOf;
    hide ScopeOf;
    hide Plain;
    hide Written;
    hide Assess;
    hide Readable;
    ReportIsPlain();
    ScopeIsPlain();
    ExampleAccepted(arrange);
    ScopeAccepted(sha);
    WrittenReadsBack(ExampleReport(), true, [10]);
    WrittenReadsBack(ExampleScope(), true, [10]);
    FirstRunAccepted(JsonFile(ExampleReport()), JsonFile(ExampleScope()), arrange, sha);
  }

  lemma ReportIsPlain()
    ensures Plain(ExampleReport())
  {
    hide Plain;
    ReportReadable();
  }

  lemma ScopeIsPlain()
    ensures Plain(ExampleScope())
  {
    hide Plain;
    ScopeReadable();
  }

  lemma ScopeFields()
    ensures var v := ExampleScope();
            Get(v, "version") == Some(VNumber(Decimal(1))) && NonEmpty(Get(v, "corpus")) && NonEmpty(Get(v, "configuration"))
  {
    hide Get;
    hide Readable;
    ScopeReadable();
    var fs := ExampleScope().fields;
    ReadsAt(fs, "version", 0);
    ReadsAt(fs, "corpus", 1);
    ReadsAt(fs, "configuration", 2);
    assert |Units("all")| == 3 && |Units("default")| == 7;
  }

  /** A file that cannot be read back for hashing is enough for a run that exits 2 and leaves
      a package which passes for a baseline, as does that of the run in which nothing fails. */
  method FailedRunLeavesBaselineExample(arrange: Arrange, sha: Hash)
    returns (exit: nat, files: Files, exit0: nat, files0: Files)
    requires TextHash(sha)
    ensures Assess(ExampleInputs(), arrange, sha).Ok?
    ensures exit == 2 && exit0 == 0
    ensures BaselineOf(files, arrange, sha).Ok? && BaselineOf(files, arrange, sha) == BaselineOf(files0, arrange, sha)
  {
    hide Assess;
    hide BaselineOf;
    hide ExampleInputs;
    ExampleAssessed(arrange, sha);
    var failing := Schedule(_ => Saved, n => n == DeltaJson, Saved, Saved, []);
    assert HASHED[2] in HASHED;
    exit, files := RunConsumer(ExampleInputs(), failing, arrange, sha);
    exit0, files0 := RunConsumer(ExampleInputs(), Schedule(_ => Saved, _ => false, Saved, Saved, []), arrange, sha);
  }
}
