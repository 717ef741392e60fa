/** When the api-review consumer accepts a baseline and its inputs, and what its files say, field
    by field (scripts/analysis-report-consumer.js:77-131). */
module ReportMeaning {
  import opened JsonSyntax
  import opened JsonValue
  import opened Prelude
  import opened ReportContract
  import opened ReportPackage

  // ---------------------------------------------------------------- baselines and inputs

  /** A record of a complete package, with the hash of its scope and of its report. */
  ghost predicate Claims(run: Value, scopeHash: Text, reportHash: Text) {
    && Get(run, "version") == Some(VNumber(['1' as int])) && Get(run, "complete") == Some(VWord(True))
    && (Get(run, "status") == Some(VString(Units("first-run"))) || Get(run, "status") == Some(VString(Units("compared"))))
    && (exists scope :: Get(run, "scope") == Some(scope) && Get(scope, "sha256") == Some(VString(scopeHash)))
    && exists artifacts :: Get(run, "artifacts") == Some(artifacts) && Get(artifacts, "report.json") == Some(VString(reportHash))
  }

  /** A package whose record makes those claims for the report and the scope beside it. */
  ghost predicate BaselineHolds(files: Files, arrange: Arrange, sha: Hash, run: Value, scope: Value, report: Value) {
    && RunJson in files && ParseJson(files[RunJson]) == Some(run)
    && ScopeJson in files && ParseJson(files[ScopeJson]) == Some(scope) && ScopeOf(scope, sha).Ok?
    && ReportJson in files && ParseJson(files[ReportJson]) == Some(report) && ReportOf(report, arrange).Ok?
    && Claims(run, ScopeOf(scope, sha).value, sha(files[ReportJson]))
  }

  lemma RunOkMeans(run: Value)
    ensures RunOk(run) <==> exists scopeHash, reportHash :: Claims(run, scopeHash, reportHash)
    ensures forall scopeHash, reportHash :: Claims(run, scopeHash, reportHash) ==>
              && TextOf(Within(Get(run, "scope"), "sha256")) == Some(scopeHash)
              && TextOf(Within(Get(run, "artifacts"), "report.json")) == Some(reportHash)
    ensures RunOk(run) ==> Claims(run, TextOf(Within(Get(run, "scope"), "sha256")).value, TextOf(Within(Get(run, "artifacts"), "report.json")).value)
  {
    hide Get;
    hide Units;
    if scopeHash, reportHash :| Claims(run, scopeHash, reportHash) {
      ClaimsAreOk(run, scopeHash, reportHash);
    }
    if RunOk(run) {
      var scope, artifacts := Get(run, "scope").value, Get(run, "artifacts").value;
      assert Get(scope, "sha256") == Some(VString(TextOf(Within(Get(run, "scope"), "sha256")).value));
      assert Get(artifacts, "report.json") == Some(VString(TextOf(Within(Get(run, "artifacts"), "report.json")).value));
      var scopeHash, reportHash := TextOf(Within(Get(run, "scope"), "sha256")).value, TextOf(Within(Get(run, "artifacts"), "report.json")).value;
      assert Claims(run, scopeHash, reportHash);
    }
  }

  lemma ClaimsAreOk(run: Value, scopeHash: Text, reportHash: Text)
    requires Claims(run, scopeHash, reportHash)
    ensures RunOk(run)
  {
    hide Get;
    assert Decimal(1) == ['1' as int];
  }

  /** A package is accepted as a baseline exactly when it is such a package, and gives its
      report and the hash of its scope. */
  lemma BaselineExact(files: Files, arrange: Arrange, sha: Hash)
    ensures BaselineOf(files, arrange, sha).Ok? <==> exists run, scope, report :: BaselineHolds(files, arrange, sha, run, scope, report)
    ensures forall run, scope, report :: BaselineHolds(files, arrange, sha, run, scope, report) ==>
              BaselineOf(files, arrange, sha) == Ok(Previous(ReportOf(report, arrange).value, ScopeOf(scope, sha).value))
  {
    hide ParseJson;
    hide ReportOf;
    hide ScopeOf;
    hide RunOk;
    hide Claims;
    hide Get;
    if ReadJson(files, RunJson).Some? {
      RunOkMeans(ReadJson(files, RunJson).value);
    }
    if BaselineOf(files, arrange, sha).Ok? {
      assert BaselineHolds(files, arrange, sha, ReadJson(files, RunJson).value, ReadJson(files, ScopeJson).value, ReadJson(files, ReportJson).value);
    }
  }

  /** The previous report and scope may be compared with the current ones. */
  ghost predicate Comparable(previous: Previous, current: Report, hash: Text) {
    && previous.report.schema == current.schema && previous.hash == hash
    && Encoded(VArray(previous.report.identity)) == Encoded(VArray(current.identity))
    && Encoded(previous.report.coverage) == Encoded(current.coverage)
  }

  /** What a run goes by: its report and scope, and a comparable baseline if it has one. */
  ghost predicate Assesses(inp: Inputs, arrange: Arrange, sha: Hash, a: Assessed) {
    && inp.report.Some? && (exists v :: ParseJson(inp.report.value) == Some(v) && ReportOf(v, arrange) == Ok(a.current))
    && inp.scope.Some? && ParseJson(inp.scope.value) == Some(a.scope) && ScopeOf(a.scope, sha) == Ok(a.hash)
    && match inp.baseline
       case None => a.delta == None
       case Some(files) =>
         exists previous :: && BaselineOf(files, arrange, sha) == Ok(previous) && Comparable(previous, a.current, a.hash)
                            && a.delta == Some(DeltaOf(previous.report, a.current))
  }

  /** The inputs are accepted exactly for that. */
  lemma AssessExact(inp: Inputs, arrange: Arrange, sha: Hash, a: Assessed)
    ensures Assess(inp, arrange, sha) == Ok(a) <==> Assesses(inp, arrange, sha, a)
  {
    hide ParseJson;
    hide ReportOf;
    hide ScopeOf;
    hide BaselineOf;
    hide DeltaOf;
    hide Encoded;
  }

  // ---------------------------------------------------------------- what the files say

  lemma {:induction false} FindsAt(fs: seq<Field>, i: nat)
    requires DistinctKeys(fs) && i < |fs|
    ensures FindField(fs, fs[i].key) == Some(fs[i].value)
  {
    if i > 0 {
      assert forall j :: 0 <= j < |fs[1..]| ==> fs[1..][j] == fs[j + 1];
      FindsAt(fs[1..], i - 1);
    }
  }

  lemma {:induction false} FindsOnlyKeys(fs: seq<Field>, key: Text)
    requires forall f :: f in fs ==> f.key != key
    ensures FindField(fs, key) == None
  {
    if fs != [] {
      FindsOnlyKeys(fs[1..], key);
    }
  }

  ghost predicate Says(v: Value, key: string, w: Value) {
    Get(v, key) == Some(w)
  }

  lemma SaysAt(v: Value, i: nat, key: string)
    requires v.VObject? && DistinctKeys(v.fields) && i < |v.fields| && v.fields[i].key == Units(key)
    ensures Says(v, key, v.fields[i].value)
  {
    FindsAt(v.fields, i);
  }

  function Count(n: nat): Value { VNumber(Decimal(n)) }

  function CountOrNull(n: Option<nat>): Value {
    if n.Some? then Count(n.value) else VWord(Null)
  }

  function Sentence(s: string): Value { VString(Units(s)) }

  lemma UnitCounts(s: string)
    ensures |Units(s)| == |s|
  {
  }

  lemma SummaryKeys(baseline: Option<nat>, current: nat, added: Option<nat>, kept: Option<nat>, absent: Option<nat>)
    ensures DistinctKeys(SummaryOf(baseline, current, added, kept, absent).fields)
  {
    UnitCounts("baseline");
    UnitCounts("current");
    UnitCounts("new");
    UnitCounts("unchanged");
    UnitCounts("absent");
    hide Units;
    hide Cell;
    hide CountValue;
  }

  /** The counts of a delta: null but for the current one without a baseline. */
  lemma SummaryMeans(d: Option<Delta>, current: nat)
    ensures var s := Counts(d, current);
            && Says(s, "baseline", CountOrNull(if d.Some? then Some(d.value.baseline) else None)) && Says(s, "current", Count(current))
            && Says(s, "new", CountOrNull(if d.Some? then Some(|d.value.added|) else None))
            && Says(s, "unchanged", CountOrNull(if d.Some? then Some(|d.value.kept|) else None))
            && Says(s, "absent", CountOrNull(if d.Some? then Some(|d.value.absent|) else None))
  {
    hide Says;
    hide Units;
    hide Decimal;
    var s := Counts(d, current);
    if d.Some? {
      SummaryKeys(Some(d.value.baseline), current, Some(|d.value.added|), Some(|d.value.kept|), Some(|d.value.absent|));
    } else {
      SummaryKeys(None, current, None, None, None);
    }
    SaysAt(s, 0, "baseline");
    SaysAt(s, 1, "current");
    SaysAt(s, 2, "new");
    SaysAt(s, 3, "unchanged");
    SaysAt(s, 4, "absent");
  }

  /** One entry of a delta. */
  lemma ClassifiedMeans(c: Classified)
    ensures var v := ClassifiedValue(c);
            && Says(v, "identity", VString(c.identity)) && Says(v, "baseline", VWord(if c.baseline then True else False))
            && Says(v, "current", VWord(if c.current then True else False))
  {
    hide Says;
    var v := ClassifiedValue(c);
    UnitCounts("identity");
    UnitCounts("baseline");
    UnitCounts("current");
    assert Units("identity")[0] == 'i' as int && Units("baseline")[0] == 'b' as int;
    hide Units;
    SaysAt(v, 0, "identity");
    SaysAt(v, 1, "baseline");
    SaysAt(v, 2, "current");
  }

  lemma DeltaKeys(d: Option<Delta>, current: nat)
    ensures DistinctKeys(DeltaValue(d, current).fields)
  {
    UnitCounts("version");
    UnitCounts("status");
    UnitCounts("identity");
    UnitCounts("limitations");
    UnitCounts("summary");
    UnitCounts("new");
    UnitCounts("unchanged");
    UnitCounts("absent");
    assert Units("version")[0] == 'v' as int && Units("summary")[0] == 's' as int && Units("status")[0] == 's' as int && Units("absent")[0] == 'a' as int;
    hide Units;
    hide Counts;
    hide StringValue;
    hide CountValue;
  }

  /** What delta.json says. */
  lemma DeltaMeans(d: Option<Delta>, current: nat)
    ensures var v := DeltaValue(d, current);
            && Says(v, "version", VNumber(['1' as int])) && Says(v, "status", Sentence(if d.Some? then "compared" else "no_baseline"))
            && Says(v, "identity", Sentence("api_surface file:function")) && Says(v, "summary", Counts(d, current))
            && Says(v, "limitations", VArray(Limitations(d)))
            && Says(v, "new", VArray(Map(ClassifiedValue, if d.Some? then d.value.added else [])))
            && Says(v, "unchanged", VArray(Map(ClassifiedValue, if d.Some? then d.value.kept else [])))
            && Says(v, "absent", VArray(Map(ClassifiedValue, if d.Some? then d.value.absent else [])))
  {
    hide DeltaValue;
    hide Says;
    hide Units;
    hide Counts;
    hide ClassifiedValue;
    DeltaHead(d, current);
    DeltaLists(d, current);
  }

  lemma DeltaFields(status: string, limitations: seq<Value>, summary: Value,
                    added: seq<Classified>, kept: seq<Classified>, absent: seq<Classified>)
    ensures var v := DeltaObject(status, limitations, summary, added, kept, absent);
            && v.VObject? && |v.fields| == 8 && v.fields[0] == Field(Units("version"), CountValue(1))
            && v.fields[1] == Field(Units("status"), StringValue(status))
            && v.fields[2] == Field(Units("identity"), StringValue("api_surface file:function"))
            && v.fields[3] == Field(Units("limitations"), VArray(limitations)) && v.fields[4] == Field(Units("summary"), summary)
            && v.fields[5] == Field(Units("new"), VArray(Map(ClassifiedValue, added)))
            && v.fields[6] == Field(Units("unchanged"), VArray(Map(ClassifiedValue, kept)))
            && v.fields[7] == Field(Units("absent"), VArray(Map(ClassifiedValue, absent)))
  {
    hide Units;
    hide StringValue;
    hide CountValue;
    hide ClassifiedValue;
    hide Map;
  }

  lemma DeltaIs(d: Option<Delta>, current: nat)
    ensures DeltaValue(d, current) ==
            DeltaObject(if d.Some? then "compared" else "no_baseline", Limitations(d), Counts(d, current),
                        if d.Some? then d.value.added else [], if d.Some? then d.value.kept else [], if d.Some? then d.value.absent else [])
  {
    hide Units;
    hide Counts;
    hide DeltaObject;
  }

  lemma DeltaHead(d: Option<Delta>, current: nat)
    ensures var v := DeltaValue(d, current);
            && Says(v, "version", VNumber(['1' as int])) && Says(v, "status", Sentence(if d.Some? then "compared" else "no_baseline"))
            && Says(v, "identity", Sentence("api_surface file:function")) && Says(v, "summary", Counts(d, current))
  {
    hide DeltaValue;
    hide DeltaObject;
    hide Says;
    hide Units;
    hide Counts;
    hide DistinctKeys;
    hide Limitations;
    hide Map;
    var v := DeltaValue(d, current);
    DeltaKeys(d, current);
    DeltaIs(d, current);
    DeltaFields(if d.Some? then "compared" else "no_baseline", Limitations(d), Counts(d, current),
                if d.Some? then d.value.added else [], if d.Some? then d.value.kept else [], if d.Some? then d.value.absent else []);
    SaysAt(v, 0, "version");
    SaysAt(v, 1, "status");
    SaysAt(v, 2, "identity");
    SaysAt(v, 4, "summary");
  }

  function Limitations(d: Option<Delta>): seq<Value> {
    if d.Some?
    then [Sentence("An absent API entry is not a correction or risk verdict."),
          Sentence("MUST/MAY reachability and MAY_TOP frontiers are not compared by this consumer.")]
    else [Sentence("No semantic comparison was requested."), Sentence("Promote this completed package explicitly after review.")]
  }

  lemma DeltaLists(d: Option<Delta>, current: nat)
    ensures var v := DeltaValue(d, current);
            && Says(v, "limitations", VArray(Limitations(d)))
            && Says(v, "new", VArray(Map(ClassifiedValue, if d.Some? then d.value.added else [])))
            && Says(v, "unchanged", VArray(Map(ClassifiedValue, if d.Some? then d.value.kept else [])))
            && Says(v, "absent", VArray(Map(ClassifiedValue, if d.Some? then d.value.absent else [])))
  {
    hide DeltaValue;
    hide DeltaObject;
    hide Says;
    hide Units;
    hide Counts;
    hide ClassifiedValue;
    hide DistinctKeys;
    hide Map;
    hide Limitations;
    hide CountValue;
    hide StringValue;
    var v := DeltaValue(d, current);
    DeltaKeys(d, current);
    DeltaIs(d, current);
    DeltaFields(if d.Some? then "compared" else "no_baseline", Limitations(d), Counts(d, current),
                if d.Some? then d.value.added else [], if d.Some? then d.value.kept else [], if d.Some? then d.value.absent else []);
    SaysAt(v, 3, "limitations");
    SaysAt(v, 5, "new");
    SaysAt(v, 6, "unchanged");
    SaysAt(v, 7, "absent");
  }

  lemma SummaryOfReport(r: Report)
    ensures var v := ReportSummary(r);
            && Says(v, "profile", Sentence("api-review")) && Says(v, "schema_version", VString(r.schema)) && Says(v, "producers", VArray(r.producers))
  {
    hide Says;
    var v := ReportSummary(r);
    UnitCounts("profile");
    UnitCounts("schema_version");
    UnitCounts("producers");
    hide Units;
    SaysAt(v, 0, "profile");
    SaysAt(v, 1, "schema_version");
    SaysAt(v, 2, "producers");
  }

  lemma RunDistinct(o: Outcome, message: Option<Text>)
    ensures DistinctKeys(RunValue(o, message).fields)
  {
    hide RunFields;
    hide Units;
    RunKeysDiffer(o);
  }

  /** What a run record says before anything was published. */
  lemma ErrorMeans(o: Outcome, message: Option<Text>)
    requires o.done.None?
    ensures var v := RunValue(o, message);
            && Says(v, "version", VNumber(['1' as int])) && Says(v, "complete", VWord(False)) && Says(v, "status", Sentence("error"))
            && Says(v, "artifacts", VObject(o.artifacts)) && (message.Some? ==> Says(v, "diagnostics", VString(message.value)))
  {
    hide Says;
    hide Units;
    hide DistinctKeys;
    RunDistinct(o, message);
    var v := RunValue(o, message);
    SaysAt(v, 0, "version");
    SaysAt(v, 1, "complete");
    SaysAt(v, 2, "status");
    SaysAt(v, 3, "artifacts");
    if message.Some? {
      SaysAt(v, 4, "diagnostics");
    }
  }

  /** And what it says afterwards. */
  lemma RunMeans(o: Outcome, message: Option<Text>)
    requires o.done.Some?
    ensures var v, a := RunValue(o, message), o.done.value;
            && Says(v, "version", VNumber(['1' as int])) && Says(v, "complete", VWord(True))
            && Says(v, "status", Sentence(if a.delta.Some? then "compared" else "first-run"))
            && Says(v, "report", ReportSummary(a.current)) && Says(v, "scope", VObject([Field(Units("sha256"), VString(a.hash))]))
            && Says(v, "comparison", Counts(a.delta, |a.current.rows|)) && Says(v, "artifacts", VObject(o.artifacts))
            && (message.Some? ==> Says(v, "diagnostics", VString(message.value)))
  {
    hide Says;
    hide Units;
    hide DistinctKeys;
    hide Counts;
    hide ReportSummary;
    RunDistinct(o, message);
    var v := RunValue(o, message);
    SaysAt(v, 0, "version");
    SaysAt(v, 1, "complete");
    SaysAt(v, 2, "status");
    SaysAt(v, 3, "report");
    SaysAt(v, 4, "scope");
    SaysAt(v, 5, "comparison");
    SaysAt(v, 6, "artifacts");
    if message.Some? {
      SaysAt(v, 7, "diagnostics");
    }
  }

  /** The hashes that a complete run records. */
  lemma HashesMean(files: Files, sha: Hash)
    requires forall n :: n in HASHED ==> n in files
    ensures ReportJson in files && ScopeJson in files && DeltaJson in files && DiagnosticsTxt in files
    ensures Hashes(files, sha, 4) ==
            [Field(Units("report.json"), VString(sha(files[ReportJson]))), Field(Units("scope.json"), VString(sha(files[ScopeJson]))),
             Field(Units("delta.json"), VString(sha(files[DeltaJson]))), Field(Units("diagnostics.txt"), VString(sha(files[DiagnosticsTxt])))]
  {
    assert HASHED[0] in HASHED && HASHED[1] in HASHED && HASHED[2] in HASHED && HASHED[3] in HASHED;
    hide Units;
    HashesShape(files, sha, 4);
  }
}
