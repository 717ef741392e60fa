/** The independent validator of an origin evidence package
    (scripts/origin-consumer-artifacts.js:7-25). */
module OriginPackage {
  import opened Prelude

  datatype FileName = Gate | ReportJson | ReportSarif | ReportHtml | Diagnostics | RunJson | Other(name: string)

  /** A file's content: opaque bytes, or text that parses as a run record. */
  datatype Content = Bytes(text: string) | RunText(run: RunRecord)

  /** The digest of a content. Hashing is taken to be injective. */
  datatype Digest = Digest(of: Content)

  datatype Status = Held | PolicyFailed | CoverageDrift | Error | Invented(text: string)

  datatype RunRecord = RunRecord(status: Status, complete: bool, artifacts: map<FileName, Digest>)

  type Directory = map<FileName, Content>

  datatype Rejection =
    | RequiredMissing | UnreadableRun | UnknownStatus | CompleteMismatch
    | Missing(file: FileName) | DigestMismatch(file: FileName) | ErrorPublishes(file: FileName) | Unexpected

  const ARTIFACTS := [Gate, ReportJson, ReportSarif, ReportHtml]
  const REPORTS := [ReportJson, ReportSarif, ReportHtml]

  predicate Complete(s: Status) {
    s == Held || s == PolicyFailed || s == CoverageDrift
  }

  /** The first listed artifact that is missing or does not hash to what the record says. */
  function CheckArtifacts(dir: Directory, run: RunRecord, names: seq<FileName>): (r: Option<Rejection>)
    ensures r.None? <==> forall n :: n in names ==> n in dir && n in run.artifacts && run.artifacts[n] == Digest(dir[n])
  {
    if names == [] then None
    else if names[0] !in dir then Some(Missing(names[0]))
    else if names[0] !in run.artifacts || run.artifacts[names[0]] != Digest(dir[names[0]]) then Some(DigestMismatch(names[0]))
    else CheckArtifacts(dir, run, names[1..])
  }

  function CheckNoReports(dir: Directory, names: seq<FileName>): (r: Option<Rejection>)
    ensures r.None? <==> forall n :: n in names ==> n !in dir
  {
    if names == [] then None
    else if names[0] in dir then Some(ErrorPublishes(names[0]))
    else CheckNoReports(dir, names[1..])
  }

  function Validate(dir: Directory): Result<RunRecord, Rejection> {
    if RunJson !in dir || Diagnostics !in dir then Err(RequiredMissing)
    else if !dir[RunJson].RunText? then Err(UnreadableRun)
    else
      var run := dir[RunJson].run;
      if run.status.Invented? then Err(UnknownStatus)
      else if Complete(run.status) != run.complete then Err(CompleteMismatch)
      else
        var bad := if run.complete then CheckArtifacts(dir, run, ARTIFACTS) else CheckNoReports(dir, REPORTS);
        if bad.Some? then Err(bad.value)
        else if exists n :: n in dir && n.Other? then Err(Unexpected)
        else Ok(run)
  }

  ghost predicate NoReports(dir: Directory) {
    ReportJson !in dir && ReportSarif !in dir && ReportHtml !in dir
  }

  ghost predicate Sealed(dir: Directory, run: RunRecord, name: FileName) {
    name in dir && name in run.artifacts && run.artifacts[name] == Digest(dir[name])
  }

  /** What acceptance means, without the order of the checks. */
  ghost predicate Acceptable(dir: Directory, run: RunRecord) {
    && RunJson in dir && Diagnostics in dir && dir[RunJson] == RunText(run)
    && (forall n :: n in dir ==> !n.Other?)
    && match run.status
       case Invented(_) => false
       case Error => !run.complete && NoReports(dir)
       case _ => run.complete && Sealed(dir, run, Gate) && Sealed(dir, run, ReportJson)
                 && Sealed(dir, run, ReportSarif) && Sealed(dir, run, ReportHtml)
  }

  lemma ListedFiles()
    ensures forall n :: n in ARTIFACTS <==> n == Gate || n == ReportJson || n == ReportSarif || n == ReportHtml
    ensures forall n :: n in REPORTS <==> n == ReportJson || n == ReportSarif || n == ReportHtml
  {
    assert ARTIFACTS[0] == Gate && ARTIFACTS[1] == ReportJson && ARTIFACTS[2] == ReportSarif && ARTIFACTS[3] == ReportHtml;
    assert REPORTS[0] == ReportJson && REPORTS[1] == ReportSarif && REPORTS[2] == ReportHtml;
  }

  /** Acceptance of a directory is exactly that; in particular an error run that still has a
      report is never accepted. */
  lemma ValidateExact(dir: Directory, run: RunRecord)
    ensures Validate(dir) == Ok(run) <==> Acceptable(dir, run)
  {
    ListedFiles();
  }
}
