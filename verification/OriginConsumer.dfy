/** Evidence publication under faults (scripts/origin-consumer.js:147-280): a run in which
    any step may fail, and what it leaves in the package directory. */
module OriginConsumer {
  import opened Prelude
  import opened OriginPackage

  datatype Verdict = PASS | UNKNOWN | VIOLATION | POSSIBLE

  /** A write either succeeds or throws, leaving the file untouched or with any content. */
  datatype Write = Written | Failed(leftover: Option<Content>)

  /** The three places that remove published files. */
  datatype Phase = InCatch | InCleanup | InRollback

  /** Everything that the world decides about one run. */
  datatype Schedule = Schedule(
    prepareFails: bool, dbNamed: bool,
    gateText: string, gateWrite: Write,
    stageFails: bool, reportFails: bool,
    evidence: Option<Verdict>, gateExit: int, drift: bool,
    reportText: FileName -> string, copy: FileName -> Write,
    lateCheckFails: bool, hashFails: bool,
    unlinkFails: (Phase, FileName) -> bool,
    dbCleanupFails: bool, stageCleanupFails: bool,
    diagnosticsText: string, diagnosticsWrite: Write, runWrite: Write)

  /** Every removal of a published file succeeds. */
  ghost predicate UnlinksSucceed(s: Schedule) {
    forall phase, name :: !s.unlinkFails(phase, name)
  }

  /** The one way a run record stays behind without being the run's own: its write failed
      after putting something there, and the rollback could not remove it. */
  predicate LeftRunRecord(s: Schedule) {
    && s.diagnosticsWrite.Written? && s.runWrite.Failed? && s.runWrite.leftover.Some?
    && s.unlinkFails(InRollback, RunJson)
  }

  /** Nothing in the `try` block goes wrong: every step works, the evidence is valid, and the gate
      exited 1 for a failed policy and 0 otherwise. */
  predicate Smooth(s: Schedule) {
    && !s.prepareFails && s.gateWrite == Written && !s.stageFails && !s.reportFails
    && s.evidence.Some? && Concludes(s)
  }

  /** From the verdict on. */
  predicate Concludes(s: Schedule) {
    && (s.evidence == Some(VIOLATION) || s.evidence == Some(POSSIBLE) ==> s.gateExit == 1)
    && (s.evidence == Some(PASS) || s.evidence == Some(UNKNOWN) ==> s.gateExit == 0)
    && s.copy(ReportJson) == Written && s.copy(ReportSarif) == Written && s.copy(ReportHtml) == Written
    && !s.lateCheckFails && !s.hashFails
  }

  /** The gate's verdict was written and agrees with the reports. */
  predicate EvidenceValid(s: Schedule) {
    !s.prepareFails && s.gateWrite == Written && !s.stageFails && !s.reportFails && s.evidence.Some?
  }

  /** And neither does anything after it. */
  predicate Faultless(s: Schedule) {
    Smooth(s) && !s.dbCleanupFails && !s.stageCleanupFails && s.diagnosticsWrite == Written && s.runWrite == Written
  }

  /** The conditions of a faultless run, one by one. */
  lemma FaultlessMeans(s: Schedule)
    ensures Faultless(s) <==>
            && !s.prepareFails && !s.stageFails && !s.reportFails && !s.lateCheckFails && !s.hashFails
            && !s.dbCleanupFails && !s.stageCleanupFails
            && s.gateWrite == Written && s.copy(ReportJson) == Written && s.copy(ReportSarif) == Written && s.copy(ReportHtml) == Written
            && s.diagnosticsWrite == Written && s.runWrite == Written
            && (s.gateExit == 0 || s.gateExit == 1)
            && (s.gateExit == 0 ==> s.evidence == Some(PASS) || s.evidence == Some(UNKNOWN))
            && (s.gateExit == 1 ==> s.evidence == Some(VIOLATION) || s.evidence == Some(POSSIBLE))
    ensures EvidenceValid(s) <==>
            s.evidence != None && !(s.prepareFails || s.stageFails || s.reportFails || s.gateWrite != Written)
    ensures LeftRunRecord(s) <==>
            s.diagnosticsWrite == Written && s.runWrite != Written && s.runWrite != Failed(None) && s.unlinkFails(InRollback, RunJson)
  {
    match s.evidence {
      case Some(verdict) => assert verdict.PASS? || verdict.UNKNOWN? || verdict.VIOLATION? || verdict.POSSIBLE?;
      case None =>
    }
  }

  class Consumer {
    var files: Directory
    var status: Status
    var complete: bool
    var artifacts: map<FileName, Digest>
    var exit: nat
    var gateValidated: bool
    var dbNamed: bool
    var staged: bool

    constructor ()
      ensures files == map[] && status == Error && !complete && artifacts == map[] && exit == 2
      ensures !gateValidated && !dbNamed && !staged
    {
      files, status, complete, artifacts, exit := map[], Error, false, map[], 2;
      gateValidated, dbNamed, staged := false, false, false;
    }

    function Record(): RunRecord
      reads this
    {
      RunRecord(status, complete, artifacts)
    }

    /** A write that may throw. */
    method WriteFile(name: FileName, content: Content, w: Write) returns (threw: bool)
      modifies `files
      ensures threw <==> w.Failed?
      ensures files == match w
                       case Written => old(files)[name := content]
                       case Failed(None) => old(files)
                       case Failed(Some(left)) => old(files)[name := left]
    {
      match w {
        case Written => files := files[name := content];
        case Failed(None) =>
        case Failed(Some(left)) => files := files[name := left];
      }
      threw := w.Failed?;
    }

    /** `unlinkSync` with a missing file ignored: whether an error was reported. */
    method Unlink(name: FileName, fails: bool) returns (failed: bool)
      modifies `files
      ensures failed <==> fails && name in old(files)
      ensures files == if failed then old(files) else old(files) - {name}
    {
      failed := fails && name in files;
      if !failed {
        files := files - {name};
      }
    }

    /** `purgeReports`. */
    method PurgeReports(s: Schedule, phase: Phase)
      modifies `files
      ensures forall n :: n in files ==> n in old(files) && files[n] == old(files)[n]
      ensures forall n :: n in old(files) && n !in files ==> n in {ReportJson, ReportSarif, ReportHtml}
      ensures forall n :: n in {ReportJson, ReportSarif, ReportHtml} && !s.unlinkFails(phase, n) ==> n !in files
    {
      var e := Unlink(ReportJson, s.unlinkFails(phase, ReportJson));
      e := Unlink(ReportSarif, s.unlinkFails(phase, ReportSarif));
      e := Unlink(ReportHtml, s.unlinkFails(phase, ReportHtml));
    }

    /** The files that a complete run publishes, as written from its inputs. */
    ghost predicate Published(s: Schedule)
      reads this
    {
      && Gate in files && files[Gate] == Bytes(s.gateText)
      && (forall n :: n in {ReportJson, ReportSarif, ReportHtml} ==> n in files && files[n] == Bytes(s.reportText(n)))
      && artifacts.Keys == {Gate, ReportJson, ReportSarif, ReportHtml}
      && forall n :: n in artifacts ==> artifacts[n] == Digest(files[n])
    }

    /** Only the four artifacts, nothing else yet. */
    ghost predicate OnlyArtifacts()
      reads this
    {
      files.Keys <= {Gate, ReportJson, ReportSarif, ReportHtml}
    }

    /** Lines 235: the three copies, in order, up to the first that throws. */
    method CopyReports(s: Schedule) returns (threw: bool)
      requires OnlyArtifacts()
      modifies `files
      ensures OnlyArtifacts()
      ensures Gate in old(files) ==> Gate in files && files[Gate] == old(files)[Gate]
      ensures Gate !in old(files) ==> Gate !in files
      ensures threw <==> s.copy(ReportJson).Failed? || s.copy(ReportSarif).Failed? || s.copy(ReportHtml).Failed?
      ensures !threw ==> forall n :: n in {ReportJson, ReportSarif, ReportHtml} ==> n in files && files[n] == Bytes(s.reportText(n))
    {
      threw := WriteFile(ReportJson, Bytes(s.reportText(ReportJson)), s.copy(ReportJson));
      if threw {
        return;
      }
      threw := WriteFile(ReportSarif, Bytes(s.reportText(ReportSarif)), s.copy(ReportSarif));
      if threw {
        return;
      }
      threw := WriteFile(ReportHtml, Bytes(s.reportText(ReportHtml)), s.copy(ReportHtml));
    }

    /** The try block (lines 185-244). */
    method TryBlock(s: Schedule) returns (threw: bool)
      requires files == map[] && status == Error && !complete && artifacts == map[] && exit == 2
      requires !gateValidated && !dbNamed && !staged
      modifies this
      ensures OnlyArtifacts()
      ensures Gate in files && gateValidated ==> files[Gate] == Bytes(s.gateText)
      ensures gateValidated ==> s.evidence.Some? && Gate in files
      ensures threw <==> !Smooth(s)
      ensures !threw ==> gateValidated && complete && Published(s) && dbNamed && staged
      ensures gateValidated <==> EvidenceValid(s)
      ensures dbNamed <==> s.dbNamed || !s.prepareFails
      ensures staged <==> !s.prepareFails && s.gateWrite.Written? && !s.stageFails
      ensures !threw ==> status == Outcome(s) && exit == ExitOf(status)
    {
      dbNamed := s.dbNamed || !s.prepareFails;
      if s.prepareFails {
        return true;
      }
      threw := WriteFile(Gate, Bytes(s.gateText), s.gateWrite);
      if threw {
        return;
      }
      if s.stageFails {
        return true;
      }
      staged := true;
      if s.reportFails || s.evidence.None? {
        return true;
      }
      gateValidated := true;
      threw := Conclude(s);
    }

    /** Lines 230-244: the verdict, the reports, and the hashes. */
    method Conclude(s: Schedule) returns (threw: bool)
      requires s.evidence.Some? && Gate in files && files[Gate] == Bytes(s.gateText) && files.Keys == {Gate}
      modifies `files, `status, `exit, `artifacts, `complete
      ensures threw <==> !Concludes(s)
      ensures OnlyArtifacts() && Gate in files && files[Gate] == Bytes(s.gateText)
      ensures !threw ==> complete && Published(s) && status == Outcome(s) && exit == ExitOf(status)
    {
      var policyFailed := s.evidence.value == VIOLATION || s.evidence.value == POSSIBLE;
      if s.gateExit != (if policyFailed then 1 else 0) {
        return true;
      }
      status := if policyFailed then PolicyFailed else if s.drift then CoverageDrift else Held;
      exit := if policyFailed || s.drift then 1 else 0;
      threw := CopyReports(s);
      if threw {
        return;
      }
      if s.lateCheckFails || s.hashFails {
        return true;
      }
      RecordHashes(s);
    }

    /** Lines 243-244. */
    method RecordHashes(s: Schedule)
      requires Gate in files && files[Gate] == Bytes(s.gateText)
      requires forall n :: n in {ReportJson, ReportSarif, ReportHtml} ==> n in files && files[n] == Bytes(s.reportText(n))
      modifies `artifacts, `complete
      ensures complete && Published(s)
    {
      artifacts := map n | n in {Gate, ReportJson, ReportSarif, ReportHtml} :: Digest(files[n]);
      complete := true;
    }

    /** The catch block (lines 244-247). */
    method CatchBlock(s: Schedule)
      requires OnlyArtifacts()
      modifies `files, `status, `complete, `exit
      ensures OnlyArtifacts() && status == Error && !complete && exit == 2
      ensures forall n :: n in files ==> n in old(files) && files[n] == old(files)[n]
      ensures UnlinksSucceed(s) ==> NoReports(files) && (Gate in files <==> Gate in old(files) && gateValidated)
    {
      status, complete, exit := Error, false, 2;
      PurgeReports(s, InCatch);
      if !gateValidated {
        var e := Unlink(Gate, s.unlinkFails(InCatch, Gate));
      }
    }

    /** Lines 249-264: temporary files; a failure there withdraws the publication. */
    method CleanupBlock(s: Schedule)
      requires OnlyArtifacts()
      modifies `files, `status, `complete, `exit
      ensures OnlyArtifacts()
      ensures var failed := (dbNamed && s.dbCleanupFails) || (staged && s.stageCleanupFails);
              if failed then
                && status == Error && !complete && exit == 2
                && (forall n :: n in files ==> n in old(files) && files[n] == old(files)[n])
                && (Gate in old(files) ==> Gate in files)
                && (UnlinksSucceed(s) ==> NoReports(files))
              else
                files == old(files) && status == old(status) && complete == old(complete) && exit == old(exit)
    {
      var errors := 0;
      if dbNamed && s.dbCleanupFails {
        errors := errors + 1;
      }
      if staged && s.stageCleanupFails {
        errors := errors + 1;
      }
      if errors > 0 {
        exit, status, complete := 2, Error, false;
        PurgeReports(s, InCleanup);
      }
    }

    /** Lines 265-277: the final record, or the withdrawal of everything that claims success. */
    method FinalBlock(s: Schedule)
      requires OnlyArtifacts()
      modifies `files, `status, `complete, `exit
      ensures var recorded := s.diagnosticsWrite.Written? && s.runWrite.Written?;
              if recorded then
                && files == old(files)[Diagnostics := Bytes(s.diagnosticsText)][RunJson := RunText(old(Record()))]
                && status == old(status) && complete == old(complete) && exit == old(exit)
              else
                && status == Error && !complete && exit == 2
                && (UnlinksSucceed(s) ==> RunJson !in files && NoReports(files))
                && (Gate in files <==> Gate in old(files)) && (Gate in files ==> files[Gate] == old(files)[Gate])
                && (RunJson in files <==> LeftRunRecord(s))
                && (RunJson in files ==> files[RunJson] == s.runWrite.leftover.value)
    {
      var threw := WriteFile(Diagnostics, Bytes(s.diagnosticsText), s.diagnosticsWrite);
      if !threw {
        threw := WriteFile(RunJson, RunText(Record()), s.runWrite);
      }
      if threw {
        exit, status, complete := 2, Error, false;
        PurgeReports(s, InRollback);
        var e := Unlink(RunJson, s.unlinkFails(InRollback, RunJson));
      }
    }

    /** The record in memory agrees with itself, with the exit code and with the files. */
    ghost predicate Consistent(s: Schedule)
      reads this
    {
      && exit == ExitOf(status) && !status.Invented?
      && (complete <==> Complete(status))
      && (complete ==> Published(s) && status == Outcome(s) && gateValidated)
      && (gateValidated ==> s.evidence.Some?)
      && (UnlinksSucceed(s) && Gate in files ==> gateValidated)
    }

    /** Everything before the final record. */
    method Publish(s: Schedule)
      requires files == map[] && status == Error && !complete && artifacts == map[] && exit == 2
      requires !gateValidated && !dbNamed && !staged
      modifies this
      ensures OnlyArtifacts() && Consistent(s)
      ensures complete <==> Smooth(s) && !s.dbCleanupFails && !s.stageCleanupFails
      ensures gateValidated <==> EvidenceValid(s)
      ensures UnlinksSucceed(s) && !complete ==> NoReports(files)
      ensures UnlinksSucceed(s) ==> (Gate in files <==> gateValidated)
      ensures gateValidated && Gate in files ==> files[Gate] == Bytes(s.gateText)
    {
      var threw := TryBlock(s);
      if threw {
        CatchBlock(s);
      }
      assert Consistent(s) && (UnlinksSucceed(s) && !complete ==> NoReports(files));
      CleanupBlock(s);
    }

    /** `runConsumer` from the creation of the directory: what every schedule of faults
        leaves behind. */
    method Run(s: Schedule)
      requires files == map[] && status == Error && !complete && artifacts == map[] && exit == 2
      requires !gateValidated && !dbNamed && !staged
      modifies this
      ensures exit == ExitOf(status) && !status.Invented? && (complete <==> Complete(status))
      ensures complete <==> Faultless(s)
      ensures exit == if !Faultless(s) then 2 else if s.evidence == Some(VIOLATION) || s.evidence == Some(POSSIBLE) || s.drift then 1 else 0
      ensures status == if !Faultless(s) then Error
                        else if s.evidence == Some(VIOLATION) || s.evidence == Some(POSSIBLE) then PolicyFailed
                        else if s.drift then CoverageDrift
                        else Held
      ensures complete ==> Validate(files) == Ok(Record()) && status == Outcome(s) && gateValidated
      ensures complete ==> files[Gate] == Bytes(s.gateText)
                           && forall n :: n in {ReportJson, ReportSarif, ReportHtml} ==> files[n] == Bytes(s.reportText(n))
      ensures UnlinksSucceed(s) ==> (Gate in files <==> EvidenceValid(s)) && (Gate in files ==> files[Gate] == Bytes(s.gateText))
      ensures s.diagnosticsWrite.Written? && s.runWrite.Written? ==> Diagnostics in files && files[Diagnostics] == Bytes(s.diagnosticsText)
      ensures UnlinksSucceed(s) ==>
                if RunJson in files then Validate(files) == Ok(Record()) else status == Error && NoReports(files)
      ensures s.diagnosticsWrite.Written? && s.runWrite.Written? ==>
                (Validate(files) == Ok(Record()) <==> complete || NoReports(files))
      ensures RunJson in files <==> (s.diagnosticsWrite.Written? && s.runWrite.Written?) || LeftRunRecord(s)
      ensures RunJson in files && !LeftRunRecord(s) ==> files[RunJson] == RunText(Record())
    {
      Publish(s);
      ghost var run, before := Record(), files;
      FinalBlock(s);
      if s.diagnosticsWrite.Written? && s.runWrite.Written? {
        Recorded(before, run, Bytes(s.diagnosticsText));
      }
    }
  }

  /** Adding the two final files to a directory of artifacts. */
  lemma Recorded(dir: Directory, run: RunRecord, diagnostics: Content)
    requires dir.Keys <= {Gate, ReportJson, ReportSarif, ReportHtml} && !run.status.Invented?
    requires run.complete <==> Complete(run.status)
    requires run.complete ==> Sealed(dir, run, Gate) && Sealed(dir, run, ReportJson)
                              && Sealed(dir, run, ReportSarif) && Sealed(dir, run, ReportHtml)
    ensures var final := dir[Diagnostics := diagnostics][RunJson := RunText(run)];
            Validate(final) == Ok(run) <==> run.complete || NoReports(dir)
  {
    var final := dir[Diagnostics := diagnostics][RunJson := RunText(run)];
    ValidateExact(final, run);
  }

  /** The status a run without faults ends with. */
  function Outcome(s: Schedule): Status {
    if s.evidence == Some(VIOLATION) || s.evidence == Some(POSSIBLE) then PolicyFailed
    else if s.drift then CoverageDrift
    else Held
  }

  function ExitOf(s: Status): nat {
    match s
    case Held => 0
    case PolicyFailed => 1
    case CoverageDrift => 1
    case _ => 2
  }
}
