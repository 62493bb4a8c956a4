/** Every admissible step keeps the invariant and lets reports only grow. */
module Steps {
  import opened Text
  import opened Contract
  import opened Crypto
  import opened Capability
  import opened Disk
  import opened Retention
  import opened Verification
  import opened Protocol
  import opened Invariant
  import Base64Url

  // ---- Opening what the store sealed ----

  /** A handle that loads a task holds the key and the public key the task was sealed with. */
  lemma LoadedTask(cfg: Config, files: Files, owner: Owner, now: Time)
    requires LoadTask(cfg, files, owner, now).Ok?
    ensures owner.opaqueID in files.tasks
    ensures var e := files.tasks[owner.opaqueID];
            && LoadTask(cfg, files, owner, now).value == e.sealed.plain
            && e.sealed.key == owner.recordKey && e.meta.publicKey == OwnerPublicKey(cfg, owner)
            && now < e.meta.expiresAt
  {
  }

  lemma OpenedReport(cfg: Config, files: Files, handle: Handle)
    requires OpenReport(cfg, files, handle).Some?
    ensures ParseOwner(handle).Some?
    ensures var owner := ParseOwner(handle).value;
            && owner.opaqueID in files.reports
            && var e := files.reports[owner.opaqueID];
               && OpenReport(cfg, files, handle).value == e.sealed.plain
               && e.sealed.key == owner.recordKey && e.meta.publicKey == OwnerPublicKey(cfg, owner)
  {
  }

  // ---- Task steps ----

  lemma BeginKeeps(cfg: Config, s: System, a: Action)
    requires FilesOK(cfg, s) && a.Begin? && Admissible(cfg, s, a)
    ensures var t := Apply(cfg, s, a).state; FilesOK(cfg, t) && Evolves(s, t)
  {
    var step := Apply(cfg, s, a);
    var x := a.owner.opaqueID;
    if step.ok {
      TaskAdded(cfg, s, step.state, x, step.state.files.tasks[x]);
    } else {
      FilesUnchanged(cfg, s, step.state);
    }
  }

  lemma GrantKeeps(cfg: Config, s: System, a: Action)
    requires FilesOK(cfg, s) && a.GrantRetrospective? && Admissible(cfg, s, a)
    ensures var t := Apply(cfg, s, a).state; FilesOK(cfg, t) && Evolves(s, t)
  {
    var step := Apply(cfg, s, a);
    var x := a.owner.opaqueID;
    if step.ok {
      GrantAdded(cfg, s, step.state, x, step.state.files.grants[x]);
    } else {
      FilesUnchanged(cfg, s, step.state);
    }
  }

  lemma AppendOwnerKeeps(cfg: Config, s: System, a: Action)
    requires FilesOK(cfg, s) && a.AppendOwner?
    ensures var t := Apply(cfg, s, a).state; FilesOK(cfg, t) && Evolves(s, t)
  {
    var step := Apply(cfg, s, a);
    if step.ok {
      var owner := ParseOwner(a.handle).value;
      LoadedTask(cfg, s.files, owner, a.now);
      TaskRewritten(cfg, s, step.state, owner.opaqueID, step.state.files.tasks[owner.opaqueID]);
    } else {
      FilesUnchanged(cfg, s, step.state);
    }
  }

  lemma DelegateKeeps(cfg: Config, s: System, a: Action)
    requires FilesOK(cfg, s) && a.DelegateExecutor? && Admissible(cfg, s, a)
    ensures var t := Apply(cfg, s, a).state; FilesOK(cfg, t) && Evolves(s, t)
  {
    var step := Apply(cfg, s, a);
    if step.ok {
      var owner := ParseOwner(a.handle).value;
      var x := owner.opaqueID;
      LoadedTask(cfg, s.files, owner, a.now);
      Base64Url.EncodedLetters(a.grantBytes);
      var e := step.state.files.tasks[x];
      assert TaskOK(x, s.files.tasks[x]);
      assert TaskOK(x, e);
      TaskRewritten(cfg, s, step.state, x, e);
    } else {
      FilesUnchanged(cfg, s, step.state);
    }
  }

  // ---- Executor batches ----

  lemma {:induction false} ExtOfAre(p: string)
    ensures Ext(p + ".are") == ".are"
  {
    var a, ar, are := p + ".a", p + ".ar", p + ".are";
    assert are[..|are| - 1] == ar && ar[..|ar| - 1] == a && a[..|a| - 1] == p + ".";
    assert Ext(p + ".") == ".";
    assert Ext(a) == ".a";
    assert Ext(ar) == ".ar";
  }

  lemma BatchNameReads(g: string, random: seq<Base64Url.Byte>)
    ensures NamesGrant(BatchName(g, random), g) && Ext(BatchName(g, random)) == ".are"
  {
    ExtOfAre(g + "." + Base64Url.Encode(random));
  }

  lemma AppendExecutorKeeps(cfg: Config, s: System, a: Action)
    requires FilesOK(cfg, s) && a.AppendExecutor? && Admissible(cfg, s, a)
    ensures var t := Apply(cfg, s, a).state; FilesOK(cfg, t) && Evolves(s, t)
  {
    var step := Apply(cfg, s, a);
    if step.ok {
      var claims := a.handle.executor.claims;
      var x, name := claims.opaqueID, BatchName(claims.grantID, a.random);
      var e := step.state.files.events[x][name];
      BatchNameReads(claims.grantID, a.random);
      assert SignatureOK(s, a.handle.executor.signature);
      assert BatchOf(x, s.files.tasks[x], claims.grantID, name, e);
      BatchAdded(cfg, s, step.state, x, name, e);
    } else {
      FilesUnchanged(cfg, s, step.state);
    }
  }

  // ---- Completion ----

  lemma FirstReportOK(cfg: Config, files: Files, owner: Owner, report: Report, evidence: OwnedEvidence, now: Time)
    requires owner.opaqueID != ""
    requires WriteReport(cfg, files, owner, 0, now, now + cfg.retention, false,
                         FirstRecord(cfg, report, evidence, now)).Some?
    ensures var written := WriteReport(cfg, files, owner, 0, now, now + cfg.retention, false,
                                       FirstRecord(cfg, report, evidence, now)).value;
            && written == files.(reports := files.reports[owner.opaqueID := written.reports[owner.opaqueID]])
            && ReportOK(cfg, owner.opaqueID, written.reports[owner.opaqueID])
  {
  }

  /** The task or grant of `x` has become its first report `e`. */
  ghost predicate BecameReport(cfg: Config, s: System, t: System, x: string, e: Envelope<ReportRecord>) {
    && t.used == s.used && t.issued == s.issued
    && (x in s.files.tasks || x in s.files.grants) && ReportOK(cfg, x, e)
    && t.files == Files(s.files.tasks - {x}, s.files.reports[x := e], s.files.grants - {x}, s.files.events - {x})
    && e.meta.expiresAt == e.meta.createdAt + cfg.retention
  }

  ghost predicate Untouched(s: System, t: System) {
    t.files == s.files && t.used == s.used && t.issued == s.issued
  }

  ghost predicate EndEffect(cfg: Config, s: System, a: Action, step: Step)
    requires a.EndWrite?
  {
    if !step.ok then Untouched(s, step.state)
    else
      && a.agent in s.ending && ParseOwner(s.ending[a.agent].handle).Some?
      && var x := ParseOwner(s.ending[a.agent].handle).value.opaqueID;
         x in step.state.files.reports && BecameReport(cfg, s, step.state, x, step.state.files.reports[x])
  }

  lemma LoadedForEnd(cfg: Config, files: Files, handle: Handle, now: Time)
    requires LoadTaskForEnd(cfg, files, handle, now).Ok?
    ensures ParseOwner(handle).Some? && ParseOwner(handle).value.opaqueID in files.tasks
  {
    LoadedTask(cfg, files, ParseOwner(handle).value, now);
  }

  lemma CompleteEffect(cfg: Config, s: System, t: System, handle: Handle, loaded: Result<TaskRecord, StoreError>,
                       report: Report, evidence: OwnedEvidence, now: Time)
    requires FilesOK(cfg, s) && t.used == s.used && t.issued == s.issued
    requires loaded.Ok? ==> ParseOwner(handle).Some? && ParseOwner(handle).value.opaqueID in s.files.tasks
    requires t.files == Complete(cfg, s.files, handle, loaded, report, evidence, now).files
    ensures if Complete(cfg, s.files, handle, loaded, report, evidence, now).result.Ok? then
              && loaded.Ok?
              && var x := ParseOwner(handle).value.opaqueID;
                 x in t.files.reports && BecameReport(cfg, s, t, x, t.files.reports[x])
            else t.files == s.files
  {
    if Complete(cfg, s.files, handle, loaded, report, evidence, now).result.Ok? {
      var owner := ParseOwner(handle).value;
      FirstReportOK(cfg, s.files, owner, report, evidence, now);
      assert s.files.grants - {owner.opaqueID} == s.files.grants;
    }
  }

  lemma EndWriteEffect(cfg: Config, s: System, a: Action)
    requires FilesOK(cfg, s) && a.EndWrite?
    ensures EndEffect(cfg, s, a, FinishEnd(cfg, s, a.agent, a.report, a.evidence, a.now))
  {
    if a.agent in s.ending {
      var handle := s.ending[a.agent].handle;
      var loaded := LoadTaskForEnd(cfg, s.files, handle, a.now);
      if loaded.Ok? {
        LoadedForEnd(cfg, s.files, handle, a.now);
      }
      var t := FinishEnd(cfg, s, a.agent, a.report, a.evidence, a.now).state;
      CompleteEffect(cfg, s, t, handle, loaded, a.report, a.evidence, a.now);
    }
  }

  lemma CompletionKeeps(cfg: Config, s: System, t: System, x: string, e: Envelope<ReportRecord>)
    requires FilesOK(cfg, s) && BecameReport(cfg, s, t, x, e)
    ensures FilesOK(cfg, t) && Evolves(s, t)
  {
    Completed(cfg, s, t, x, e);
  }

  lemma EndEffectKeeps(cfg: Config, s: System, a: Action, step: Step)
    requires FilesOK(cfg, s) && a.EndWrite? && EndEffect(cfg, s, a, step)
    ensures FilesOK(cfg, step.state) && Evolves(s, step.state)
  {
    if step.ok {
      var x := ParseOwner(s.ending[a.agent].handle).value.opaqueID;
      CompletionKeeps(cfg, s, step.state, x, step.state.files.reports[x]);
    } else {
      FilesUnchanged(cfg, s, step.state);
    }
  }

  lemma EndWriteKeeps(cfg: Config, s: System, a: Action)
    requires FilesOK(cfg, s) && a.EndWrite?
    ensures var t := Apply(cfg, s, a).state; FilesOK(cfg, t) && Evolves(s, t)
  {
    EndWriteEffect(cfg, s, a);
    EndEffectKeeps(cfg, s, a, Apply(cfg, s, a));
  }

  ghost predicate InspectEffect(cfg: Config, s: System, a: Action, step: Step)
    requires a.InspectWrite?
  {
    if !step.ok then Untouched(s, step.state)
    else
      && a.agent in s.inspecting && ParseOwner(s.inspecting[a.agent].handle).Some?
      && var x := ParseOwner(s.inspecting[a.agent].handle).value.opaqueID;
         x in step.state.files.reports && BecameReport(cfg, s, step.state, x, step.state.files.reports[x])
  }

  lemma InspectWriteEffect(cfg: Config, s: System, a: Action)
    requires FilesOK(cfg, s) && a.InspectWrite?
    ensures InspectEffect(cfg, s, a, Apply(cfg, s, a))
  {
    if Apply(cfg, s, a).ok {
      var owner := ParseOwner(s.inspecting[a.agent].handle).value;
      var x := owner.opaqueID;
      FirstReportOK(cfg, s.files, owner, a.report, a.evidence, a.now);
      assert s.files.tasks - {x} == s.files.tasks && s.files.events - {x} == s.files.events;
    }
  }

  lemma InspectEffectKeeps(cfg: Config, s: System, a: Action, step: Step)
    requires FilesOK(cfg, s) && a.InspectWrite? && InspectEffect(cfg, s, a, step)
    ensures FilesOK(cfg, step.state) && Evolves(s, step.state)
  {
    if step.ok {
      var x := ParseOwner(s.inspecting[a.agent].handle).value.opaqueID;
      CompletionKeeps(cfg, s, step.state, x, step.state.files.reports[x]);
    } else {
      FilesUnchanged(cfg, s, step.state);
    }
  }

  lemma InspectWriteKeeps(cfg: Config, s: System, a: Action)
    requires FilesOK(cfg, s) && a.InspectWrite?
    ensures var t := Apply(cfg, s, a).state; FilesOK(cfg, t) && Evolves(s, t)
  {
    InspectWriteEffect(cfg, s, a);
    InspectEffectKeeps(cfg, s, a, Apply(cfg, s, a));
  }

  // ---- Reports ----

  lemma RetainKeeps(cfg: Config, s: System, a: Action)
    requires ValidConfig(cfg) && FilesOK(cfg, s) && a.RetainReport?
    ensures var t := Apply(cfg, s, a).state; FilesOK(cfg, t) && Evolves(s, t)
  {
    var step := Apply(cfg, s, a);
    if step.ok {
      OpenedReport(cfg, s.files, a.handle);
      var x := ParseOwner(a.handle).value.opaqueID;
      assert ReportOK(cfg, x, s.files.reports[x]);
      RetainedChain(cfg, s.files.reports[x].sealed.plain);
      ReportRewritten(cfg, s, step.state, x, step.state.files.reports[x]);
    } else {
      FilesUnchanged(cfg, s, step.state);
    }
  }

  lemma RetainedChain(cfg: Config, record: ReportRecord)
    requires ChainOK(cfg, record)
    ensures ChainOK(cfg, record.(retained := true))
  {
    forall i | 0 <= i < |record.revisions| ensures LinkOK(cfg, record.(retained := true), i) {
      assert LinkOK(cfg, record, i);
    }
  }

  lemma ForgetKeeps(cfg: Config, s: System, a: Action)
    requires FilesOK(cfg, s) && a.ForgetReport?
    ensures var t := Apply(cfg, s, a).state; FilesOK(cfg, t) && Evolves(s, t)
  {
    Removed(cfg, s, Apply(cfg, s, a).state);
  }

  lemma SweepKeeps(cfg: Config, s: System, a: Action)
    requires FilesOK(cfg, s) && a.SweepStore?
    ensures var t := Apply(cfg, s, a).state; FilesOK(cfg, t) && Evolves(s, t)
  {
    var t := Apply(cfg, s, a).state;
    forall x | x in t.files.events ensures x in t.files.tasks {
      assert x in s.files.tasks && TaskOK(x, s.files.tasks[x]);
    }
    Removed(cfg, s, t);
  }

  // ---- The append of a Verify call ----

  /** The new revision continues the chain that was read. */
  lemma NewLink(cfg: Config, record: ReportRecord, seen: Observation, now: Time)
    requires ChainOK(cfg, record)
    ensures ChainOK(cfg, record.(revisions := record.revisions + [MakeRevision(cfg, record, seen, now)]))
  {
    var n := |record.revisions|;
    var next := record.(revisions := record.revisions + [MakeRevision(cfg, record, seen, now)]);
    LatestKeeps(cfg, record);
    VerifyKeepsCandidates(LatestCandidates(record), record.exactTargets, seen);
    SameCandidatesTransitive(record.report.candidates, LatestCandidates(record), next.revisions[n].candidates);
    forall i | 0 <= i <= n ensures LinkOK(cfg, next, i) {
      if i < n {
        assert LinkOK(cfg, record, i);
      }
    }
  }

  lemma LatestKeeps(cfg: Config, record: ReportRecord)
    requires ChainOK(cfg, record)
    ensures SameCandidates(record.report.candidates, LatestCandidates(record))
  {
    if record.revisions != [] {
      assert LinkOK(cfg, record, |record.revisions| - 1);
    }
  }

  /** A successful append extends exactly the chain its caller read. */
  lemma AppendExtendsWhatWasRead(cfg: Config, s: System, a: Action)
    requires Inv(cfg, s) && a.VerifyWrite? && FinishVerify(cfg, s, a.agent, a.seen, a.now).ok
    ensures a.agent in s.verifying
    ensures var read := s.verifying[a.agent].record;
            var x := ParseOwner(s.verifying[a.agent].handle).value.opaqueID;
            var before := s.files.reports;
            var after := FinishVerify(cfg, s, a.agent, a.seen, a.now).state.files.reports;
            && ParseOwner(s.verifying[a.agent].handle).Some? && x in before && x in after
            && before[x].sealed.plain.revisions == read.revisions
            && after[x].sealed.plain
               == before[x].sealed.plain.(revisions := read.revisions + [MakeRevision(cfg, read, a.seen, a.now)])
            && after == before[x := after[x]]
            && after[x].meta == before[x].meta.(revision := before[x].meta.revision + 1)
            && after[x].sealed.key == before[x].sealed.key && after[x].sealed.bound == after[x].meta
  {
    var p := s.verifying[a.agent];
    assert PendingOK(cfg, s, p);
    OpenedReport(cfg, s.files, p.handle);
    var x := ParseOwner(p.handle).value.opaqueID;
    assert ReportOK(cfg, x, s.files.reports[x]);
  }

  /** The report of `x` after the append of the next revision. */
  lemma AppendedReportOK(cfg: Config, x: string, e: Envelope<ReportRecord>, f: Envelope<ReportRecord>,
                         seen: Observation, now: Time)
    requires ReportOK(cfg, x, e)
    requires var record := e.sealed.plain;
             f.sealed.plain == record.(revisions := record.revisions + [MakeRevision(cfg, record, seen, now)])
    requires f.meta == e.meta.(revision := e.meta.revision + 1) && f.sealed.key == e.sealed.key
    requires f.sealed.bound == f.meta
    ensures ReportOK(cfg, x, f) && SameReport(e, f)
  {
    NewLink(cfg, e.sealed.plain, seen, now);
  }

  lemma ReadMakesSameRevision(cfg: Config, read: ReportRecord, stored: ReportRecord, seen: Observation, now: Time)
    requires Grown(read, stored) && read.revisions == stored.revisions
    ensures MakeRevision(cfg, read, seen, now) == MakeRevision(cfg, stored, seen, now)
  {
  }

  lemma VerifyWriteSucceeds(cfg: Config, s: System, a: Action)
    requires Inv(cfg, s) && a.VerifyWrite? && FinishVerify(cfg, s, a.agent, a.seen, a.now).ok
    ensures var t := FinishVerify(cfg, s, a.agent, a.seen, a.now).state; FilesOK(cfg, t) && Evolves(s, t)
  {
    AppendExtendsWhatWasRead(cfg, s, a);
    var p := s.verifying[a.agent];
    var x := ParseOwner(p.handle).value.opaqueID;
    var t := FinishVerify(cfg, s, a.agent, a.seen, a.now).state;
    assert PendingOK(cfg, s, p);
    assert ReportOK(cfg, x, s.files.reports[x]);
    ReadMakesSameRevision(cfg, p.record, s.files.reports[x].sealed.plain, a.seen, a.now);
    AppendedReportOK(cfg, x, s.files.reports[x], t.files.reports[x], a.seen, a.now);
    ReportRewritten(cfg, s, t, x, t.files.reports[x]);
  }

  lemma VerifyWriteFails(cfg: Config, s: System, a: Action)
    requires FilesOK(cfg, s) && a.VerifyWrite? && !FinishVerify(cfg, s, a.agent, a.seen, a.now).ok
    ensures var t := FinishVerify(cfg, s, a.agent, a.seen, a.now).state; FilesOK(cfg, t) && Evolves(s, t)
  {
    FilesUnchanged(cfg, s, FinishVerify(cfg, s, a.agent, a.seen, a.now).state);
  }

  lemma VerifyWriteKeeps(cfg: Config, s: System, a: Action)
    requires Inv(cfg, s) && a.VerifyWrite?
    ensures var t := FinishVerify(cfg, s, a.agent, a.seen, a.now).state; FilesOK(cfg, t) && Evolves(s, t)
  {
    if FinishVerify(cfg, s, a.agent, a.seen, a.now).ok {
      VerifyWriteSucceeds(cfg, s, a);
    } else {
      VerifyWriteFails(cfg, s, a);
    }
  }

  // ---- All steps ----

  lemma FilesKept(cfg: Config, s: System, a: Action)
    requires ValidConfig(cfg) && Inv(cfg, s) && Admissible(cfg, s, a)
    ensures var t := Apply(cfg, s, a).state; FilesOK(cfg, t) && Evolves(s, t)
  {
    match a
    case Begin(_, _, _, _) => BeginKeeps(cfg, s, a);
    case AppendOwner(_, _, _) => AppendOwnerKeeps(cfg, s, a);
    case DelegateExecutor(_, _, _, _, _, _, _) => DelegateKeeps(cfg, s, a);
    case AppendExecutor(_, _, _, _) => AppendExecutorKeeps(cfg, s, a);
    case EndRead(_, _, _) => FilesUnchanged(cfg, s, Apply(cfg, s, a).state);
    case EndWrite(_, _, _, _) => EndWriteKeeps(cfg, s, a);
    case GrantRetrospective(_, _) => GrantKeeps(cfg, s, a);
    case InspectRead(_, _, _) => FilesUnchanged(cfg, s, Apply(cfg, s, a).state);
    case InspectWrite(_, _, _, _) => InspectWriteKeeps(cfg, s, a);
    case VerifyRead(_, _, _) => FilesUnchanged(cfg, s, Apply(cfg, s, a).state);
    case VerifyWrite(_, _, _) => VerifyWriteKeeps(cfg, s, a);
    case RetainReport(_) => RetainKeeps(cfg, s, a);
    case ForgetReport(_) => ForgetKeeps(cfg, s, a);
    case SweepStore(_, _) => SweepKeeps(cfg, s, a);
  }

  /** What a Verify call reads is a form of the stored report. */
  lemma ReadIsPending(cfg: Config, s: System, handle: Handle, now: Time)
    requires FilesOK(cfg, s) && GetReport(cfg, s.files, handle, now).Ok?
    ensures PendingOK(cfg, s, PendingVerify(handle, GetReport(cfg, s.files, handle, now).value))
  {
    OpenedReport(cfg, s.files, handle);
    var x := ParseOwner(handle).value.opaqueID;
    assert ReportOK(cfg, x, s.files.reports[x]);
  }

  lemma StepKeepsInvariant(cfg: Config, s: System, a: Action)
    requires ValidConfig(cfg) && Inv(cfg, s) && Admissible(cfg, s, a)
    ensures var t := Apply(cfg, s, a).state; Inv(cfg, t) && Evolves(s, t)
  {
    FilesKept(cfg, s, a);
    var t := Apply(cfg, s, a).state;
    forall agent | agent in t.verifying ensures PendingOK(cfg, t, t.verifying[agent]) {
      if agent in s.verifying && t.verifying[agent] == s.verifying[agent] {
        PendingStable(cfg, s, t, s.verifying[agent]);
      } else {
        assert a.VerifyRead? && agent == a.agent;
        ReadIsPending(cfg, s, a.handle, a.now);
        PendingStable(cfg, s, t, t.verifying[agent]);
      }
    }
  }
}
