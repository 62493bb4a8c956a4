/** Theorems over whole runs: every interleaving, every length, from the empty store. */
module Runs {
  import opened Text
  import opened Contract
  import opened Crypto
  import opened Capability
  import opened Disk
  import opened Retention
  import opened Verification
  import opened Protocol
  import opened Invariant
  import opened Steps

  lemma {:induction false} RunKeepsInvariant(cfg: Config, run: Run, k: nat)
    requires ValidConfig(cfg) && ValidRun(cfg, run) && k < |run.states|
    ensures Inv(cfg, run.states[k])
  {
    if k > 0 {
      RunKeepsInvariant(cfg, run, k - 1);
      assert StepAt(cfg, run, k - 1);
      StepKeepsInvariant(cfg, run.states[k - 1], run.actions[k - 1]);
    }
  }

  /** Between any two moments of a run, finished IDs stay finished and reports only grow. */
  lemma {:induction false} RunEvolves(cfg: Config, run: Run, i: nat, j: nat)
    requires ValidConfig(cfg) && ValidRun(cfg, run) && i <= j < |run.states|
    ensures Evolves(run.states[i], run.states[j])
    decreases j - i
  {
    RunKeepsInvariant(cfg, run, i);
    if i < j {
      RunEvolves(cfg, run, i + 1, j);
      assert StepAt(cfg, run, i);
      StepKeepsInvariant(cfg, run.states[i], run.actions[i]);
      EvolvesTransitive(run.states[i], run.states[i + 1], run.states[j]);
    }
  }

  // ---- The verification chain ----

  /** In every reachable state every stored chain is numbered and linked, keeps the original candidates,
      and agrees with its envelope. */
  lemma ChainsInEveryRun(cfg: Config, run: Run, k: nat, x: string)
    requires ValidConfig(cfg) && ValidRun(cfg, run) && k < |run.states| && x in run.states[k].files.reports
    ensures var e := run.states[k].files.reports[x];
            var record := e.sealed.plain;
            && e.meta.revision == |record.revisions| && e.meta.protected == record.retained
            && record.originalDigest == cfg.reportDigest(record.report) && e.meta.createdAt == record.completedAt
            && forall i :: 0 <= i < |record.revisions| ==> LinkOK(cfg, record, i)
  {
    RunKeepsInvariant(cfg, run, k);
    assert ReportOK(cfg, x, run.states[k].files.reports[x]);
  }

  /** Step `k` is the successful append of a Verify call on the report of `x`. */
  ghost predicate Appends(run: Run, k: nat, x: string) {
    && Succeeds(run, k) && run.actions[k].VerifyWrite?
    && run.actions[k].agent in run.states[k].verifying
    && var owner := ParseOwner(run.states[k].verifying[run.actions[k].agent].handle);
       owner.Some? && owner.value.opaqueID == x
  }

  /** The chain that call had read. */
  ghost function ChainRead(run: Run, k: nat, x: string): seq<Revision>
    requires Appends(run, k, x)
  {
    run.states[k].verifying[run.actions[k].agent].record.revisions
  }

  lemma AppendAt(cfg: Config, run: Run, k: nat, x: string)
    requires ValidConfig(cfg) && ValidRun(cfg, run) && Appends(run, k, x)
    ensures x in run.states[k].files.reports && x in run.states[k + 1].files.reports
    ensures run.states[k].files.reports[x].sealed.plain.revisions == ChainRead(run, k, x)
    ensures ChainRead(run, k, x) < run.states[k + 1].files.reports[x].sealed.plain.revisions
  {
    RunKeepsInvariant(cfg, run, k);
    assert StepAt(cfg, run, k);
    AppendExtendsWhatWasRead(cfg, run.states[k], run.actions[k]);
  }

  /** Of two Verify calls that succeed on one report, the later one had read everything the earlier one
      had read and that caller's revision as well. So of callers that read the same length at most one
      succeeds. */
  lemma LaterVerifyReadEarlier(cfg: Config, run: Run, i: nat, j: nat, x: string)
    requires ValidConfig(cfg) && ValidRun(cfg, run) && i < j
    requires Appends(run, i, x) && Appends(run, j, x)
    ensures ChainRead(run, i, x) < ChainRead(run, j, x)
    ensures |ChainRead(run, i, x)| < |ChainRead(run, j, x)|
  {
    AppendAt(cfg, run, i, x);
    AppendAt(cfg, run, j, x);
    RunEvolves(cfg, run, i + 1, j);
    assert SameReport(run.states[i + 1].files.reports[x], run.states[j].files.reports[x]);
  }

  // ---- What never changes ----

  /** From completion to deletion the report, its digest, its exact targets, its completion time and the
      envelope's creation time stay the same; a deleted report never comes back. */
  lemma CompletedReportNeverChanges(cfg: Config, run: Run, i: nat, j: nat, x: string)
    requires ValidConfig(cfg) && ValidRun(cfg, run) && i <= j < |run.states|
    requires x in run.states[i].files.reports
    ensures x in run.states[j].files.reports ==> SameReport(run.states[i].files.reports[x],
                                                            run.states[j].files.reports[x])
    ensures x !in run.states[j].files.reports ==> forall k :: j <= k < |run.states| ==> Gone(run.states[k], x)
  {
    RunKeepsInvariant(cfg, run, i);
    RunEvolves(cfg, run, i, j);
    assert Finished(run.states[i], x);
    if x !in run.states[j].files.reports {
      assert Gone(run.states[j], x);
      forall k | j <= k < |run.states| ensures Gone(run.states[k], x) {
        RunEvolves(cfg, run, j, k);
      }
    }
  }

  // ---- One completion per ID ----

  /** Step `k` completes the task or grant of `x`. */
  ghost predicate Completes(run: Run, k: nat, x: string) {
    Succeeds(run, k) &&
    var s := run.states[k];
    match run.actions[k]
    case EndWrite(agent, _, _, _) =>
      agent in s.ending && ParseOwner(s.ending[agent].handle).Some?
      && ParseOwner(s.ending[agent].handle).value.opaqueID == x
    case InspectWrite(agent, _, _, _) =>
      agent in s.inspecting && ParseOwner(s.inspecting[agent].handle).Some?
      && ParseOwner(s.inspecting[agent].handle).value.opaqueID == x
    case _ => false
  }

  lemma CompletionLeaves(cfg: Config, run: Run, k: nat, x: string)
    requires ValidConfig(cfg) && ValidRun(cfg, run) && Completes(run, k, x)
    ensures !Finished(run.states[k], x) && Finished(run.states[k + 1], x)
    ensures x in run.states[k + 1].files.reports
    ensures run.states[k + 1].files.reports[x].sealed.plain
         == FirstRecord(cfg, run.actions[k].report, run.actions[k].evidence, run.actions[k].now)
  {
    RunKeepsInvariant(cfg, run, k);
    assert StepAt(cfg, run, k);
    var s := run.states[k];
    if run.actions[k].EndWrite? {
      LoadedTask(cfg, s.files, ParseOwner(s.ending[run.actions[k].agent].handle).value, run.actions[k].now);
    }
  }

  /** However End and inspection calls interleave, one ID is completed at most once, and while its report
      exists it is the one that the winning caller wrote. */
  lemma OneCompletionWins(cfg: Config, run: Run, i: nat, j: nat, x: string)
    requires ValidConfig(cfg) && ValidRun(cfg, run) && i < j < |run.states|
    requires Completes(run, i, x)
    ensures !Completes(run, j, x)
    ensures x in run.states[j].files.reports ==>
              var record := run.states[j].files.reports[x].sealed.plain;
              record.report == run.actions[i].report && record.exactTargets == run.actions[i].evidence.exactTargets
  {
    CompletionLeaves(cfg, run, i, x);
    RunEvolves(cfg, run, i + 1, j);
    if Completes(run, j, x) {
      CompletionLeaves(cfg, run, j, x);
    }
  }

  /** In every reachable state an ID has at most one of task, grant and report, and event batches exist
      only while the task does. */
  lemma OnePhaseAtATime(cfg: Config, run: Run, k: nat, x: string)
    requires ValidConfig(cfg) && ValidRun(cfg, run) && k < |run.states|
    ensures var files := run.states[k].files;
            && !(x in files.tasks && x in files.reports) && !(x in files.tasks && x in files.grants)
            && !(x in files.reports && x in files.grants)
            && (x in files.events ==> x in files.tasks)
  {
    RunKeepsInvariant(cfg, run, k);
  }

  // ---- Expiry counts retains ----

  /** A successful retain of `x`. */
  ghost predicate Retains(a: Action, ok: bool, x: string) {
    ok && a.RetainReport? && ParseOwner(a.handle).Some? && ParseOwner(a.handle).value.opaqueID == x
  }

  /** Successful retains of `x` among the first `n` steps. */
  ghost function RetainCount(run: Run, x: string, n: nat): nat
    requires n <= |run.actions| && n <= |run.results|
  {
    if n == 0 then 0
    else RetainCount(run, x, n - 1) + if Retains(run.actions[n - 1], run.results[n - 1], x) then 1 else 0
  }

  /** What one step does to the expiry of a report. */
  ghost predicate ExpiryStep(cfg: Config, s: System, t: System, retained: bool, x: string) {
    var before, after := s.files.reports, t.files.reports;
    && (x in after && x in before ==>
          && after[x].meta.createdAt == before[x].meta.createdAt
          && after[x].meta.expiresAt == before[x].meta.expiresAt + if retained then cfg.retention else 0)
    && (x in after && x !in before ==>
          !Finished(s, x) && !retained && after[x].meta.expiresAt == after[x].meta.createdAt + cfg.retention)
    && (retained ==> x in before)
  }

  lemma RetainExpiry(cfg: Config, s: System, a: Action, x: string)
    requires a.RetainReport?
    ensures ExpiryStep(cfg, s, Apply(cfg, s, a).state, Retains(a, Apply(cfg, s, a).ok, x), x)
  {
    var step := Apply(cfg, s, a);
    RetainedExpiry(cfg, s, step.state, a.handle, step.ok, x);
  }

  lemma RetainedExpiry(cfg: Config, s: System, t: System, handle: Handle, ok: bool, x: string)
    requires t.files == Retain(cfg, s.files, handle).files && ok == Retain(cfg, s.files, handle).result.Ok?
    ensures ExpiryStep(cfg, s, t, Retains(RetainReport(handle), ok, x), x)
  {
    if ok {
      OpenedReport(cfg, s.files, handle);
    }
  }

  lemma BecameReportExpiry(cfg: Config, s: System, t: System, y: string, x: string)
    requires Phases(s) && y in t.files.reports && BecameReport(cfg, s, t, y, t.files.reports[y])
    ensures ExpiryStep(cfg, s, t, false, x)
  {
  }

  lemma UntouchedExpiry(cfg: Config, s: System, t: System, x: string)
    requires Untouched(s, t)
    ensures ExpiryStep(cfg, s, t, false, x)
  {
  }

  lemma EndExpiry(cfg: Config, s: System, a: Action, step: Step, x: string)
    requires Phases(s) && a.EndWrite? && EndEffect(cfg, s, a, step)
    ensures ExpiryStep(cfg, s, step.state, false, x)
  {
    if step.ok {
      BecameReportExpiry(cfg, s, step.state, ParseOwner(s.ending[a.agent].handle).value.opaqueID, x);
    } else {
      UntouchedExpiry(cfg, s, step.state, x);
    }
  }

  lemma InspectExpiry(cfg: Config, s: System, a: Action, step: Step, x: string)
    requires Phases(s) && a.InspectWrite? && InspectEffect(cfg, s, a, step)
    ensures ExpiryStep(cfg, s, step.state, false, x)
  {
    if step.ok {
      BecameReportExpiry(cfg, s, step.state, ParseOwner(s.inspecting[a.agent].handle).value.opaqueID, x);
    } else {
      UntouchedExpiry(cfg, s, step.state, x);
    }
  }

  lemma CompletionExpiry(cfg: Config, s: System, a: Action, x: string)
    requires Inv(cfg, s) && (a.EndWrite? || a.InspectWrite?)
    ensures ExpiryStep(cfg, s, Apply(cfg, s, a).state, false, x)
  {
    if a.EndWrite? {
      EndWriteEffect(cfg, s, a);
      EndExpiry(cfg, s, a, Apply(cfg, s, a), x);
    } else {
      InspectWriteEffect(cfg, s, a);
      InspectExpiry(cfg, s, a, Apply(cfg, s, a), x);
    }
  }

  lemma OtherExpiry(cfg: Config, s: System, a: Action, x: string)
    requires Inv(cfg, s) && !a.RetainReport? && !a.EndWrite? && !a.InspectWrite? && !a.VerifyWrite?
    ensures ExpiryStep(cfg, s, Apply(cfg, s, a).state, false, x)
  {
    if a.ForgetReport? || a.SweepStore? {
      ReportsOnlyGo(cfg, s, a);
    } else {
      ReportsUntouched(cfg, s, a);
    }
    FewerExpiry(cfg, s, Apply(cfg, s, a).state, x);
  }

  lemma ReportsOnlyGo(cfg: Config, s: System, a: Action)
    requires a.ForgetReport? || a.SweepStore?
    ensures Fewer(s.files.reports, Apply(cfg, s, a).state.files.reports)
  {
  }

  lemma ReportsUntouched(cfg: Config, s: System, a: Action)
    requires !a.RetainReport? && !a.EndWrite? && !a.InspectWrite? && !a.VerifyWrite? && !a.ForgetReport?
    requires !a.SweepStore?
    ensures Apply(cfg, s, a).state.files.reports == s.files.reports
  {
  }

  lemma FewerExpiry(cfg: Config, s: System, t: System, x: string)
    requires Fewer(s.files.reports, t.files.reports)
    ensures ExpiryStep(cfg, s, t, false, x)
  {
  }

  lemma VerifyExpiry(cfg: Config, s: System, a: Action, t: System, x: string)
    requires Inv(cfg, s) && a.VerifyWrite? && t == FinishVerify(cfg, s, a.agent, a.seen, a.now).state
    ensures ExpiryStep(cfg, s, t, false, x)
  {
    if FinishVerify(cfg, s, a.agent, a.seen, a.now).ok {
      AppendExtendsWhatWasRead(cfg, s, a);
    }
  }

  lemma StepExpiry(cfg: Config, s: System, a: Action, x: string)
    requires Inv(cfg, s)
    ensures ExpiryStep(cfg, s, Apply(cfg, s, a).state, Retains(a, Apply(cfg, s, a).ok, x), x)
  {
    if a.RetainReport? {
      RetainExpiry(cfg, s, a, x);
    } else if a.EndWrite? || a.InspectWrite? {
      CompletionExpiry(cfg, s, a, x);
    } else if a.VerifyWrite? {
      VerifyExpiry(cfg, s, a, Apply(cfg, s, a).state, x);
    } else {
      OtherExpiry(cfg, s, a, x);
    }
  }

  /** `k` retention periods. */
  ghost function Periods(retention: int, k: nat): int {
    if k == 0 then 0 else Periods(retention, k - 1) + retention
  }

  lemma {:induction false} PeriodsMultiply(retention: int, k: nat)
    ensures Periods(retention, k) == k * retention
  {
    if k > 0 {
      PeriodsMultiply(retention, k - 1);
      assert (k - 1) * retention + retention == k * retention;
    }
  }

  ghost predicate ExpiryAfter(cfg: Config, s: System, x: string, k: nat) {
    && (x in s.files.reports ==>
          s.files.reports[x].meta.expiresAt == s.files.reports[x].meta.createdAt + Periods(cfg.retention, k + 1))
    && (!Finished(s, x) ==> k == 0)
  }

  lemma ExpiryAdds(cfg: Config, s: System, t: System, retained: bool, x: string, k: nat)
    requires ExpiryAfter(cfg, s, x, k) && ExpiryStep(cfg, s, t, retained, x)
    requires Phases(s) && Evolves(s, t)
    ensures ExpiryAfter(cfg, t, x, if retained then k + 1 else k)
  {
    assert x in s.files.reports ==> Finished(s, x);
  }

  lemma ExpiryNext(cfg: Config, s: System, a: Action, t: System, ok: bool, x: string, k: nat)
    requires ValidConfig(cfg) && Inv(cfg, s) && Admissible(cfg, s, a) && Apply(cfg, s, a) == Step(t, ok)
    requires ExpiryAfter(cfg, s, x, k)
    ensures ExpiryAfter(cfg, t, x, if Retains(a, ok, x) then k + 1 else k)
  {
    StepExpiry(cfg, s, a, x);
    StepKeepsInvariant(cfg, s, a);
    ExpiryAdds(cfg, s, t, Retains(a, ok, x), x, k);
  }

  lemma {:induction false} ExpiryInEveryRun(cfg: Config, run: Run, x: string, n: nat)
    requires ValidConfig(cfg) && ValidRun(cfg, run) && n < |run.states|
    ensures ExpiryAfter(cfg, run.states[n], x, RetainCount(run, x, n))
  {
    if n > 0 {
      ExpiryInEveryRun(cfg, run, x, n - 1);
      RunKeepsInvariant(cfg, run, n - 1);
      assert StepAt(cfg, run, n - 1);
      ExpiryNext(cfg, run.states[n - 1], run.actions[n - 1], run.states[n], run.results[n - 1], x,
                 RetainCount(run, x, n - 1));
    }
  }

  ghost predicate ExpiresAfterRetains(cfg: Config, s: System, x: string, k: nat) {
    x in s.files.reports ==>
      s.files.reports[x].meta.expiresAt == s.files.reports[x].meta.createdAt + (1 + k) * cfg.retention
  }

  lemma ExpiryMultiplied(cfg: Config, s: System, x: string, k: nat)
    requires ExpiryAfter(cfg, s, x, k)
    ensures ExpiresAfterRetains(cfg, s, x, k)
  {
    PeriodsMultiply(cfg.retention, k + 1);
  }

  /** After k successful retains a report expires (1 + k) retention periods after it was created. */
  lemma ExpiryCountsRetains(cfg: Config, run: Run, x: string, n: nat)
    requires ValidConfig(cfg) && ValidRun(cfg, run) && n < |run.states|
    ensures ExpiresAfterRetains(cfg, run.states[n], x, RetainCount(run, x, n))
  {
    ExpiryInEveryRun(cfg, run, x, n);
    ExpiryMultiplied(cfg, run.states[n], x, RetainCount(run, x, n));
  }

  // ---- Expiry is tested on reading only ----

  /** Retaining does not look at the clock: a report that had expired can be read again, exactly until
      one more retention period has passed. */
  lemma RetainRevives(cfg: Config, run: Run, n: nat, handle: Handle, now: Time)
    requires ValidConfig(cfg) && ValidRun(cfg, run) && n < |run.states|
    requires Retain(cfg, run.states[n].files, handle).result.Ok?
    ensures ParseOwner(handle).Some? && ParseOwner(handle).value.opaqueID in run.states[n].files.reports
    ensures var files := run.states[n].files;
            var expires := files.reports[ParseOwner(handle).value.opaqueID].meta.expiresAt;
            && (GetReport(cfg, files, handle, now).Ok? <==> now < expires)
            && (GetReport(cfg, Retain(cfg, files, handle).files, handle, now).Ok? <==> now < expires + cfg.retention)
  {
    RunKeepsInvariant(cfg, run, n);
    var files := run.states[n].files;
    OpenedReport(cfg, files, handle);
    var x := ParseOwner(handle).value.opaqueID;
    assert ReportOK(cfg, x, files.reports[x]);
  }

  /** Once forgotten, a report is gone in every later state, for every handle and at every time. */
  lemma ForgottenForGood(cfg: Config, run: Run, i: nat, j: nat, handle: Handle, x: string, now: Time)
    requires ValidConfig(cfg) && ValidRun(cfg, run) && i < j < |run.states|
    requires Succeeds(run, i) && run.actions[i].ForgetReport?
    requires ParseOwner(run.actions[i].handle).Some? && ParseOwner(run.actions[i].handle).value.opaqueID == x
    requires ParseOwner(handle).Some? && ParseOwner(handle).value.opaqueID == x
    ensures Gone(run.states[j], x) && GetReport(cfg, run.states[j].files, handle, now).Err?
  {
    RunKeepsInvariant(cfg, run, i);
    assert StepAt(cfg, run, i);
    OpenedReport(cfg, run.states[i].files, run.actions[i].handle);
    assert x !in run.states[i + 1].files.reports;
    CompletedReportNeverChanges(cfg, run, i, i + 1, x);
  }
}
