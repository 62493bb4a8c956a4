/** internal/app/service.go over internal/store: every interleaving of calls. A call that reads under the
    lock, works outside it and writes under the lock again is two steps; each locked store method is one. */
module Protocol {
  import opened Text
  import opened Contract
  import opened Crypto
  import opened Capability
  import opened Disk
  import opened Retention
  import opened Verification
  import Eviction
  import Base64Url

  type Agent = nat

  /** A Verify call between its read and its append, and an End or inspection call between its load
      and its completion. */
  datatype PendingVerify = PendingVerify(handle: Handle, record: ReportRecord)
  datatype PendingEnd = PendingEnd(handle: Handle, record: TaskRecord)
  datatype PendingInspect = PendingInspect(handle: Handle, grant: RetrospectiveGrant)

  /** The store, the IDs ever drawn, the signatures ever issued, and the calls under way. */
  datatype System = System(
    files: Files,
    used: set<string>,
    issued: set<Signature>,
    verifying: map<Agent, PendingVerify>,
    ending: map<Agent, PendingEnd>,
    inspecting: map<Agent, PendingInspect>)

  const INITIAL := System(EMPTY, {}, {}, map[], map[], map[])

  datatype Action =
    | Begin(owner: Owner, taskID: string, context: TaskContext, now: Time)
    | AppendOwner(handle: Handle, summaries: seq<Summary>, now: Time)
    | DelegateExecutor(handle: Handle, expiresAt: Time, allowedTypes: seq<string>, allowedRoots: seq<string>,
                       grantBytes: seq<Base64Url.Byte>, appendKey: Key, now: Time)
    | AppendExecutor(handle: Handle, summaries: seq<Summary>, random: seq<Base64Url.Byte>, now: Time)
    | EndRead(agent: Agent, handle: Handle, now: Time)
    | EndWrite(agent: Agent, report: Report, evidence: OwnedEvidence, now: Time)
    | GrantRetrospective(owner: Owner, grant: RetrospectiveGrant)
    | InspectRead(agent: Agent, handle: Handle, now: Time)
    | InspectWrite(agent: Agent, report: Report, evidence: OwnedEvidence, now: Time)
    | VerifyRead(agent: Agent, handle: Handle, now: Time)
    | VerifyWrite(agent: Agent, seen: Observation, now: Time)
    | RetainReport(handle: Handle)
    | ForgetReport(handle: Handle)
    | SweepStore(now: Time, order: seq<Eviction.OwnedFile>)

  datatype Step = Step(state: System, ok: bool)

  // ---- The revision a Verify call builds from what it read ----

  function LatestCandidates(record: ReportRecord): seq<Candidate> {
    if record.revisions == [] then record.report.candidates
    else record.revisions[|record.revisions| - 1].candidates
  }

  function MakeRevision(cfg: Config, record: ReportRecord, seen: Observation, now: Time): Revision {
    var candidates := VerifyAll(LatestCandidates(record), record.exactTargets, seen);
    var draft := Revision(|record.revisions| + 1, now, LastDigest(record), "", candidates, seen.limitations);
    draft.(digest := cfg.revisionDigest(draft))
  }

  // ---- Steps ----

  function Wrote<T>(s: System, outcome: Outcome<T>): Step {
    Step(s.(files := outcome.files), outcome.result.Ok?)
  }

  ghost function FinishEnd(cfg: Config, s: System, agent: Agent, report: Report, evidence: OwnedEvidence,
                           now: Time): Step {
    if agent !in s.ending then Step(s, false)
    else Wrote(s.(ending := s.ending - {agent}),
               CompleteTask(cfg, s.files, s.ending[agent].handle, report, evidence, now))
  }

  function FinishVerify(cfg: Config, s: System, agent: Agent, seen: Observation, now: Time): Step {
    if agent !in s.verifying then Step(s, false)
    else
      var pending := s.verifying[agent];
      Wrote(s.(verifying := s.verifying - {agent}),
            AppendRevision(cfg, s.files, pending.handle, MakeRevision(cfg, pending.record, seen, now)))
  }

  ghost function Apply(cfg: Config, s: System, a: Action): Step {
    match a
    case Begin(owner, taskID, context, now) =>
      Wrote(s.(used := s.used + {owner.opaqueID}), CreateTask(cfg, s.files, OwnerHandle(owner), taskID, context, now))
    case AppendOwner(handle, summaries, now) => Wrote(s, AppendEvents(cfg, s.files, handle, summaries, now))
    case DelegateExecutor(handle, expiresAt, types, roots, grantBytes, appendKey, now) =>
      var o := Delegate(cfg, s.files, handle, expiresAt, types, roots, grantBytes, appendKey, now);
      Wrote(if o.result.Ok? then s.(issued := s.issued + {o.result.value.signature}) else s, o)
    case AppendExecutor(handle, summaries, random, now) =>
      Wrote(s, AppendExecutorEvents(cfg, s.files, handle, summaries, random, now))
    case EndRead(agent, handle, now) =>
      (match LoadTaskForEnd(cfg, s.files, handle, now)
       case Err(_) => Step(s, false)
       case Ok(record) => Step(s.(ending := s.ending[agent := PendingEnd(handle, record)]), true))
    case EndWrite(agent, report, evidence, now) =>
      FinishEnd(cfg, s, agent, report, evidence, now)
    case GrantRetrospective(owner, grant) =>
      Wrote(s.(used := s.used + {owner.opaqueID}), CreateGrant(cfg, s.files, OwnerHandle(owner), grant))
    case InspectRead(agent, handle, now) =>
      (match LoadGrant(cfg, s.files, handle, now)
       case Err(_) => Step(s, false)
       case Ok(grant) => Step(s.(inspecting := s.inspecting[agent := PendingInspect(handle, grant)]), true))
    case InspectWrite(agent, report, evidence, now) =>
      if agent !in s.inspecting then Step(s, false)
      else Wrote(s.(inspecting := s.inspecting - {agent}),
                 CompleteGrant(cfg, s.files, s.inspecting[agent].handle, report, evidence, now))
    case VerifyRead(agent, handle, now) =>
      (match GetReport(cfg, s.files, handle, now)
       case Err(_) => Step(s, false)
       case Ok(record) => Step(s.(verifying := s.verifying[agent := PendingVerify(handle, record)]), true))
    case VerifyWrite(agent, seen, now) =>
      FinishVerify(cfg, s, agent, seen, now)
    case RetainReport(handle) => Wrote(s, Retain(cfg, s.files, handle))
    case ForgetReport(handle) => Wrote(s, Forget(cfg, s.files, handle))
    case SweepStore(now, order) => Step(s.(files := Sweep(cfg, s.files, now, order)), true)
  }

  /** Randomness and signatures are ideal: new IDs, grant IDs and file names have not been seen before,
      and only issued signatures verify. A sort may return any ordered permutation. Everything else,
      handles and clocks included, is arbitrary. */
  ghost predicate Admissible(cfg: Config, s: System, a: Action) {
    match a
    case Begin(owner, _, _, _) => owner.opaqueID !in s.used
    case GrantRetrospective(owner, _) => owner.opaqueID !in s.used
    case DelegateExecutor(_, _, _, _, grantBytes, _, _) =>
      |grantBytes| == 18 && FreshGrant(s, Base64Url.Encode(grantBytes))
    case AppendExecutor(handle, _, random, _) =>
      handle.ExecutorHandle? ==> Unforged(s, handle.executor) && FreshName(s, handle.executor.claims, random)
    case SweepStore(now, order) => SweepOrder(cfg, Live(s.files.reports, now), order)
    case _ => true
  }

  /** A signature that verifies under a task's public key was issued. */
  ghost predicate Unforged(s: System, executor: Executor) {
    var id := executor.claims.opaqueID;
    id in s.files.tasks && VerifySignature(executor, s.files.tasks[id].meta.publicKey) ==>
      executor.signature in s.issued
  }

  ghost predicate FreshGrant(s: System, grantID: string) {
    && (forall sig :: sig in s.issued ==> sig.claims.grantID != grantID)
    && (forall x :: x in s.files.tasks ==> grantID !in s.files.tasks[x].sealed.plain.executorGrants)
  }

  ghost predicate FreshName(s: System, claims: Claims, random: seq<Base64Url.Byte>) {
    BatchName(claims.grantID, random) !in Batches(s.files, claims.opaqueID)
  }

  // ---- Runs ----

  /** A run from the empty store: any number of admissible steps, by any callers, in any order, with
      the state before and after each and whether it reported success. */
  datatype Run = Run(states: seq<System>, actions: seq<Action>, results: seq<bool>)

  ghost predicate ValidRun(cfg: Config, run: Run) {
    && |run.states| == |run.actions| + 1 && |run.results| == |run.actions|
    && run.states[0] == INITIAL
    && forall k :: 0 <= k < |run.actions| ==> StepAt(cfg, run, k)
  }

  ghost predicate StepAt(cfg: Config, run: Run, k: nat)
    requires k < |run.actions| && k < |run.results| && k + 1 < |run.states|
  {
    && Admissible(cfg, run.states[k], run.actions[k])
    && Apply(cfg, run.states[k], run.actions[k]) == Step(run.states[k + 1], run.results[k])
  }

  /** Step `k` of a run reports success. */
  ghost predicate Succeeds(run: Run, k: nat) {
    k < |run.actions| && k < |run.states| && k < |run.results| && run.results[k]
  }
}
