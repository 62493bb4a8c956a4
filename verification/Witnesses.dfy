/** Runs that really happen: each theorem about what can go wrong has a run in which it does. */
module Witnesses {
  import opened Text
  import opened Contract
  import opened Crypto
  import opened Capability
  import opened Sorting
  import opened Disk
  import opened Protocol
  import opened Verification
  import opened EventRuns
  import opened PathAlias
  import opened ExecutorPaths
  import StoredReports
  import Summaries
  import Paging
  import Base64Url

  // ---- Files as their owner seals them ----

  ghost predicate UsableOwner(owner: Owner) {
    owner.opaqueID != "" && owner.recordKey != 0 && owner.signingSeed != 0
  }

  ghost function Seal<T>(cfg: Config, kind: string, owner: Owner, revision: nat, createdAt: Time, expiresAt: Time,
                         protected: bool,
                       value: T): Envelope<T> {
    var meta := Meta(FORMAT_VERSION, kind, owner.opaqueID, revision, createdAt, expiresAt, OwnerPublicKey(cfg, owner),
                     protected);
    Envelope(meta, Ciphertext(owner.recordKey, meta, value))
  }

  ghost function TaskFiles(cfg: Config, owner: Owner, record: TaskRecord): Files {
    EMPTY.(tasks := map[owner.opaqueID := Seal(cfg, TASK, owner, 0, 1, 1 + cfg.interruption, false, record)])
  }

  ghost function ReportFiles(cfg: Config, owner: Owner, expiresAt: Time, record: ReportRecord): Files {
    EMPTY.(reports := map[owner.opaqueID := Seal(cfg, REPORT, owner, |record.revisions|, 1, expiresAt, record.retained,
                                                 record)])
  }

  ghost function FreshTask(taskID: string, context: TaskContext): TaskRecord {
    TaskRecord(taskID, true, 1, 1, context, [], map[])
  }

  lemma CreatesTask(cfg: Config, owner: Owner, taskID: string, context: TaskContext)
    requires ValidConfig(cfg) && UsableOwner(owner)
    ensures CreateTask(cfg, EMPTY, OwnerHandle(owner), taskID, context, 1)
         == Outcome(TaskFiles(cfg, owner, FreshTask(taskID, context)), Ok(()))
  {
  }

  lemma LoadsTask(cfg: Config, owner: Owner, record: TaskRecord)
    requires ValidConfig(cfg) && UsableOwner(owner) && record.active
    ensures LoadTask(cfg, TaskFiles(cfg, owner, record), owner, 1) == Ok(record)
    ensures LoadTaskForEnd(cfg, TaskFiles(cfg, owner, record), OwnerHandle(owner), 1) == Ok(record)
  {
    var none: set<string> := {};
    ListingMembers(none, Listing(none));
    assert Batches(TaskFiles(cfg, owner, record), owner.opaqueID).Keys == none;
    assert record.(events := record.events + []) == record;
  }

  lemma AppendsEvents(cfg: Config, owner: Owner, record: TaskRecord, more: seq<Summary>)
    requires ValidConfig(cfg) && UsableOwner(owner) && record.active && record.createdAt == 1 && record.heartbeatAt == 1
    ensures AppendEvents(cfg, TaskFiles(cfg, owner, record), OwnerHandle(owner), more, 1)
         == Outcome(TaskFiles(cfg, owner, record.(events := record.events + more)), Ok(()))
  {
    LoadsTask(cfg, owner, record);
  }

  lemma CompletesTask(cfg: Config, owner: Owner, record: TaskRecord, report: Report, evidence: OwnedEvidence)
    requires ValidConfig(cfg) && UsableOwner(owner) && record.active && ValidReport(report)
    requires report.taskID == record.taskID
    ensures CompleteTask(cfg, TaskFiles(cfg, owner, record), OwnerHandle(owner), report, evidence, 1)
         == Outcome(ReportFiles(cfg, owner, 1 + cfg.retention, FirstRecord(cfg, report, evidence, 1)), Ok(()))
  {
    LoadsTask(cfg, owner, record);
    var after := CompleteTask(cfg, TaskFiles(cfg, owner, record), OwnerHandle(owner), report, evidence, 1).files;
    assert after.tasks == map[] && after.events == map[];
  }

  // ---- Runs, step by step ----

  ghost function Last(run: Run): System
    requires run.states != []
  {
    run.states[|run.states| - 1]
  }

  ghost function Extend(run: Run, a: Action, t: System, ok: bool): Run {
    Run(run.states + [t], run.actions + [a], run.results + [ok])
  }

  const START := Run([INITIAL], [], [])

  lemma ExtendsRun(cfg: Config, run: Run, a: Action, t: System, ok: bool)
    requires ValidRun(cfg, run) && Admissible(cfg, Last(run), a) && Apply(cfg, Last(run), a) == Step(t, ok)
    ensures ValidRun(cfg, Extend(run, a, t, ok)) && Last(Extend(run, a, t, ok)) == t
  {
    var more := Extend(run, a, t, ok);
    forall k | 0 <= k < |more.actions| ensures StepAt(cfg, more, k) {
      if k < |run.actions| {
        assert StepAt(cfg, run, k);
      }
    }
  }

  lemma Begins(cfg: Config, run: Run, t: System, owner: Owner, taskID: string, context: TaskContext)
    requires ValidConfig(cfg) && UsableOwner(owner) && ValidRun(cfg, run) && Last(run) == INITIAL
    requires t == INITIAL.(used := {owner.opaqueID}, files := TaskFiles(cfg, owner, FreshTask(taskID, context)))
    ensures ValidRun(cfg, Extend(run, Begin(owner, taskID, context, 1), t, true))
  {
    CreatesTask(cfg, owner, taskID, context);
    assert INITIAL.used + {owner.opaqueID} == {owner.opaqueID};
    ExtendsRun(cfg, run, Begin(owner, taskID, context, 1), t, true);
  }

  lemma LoadsForEnd(cfg: Config, run: Run, t: System, owner: Owner, task: TaskRecord)
    requires ValidConfig(cfg) && UsableOwner(owner) && task.active && ValidRun(cfg, run)
    requires Last(run).files == TaskFiles(cfg, owner, task) && Last(run).ending == map[]
    requires t == Last(run).(ending := map[0 := PendingEnd(OwnerHandle(owner), task)])
    ensures ValidRun(cfg, Extend(run, EndRead(0, OwnerHandle(owner), 1), t, true))
  {
    LoadsTask(cfg, owner, task);
    ExtendsRun(cfg, run, EndRead(0, OwnerHandle(owner), 1), t, true);
  }

  lemma AppendsOwnEvents(cfg: Config, run: Run, t: System, owner: Owner, task: TaskRecord, more: seq<Summary>)
    requires ValidConfig(cfg) && UsableOwner(owner) && task.active && task.createdAt == 1 && task.heartbeatAt == 1
    requires ValidRun(cfg, run) && Last(run).files == TaskFiles(cfg, owner, task)
    requires t == Last(run).(files := TaskFiles(cfg, owner, task.(events := task.events + more)))
    ensures ValidRun(cfg, Extend(run, AppendOwner(OwnerHandle(owner), more, 1), t, true))
  {
    AppendsEvents(cfg, owner, task, more);
    ExtendsRun(cfg, run, AppendOwner(OwnerHandle(owner), more, 1), t, true);
  }

  lemma Ends(cfg: Config, run: Run, t: System, owner: Owner, task: TaskRecord, report: Report, evidence: OwnedEvidence)
    requires ValidConfig(cfg) && UsableOwner(owner) && task.active && ValidReport(report)
    requires report.taskID == task.taskID
    requires ValidRun(cfg, run) && Last(run).files == TaskFiles(cfg, owner, task)
    requires Last(run).ending.Keys == {0} && Last(run).ending[0].handle == OwnerHandle(owner)
    requires t == Last(run).(ending := map[],
                             files := ReportFiles(cfg, owner, 1 + cfg.retention, FirstRecord(cfg, report, evidence, 1)))
    ensures ValidRun(cfg, Extend(run, EndWrite(0, report, evidence, 1), t, true))
  {
    CompletesTask(cfg, owner, task, report, evidence);
    assert Last(run).ending - {0} == map[];
    ExtendsRun(cfg, run, EndWrite(0, report, evidence, 1), t, true);
  }

  lemma Opens(cfg: Config, owner: Owner, expiresAt: Time, record: ReportRecord)
    requires UsableOwner(owner)
    ensures OpenReport(cfg, ReportFiles(cfg, owner, expiresAt, record), OwnerHandle(owner)) == Some(record)
  {
  }

  lemma IsRefused(cfg: Config, run: Run, owner: Owner, record: ReportRecord, expiresAt: Time)
    requires UsableOwner(owner) && ValidRun(cfg, run) && Last(run).files == ReportFiles(cfg, owner, expiresAt, record)
    ensures ValidRun(cfg, Extend(run, VerifyRead(0, OwnerHandle(owner), expiresAt), Last(run), false))
  {
    Opens(cfg, owner, expiresAt, record);
    ExtendsRun(cfg, run, VerifyRead(0, OwnerHandle(owner), expiresAt), Last(run), false);
  }

  lemma IsRead(cfg: Config, run: Run, t: System, owner: Owner, record: ReportRecord, expiresAt: Time, now: Time)
    requires UsableOwner(owner) && ValidRun(cfg, run) && Last(run).files == ReportFiles(cfg, owner, expiresAt, record)
    requires now < expiresAt && Last(run).verifying == map[]
    requires t == Last(run).(verifying := map[0 := PendingVerify(OwnerHandle(owner), record)])
    ensures ValidRun(cfg, Extend(run, VerifyRead(0, OwnerHandle(owner), now), t, true))
  {
    Opens(cfg, owner, expiresAt, record);
    ExtendsRun(cfg, run, VerifyRead(0, OwnerHandle(owner), now), t, true);
  }

  lemma IsRetained(cfg: Config, run: Run, t: System, owner: Owner, record: ReportRecord, expiresAt: Time)
    requires ValidConfig(cfg) && UsableOwner(owner) && expiresAt > 0
    requires ValidRun(cfg, run) && Last(run).files == ReportFiles(cfg, owner, expiresAt, record)
    requires t == Last(run).(files := ReportFiles(cfg, owner, expiresAt + cfg.retention, record.(retained := true)))
    ensures ValidRun(cfg, Extend(run, RetainReport(OwnerHandle(owner)), t, true))
  {
    Opens(cfg, owner, expiresAt, record);
    ExtendsRun(cfg, run, RetainReport(OwnerHandle(owner)), t, true);
  }

  /** Begin and the load of an End call. */
  lemma LoadedRun(cfg: Config, owner: Owner, taskID: string, context: TaskContext) returns (run: Run)
    requires ValidConfig(cfg) && UsableOwner(owner)
    ensures ValidRun(cfg, run) && run.results == [true, true] && |run.states| == 3
    ensures run.actions == [Begin(owner, taskID, context, 1), EndRead(0, OwnerHandle(owner), 1)]
    ensures var task := FreshTask(taskID, context);
            Last(run) == INITIAL.(used := {owner.opaqueID}, files := TaskFiles(cfg, owner, task),
                                  ending := map[0 := PendingEnd(OwnerHandle(owner), task)])
  {
    var task := FreshTask(taskID, context);
    var begun := INITIAL.(used := {owner.opaqueID}, files := TaskFiles(cfg, owner, task));
    Begins(cfg, START, begun, owner, taskID, context);
    run := Extend(START, Begin(owner, taskID, context, 1), begun, true);
    var read := begun.(ending := map[0 := PendingEnd(OwnerHandle(owner), task)]);
    LoadsForEnd(cfg, run, read, owner, task);
    run := Extend(run, EndRead(0, OwnerHandle(owner), 1), read, true);
  }

  // ---- An event that is accepted too late for End ----

  /** Begin, End's load, an owner's event, End's completion: all four succeed, the event is accepted, and
      End had not loaded it. */
  lemma LateEventRun(cfg: Config, owner: Owner, context: TaskContext, report: Report, evidence: OwnedEvidence,
                     s: Summary)
    returns (run: Run)
    requires ValidConfig(cfg) && UsableOwner(owner) && ValidReport(report)
    ensures ValidRun(cfg, run) && run.results == [true, true, true, true] && |run.states| == 5
    ensures run.actions == [Begin(owner, report.taskID, context, 1), EndRead(0, OwnerHandle(owner), 1),
                            AppendOwner(OwnerHandle(owner), [s], 1), EndWrite(0, report, evidence, 1)]
    ensures AcceptedBetween(run, owner.opaqueID, 1, 3) == multiset{s} && Accepted(run, owner.opaqueID, 1) == multiset{}
    ensures 0 in run.states[3].ending && run.states[3].ending[0].record.events == []
    ensures owner.opaqueID in run.states[4].files.reports
  {
    var task := FreshTask(report.taskID, context);
    run := LoadedRun(cfg, owner, report.taskID, context);
    assert task.events + [s] == [s];
    var late := Last(run).(files := TaskFiles(cfg, owner, task.(events := [s])));
    AppendsOwnEvents(cfg, run, late, owner, task, [s]);
    run := Extend(run, AppendOwner(OwnerHandle(owner), [s], 1), late, true);
    var done := late.(ending := map[],
                      files := ReportFiles(cfg, owner, 1 + cfg.retention, FirstRecord(cfg, report, evidence, 1)));
    Ends(cfg, run, done, owner, task.(events := [s]), report, evidence);
    run := Extend(run, EndWrite(0, report, evidence, 1), done, true);
    LateCounts(run, owner, s);
  }

  lemma LateCounts(run: Run, owner: Owner, s: Summary)
    requires UsableOwner(owner) && |run.actions| == 4 && run.results == [true, true, true, true]
    requires run.actions[0].Begin? && run.actions[1].EndRead?
    requires run.actions[2] == AppendOwner(OwnerHandle(owner), [s], 1)
    ensures AcceptedBetween(run, owner.opaqueID, 1, 3) == multiset{s} && Accepted(run, owner.opaqueID, 1) == multiset{}
  {
    var x := owner.opaqueID;
    assert OwnerEvents(run, x, 0) == [] && ExecutorEvents(run, x, 0) == multiset{};
    assert OwnerEvents(run, x, 1) == [] && ExecutorEvents(run, x, 1) == multiset{};
    assert ByOwner(run.actions[2], true, x) == [s] && ByExecutor(run.actions[2], true, x) == [];
    assert AcceptedBetween(run, x, 1, 1) == multiset{};
    assert AcceptedBetween(run, x, 1, 2) == multiset{};
  }

  // ---- A report that expires and comes back ----

  /** A completed report is refused once it has expired, then retained, and then read at the very time at
      which it was refused. */
  lemma RevivalRun(cfg: Config, owner: Owner, context: TaskContext, report: Report,
                   evidence: OwnedEvidence) returns (run: Run)
    requires ValidConfig(cfg) && UsableOwner(owner) && ValidReport(report)
    ensures ValidRun(cfg, run) && run.results == [true, true, true, false, true, true]
    ensures run.actions
         == [Begin(owner, report.taskID, context, 1), EndRead(0, OwnerHandle(owner), 1),
             EndWrite(0, report, evidence, 1),
             VerifyRead(0, OwnerHandle(owner), 1 + cfg.retention), RetainReport(OwnerHandle(owner)),
             VerifyRead(0, OwnerHandle(owner), 1 + cfg.retention)]
  {
    var task, first := FreshTask(report.taskID, context), FirstRecord(cfg, report, evidence, 1);
    var late := 1 + cfg.retention;
    run := LoadedRun(cfg, owner, report.taskID, context);
    var done := Last(run).(ending := map[], files := ReportFiles(cfg, owner, late, first));
    Ends(cfg, run, done, owner, task, report, evidence);
    run := Extend(run, EndWrite(0, report, evidence, 1), done, true);
    run := RevivedRun(cfg, owner, first, late, run);
  }

  lemma RevivedRun(cfg: Config, owner: Owner, first: ReportRecord, late: Time, start: Run) returns (run: Run)
    requires ValidConfig(cfg) && UsableOwner(owner) && ValidRun(cfg, start) && late > 0
    requires Last(start).files == ReportFiles(cfg, owner, late, first) && Last(start).verifying == map[]
    ensures ValidRun(cfg, run) && run.results == start.results + [false, true, true]
    ensures run.actions == start.actions + [VerifyRead(0, OwnerHandle(owner), late), RetainReport(OwnerHandle(owner)),
                                            VerifyRead(0, OwnerHandle(owner), late)]
  {
    IsRefused(cfg, start, owner, first, late);
    run := Extend(start, VerifyRead(0, OwnerHandle(owner), late), Last(start), false);
    var kept := Last(start).(files := ReportFiles(cfg, owner, late + cfg.retention, first.(retained := true)));
    IsRetained(cfg, run, kept, owner, first, late);
    run := Extend(run, RetainReport(OwnerHandle(owner)), kept, true);
    var read := kept.(verifying := map[0 := PendingVerify(OwnerHandle(owner), first.(retained := true))]);
    IsRead(cfg, run, read, owner, first.(retained := true), late + cfg.retention, late);
    run := Extend(run, VerifyRead(0, OwnerHandle(owner), late), read, true);
  }

  // ---- Two Verify calls that race ----

  lemma AppendsNext(cfg: Config, owner: Owner, expiresAt: Time, record: ReportRecord, revision: Revision)
    requires UsableOwner(owner) && expiresAt > 0 && revision.createdAt != ZERO_TIME && revision.digest != ""
    ensures AppendRevision(cfg, ReportFiles(cfg, owner, expiresAt, record), OwnerHandle(owner), revision)
         == if revision.revision == |record.revisions| + 1 && revision.previousDigest == LastDigest(record)
            then Outcome(ReportFiles(cfg, owner, expiresAt, record.(revisions := record.revisions + [revision])),
                         Ok(()))
            else Outcome(ReportFiles(cfg, owner, expiresAt, record), Err(ChainMismatch))
  {
    Opens(cfg, owner, expiresAt, record);
  }

  /** The write of a Verify call by `agent` that read `read` while the report is now `record`. */
  lemma VerifyGoes(cfg: Config, run: Run, t: System, ok: bool, owner: Owner, agent: Agent, read: ReportRecord,
                   record: ReportRecord, expiresAt: Time, seen: Observation)
    requires UsableOwner(owner) && ValidRun(cfg, run) && expiresAt > 0 && MakeRevision(cfg, read, seen, 1).digest != ""
    requires Last(run).files == ReportFiles(cfg, owner, expiresAt, record)
    requires agent in Last(run).verifying && Last(run).verifying[agent] == PendingVerify(OwnerHandle(owner), read)
    requires var revision := MakeRevision(cfg, read, seen, 1);
             var next := record.(revisions := record.revisions + [revision]);
             && (ok <==> |read.revisions| == |record.revisions| && LastDigest(read) == LastDigest(record))
             && t == Last(run).(verifying := Last(run).verifying - {agent},
                                files := ReportFiles(cfg, owner, expiresAt, if ok then next else record))
    ensures ValidRun(cfg, Extend(run, VerifyWrite(agent, seen, 1), t, ok))
  {
    AppendsNext(cfg, owner, expiresAt, record, MakeRevision(cfg, read, seen, 1));
    ExtendsRun(cfg, run, VerifyWrite(agent, seen, 1), t, ok);
  }

  lemma IsReadBy(cfg: Config, run: Run, t: System, owner: Owner, agent: Agent, record: ReportRecord, expiresAt: Time)
    requires UsableOwner(owner) && ValidRun(cfg, run) && Last(run).files == ReportFiles(cfg, owner, expiresAt, record)
    requires 1 < expiresAt
    requires t == Last(run).(verifying := Last(run).verifying[agent := PendingVerify(OwnerHandle(owner), record)])
    ensures ValidRun(cfg, Extend(run, VerifyRead(agent, OwnerHandle(owner), 1), t, true))
  {
    Opens(cfg, owner, expiresAt, record);
    ExtendsRun(cfg, run, VerifyRead(agent, OwnerHandle(owner), 1), t, true);
  }

  /** Two calls read the same report; the first to write succeeds and the other is refused. */
  lemma RaceRun(cfg: Config, owner: Owner, context: TaskContext, report: Report, evidence: OwnedEvidence,
                seen: Observation)
    returns (run: Run)
    requires ValidConfig(cfg) && UsableOwner(owner) && ValidReport(report) && forall r :: cfg.revisionDigest(r) != ""
    ensures ValidRun(cfg, run) && run.results == [true, true, true, true, true, true, false]
    ensures run.actions
         == [Begin(owner, report.taskID, context, 1), EndRead(0, OwnerHandle(owner), 1),
             EndWrite(0, report, evidence, 1),
             VerifyRead(0, OwnerHandle(owner), 1), VerifyRead(1, OwnerHandle(owner), 1),
             VerifyWrite(0, seen, 1), VerifyWrite(1, seen, 1)]
  {
    var task, first := FreshTask(report.taskID, context), FirstRecord(cfg, report, evidence, 1);
    var late := 1 + cfg.retention;
    run := LoadedRun(cfg, owner, report.taskID, context);
    var done := Last(run).(ending := map[], files := ReportFiles(cfg, owner, late, first));
    Ends(cfg, run, done, owner, task, report, evidence);
    run := Extend(run, EndWrite(0, report, evidence, 1), done, true);
    run := RacedRun(cfg, owner, first, late, seen, run);
  }

  lemma RacedRun(cfg: Config, owner: Owner, first: ReportRecord, late: Time, seen: Observation,
                 start: Run) returns (run: Run)
    requires ValidConfig(cfg) && UsableOwner(owner) && ValidRun(cfg, start) && late > 1 && first.revisions == []
    requires forall r :: cfg.revisionDigest(r) != ""
    requires Last(start).files == ReportFiles(cfg, owner, late, first) && Last(start).verifying == map[]
    ensures ValidRun(cfg, run) && run.results == start.results + [true, true, true, false]
    ensures run.actions == start.actions + [VerifyRead(0, OwnerHandle(owner), 1), VerifyRead(1, OwnerHandle(owner), 1),
                                            VerifyWrite(0, seen, 1), VerifyWrite(1, seen, 1)]
  {
    var pending := PendingVerify(OwnerHandle(owner), first);
    var one := Last(start).(verifying := map[0 := pending]);
    IsReadBy(cfg, start, one, owner, 0, first, late);
    run := Extend(start, VerifyRead(0, OwnerHandle(owner), 1), one, true);
    var both := one.(verifying := map[0 := pending, 1 := pending]);
    IsReadBy(cfg, run, both, owner, 1, first, late);
    run := Extend(run, VerifyRead(1, OwnerHandle(owner), 1), both, true);
    run := WrittenRun(cfg, owner, first, late, seen, run);
  }

  lemma WrittenRun(cfg: Config, owner: Owner, first: ReportRecord, late: Time, seen: Observation,
                   start: Run) returns (run: Run)
    requires UsableOwner(owner) && ValidRun(cfg, start) && late > 1 && forall r :: cfg.revisionDigest(r) != ""
    requires var pending := PendingVerify(OwnerHandle(owner), first);
             Last(start).files == ReportFiles(cfg, owner, late, first)
             && Last(start).verifying == map[0 := pending, 1 := pending]
    ensures ValidRun(cfg, run) && run.results == start.results + [true, false]
    ensures run.actions == start.actions + [VerifyWrite(0, seen, 1), VerifyWrite(1, seen, 1)]
  {
    var next := first.(revisions := first.revisions + [MakeRevision(cfg, first, seen, 1)]);
    var won := Last(start).(verifying := Last(start).verifying - {0}, files := ReportFiles(cfg, owner, late, next));
    VerifyGoes(cfg, start, won, true, owner, 0, first, first, late, seen);
    run := Extend(start, VerifyWrite(0, seen, 1), won, true);
    var lost := won.(verifying := won.verifying - {1});
    VerifyGoes(cfg, run, lost, false, owner, 1, first, next, late, seen);
    run := Extend(run, VerifyWrite(1, seen, 1), lost, false);
  }

  // ---- An executor's event, and one that blocks End ----

  ghost function ClaimsFor(owner: Owner, grantBytes: seq<Base64Url.Byte>): Claims {
    Claims(owner.opaqueID, Base64Url.Encode(grantBytes), 1, 2 * SECOND, SortedUnique([]), SortedUnique(["workspace"]))
  }

  ghost function SignedFor(cfg: Config, owner: Owner, grantBytes: seq<Base64Url.Byte>): Executor {
    var claims := ClaimsFor(owner, grantBytes);
    Executor(claims, Signature(OwnerPublicKey(cfg, owner), claims))
  }

  ghost function Granting(task: TaskRecord, claims: Claims): TaskRecord {
    task.(executorGrants := map[claims.grantID := GrantOf(claims)])
  }

  ghost function Delegation(owner: Owner, grantBytes: seq<Base64Url.Byte>): Action {
    DelegateExecutor(OwnerHandle(owner), 2 * SECOND, [], ["workspace"], grantBytes, 1, 1)
  }

  ghost function ExecutorEvent(cfg: Config, owner: Owner, grantBytes: seq<Base64Url.Byte>, random: seq<Base64Url.Byte>,
                               s: Summary): Action {
    AppendExecutor(ExecutorHandle(SignedFor(cfg, owner, grantBytes)), [s], random, 1)
  }

  lemma DelegatesTask(cfg: Config, owner: Owner, task: TaskRecord, grantBytes: seq<Base64Url.Byte>)
    requires ValidConfig(cfg) && UsableOwner(owner) && task.active && task.createdAt == 1
    requires task.executorGrants == map[]
    ensures Delegate(cfg, TaskFiles(cfg, owner, task), OwnerHandle(owner), 2 * SECOND, [], ["workspace"], grantBytes, 1,
                     1)
         == Outcome(TaskFiles(cfg, owner, Granting(task, ClaimsFor(owner, grantBytes))),
                    Ok(SignedFor(cfg, owner, grantBytes)))
  {
    LoadsTask(cfg, owner, task);
    assert WholeSeconds(2 * SECOND) == 2 * SECOND;
  }

  lemma Delegates(cfg: Config, run: Run, t: System, owner: Owner, task: TaskRecord, grantBytes: seq<Base64Url.Byte>)
    requires ValidConfig(cfg) && UsableOwner(owner) && ValidRun(cfg, run) && |grantBytes| == 18
    requires task.active && task.createdAt == 1 && task.executorGrants == map[]
    requires Last(run).files == TaskFiles(cfg, owner, task) && Last(run).issued == {}
    requires t == Last(run).(files := TaskFiles(cfg, owner, Granting(task, ClaimsFor(owner, grantBytes))),
                             issued := {SignedFor(cfg, owner, grantBytes).signature})
    ensures ValidRun(cfg, Extend(run, Delegation(owner, grantBytes), t, true))
  {
    DelegatesTask(cfg, owner, task, grantBytes);
    assert Last(run).issued + {SignedFor(cfg, owner, grantBytes).signature} == t.issued;
    ExtendsRun(cfg, run, Delegation(owner, grantBytes), t, true);
  }

  lemma AcceptsBatch(cfg: Config, owner: Owner, task: TaskRecord, grantBytes: seq<Base64Url.Byte>,
                     random: seq<Base64Url.Byte>, s: Summary)
    requires ValidConfig(cfg) && UsableOwner(owner) && |grantBytes| == 18
    ensures var before := TaskFiles(cfg, owner, task);
            var handle := ExecutorHandle(SignedFor(cfg, owner, grantBytes));
            var o := AppendExecutorEvents(cfg, before, handle, [s], random, 1);
            o.result.Ok? && o.files.tasks == before.tasks
  {
    Base64Url.EncodedLetters(grantBytes);
    ListingMembers({}, Listing({}));
    assert (set v | v in [] && v != "") == {};
    assert SortedUnique([]) == [];
  }

  lemma ExecutorAppends(cfg: Config, run: Run, owner: Owner, task: TaskRecord, grantBytes: seq<Base64Url.Byte>,
                        random: seq<Base64Url.Byte>, s: Summary) returns (t: System)
    requires ValidConfig(cfg) && UsableOwner(owner) && ValidRun(cfg, run) && |grantBytes| == 18
    requires Last(run).files == TaskFiles(cfg, owner, task)
    requires SignedFor(cfg, owner, grantBytes).signature in Last(run).issued
    ensures ValidRun(cfg, Extend(run, ExecutorEvent(cfg, owner, grantBytes, random, s), t, true))
    ensures t.files.tasks == Last(run).files.tasks
  {
    AcceptsBatch(cfg, owner, task, grantBytes, random, s);
    t := Apply(cfg, Last(run), ExecutorEvent(cfg, owner, grantBytes, random, s)).state;
    ExtendsRun(cfg, run, ExecutorEvent(cfg, owner, grantBytes, random, s), t, true);
  }

  /** Begin, a delegation and an executor's event: all succeed, and the event is accepted. */
  lemma ExecutorRun(cfg: Config, owner: Owner, taskID: string, context: TaskContext, grantBytes: seq<Base64Url.Byte>,
                    random: seq<Base64Url.Byte>, s: Summary) returns (run: Run)
    requires ValidConfig(cfg) && UsableOwner(owner) && |grantBytes| == 18
    ensures ValidRun(cfg, run) && run.results == [true, true, true] && |run.states| == 4
    ensures run.actions == [Begin(owner, taskID, context, 1), Delegation(owner, grantBytes),
                            ExecutorEvent(cfg, owner, grantBytes, random, s)]
    ensures s in ExecutorEvents(run, owner.opaqueID, 3)
    ensures OwnsTask(cfg, run.states[3], OwnerHandle(owner), owner.opaqueID, 1)
    ensures run.states[3].files.tasks[owner.opaqueID].sealed.plain.context == context
  {
    var task := FreshTask(taskID, context);
    var begun := INITIAL.(used := {owner.opaqueID}, files := TaskFiles(cfg, owner, task));
    Begins(cfg, START, begun, owner, taskID, context);
    run := Extend(START, Begin(owner, taskID, context, 1), begun, true);
    var granting := Granting(task, ClaimsFor(owner, grantBytes));
    var granted := begun.(files := TaskFiles(cfg, owner, granting),
                          issued := {SignedFor(cfg, owner, grantBytes).signature});
    Delegates(cfg, run, granted, owner, task, grantBytes);
    run := Extend(run, Delegation(owner, grantBytes), granted, true);
    var t := ExecutorAppends(cfg, run, owner, granting, grantBytes, random, s);
    run := Extend(run, ExecutorEvent(cfg, owner, grantBytes, random, s), t, true);
    assert ByExecutor(run.actions[2], true, owner.opaqueID) == [s];
    assert ExecutorEvents(run, owner.opaqueID, 3)
        == ExecutorEvents(run, owner.opaqueID, 2) + multiset(ByExecutor(run.actions[2], true, owner.opaqueID));
  }

  /** With the path "workspace:///x": its root allows it, the event is accepted, and what End loads from then
      on does not expand. */
  lemma StuckRun(cfg: Config, owner: Owner, taskID: string, context: TaskContext, grantBytes: seq<Base64Url.Byte>,
                 random: seq<Base64Url.Byte>, s: Summary, identityOf: Identities) returns (run: Run)
    requires ValidConfig(cfg) && UsableOwner(owner) && |grantBytes| == 18 && Aliased(context.aliases)
    requires s.workingDir == "workspace:///x"
    ensures ValidRun(cfg, run) && run.results == [true, true, true] && |run.states| == 4
    ensures run.actions == [Begin(owner, taskID, context, 1), Delegation(owner, grantBytes),
                            ExecutorEvent(cfg, owner, grantBytes, random, s)]
    ensures SafeAlias(s.workingDir) && AllowedAlias(ClaimsFor(owner, grantBytes).allowedRoots, s.workingDir)
    ensures var r := LoadTaskForEnd(cfg, run.states[3].files, OwnerHandle(owner), 1);
            && r.Ok? && Aliased(r.value.context.aliases)
            && exists k :: 0 <= k < |r.value.events|
                           && !Expandable(r.value.context.aliases, r.value.events[k], identityOf)
  {
    run := ExecutorRun(cfg, owner, taskID, context, grantBytes, random, s);
    var tail := "/x";
    StuckPath(s.workingDir, tail);
    StoredReports.AcceptedEventBlocksEnd(cfg, run, 3, OwnerHandle(owner), owner.opaqueID, 1, s, tail, identityOf);
    WorkspaceIsNamed(["workspace"]);
    ContinuedIsAccepted(AliasPrefix(0), tail, SortedUnique(["workspace"]));
  }

  lemma WorkspaceIsNamed(values: seq<string>)
    requires values == ["workspace"]
    ensures "workspace" in SortedUnique(values)
  {
    var named := set v | v in values && v != "";
    assert values[0] in named;
    ListingMembers(named, Listing(named));
  }

  // ---- A summary between whose reads a revision is appended ----

  /** A Verify call appends the first revision between the two reads of Summarize for revision 1: the index
      is out of range. */
  lemma SummaryRun(cfg: Config, owner: Owner, context: TaskContext, report: Report, evidence: OwnedEvidence,
                   seen: Observation, group: Summaries.Grouper) returns (run: Run)
    requires ValidConfig(cfg) && UsableOwner(owner) && ValidReport(report) && forall r :: cfg.revisionDigest(r) != ""
    ensures ValidRun(cfg, run) && run.results == [true, true, true, true, true] && |run.states| == 6
    ensures run.actions
         == [Begin(owner, report.taskID, context, 1), EndRead(0, OwnerHandle(owner), 1),
             EndWrite(0, report, evidence, 1), VerifyRead(0, OwnerHandle(owner), 1), VerifyWrite(0, seen, 1)]
    ensures var first := GetReport(cfg, run.states[4].files, OwnerHandle(owner), 1);
            var second := GetReport(cfg, run.states[5].files, OwnerHandle(owner), 1);
            first.Ok? && second.Ok? && Summaries.Summarize(group, first.value, second.value, 1, "",
                                                           1) == Summaries.OutOfRange
  {
    var task, first := FreshTask(report.taskID, context), FirstRecord(cfg, report, evidence, 1);
    var late := 1 + cfg.retention;
    run := LoadedRun(cfg, owner, report.taskID, context);
    var done := Last(run).(ending := map[], files := ReportFiles(cfg, owner, late, first));
    Ends(cfg, run, done, owner, task, report, evidence);
    run := Extend(run, EndWrite(0, report, evidence, 1), done, true);
    var reading := done.(verifying := map[0 := PendingVerify(OwnerHandle(owner), first)]);
    IsReadBy(cfg, run, reading, owner, 0, first, late);
    run := Extend(run, VerifyRead(0, OwnerHandle(owner), 1), reading, true);
    var next := first.(revisions := first.revisions + [MakeRevision(cfg, first, seen, 1)]);
    var written := reading.(verifying := reading.verifying - {0}, files := ReportFiles(cfg, owner, late, next));
    VerifyGoes(cfg, run, written, true, owner, 0, first, first, late, seen);
    run := Extend(run, VerifyWrite(0, seen, 1), written, true);
    Gets(cfg, owner, late, first);
    Gets(cfg, owner, late, next);
    Summaries.GrownSummary(group, first, next, 1, "", 1);
  }

  lemma Gets(cfg: Config, owner: Owner, expiresAt: Time, record: ReportRecord)
    requires UsableOwner(owner) && 1 < expiresAt
    ensures GetReport(cfg, ReportFiles(cfg, owner, expiresAt, record), OwnerHandle(owner), 1) == Ok(record)
  {
    Opens(cfg, owner, expiresAt, record);
  }
}
