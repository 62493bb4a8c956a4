/** internal/app: how End and the retrospective inspection make a report out of what they observe. */
module ReportMaking {
  import opened Text
  import opened Contract
  import opened Sorting
  import opened Paths
  import opened PathAlias
  import opened ExecutorPaths
  import opened ReportPaths
  import opened FsObserve
  import opened ProcessObserver
  import opened ProcessEvidence
  import opened Correlate
  import opened Reporting
  import opened Verification
  import opened ReportEvidence
  import opened Disk
  import FsDiff
  import opened Sums

  // ---- Hints ----

  ghost predicate NamesProcess(s: Summary, id: Identity, receipt: bool) {
    s.process == Some(id) && (s.receiptID != "" <==> receipt)
  }

  /** The processes that events name, with and without a receipt, and the paths to look for. */
  ghost predicate HintsFrom(hints: Hints, events: seq<Summary>, candidates: seq<Candidate>) {
    && (forall id :: id in hints.receiptProcesses <==> exists s :: s in events && NamesProcess(s, id, true))
    && (forall id :: id in hints.eventProcesses <==> exists s :: s in events && NamesProcess(s, id, false))
    && (forall p :: p in hints.candidatePaths <==> p != "" && exists c :: c in candidates && c.path == p)
  }

  /** processHints and candidatePaths. */
  method ProcessHints(events: seq<Summary>, candidates: seq<Candidate>) returns (hints: Hints)
    ensures HintsFrom(hints, events, candidates)
  {
    var receipts, plain: seq<Identity> := [], [];
    for n := 0 to |events|
      invariant forall id :: id in receipts <==> exists s :: s in events[..n] && NamesProcess(s, id, true)
      invariant forall id :: id in plain <==> exists s :: s in events[..n] && NamesProcess(s, id, false)
    {
      var s := events[n];
      assert events[..n + 1] == events[..n] + [s];
      if s.process.None? {
        continue;
      }
      assert NamesProcess(s, s.process.value, s.receiptID != "");
      if s.receiptID != "" {
        receipts := receipts + [s.process.value];
      } else {
        plain := plain + [s.process.value];
      }
    }
    assert events[..|events|] == events;
    var paths := CandidatePaths(candidates);
    hints := Hints(receipts, plain, paths);
  }

  method CandidatePaths(candidates: seq<Candidate>) returns (paths: seq<string>)
    ensures forall p :: p in paths <==> p != "" && exists c :: c in candidates && c.path == p
  {
    paths := [];
    for n := 0 to |candidates|
      invariant forall p :: p in paths <==> p != "" && exists c :: c in candidates[..n] && c.path == p
    {
      assert candidates[..n + 1] == candidates[..n] + [candidates[n]];
      if candidates[n].path != "" {
        paths := paths + [candidates[n].path];
      }
    }
    assert candidates[..|candidates|] == candidates;
  }

  // ---- The stages of a report ----

  /** The input of the correlation, its result before and after sorting, and what is shown of it; and the
      process evidence of the one snapshot that was taken. */
  datatype Trail = Trail(
    baseline: seq<Metadata>,
    hints: Hints,
    evidence: seq<Evidence>,
    attributed: map<int, Attribution>,
    input: Input,
    tied: seq<Candidate>,
    built: seq<Candidate>,
    shown: seq<Candidate>)

  /** A file system candidate as it enters a report: no process and no provenance. */
  ghost predicate Bare(c: Candidate) {
    FileLike(c) && c.process.None? && c.port.None? && c.eventIDs == [] && c.receiptIDs == []
  }

  ghost predicate SameButLevel(a: seq<Candidate>, b: seq<Candidate>) {
    |a| == |b| && forall i :: 0 <= i < |a| ==> b[i] == a[i].(evidenceLevel := b[i].evidenceLevel)
  }

  /** The evidence of one snapshot: the processes with a chain to a seed among what the events name, the
      roots and the changed paths. */
  ghost predicate Observed(native: Native, trail: Trail) {
    && HintsFrom(trail.hints, trail.input.events, trail.input.candidates)
    && (native.snapshot.Ok? ==>
          && Attributed(trail.attributed, native.snapshot.value, trail.hints, native)
          && EvidenceList(trail.evidence, ByPID(native.snapshot.value), trail.attributed, native)
          && (trail.input.processLimitations != [] <==> Incomplete(trail.hints, native, trail.attributed)))
    && (native.snapshot.Err? ==> trail.evidence == [] && trail.input.processLimitations != [])
    && (forall e :: e in trail.input.processes ==> e in trail.evidence)
  }

  /** An event names this very process. */
  ghost predicate EventNames(events: seq<Summary>, id: Identity) {
    exists s :: s in events && s.process == Some(id)
  }

  /** This very process was running at the baseline. */
  ghost predicate WasRunning(baseline: seq<Metadata>, id: Identity) {
    id.pid in ByPID(baseline) && ByPID(baseline)[id.pid].identity == id
  }

  /** All evidence is reported but that of processes that were running before and that no event names. */
  ghost predicate KeptNewOrNamed(trail: Trail) {
    && ByAscendingPID(trail.input.processes)
    && forall e :: e in trail.input.processes <==>
                   && e in trail.evidence
                   && (EventNames(trail.input.events, e.identity) || !WasRunning(trail.baseline, e.identity))
  }

  /** These candidates are what correlation made of the input, perhaps lowered, with aliases for paths. */
  ghost predicate CameFrom(ids: IDs, native: Native, aliases: Aliases, trail: Trail, candidates: seq<Candidate>) {
    && Observed(native, trail)
    && (forall c :: c in trail.input.candidates ==> Bare(c))
    && ReportCandidates(ids, trail.input, trail.tied, trail.built)
    && SameButLevel(trail.built, trail.shown)
    && Projected(trail.shown, candidates, aliases)
  }

  ghost predicate Expanded(table: Table, from: seq<Summary>, to: seq<Summary>, identityOf: Identities)
    requires forall b :: b in table ==> IsAbs(b.path)
  {
    |to| == |from| && forall i :: 0 <= i < |from| ==> Expands(table, from[i], to[i], identityOf)
  }

  /** What End does to a task it has loaded. */
  ghost predicate EndTrail(ids: IDs, task: TaskRecord, identityOf: Identities, changes: seq<Candidate>, native: Native,
                           trail: Trail, report: Report, targets: map<string, string>)
    requires forall b :: b in task.context.aliases ==> IsAbs(b.path)
  {
    && Expanded(task.context.aliases, task.events, trail.input.events, identityOf)
    && trail.input.candidates == changes && trail.shown == trail.built && KeptNewOrNamed(trail)
    && CameFrom(ids, native, AliasesOf(task.context.aliases, identityOf), trail, report.candidates)
    && targets == Targets(trail.shown) && report.taskID == task.taskID && Concludes(trail.input, report)
    && report.observationMode == Some(task.context.observationMode)
  }

  lemma RelevantExactly(item: Evidence, baseline: seq<Metadata>, hints: Hints, events: seq<Summary>,
                        candidates: seq<Candidate>)
    requires HintsFrom(hints, events, candidates)
    ensures Relevant(item, ByPID(baseline), hints)
            <==> EventNames(events, item.identity) || !WasRunning(baseline, item.identity)
  {
    ByPIDHolds(baseline);
    if s :| s in events && s.process == Some(item.identity) {
      assert NamesProcess(s, item.identity, s.receiptID != "");
    }
  }

  /** The observation of processes, less what only the baseline knows. */
  method ObserveProcesses(events: seq<Summary>, changes: seq<Candidate>, baseline: seq<Metadata>, native: Native)
    returns (kept: seq<Evidence>, limitations: seq<Limitation>, ghost seen: Trail)
    ensures seen.baseline == baseline && seen.input == Input("", 0, changes, [], events, kept, limitations)
    ensures Observed(native, seen) && KeptNewOrNamed(seen)
  {
    var hints := ProcessHints(events, changes);
    var evidence;
    ghost var attributed;
    evidence, limitations, attributed := ProcessEvidence.Resolve(hints, native);
    kept := ExcludeBaselineOnlyProcesses(evidence, baseline, hints);
    forall e ensures Relevant(e, ByPID(baseline), hints)
                     <==> EventNames(events, e.identity) || !WasRunning(baseline, e.identity) {
      RelevantExactly(e, baseline, hints, events, changes);
    }
    seen := Trail(baseline, hints, evidence, attributed, Input("", 0, changes, [], events, kept, limitations), [], [],
                  []);
  }

  /** Nothing stands in the way of a report: its identity is valid, and so is every candidate after
      correlation, with a path that projects. */
  ghost predicate Presentable(ids: IDs, input: Input, tied: seq<Candidate>, aliases: Aliases, clock: Time) {
    var now := if input.now == ZERO_TIME then clock else input.now;
    && ValidID(input.taskID) && ValidID(ids.report(input.taskID, now)) && now != ZERO_TIME
    && forall c :: c in tied ==> ValidCandidate(c) && (c.path != "" ==> aliases.project(c.path).Some?)
  }

  ghost predicate EndAccepts(ids: IDs, input: Input, aliases: Aliases, clock: Time) {
    exists tied :: CorrelatedAll(AllCandidates(ids, input), input.events, tied)
                   && Presentable(ids, input, tied, aliases, clock)
  }

  /** The correlated candidates are determined by the input. */
  lemma OneCorrelation(ids: IDs, input: Input, x: seq<Candidate>, y: seq<Candidate>)
    requires forall c :: c in input.candidates ==> Bare(c)
    requires CorrelatedAll(AllCandidates(ids, input), input.events, x)
    requires CorrelatedAll(AllCandidates(ids, input), input.events, y)
    ensures x == y
  {
    ProcessCandidateFacts(ids, input.processes);
    CorrelatedAllUnique(AllCandidates(ids, input), input.events, input.events, x, y);
  }

  lemma NotAccepted(ids: IDs, input: Input, aliases: Aliases, clock: Time, tied: seq<Candidate>)
    requires forall c :: c in input.candidates ==> Bare(c)
    requires CorrelatedAll(AllCandidates(ids, input), input.events, tied)
    requires !Presentable(ids, input, tied, aliases, clock)
    ensures !EndAccepts(ids, input, aliases, clock)
  {
    if other :| CorrelatedAll(AllCandidates(ids, input), input.events, other)
                && Presentable(ids, input, other, aliases, clock) {
      OneCorrelation(ids, input, tied, other);
    }
  }

  /** The report as shown, for some correlation of the input. */
  ghost predicate Presented(ids: IDs, input: Input, aliases: Aliases, tied: seq<Candidate>, built: seq<Candidate>,
                            report: Report, targets: map<string, string>) {
    && ReportCandidates(ids, input, tied, built) && Projected(built, report.candidates, aliases)
    && targets == Targets(built) && report.taskID == input.taskID && Concludes(input, report)
  }

  /** Made at this time, or by the clock if it is unset, with the ID of that time. */
  ghost predicate Dated(ids: IDs, taskID: string, now: Time, clock: Time, report: Report) {
    && report.schemaVersion == "agent-residue-report/2.0" && report.taskID == taskID
    && report.createdAt == (if now == ZERO_TIME then clock else now)
    && report.reportID == ids.report(taskID, report.createdAt)
  }

  lemma ConcludesAlike(input: Input, a: Report, b: Report)
    requires Concludes(input, a) && b.status == a.status && b.limitations == a.limitations
    requires |b.candidates| == |a.candidates|
    ensures Concludes(input, b)
  {
  }

  /** BuildReport and projectReportPaths: a report if and only if nothing stands in its way. */
  method BuildAndProject(ids: IDs, input: Input, aliases: Aliases, clock: Time)
    returns (r: Option<(Report, map<string, string>)>)
    requires forall c :: c in input.candidates ==> Bare(c)
    ensures r.Some? <==> EndAccepts(ids, input, aliases, clock)
    ensures r.Some? ==> exists tied, built :: Presented(ids, input, aliases, tied, built, r.value.0, r.value.1)
    ensures r.Some? ==> Dated(ids, input.taskID, input.now, clock, r.value.0)
  {
    var report := BuildReport(ids, input, clock);
    if report.None? {
      if input.taskID != "" {
        ghost var tied :| Unreportable(ids, input, tied, clock);
        NotAccepted(ids, input, aliases, clock, tied);
      }
      return None;
    }
    ghost var tied :| ReportCandidates(ids, input, tied, report.value.candidates);
    var built := report.value.candidates;
    SameMembers(tied, built);
    var shown := ProjectReportPaths(built, aliases);
    if shown.None? {
      NotAccepted(ids, input, aliases, clock, tied);
      return None;
    }
    assert Presentable(ids, input, tied, aliases, clock);
    var result := report.value.(candidates := shown.value.0);
    ConcludesAlike(input, report.value, result);
    assert Presented(ids, input, aliases, tied, built, result, shown.value.1);
    r := Some((result, shown.value.1));
  }

  /** The file system candidates of a comparison have no process and no provenance. */
  lemma DiffIsBare(cids: FsDiff.CandidateIDs, before: map<string, Entry>, current: map<string, Entry>,
                   changes: seq<Candidate>, removed: seq<string>)
    requires FsDiff.DiffOf(cids, before, current, changes, removed)
    ensures forall c :: c in changes ==> Bare(c)
  {
    FsDiff.DiffIsExact(cids, before, current, changes, removed);
    forall c | c in changes ensures Bare(c) {
      assert FsDiff.Reportable(cids, before, current, c);
    }
  }

  /** failureReport. */
  function FailureReport(ids: IDs, task: TaskRecord, now: Time, message: string): Report {
    Report(REPORT_SCHEMA_VERSION, ids.failure(task.taskID, now), task.taskID, Some(task.context.observationMode),
           ObservationFailed, now, [], [message])
  }

  /** A report that says that the observation failed, and nothing else. */
  ghost predicate ReportsFailure(ids: IDs, task: TaskRecord, now: Time, message: string, report: Report) {
    && report.status.ObservationFailed? && report.candidates == [] && report.limitations == [message]
    && report.schemaVersion == "agent-residue-report/2.0" && report.reportID == ids.failure(task.taskID, now)
    && report.taskID == task.taskID && report.createdAt == now
    && report.observationMode == Some(task.context.observationMode)
  }

  /** What End observes: the file system now, if the walk succeeds, and at the baseline; the processes of the
      baseline; and the native adapter. */
  datatype Sight = Sight(
    before: map<string, Entry>,
    beforeRoots: seq<string>,
    current: Result<(map<string, Entry>, seq<string>), string>,
    baseline: seq<Metadata>,
    native: Native)

  /** The comparison with the baseline succeeds. */
  predicate Comparable(sight: Sight) {
    sight.current.Ok? && sight.current.value.1 == sight.beforeRoots
  }

  /** Why it does not: the walk failed, or the roots are not those of the baseline. */
  ghost predicate Explains(sight: Sight, message: string) {
    if sight.current.Err? then message == sight.current.error
    else FsDiff.NamesChange(sight.beforeRoots, sight.current.value.1, message)
  }

  /** What End gathers before it makes the report. */
  ghost predicate Gathered(cids: FsDiff.CandidateIDs, task: TaskRecord, identityOf: Identities, sight: Sight,
                           input: Input, removed: seq<string>)
    requires forall b :: b in task.context.aliases ==> IsAbs(b.path)
    requires Comparable(sight)
  {
    && Expanded(task.context.aliases, task.events, input.events, identityOf) && input.taskID == task.taskID
    && FsDiff.DiffOf(cids, sight.before, sight.current.value.0, input.candidates, removed)
  }

  /** The outcome of End for a comparison that succeeds. */
  ghost predicate EndOutcome(ids: IDs, cids: FsDiff.CandidateIDs, task: TaskRecord, identityOf: Identities,
                             sight: Sight,
                             clock: Time, trail: Trail, removed: seq<string>, r: Option<(Report, map<string, string>)>)
    requires forall b :: b in task.context.aliases ==> IsAbs(b.path)
    requires Comparable(sight)
  {
    && Gathered(cids, task, identityOf, sight, trail.input, removed) && Observed(sight.native, trail)
    && trail.baseline == sight.baseline && KeptNewOrNamed(trail)
    && (r.Some? <==> EndAccepts(ids, trail.input, AliasesOf(task.context.aliases, identityOf), clock))
    && (r.Some? ==> EndTrail(ids, task, identityOf, trail.input.candidates, sight.native, trail, r.value.0, r.value.1))
  }

  /** End between its load and its completion. It gives up exactly when some event does not expand, or the
      comparison succeeds and the report made of it is not presentable; when the comparison fails it reports
      just that. */
  method EndReport(ids: IDs, cids: FsDiff.CandidateIDs, task: TaskRecord, identityOf: Identities, sight: Sight,
                   now: Time, clock: Time)
    returns (r: Option<(Report, map<string, string>)>)
    requires forall b :: b in task.context.aliases ==> IsAbs(b.path)
    ensures var expands := forall i :: 0 <= i < |task.events| ==>
                             Expandable(task.context.aliases, task.events[i], identityOf);
            if !expands then r.None?
            else if !Comparable(sight) then
              && r.Some? && r.value.1 == map[]
              && exists message :: Explains(sight, message) && ReportsFailure(ids, task, now, message, r.value.0)
            else
              && (r.Some? ==> Dated(ids, task.taskID, now, clock, r.value.0))
              && exists trail, removed :: EndOutcome(ids, cids, task, identityOf, sight, clock, trail, removed, r)
  {
    var events := ExpandAliasedEvents(task.context.aliases, task.events, identityOf);
    if events.None? {
      return None;
    }
    if sight.current.Err? {
      assert Explains(sight, sight.current.error);
      return Some((FailureReport(ids, task, now, sight.current.error), map[]));
    }
    var diff := FsDiff.Compare(cids, sight.before, sight.beforeRoots, sight.current.value.0, sight.current.value.1);
    if diff.Err? {
      assert Explains(sight, diff.error);
      return Some((FailureReport(ids, task, now, diff.error), map[]));
    }
    r := ReportChanges(ids, cids, task, identityOf, sight, events.value, diff.value.0, diff.value.1, now, clock);
  }

  /** End from the comparison on. */
  method ReportChanges(ids: IDs, cids: FsDiff.CandidateIDs, task: TaskRecord, identityOf: Identities, sight: Sight,
                       events: seq<Summary>, changes: seq<Candidate>, ghost removed: seq<string>, now: Time,
                       clock: Time)
    returns (r: Option<(Report, map<string, string>)>)
    requires (forall b :: b in task.context.aliases ==> IsAbs(b.path)) && Comparable(sight)
    requires Expanded(task.context.aliases, task.events, events, identityOf)
    requires FsDiff.DiffOf(cids, sight.before, sight.current.value.0, changes, removed)
    ensures r.Some? ==> Dated(ids, task.taskID, now, clock, r.value.0)
    ensures exists trail :: EndOutcome(ids, cids, task, identityOf, sight, clock, trail, removed, r)
  {
    DiffIsBare(cids, sight.before, sight.current.value.0, changes, removed);
    var processes, unseen, seen := ObserveProcesses(events, changes, sight.baseline, sight.native);
    var input := Input(task.taskID, now, changes, [], events, processes, unseen);
    r := BuildAndProject(ids, input, AliasesOf(task.context.aliases, identityOf), clock);
    ghost var trail := seen.(input := input);
    if r.Some? {
      ghost var tied, built :|
        Presented(ids, input, AliasesOf(task.context.aliases, identityOf), tied, built, r.value.0, r.value.1);
      trail := trail.(tied := tied, built := built, shown := built);
      ghost var plain := r.value.0;
      r := Some((r.value.0.(observationMode := Some(task.context.observationMode)), r.value.1));
      ConcludesAlike(input, plain, r.value.0);
      ShownAsTrail(ids, task, identityOf, sight.native, trail, r.value.0, r.value.1);
    }
    assert EndOutcome(ids, cids, task, identityOf, sight, clock, trail, removed, r);
  }

  lemma ShownAsTrail(ids: IDs, task: TaskRecord, identityOf: Identities, native: Native, trail: Trail, report: Report,
                     targets: map<string, string>)
    requires forall b :: b in task.context.aliases ==> IsAbs(b.path)
    requires Expanded(task.context.aliases, task.events, trail.input.events, identityOf)
    requires Observed(native, trail) && KeptNewOrNamed(trail) && forall c :: c in trail.input.candidates ==> Bare(c)
    requires ReportCandidates(ids, trail.input, trail.tied, trail.built) && trail.shown == trail.built
    requires Projected(trail.built, report.candidates, AliasesOf(task.context.aliases, identityOf))
    requires targets == Targets(trail.built) && report.taskID == task.taskID && Concludes(trail.input, report)
    requires report.observationMode == Some(task.context.observationMode)
    ensures EndTrail(ids, task, identityOf, trail.input.candidates, native, trail, report, targets)
  {
  }

  /** More than 128 events with different IDs that declare the path of one change: no report is made. */
  lemma TooManyEventsBlockReport(ids: IDs, input: Input, aliases: Aliases, clock: Time, c: Candidate)
    requires c in input.candidates && Bare(c) && |MatchedIDs(c, input.events, EventIDOf)| > 128
    ensures !EndAccepts(ids, input, aliases, clock)
  {
    if tied :| CorrelatedAll(AllCandidates(ids, input), input.events, tied)
               && Presentable(ids, input, tied, aliases, clock) {
      var i :| 0 <= i < |input.candidates| && input.candidates[i] == c;
      assert AllCandidates(ids, input)[i] == c && tied[i] in tied;
      CorrelatedValidExactly(c, input.events, tied[i]);
    }
  }

  const NO_BASELINE :=
    "no prospective baseline was available; retrospective attribution "
    + "is limited to the explicitly granted roots and time window"

  /** What an inspection gathers: the objects in its window, the events it was given, and all evidence of one
      snapshot. */
  ghost predicate InspectGathered(idOf: (string, string) -> string, entries: map<string, Entry>,
                                  grant: RetrospectiveGrant,
                                  events: seq<Summary>, native: Native, trail: Trail) {
    && CandidatesOf(idOf, entries, WindowKeys(entries, grant.startedAt, grant.endedAt), trail.input.candidates)
    && trail.input.taskID == grant.taskID && trail.input.events == events && trail.input.limitations == [NO_BASELINE]
    && Observed(native, trail) && trail.input.processes == trail.evidence
  }

  /** What it makes of them. */
  ghost predicate InspectTrail(ids: IDs, idOf: (string, string) -> string, entries: map<string, Entry>,
                               grant: RetrospectiveGrant, events: seq<Summary>, aliases: Aliases, native: Native,
                               trail: Trail, report: Report, targets: map<string, string>) {
    && InspectGathered(idOf, entries, grant, events, native, trail) && trail.shown == trail.built
    && CameFrom(ids, native, aliases, trail, report.candidates)
    && targets == Targets(trail.shown) && report.taskID == grant.taskID && Concludes(trail.input, report)
    && report.status == PartialEvidence && report.observationMode == Some(Retrospective)
    && forall c :: c in report.candidates ==> c.evidenceLevel != BaselineObserved
  }

  ghost predicate InspectOutcome(ids: IDs, idOf: (string, string) -> string, entries: map<string, Entry>,
                                 grant: RetrospectiveGrant, events: seq<Summary>, aliases: Aliases, native: Native,
                                 clock: Time, trail: Trail, r: Option<(Report, map<string, string>)>) {
    && InspectGathered(idOf, entries, grant, events, native, trail)
    && (r.Some? <==> EndAccepts(ids, trail.input, aliases, clock))
    && (r.Some? ==> InspectTrail(ids, idOf, entries, grant, events, aliases, native, trail, r.value.0, r.value.1))
  }

  /** InspectCompletedAuthorized between its load and its completion. It gives up exactly when the report is
      not presentable. */
  method InspectReport(ids: IDs, idOf: (string, string) -> string, grant: RetrospectiveGrant, events: seq<Summary>,
                       entries: map<string, Entry>, aliases: Aliases, native: Native, now: Time, clock: Time)
    returns (r: Option<(Report, map<string, string>)>)
    ensures exists trail :: InspectOutcome(ids, idOf, entries, grant, events, aliases, native, clock, trail, r)
    ensures r.Some? ==> Dated(ids, grant.taskID, now, clock, r.value.0)
  {
    var changes := RetrospectiveCandidates(idOf, entries, grant.startedAt, grant.endedAt);
    ghost var keys := WindowKeys(entries, grant.startedAt, grant.endedAt);
    WindowIsBare(idOf, entries, keys, changes);
    var hints := ProcessHints(events, changes);
    var processes, unseen, attributed := ProcessEvidence.Resolve(hints, native);
    var input := Input(grant.taskID, now, changes, [NO_BASELINE], events, processes, unseen);
    ghost var trail := Trail([], hints, processes, attributed, input, [], [], []);
    ghost var tied, built;
    r, tied, built := BuildLowerAndProject(ids, input, aliases, clock);
    if r.Some? {
      trail := trail.(tied := tied, built := built, shown := built);
      Inspected(ids, idOf, entries, grant, events, aliases, native, trail, r.value.0, r.value.1);
    }
    assert InspectOutcome(ids, idOf, entries, grant, events, aliases, native, clock, trail, r);
  }

  /** The report, with baseline levels lowered, of which there are none to begin with. */
  method BuildLowerAndProject(ids: IDs, input: Input, aliases: Aliases, clock: Time)
    returns (r: Option<(Report, map<string, string>)>, ghost tied: seq<Candidate>, ghost built: seq<Candidate>)
    requires forall c :: c in input.candidates ==> Bare(c) && c.evidenceLevel == Unattributed
    requires input.limitations != []
    ensures r.Some? <==> EndAccepts(ids, input, aliases, clock)
    ensures r.Some? ==> Presented(ids, input, aliases, tied, built, r.value.0, r.value.1)
    ensures r.Some? ==> Dated(ids, input.taskID, input.now, clock, r.value.0)
    ensures r.Some? ==> r.value.0.observationMode == Some(Retrospective)
    ensures r.Some? ==> forall c :: c in built ==> c.evidenceLevel != BaselineObserved
  {
    tied, built := [], [];
    var report := BuildReport(ids, input, clock);
    if report.None? {
      if input.taskID != "" {
        tied :| Unreportable(ids, input, tied, clock);
        NotAccepted(ids, input, aliases, clock, tied);
      }
      return None, [], [];
    }
    built := report.value.candidates;
    tied :| ReportCandidates(ids, input, tied, report.value.candidates);
    RetrospectiveNeverBaseline(ids, input, tied, built);
    var lowered := LowerBaseline(report.value.candidates);
    assert lowered == built;
    SameMembers(tied, built);
    var shown := ProjectReportPaths(lowered, aliases);
    if shown.None? {
      NotAccepted(ids, input, aliases, clock, tied);
      return None, [], [];
    }
    assert Presentable(ids, input, tied, aliases, clock);
    var result := report.value.(candidates := shown.value.0, observationMode := Some(Retrospective));
    ConcludesAlike(input, report.value, result);
    r := Some((result, shown.value.1));
  }

  lemma Inspected(ids: IDs, idOf: (string, string) -> string, entries: map<string, Entry>, grant: RetrospectiveGrant,
                  events: seq<Summary>, aliases: Aliases, native: Native, trail: Trail, report: Report,
                  targets: map<string, string>)
    requires InspectGathered(idOf, entries, grant, events, native, trail) && trail.shown == trail.built
    requires Presented(ids, trail.input, aliases, trail.tied, trail.built, report, targets)
    requires forall c :: c in trail.built ==> c.evidenceLevel != BaselineObserved
    requires report.observationMode == Some(Retrospective)
    ensures InspectTrail(ids, idOf, entries, grant, events, aliases, native, trail, report, targets)
  {
    WindowIsBare(idOf, entries, WindowKeys(entries, grant.startedAt, grant.endedAt), trail.input.candidates);
    ShownLevels(trail.shown, report.candidates, aliases);
  }

  lemma WindowIsBare(idOf: (string, string) -> string, entries: map<string, Entry>, keys: set<string>,
                     candidates: seq<Candidate>)
    requires CandidatesOf(idOf, entries, keys, candidates)
    ensures forall c :: c in candidates ==> Bare(c) && c.evidenceLevel == Unattributed
  {
  }

  lemma ShownLevels(shown: seq<Candidate>, stored: seq<Candidate>, aliases: Aliases)
    requires Projected(shown, stored, aliases) && forall c :: c in shown ==> c.evidenceLevel != BaselineObserved
    ensures forall c :: c in stored ==> c.evidenceLevel != BaselineObserved
  {
    forall c | c in stored ensures c.evidenceLevel != BaselineObserved {
      var i :| 0 <= i < |stored| && stored[i] == c;
      assert ProjectedOne(shown[i], stored[i], aliases) && shown[i] in shown;
    }
  }

  // ---- What every stage keeps ----

  lemma StagesKeepSubjects(built: seq<Candidate>, shown: seq<Candidate>, stored: seq<Candidate>, later: seq<Candidate>,
                           aliases: Aliases)
    requires SameButLevel(built, shown) && Projected(shown, stored, aliases) && SameCandidates(stored, later)
    ensures SameSubjects(built, later)
  {
    forall i | 0 <= i < |built| ensures SameSubject(built[i], later[i]) {
      assert ProjectedOne(shown[i], stored[i], aliases);
    }
  }

  lemma ObservedWasSeen(native: Native, trail: Trail)
    requires Observed(native, trail)
    ensures SeenIn(trail.input.processes, native)
  {
    if native.snapshot.Ok? {
      EvidenceSeen(trail.evidence, trail.attributed, native, trail.input.processes);
    }
  }

  /** A report as End or an inspection stores it, and any later revision of it: process and port statuses
      are right exactly as far as the queries of that verification succeed. */
  lemma MadeReportTellsTruth(ids: IDs, observed: Native, aliases: Aliases, trail: Trail, stored: seq<Candidate>,
                             later: seq<Candidate>,
                             identities: seq<Identity>, native: Native, world: World, targets: map<string, string>,
                             seen: Observation)
    requires CameFrom(ids, observed, aliases, trail, stored) && SameCandidates(stored, later)
    requires IdentitiesOf(later, identities)
    requires VerifiedExactly(seen.verified, identities, native) && Truthful(native, world)
    ensures forall i :: 0 <= i < |later| ==>
              StatusTellsTruth(later[i], VerifyAll(later, targets, seen)[i].currentStatus, native, world)
  {
    StagesKeepSubjects(trail.built, trail.shown, stored, later, aliases);
    ObservedWasSeen(observed, trail);
    VerifiedReportTellsTruth(ids, trail.input, trail.tied, trail.built, later, identities, observed, native,
                             world, targets, seen);
  }

  // ---- Where event and receipt IDs come from ----

  /** Every event and receipt ID of the candidate belongs to one of the events. */
  ghost predicate IDsFrom(c: Candidate, events: seq<Summary>) {
    && (forall id :: id in c.eventIDs ==> exists s :: s in events && s.eventID == id)
    && (forall id :: id in c.receiptIDs ==> exists s :: s in events && s.receiptID == id)
  }

  lemma CorrelatedIDs(c: Candidate, events: seq<Summary>, d: Candidate)
    requires Correlated(c, events, d) && c.eventIDs == [] && c.receiptIDs == []
    ensures IDsFrom(d, events)
  {
    MatchingMembers(c, events);
    var matching := Matching(c, events);
    forall id | id in d.eventIDs ensures exists s :: s in events && s.eventID == id {
      var s :| s in matching && EventIDOf(s) == id && id != "";
      assert s in events && s.eventID == id;
    }
    forall id | id in d.receiptIDs ensures exists s :: s in events && s.receiptID == id {
      var s :| s in matching && ReceiptIDOf(s) == id && id != "";
      assert s in events && s.receiptID == id;
    }
  }

  lemma BuiltIDs(ids: IDs, input: Input, tied: seq<Candidate>, built: seq<Candidate>)
    requires ReportCandidates(ids, input, tied, built) && forall c :: c in input.candidates ==> Bare(c)
    ensures forall c :: c in built ==> IDsFrom(c, input.events)
  {
    SameMembers(tied, built);
    ProcessCandidateFacts(ids, input.processes);
    var from := AllCandidates(ids, input);
    forall c | c in built ensures IDsFrom(c, input.events) {
      var i :| 0 <= i < |tied| && tied[i] == c;
      assert from[i] in from;
      CorrelatedIDs(from[i], input.events, c);
    }
  }

  lemma StoredIDs(ids: IDs, native: Native, aliases: Aliases, trail: Trail, stored: seq<Candidate>)
    requires CameFrom(ids, native, aliases, trail, stored)
    ensures forall c :: c in stored ==> IDsFrom(c, trail.input.events)
  {
    BuiltIDs(ids, trail.input, trail.tied, trail.built);
    forall c | c in stored ensures IDsFrom(c, trail.input.events) {
      var i :| 0 <= i < |stored| && stored[i] == c;
      assert ProjectedOne(trail.shown[i], stored[i], aliases) && trail.built[i] in trail.built;
    }
  }

  lemma ExpandedIDs(table: Table, from: seq<Summary>, to: seq<Summary>, identityOf: Identities, c: Candidate)
    requires forall b :: b in table ==> IsAbs(b.path)
    requires Expanded(table, from, to, identityOf) && IDsFrom(c, to)
    ensures IDsFrom(c, from)
  {
    forall s | s in to ensures exists f :: f in from && f.eventID == s.eventID && f.receiptID == s.receiptID {
      var i :| 0 <= i < |to| && to[i] == s;
      assert Expands(table, from[i], to[i], identityOf) && from[i] in from;
    }
    forall id | id in c.eventIDs ensures exists s :: s in from && s.eventID == id {
      var s :| s in to && s.eventID == id;
      var f :| f in from && f.eventID == s.eventID && f.receiptID == s.receiptID;
    }
    forall id | id in c.receiptIDs ensures exists s :: s in from && s.receiptID == id {
      var s :| s in to && s.receiptID == id;
      var f :| f in from && f.eventID == s.eventID && f.receiptID == s.receiptID;
    }
  }

  /** Whatever IDs End's report lists belong to events that End had loaded. */
  lemma EndListsLoadedEvents(ids: IDs, task: TaskRecord, identityOf: Identities, changes: seq<Candidate>,
                             native: Native, trail: Trail, report: Report, targets: map<string, string>)
    requires forall b :: b in task.context.aliases ==> IsAbs(b.path)
    requires EndTrail(ids, task, identityOf, changes, native, trail, report, targets)
    ensures forall c :: c in report.candidates ==> IDsFrom(c, task.events)
  {
    StoredIDs(ids, native, AliasesOf(task.context.aliases, identityOf), trail, report.candidates);
    forall c | c in report.candidates ensures IDsFrom(c, task.events) {
      ExpandedIDs(task.context.aliases, task.events, trail.input.events, identityOf, c);
    }
  }

  // ---- Exactly which processes and ports are reported ----

  ghost predicate DistinctIdentities(processes: seq<Evidence>) {
    forall i, j :: 0 <= i < j < |processes| ==> processes[i].identity != processes[j].identity
  }

  lemma {:induction false} ItemsOfNone(processes: seq<Evidence>, id: Identity, port: Port)
    requires forall e :: e in processes ==> e.identity != id
    ensures SumSeq(Items(id), processes) == 0 && SumSeq(Listings(id, port), processes) == 0
  {
    SumSeqZero(Items(id), processes);
    SumSeqZero(Listings(id, port), processes);
  }

  lemma ItemsOfOne(processes: seq<Evidence>, e: Evidence, port: Port)
    requires DistinctIdentities(processes) && e in processes
    ensures SumSeq(Items(e.identity), processes) == 1
    ensures SumSeq(Listings(e.identity, port), processes) == multiset(e.ports)[port]
  {
    var k :| 0 <= k < |processes| && processes[k] == e;
    var others := processes[..k] + processes[k + 1..];
    SumSeqAround(Items(e.identity), processes, k);
    SumSeqAround(Listings(e.identity, port), processes, k);
    forall other | other in others ensures other.identity != e.identity {
      assert other in processes[..k] || other in processes[k + 1..];
    }
    ItemsOfNone(others, e.identity, port);
  }

  lemma StoredCountsEvidence(ids: IDs, native: Native, aliases: Aliases, trail: Trail, stored: seq<Candidate>)
    requires CameFrom(ids, native, aliases, trail, stored)
    ensures CountsEvidence(trail.input.processes, stored)
  {
    CountedInReport(ids, trail.input, trail.tied, trail.built);
    forall id ensures SumSeq(ProcessCount(id), stored) == SumSeq(ProcessCount(id), trail.built) {
      StoredWeight(trail.built, trail.shown, stored, aliases, ProcessCount(id));
    }
    forall id, port ensures SumSeq(PortCount(id, port), stored) == SumSeq(PortCount(id, port), trail.built) {
      StoredWeight(trail.built, trail.shown, stored, aliases, PortCount(id, port));
    }
  }

  lemma StoredWeight(built: seq<Candidate>, shown: seq<Candidate>, stored: seq<Candidate>, aliases: Aliases,
                     weight: Candidate -> nat)
    requires SameButLevel(built, shown) && Projected(shown, stored, aliases) && SubjectWeight(weight)
    ensures SumSeq(weight, stored) == SumSeq(weight, built)
  {
    forall i | 0 <= i < |built| ensures weight(stored[i]) == weight(built[i]) {
      assert ProjectedOne(shown[i], stored[i], aliases);
    }
    SumSeqPointwise(weight, weight, stored, built);
  }

  /** This very process is in the snapshot, with a parent chain to a seed. */
  ghost predicate Concerned(native: Native, hints: Hints, p: Identity) {
    Alive(p, native) && Attributable(native.snapshot.value, hints, native, p.pid)
  }

  lemma EvidenceExactly(native: Native, trail: Trail, p: Identity)
    requires Observed(native, trail)
    ensures (exists e :: e in trail.evidence && e.identity == p) <==> Concerned(native, trail.hints, p)
  {
    if native.snapshot.Ok? {
      var procs := ByPID(native.snapshot.value);
      if e :| e in trail.evidence && e.identity == p {
        assert IsEvidence(e, procs, trail.attributed, native);
      }
      if Concerned(native, trail.hints, p) {
        assert p.pid in trail.attributed;
        var e :| e in trail.evidence && e.identity.pid == p.pid;
        assert IsEvidence(e, procs, trail.attributed, native);
      }
    }
  }

  lemma PortsOfEvidence(native: Native, trail: Trail, e: Evidence, port: Port)
    requires Observed(native, trail) && e in trail.evidence
    ensures multiset(e.ports)[port] == Listed(native, e.identity, port)
  {
    assert IsEvidence(e, ByPID(native.snapshot.value), trail.attributed, native);
  }

  /** How often the native adapter lists a port for a process; never if it cannot tell. */
  ghost function Listed(native: Native, id: Identity, port: Port): nat {
    match native.listeningPorts(id)
    case Ok(ports) => multiset(ports)[port]
    case Err(_) => 0
  }

  /** One process candidate and a port candidate per listing if `reported`, and none at all if not. */
  ghost predicate ReportedAs(candidates: seq<Candidate>, native: Native, p: Identity, port: Port, reported: bool) {
    && SumSeq(ProcessCount(p), candidates) == (if reported then 1 else 0)
    && SumSeq(PortCount(p, port), candidates) == (if reported then Listed(native, p, port) else 0)
  }

  lemma CountsOfKept(native: Native, trail: Trail, stored: seq<Candidate>, p: Identity, port: Port)
    requires Observed(native, trail) && CountsEvidence(trail.input.processes, stored)
    requires DistinctIdentities(trail.input.processes)
    ensures ReportedAs(stored, native, p, port, exists e :: e in trail.input.processes && e.identity == p)
  {
    if e :| e in trail.input.processes && e.identity == p {
      ItemsOfOne(trail.input.processes, e, port);
      PortsOfEvidence(native, trail, e, port);
    } else {
      ItemsOfNone(trail.input.processes, p, port);
    }
  }

  /** End reports a process, once and with its ports, if and only if it is in the snapshot with a parent chain
      to a seed, and an event names it or it was not yet running at the baseline. */
  lemma EndReportsExactly(ids: IDs, task: TaskRecord, identityOf: Identities, changes: seq<Candidate>, native: Native,
                          trail: Trail, report: Report, targets: map<string, string>, p: Identity, port: Port)
    requires forall b :: b in task.context.aliases ==> IsAbs(b.path)
    requires EndTrail(ids, task, identityOf, changes, native, trail, report, targets)
    ensures ReportedAs(report.candidates, native, p, port,
                       Concerned(native, trail.hints, p)
                       && (EventNames(task.events, p) || !WasRunning(trail.baseline, p)))
    ensures HintsFrom(trail.hints, trail.input.events, changes)
  {
    StoredCountsEvidence(ids, native, AliasesOf(task.context.aliases, identityOf), trail, report.candidates);
    EvidenceExactly(native, trail, p);
    ExpandedNames(task.context.aliases, task.events, trail.input.events, identityOf, p);
    CountsOfKept(native, trail, report.candidates, p, port);
    KeptExactly(trail, p);
  }

  lemma KeptExactly(trail: Trail, p: Identity)
    requires KeptNewOrNamed(trail)
    ensures (exists e :: e in trail.input.processes && e.identity == p) <==>
            && (exists e :: e in trail.evidence && e.identity == p)
            && (EventNames(trail.input.events, p) || !WasRunning(trail.baseline, p))
  {
  }

  lemma ExpandedNames(table: Table, from: seq<Summary>, to: seq<Summary>, identityOf: Identities, p: Identity)
    requires (forall b :: b in table ==> IsAbs(b.path)) && Expanded(table, from, to, identityOf)
    ensures EventNames(from, p) <==> EventNames(to, p)
  {
    if s :| s in from && s.process == Some(p) {
      var i :| 0 <= i < |from| && from[i] == s;
      assert Expands(table, from[i], to[i], identityOf) && to[i] in to;
    }
    if s :| s in to && s.process == Some(p) {
      var i :| 0 <= i < |to| && to[i] == s;
      assert Expands(table, from[i], to[i], identityOf) && from[i] in from;
    }
  }

  /** An inspection reports exactly the processes in the snapshot with a parent chain to a seed. */
  lemma InspectionReportsExactly(ids: IDs, idOf: (string, string) -> string, entries: map<string, Entry>,
                                 grant: RetrospectiveGrant, events: seq<Summary>, aliases: Aliases, native: Native,
                                 trail: Trail, report: Report, targets: map<string, string>, p: Identity, port: Port)
    requires InspectTrail(ids, idOf, entries, grant, events, aliases, native, trail, report, targets)
    ensures ReportedAs(report.candidates, native, p, port, Concerned(native, trail.hints, p))
    ensures HintsFrom(trail.hints, events, trail.input.candidates)
  {
    StoredCountsEvidence(ids, native, aliases, trail, report.candidates);
    EvidenceExactly(native, trail, p);
    if native.snapshot.Ok? {
      assert EvidenceList(trail.evidence, ByPID(native.snapshot.value), trail.attributed, native);
    }
    CountsOfKept(native, trail, report.candidates, p, port);
  }
}
