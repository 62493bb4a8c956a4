/** Reports across whole runs: from what End or an inspection observed to what every later revision says. */
module StoredReports {
  import opened Text
  import opened Contract
  import opened Capability
  import opened Disk
  import opened PathAlias
  import opened ExecutorPaths
  import opened ReportPaths
  import opened ProcessObserver
  import opened ProcessEvidence
  import opened Correlate
  import opened Verification
  import opened ReportEvidence
  import opened ReportMaking
  import opened Protocol
  import opened Invariant
  import opened Steps
  import opened Runs
  import opened EventRuns
  import opened Outcomes
  import Paths

  // ---- Statuses in stored revisions ----

  /** What a Verify call works on is the winner's report, in its original or a later form. */
  lemma VerifiesWinnersReport(cfg: Config, run: Run, i: nat, j: nat, x: string)
    requires ValidConfig(cfg) && ValidRun(cfg, run) && i < j
    requires Completes(run, i, x) && Appends(run, j, x)
    ensures var read := run.states[j].verifying[run.actions[j].agent].record;
            && read.report == run.actions[i].report && read.exactTargets == run.actions[i].evidence.exactTargets
            && SameCandidates(run.actions[i].report.candidates, LatestCandidates(read))
  {
    AppendAt(cfg, run, j, x);
    OneCompletionWins(cfg, run, i, j, x);
    RunKeepsInvariant(cfg, run, j);
    var p := run.states[j].verifying[run.actions[j].agent];
    assert PendingOK(cfg, run.states[j], p);
    LatestKeeps(cfg, p.record);
  }

  /** The revision that a successful Verify call has appended. */
  ghost function Appended(run: Run, j: nat, x: string): seq<Candidate>
    requires Appends(run, j, x) && j + 1 < |run.states| && x in run.states[j + 1].files.reports
    requires run.states[j + 1].files.reports[x].sealed.plain.revisions != []
  {
    LatestCandidates(run.states[j + 1].files.reports[x].sealed.plain)
  }

  lemma AppendedIsVerified(cfg: Config, run: Run, j: nat, x: string)
    requires ValidConfig(cfg) && ValidRun(cfg, run) && Appends(run, j, x)
    ensures j + 1 < |run.states| && x in run.states[j + 1].files.reports
    ensures run.states[j + 1].files.reports[x].sealed.plain.revisions != []
    ensures var read := run.states[j].verifying[run.actions[j].agent].record;
            Appended(run, j, x) == VerifyAll(LatestCandidates(read), read.exactTargets, run.actions[j].seen)
  {
    RunKeepsInvariant(cfg, run, j);
    assert StepAt(cfg, run, j);
    AppendExtendsWhatWasRead(cfg, run.states[j], run.actions[j]);
  }

  /** What a completion stores, and for how long. */
  lemma CompletionStored(cfg: Config, run: Run, k: nat, x: string)
    requires ValidConfig(cfg) && ValidRun(cfg, run) && Completes(run, k, x)
    ensures k + 1 < |run.states| && x in run.states[k + 1].files.reports
    ensures FirstReport(cfg, run.actions[k].report, run.actions[k].evidence, run.actions[k].now,
                        run.states[k + 1].files.reports[x].sealed.plain)
  {
    assert StepAt(cfg, run, k);
    CompletionLeaves(cfg, run, k, x);
    CompletionStores(cfg, run.actions[k].report, run.actions[k].evidence, run.actions[k].now);
  }

  /** What a Verify call appends. */
  lemma RevisionStored(cfg: Config, run: Run, j: nat, x: string)
    requires ValidConfig(cfg) && ValidRun(cfg, run) && Appends(run, j, x)
    ensures j + 1 < |run.states| && x in run.states[j + 1].files.reports
    ensures var read := run.states[j].verifying[run.actions[j].agent].record;
            var revisions := run.states[j + 1].files.reports[x].sealed.plain.revisions;
            && |revisions| == |read.revisions| + 1 && read.revisions <= revisions
            && NextRevision(cfg, read, run.actions[j].seen, run.actions[j].now, revisions[|read.revisions|])
  {
    RunKeepsInvariant(cfg, run, j);
    assert StepAt(cfg, run, j);
    AppendExtendsWhatWasRead(cfg, run.states[j], run.actions[j]);
    RevisionMade(cfg, run.states[j].verifying[run.actions[j].agent].record, run.actions[j].seen, run.actions[j].now);
  }

  /** From observation to the stored revision, in any run: a report completed at step i from what was
      observed, however often it has been verified, retained or read since, gets at step j a revision that
      says of exactly the observed processes and ports whether they are still there, and is right exactly as
      far as that call's queries succeeded. */
  lemma StoredRevisionTellsTruth(cfg: Config, run: Run, i: nat, j: nat, x: string, ids: IDs, observed: Native,
                                 aliases: Aliases, trail: Trail, identities: seq<Identity>, native: Native,
                                 world: World)
    requires ValidConfig(cfg) && ValidRun(cfg, run) && i < j
    requires Completes(run, i, x) && CameFrom(ids, observed, aliases, trail, run.actions[i].report.candidates)
    requires Appends(run, j, x)
    requires IdentitiesOf(LatestCandidates(run.states[j].verifying[run.actions[j].agent].record), identities)
    requires VerifiedExactly(run.actions[j].seen.verified, identities, native) && Truthful(native, world)
    ensures j + 1 < |run.states| && x in run.states[j + 1].files.reports
    ensures run.states[j + 1].files.reports[x].sealed.plain.revisions != []
    ensures |Appended(run, j, x)| == |trail.built|
    ensures forall k :: 0 <= k < |trail.built| ==>
              && SameSubject(trail.built[k], Appended(run, j, x)[k])
              && StatusTellsTruth(trail.built[k], Appended(run, j, x)[k].currentStatus, native, world)
  {
    VerifiesWinnersReport(cfg, run, i, j, x);
    AppendedIsVerified(cfg, run, j, x);
    var read := run.states[j].verifying[run.actions[j].agent].record;
    RevisionTellsTruth(ids, observed, aliases, trail, run.actions[i].report.candidates, LatestCandidates(read),
                       Appended(run, j, x), identities, native, world, read.exactTargets, run.actions[j].seen);
  }

  lemma RevisionTellsTruth(ids: IDs, observed: Native, aliases: Aliases, trail: Trail, stored: seq<Candidate>,
                           latest: seq<Candidate>, next: seq<Candidate>, identities: seq<Identity>, native: Native,
                           world: World, targets: map<string, string>, seen: Observation)
    requires CameFrom(ids, observed, aliases, trail, stored) && SameCandidates(stored, latest)
    requires IdentitiesOf(latest, identities)
    requires VerifiedExactly(seen.verified, identities, native) && Truthful(native, world)
    requires next == VerifyAll(latest, targets, seen)
    ensures |next| == |trail.built|
    ensures forall k :: 0 <= k < |trail.built| ==>
              && SameSubject(trail.built[k], next[k])
              && StatusTellsTruth(trail.built[k], next[k].currentStatus, native, world)
  {
    MadeReportTellsTruth(ids, observed, aliases, trail, stored, latest, identities, native, world, targets, seen);
    StagesKeepSubjects(trail.built, trail.shown, stored, latest, aliases);
    VerifyKeepsCandidates(latest, targets, seen);
    forall k | 0 <= k < |trail.built|
      ensures SameSubject(trail.built[k], next[k])
      ensures StatusTellsTruth(trail.built[k], next[k].currentStatus, native, world)
    {
      assert SameSubject(trail.built[k], latest[k]);
      assert StatusTellsTruth(latest[k], next[k].currentStatus, native, world);
    }
  }

  // ---- Events in stored reports ----

  /** Steps i and j are the load and the successful completion of one End call on `x`. */
  ghost predicate EndCall(run: Run, i: nat, j: nat, x: string) {
    && i < j && Succeeds(run, i) && run.actions[i].EndRead? && Completes(run, j, x) && run.actions[j].EndWrite?
    && ParseOwner(run.actions[i].handle).Some? && ParseOwner(run.actions[i].handle).value.opaqueID == x
    && run.actions[j].agent == run.actions[i].agent && i + 1 < |run.states|
    && var agent := run.actions[i].agent;
       && agent in run.states[i + 1].ending && agent in run.states[j].ending
       && run.states[j].ending[agent] == run.states[i + 1].ending[agent]
  }

  /** What that End call had loaded. */
  ghost function Loaded(run: Run, i: nat, j: nat, x: string): TaskRecord
    requires EndCall(run, i, j, x)
  {
    run.states[j].ending[run.actions[j].agent].record
  }

  /** Every event and receipt ID of the candidate belongs to an accepted event. */
  ghost predicate IDsAccepted(c: Candidate, accepted: multiset<Summary>) {
    && (forall id :: id in c.eventIDs ==> exists s :: s in accepted && s.eventID == id)
    && (forall id :: id in c.receiptIDs ==> exists s :: s in accepted && s.receiptID == id)
  }

  lemma LoadedIDsAccepted(c: Candidate, events: seq<Summary>, accepted: multiset<Summary>)
    requires IDsFrom(c, events) && multiset(events) == accepted
    ensures IDsAccepted(c, accepted)
  {
    forall id | id in c.eventIDs ensures exists s :: s in accepted && s.eventID == id {
      var s :| s in events && s.eventID == id;
      assert s in multiset(events);
    }
    forall id | id in c.receiptIDs ensures exists s :: s in accepted && s.receiptID == id {
      var s :| s in events && s.receiptID == id;
      assert s in multiset(events);
    }
  }

  /** No earlier event has this event's ID. */
  ghost predicate OwnID(s: Summary, earlier: multiset<Summary>) {
    forall e :: e in earlier ==> e.eventID != s.eventID
  }

  /** The stored report of an End call mentions only events accepted before its load. Of what was accepted
      between load and completion, an event with an ID of its own appears in no candidate. */
  lemma StoredReportOmitsLaterEvents(cfg: Config, run: Run, i: nat, j: nat, x: string, ids: IDs, identityOf: Identities,
                                     changes: seq<Candidate>, native: Native, trail: Trail)
    requires ValidConfig(cfg) && ValidRun(cfg, run) && EndCall(run, i, j, x)
    requires forall b :: b in Loaded(run, i, j, x).context.aliases ==> Paths.IsAbs(b.path)
    requires EndTrail(ids, Loaded(run, i, j, x), identityOf, changes, native, trail, run.actions[j].report,
                      run.actions[j].evidence.exactTargets)
    ensures j + 1 < |run.states| && x in run.states[j + 1].files.reports
    ensures var report := run.states[j + 1].files.reports[x].sealed.plain.report;
            && (forall c :: c in report.candidates ==> IDsAccepted(c, Accepted(run, x, i)))
            && (forall s, c ::
                  s in AcceptedBetween(run, x, i, j) && c in report.candidates && OwnID(s, Accepted(run, x, i)) ==>
                    s.eventID !in c.eventIDs)
  {
    assert StepAt(cfg, run, j);
    CompletionLeaves(cfg, run, j, x);
    EndMissesExactlyLaterEvents(cfg, run, i, j, x);
    EndListsLoadedEvents(ids, Loaded(run, i, j, x), identityOf, changes, native, trail, run.actions[j].report,
                         run.actions[j].evidence.exactTargets);
    forall c | c in run.actions[j].report.candidates ensures IDsAccepted(c, Accepted(run, x, i)) {
      LoadedIDsAccepted(c, Loaded(run, i, j, x).events, Accepted(run, x, i));
    }
  }

  // ---- Processes in stored reports ----

  /** The stored report of an End call has one candidate for each process that was in its snapshot with a
      parent chain to a seed and that an event accepted before the load names or that is newer than the
      baseline, with one port candidate per listing, and none for any other process. */
  lemma StoredProcessesExactly(cfg: Config, run: Run, i: nat, j: nat, x: string, ids: IDs, identityOf: Identities,
                               changes: seq<Candidate>, native: Native, trail: Trail, p: Identity, port: Port)
    requires ValidConfig(cfg) && ValidRun(cfg, run) && EndCall(run, i, j, x)
    requires forall b :: b in Loaded(run, i, j, x).context.aliases ==> Paths.IsAbs(b.path)
    requires EndTrail(ids, Loaded(run, i, j, x), identityOf, changes, native, trail, run.actions[j].report,
                      run.actions[j].evidence.exactTargets)
    ensures j + 1 < |run.states| && x in run.states[j + 1].files.reports
    ensures var named := exists s :: s in Accepted(run, x, i) && s.process == Some(p);
            ReportedAs(run.states[j + 1].files.reports[x].sealed.plain.report.candidates, native, p, port,
                       Concerned(native, trail.hints, p) && (named || !WasRunning(trail.baseline, p)))
  {
    assert StepAt(cfg, run, j);
    CompletionLeaves(cfg, run, j, x);
    EndMissesExactlyLaterEvents(cfg, run, i, j, x);
    EndReportsExactly(ids, Loaded(run, i, j, x), identityOf, changes, native, trail, run.actions[j].report,
                      run.actions[j].evidence.exactTargets, p, port);
    NamedAlike(Loaded(run, i, j, x).events, Accepted(run, x, i), p);
  }

  lemma NamedAlike(events: seq<Summary>, accepted: multiset<Summary>, p: Identity)
    requires multiset(events) == accepted
    ensures EventNames(events, p) <==> exists s :: s in accepted && s.process == Some(p)
  {
    if s :| s in events && s.process == Some(p) {
      assert s in multiset(events);
    }
  }

  // ---- An accepted event that blocks End ----

  /** Once an executor event with an absolute path behind the workspace alias has been accepted, what End
      loads cannot be expanded with the table that the task carries, in this and in every later state with a
      live task, whatever the roots' identities are by then. */
  lemma AcceptedEventBlocksEnd(cfg: Config, run: Run, n: nat, handle: Handle, x: string, now: Time, s: Summary,
                               tail: string, identityOf: Identities)
    requires ValidConfig(cfg) && ValidRun(cfg, run) && n < |run.states|
    requires OwnsTask(cfg, run.states[n], handle, x, now)
    requires Aliased(run.states[n].files.tasks[x].sealed.plain.context.aliases)
    requires s in ExecutorEvents(run, x, n) && s.workingDir == Continued(AliasPrefix(0), tail)
    requires Paths.IsAbs(tail) && !Paths.HasTraversal(tail)
    ensures var r := LoadTaskForEnd(cfg, run.states[n].files, handle, now);
            && r.Ok? && Aliased(r.value.context.aliases)
            && exists k :: 0 <= k < |r.value.events|
                           && !Expandable(r.value.context.aliases, r.value.events[k], identityOf)
  {
    EndReadsEveryAcceptedEvent(cfg, run, n, handle, x, now);
    RunKeepsInvariant(cfg, run, n);
    OwnerMerges(cfg, run.states[n], handle, x, now);
    var record := LoadTaskForEnd(cfg, run.states[n].files, handle, now).value;
    InTheRest(record.events, |OwnerEvents(run, x, n)|, s, ExecutorEvents(run, x, n));
    AcceptedPathNeverResolves(record.context.aliases, tail, s, ["workspace"], identityOf);
  }

  lemma InTheRest(events: seq<Summary>, n: nat, s: Summary, rest: multiset<Summary>)
    requires n <= |events| && multiset(events[n..]) == rest && s in rest
    ensures s in events
  {
    assert s in events[n..];
  }
}
