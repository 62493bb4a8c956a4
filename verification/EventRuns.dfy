/** No accepted event is lost or duplicated while its task lives, in any run. */
module EventRuns {
  import opened Text
  import opened Contract
  import opened Crypto
  import opened Capability
  import opened Disk
  import opened Retention
  import opened Protocol
  import opened Invariant
  import opened Steps
  import opened Runs
  import opened BatchMerge

  // ---- What each step accepts for an ID ----

  /** Events that the owner's append of this step added. */
  ghost function ByOwner(a: Action, ok: bool, x: string): seq<Summary> {
    if ok && a.AppendOwner? && ParseOwner(a.handle).Some? && ParseOwner(a.handle).value.opaqueID == x
    then a.summaries else []
  }

  /** Events that an executor's append of this step added. */
  ghost function ByExecutor(a: Action, ok: bool, x: string): seq<Summary> {
    if ok && a.AppendExecutor? && a.handle.ExecutorHandle? && a.handle.executor.claims.opaqueID == x
    then a.summaries else []
  }

  /** All that the owner appended in the first `n` steps, in order. */
  ghost function OwnerEvents(run: Run, x: string, n: nat): seq<Summary>
    requires n <= |run.actions| && n <= |run.results|
  {
    if n == 0 then [] else OwnerEvents(run, x, n - 1) + ByOwner(run.actions[n - 1], run.results[n - 1], x)
  }

  /** All that executors appended in the first `n` steps. */
  ghost function ExecutorEvents(run: Run, x: string, n: nat): multiset<Summary>
    requires n <= |run.actions| && n <= |run.results|
  {
    if n == 0 then multiset{}
    else ExecutorEvents(run, x, n - 1) + multiset(ByExecutor(run.actions[n - 1], run.results[n - 1], x))
  }

  // ---- One step ----

  /** The stored events of `x` are exactly these. */
  ghost predicate Holds(s: System, x: string, owner: seq<Summary>, executors: multiset<Summary>) {
    && (x in s.files.tasks ==>
          s.files.tasks[x].sealed.plain.events == owner && DirectoryEvents(Batches(s.files, x)) == executors)
    && (x !in s.used ==> owner == [] && executors == multiset{})
  }

  ghost predicate Accepts(s: System, t: System, x: string, owner: seq<Summary>, executor: seq<Summary>) {
    && s.used <= t.used
    && (x in t.files.tasks && x in s.files.tasks ==>
          && t.files.tasks[x].sealed.plain.context == s.files.tasks[x].sealed.plain.context
          && t.files.tasks[x].sealed.plain.events == s.files.tasks[x].sealed.plain.events + owner
          && DirectoryEvents(Batches(t.files, x)) == DirectoryEvents(Batches(s.files, x)) + multiset(executor))
    && (x in t.files.tasks && x !in s.files.tasks ==>
          x !in s.used && t.files.tasks[x].sealed.plain.events == [] && Batches(t.files, x) == map[])
    && (x !in s.files.tasks ==> owner == [] && executor == [])
  }

  lemma OwnerAppendAccepts(cfg: Config, s: System, a: Action, x: string)
    requires Inv(cfg, s) && a.AppendOwner?
    ensures Accepts(s, Apply(cfg, s, a).state, x, ByOwner(a, Apply(cfg, s, a).ok, x), [])
  {
    if Apply(cfg, s, a).ok {
      LoadedTask(cfg, s.files, ParseOwner(a.handle).value, a.now);
    }
  }

  lemma ExecutorAppendAccepts(cfg: Config, s: System, a: Action, x: string)
    requires Inv(cfg, s) && a.AppendExecutor? && Admissible(cfg, s, a)
    ensures Accepts(s, Apply(cfg, s, a).state, x, [], ByExecutor(a, Apply(cfg, s, a).ok, x))
  {
    var step := Apply(cfg, s, a);
    if step.ok {
      var claims := a.handle.executor.claims;
      var name := BatchName(claims.grantID, a.random);
      var directory := Batches(s.files, claims.opaqueID);
      DirectoryGrows(directory, name, step.state.files.events[claims.opaqueID][name]);
    }
  }

  lemma DelegateAccepts(cfg: Config, s: System, a: Action, x: string)
    requires Inv(cfg, s) && a.DelegateExecutor?
    ensures Accepts(s, Apply(cfg, s, a).state, x, [], [])
  {
    if Apply(cfg, s, a).ok {
      LoadedTask(cfg, s.files, ParseOwner(a.handle).value, a.now);
    }
  }

  lemma BeginAccepts(cfg: Config, s: System, a: Action, x: string)
    requires Inv(cfg, s) && a.Begin? && Admissible(cfg, s, a)
    ensures Accepts(s, Apply(cfg, s, a).state, x, [], [])
  {
  }

  lemma EndReadAccepts(cfg: Config, s: System, a: Action, x: string)
    requires a.EndRead?
    ensures Accepts(s, Apply(cfg, s, a).state, x, [], [])
  {
  }

  lemma EndEffectAccepts(cfg: Config, s: System, a: Action, step: Step, x: string)
    requires a.EndWrite? && EndEffect(cfg, s, a, step)
    ensures Accepts(s, step.state, x, [], [])
  {
  }

  lemma EndWriteAccepts(cfg: Config, s: System, a: Action, x: string)
    requires Inv(cfg, s) && a.EndWrite?
    ensures Accepts(s, Apply(cfg, s, a).state, x, [], [])
  {
    EndWriteEffect(cfg, s, a);
    EndEffectAccepts(cfg, s, a, Apply(cfg, s, a), x);
  }

  lemma SweepAccepts(cfg: Config, s: System, a: Action, x: string)
    requires Inv(cfg, s) && a.SweepStore?
    ensures Accepts(s, Apply(cfg, s, a).state, x, [], [])
  {
    var t := Apply(cfg, s, a).state;
    SweptAccepts(s, t, a.now, x);
  }

  lemma SweptAccepts(s: System, t: System, now: Time, x: string)
    requires Tasks(s) && t.used == s.used
    requires t.files.tasks == Live(s.files.tasks, now) && t.files.events == s.files.events - ExpiredEvents(s.files, now)
    ensures Accepts(s, t, x, [], [])
  {
    if x in t.files.tasks {
      assert forall y :: y in s.files.tasks ==> TaskOK(y, s.files.tasks[y]);
      assert x !in ExpiredEvents(s.files, now);
      assert Batches(t.files, x) == Batches(s.files, x);
    }
  }

  /** Steps on grants and reports leave tasks and batches alone. */
  lemma TasksUntouched(cfg: Config, s: System, a: Action)
    requires a.GrantRetrospective? || a.InspectRead? || a.InspectWrite? || a.VerifyRead? || a.VerifyWrite?
             || a.RetainReport? || a.ForgetReport?
    ensures var t := Apply(cfg, s, a).state;
            t.files.tasks == s.files.tasks && t.files.events == s.files.events && s.used <= t.used
  {
  }

  lemma UntouchedAccepts(s: System, t: System, x: string)
    requires t.files.tasks == s.files.tasks && t.files.events == s.files.events && s.used <= t.used
    ensures Accepts(s, t, x, [], [])
  {
  }

  lemma StepAccepts(cfg: Config, s: System, a: Action, t: System, ok: bool, x: string)
    requires ValidConfig(cfg) && Inv(cfg, s) && Admissible(cfg, s, a) && Apply(cfg, s, a) == Step(t, ok)
    ensures Accepts(s, t, x, ByOwner(a, ok, x), ByExecutor(a, ok, x))
  {
    if a.AppendOwner? {
      OwnerAppendAccepts(cfg, s, a, x);
    } else if a.AppendExecutor? {
      ExecutorAppendAccepts(cfg, s, a, x);
    } else if a.DelegateExecutor? {
      DelegateAccepts(cfg, s, a, x);
    } else if a.Begin? {
      BeginAccepts(cfg, s, a, x);
    } else if a.EndRead? {
      EndReadAccepts(cfg, s, a, x);
    } else if a.EndWrite? {
      EndWriteAccepts(cfg, s, a, x);
    } else if a.SweepStore? {
      SweepAccepts(cfg, s, a, x);
    } else {
      TasksUntouched(cfg, s, a);
      UntouchedAccepts(s, t, x);
    }
  }

  lemma HoldsNext(s: System, t: System, x: string, owner: seq<Summary>, executors: multiset<Summary>,
                  more: seq<Summary>, extra: seq<Summary>)
    requires Holds(s, x, owner, executors) && Accepts(s, t, x, more, extra) && Phases(s)
    ensures Holds(t, x, owner + more, executors + multiset(extra))
  {
    if x in t.files.tasks && x !in s.files.tasks {
      assert owner + more == [];
    }
  }

  /** While a task lives, its record and its batch files hold exactly the accepted events. */
  lemma {:induction false} EventsAccounted(cfg: Config, run: Run, x: string, n: nat)
    requires ValidConfig(cfg) && ValidRun(cfg, run) && n < |run.states|
    ensures Holds(run.states[n], x, OwnerEvents(run, x, n), ExecutorEvents(run, x, n))
  {
    if n > 0 {
      EventsAccounted(cfg, run, x, n - 1);
      RunKeepsInvariant(cfg, run, n - 1);
      assert StepAt(cfg, run, n - 1);
      var s, a, ok, t := run.states[n - 1], run.actions[n - 1], run.results[n - 1], run.states[n];
      StepAccepts(cfg, s, a, t, ok, x);
      HoldsNext(s, t, x, OwnerEvents(run, x, n - 1), ExecutorEvents(run, x, n - 1), ByOwner(a, ok, x),
                ByExecutor(a, ok, x));
    }
  }

  /** A task carries the same context, its alias table included, from Begin on for as long as it lives. */
  lemma {:induction false} ContextNeverChanges(cfg: Config, run: Run, i: nat, j: nat, x: string)
    requires ValidConfig(cfg) && ValidRun(cfg, run) && i <= j < |run.states|
    requires x in run.states[i].files.tasks && x in run.states[j].files.tasks
    ensures run.states[j].files.tasks[x].sealed.plain.context == run.states[i].files.tasks[x].sealed.plain.context
  {
    if i < j {
      RunKeepsInvariant(cfg, run, i);
      RunEvolves(cfg, run, i, j - 1);
      RunKeepsInvariant(cfg, run, j - 1);
      assert StepAt(cfg, run, j - 1);
      StepAccepts(cfg, run.states[j - 1], run.actions[j - 1], run.states[j], run.results[j - 1], x);
      ContextNeverChanges(cfg, run, i, j - 1, x);
    }
  }

  // ---- What End reads ----

  /** The handle of the task's owner, while the task has not expired. */
  ghost predicate OwnsTask(cfg: Config, s: System, handle: Handle, x: string, now: Time) {
    && ParseOwner(handle).Some? && ParseOwner(handle).value.opaqueID == x && x in s.files.tasks
    && var owner, e := ParseOwner(handle).value, s.files.tasks[x];
       e.sealed.key == owner.recordKey && e.meta.publicKey == OwnerPublicKey(cfg, owner) && now < e.meta.expiresAt
  }

  lemma LoadedByOwner(cfg: Config, s: System, handle: Handle, now: Time)
    requires LoadTaskForEnd(cfg, s.files, handle, now).Ok?
    ensures ParseOwner(handle).Some? && OwnsTask(cfg, s, handle, ParseOwner(handle).value.opaqueID, now)
  {
    LoadedTask(cfg, s.files, ParseOwner(handle).value, now);
  }

  lemma OwnerLoadsTask(cfg: Config, s: System, handle: Handle, x: string, now: Time)
    requires Tasks(s) && OwnsTask(cfg, s, handle, x, now)
    ensures LoadTaskForEnd(cfg, s.files, handle, now)
         == MergeEvents(cfg, s.files, ParseOwner(handle).value, s.files.tasks[x].sealed.plain)
  {
    assert TaskOK(x, s.files.tasks[x]);
    assert LoadTask(cfg, s.files, ParseOwner(handle).value, now) == Ok(s.files.tasks[x].sealed.plain);
  }

  lemma OwnerMerges(cfg: Config, s: System, handle: Handle, x: string, now: Time)
    requires FilesOK(cfg, s) && OwnsTask(cfg, s, handle, x, now)
    ensures var r := LoadTaskForEnd(cfg, s.files, handle, now);
            var record := s.files.tasks[x].sealed.plain;
            && r.Ok? && record.events <= r.value.events && r.value == record.(events := r.value.events)
            && multiset(r.value.events[|record.events|..]) == DirectoryEvents(Batches(s.files, x))
  {
    assert TaskOK(x, s.files.tasks[x]);
    assert DirectoryOK(x, s.files.tasks[x], Batches(s.files, x));
    OwnerLoadsTask(cfg, s, handle, x, now);
    MergeExactly(cfg, s.files, ParseOwner(handle).value);
  }

  /** What a read sees: the owner's accepted events in order, then exactly the accepted executor events. */
  ghost predicate ReadsAll(record: TaskRecord, owner: seq<Summary>, executors: multiset<Summary>) {
    owner <= record.events && multiset(record.events[|owner|..]) == executors
  }

  /** In every reachable state with a live task, merging succeeds for its owner and yields the owner's
      events followed by exactly all accepted executor events. */
  lemma EndReadsEveryAcceptedEvent(cfg: Config, run: Run, n: nat, handle: Handle, x: string, now: Time)
    requires ValidConfig(cfg) && ValidRun(cfg, run) && n < |run.states|
    requires OwnsTask(cfg, run.states[n], handle, x, now)
    ensures var r := LoadTaskForEnd(cfg, run.states[n].files, handle, now);
            r.Ok? && ReadsAll(r.value, OwnerEvents(run, x, n), ExecutorEvents(run, x, n))
  {
    RunKeepsInvariant(cfg, run, n);
    OwnerMerges(cfg, run.states[n], handle, x, now);
    EventsAccounted(cfg, run, x, n);
  }

  /** All accepted events of `x` in the first `n` steps. */
  ghost function Accepted(run: Run, x: string, n: nat): multiset<Summary>
    requires n <= |run.actions| && n <= |run.results|
  {
    multiset(OwnerEvents(run, x, n)) + ExecutorEvents(run, x, n)
  }

  /** Events accepted in steps i to j. */
  ghost function AcceptedBetween(run: Run, x: string, i: nat, j: nat): multiset<Summary>
    requires i <= j <= |run.actions| && j <= |run.results|
    decreases j
  {
    if i == j then multiset{}
    else AcceptedBetween(run, x, i, j - 1)
         + multiset(ByOwner(run.actions[j - 1], run.results[j - 1], x))
         + multiset(ByExecutor(run.actions[j - 1], run.results[j - 1], x))
  }

  lemma {:induction false} AcceptedSplits(run: Run, x: string, i: nat, j: nat)
    requires i <= j <= |run.actions| && j <= |run.results|
    ensures Accepted(run, x, j) == Accepted(run, x, i) + AcceptedBetween(run, x, i, j)
    decreases j
  {
    if i < j {
      AcceptedSplits(run, x, i, j - 1);
      Regroup(OwnerEvents(run, x, j - 1), ExecutorEvents(run, x, j - 1), Accepted(run, x, i),
              AcceptedBetween(run, x, i, j - 1),
              ByOwner(run.actions[j - 1], run.results[j - 1], x), multiset(ByExecutor(run.actions[j - 1],
                                                                                      run.results[j - 1], x)));
    }
  }

  lemma Regroup(a: seq<Summary>, b: multiset<Summary>, p: multiset<Summary>, q: multiset<Summary>, c: seq<Summary>,
                d: multiset<Summary>)
    requires multiset(a) + b == p + q
    ensures multiset(a + c) + (b + d) == p + (q + multiset(c) + d)
  {
    assert multiset(a + c) == multiset(a) + multiset(c);
    assert multiset(a + c) + (b + d) == (multiset(a) + b) + multiset(c) + d;
  }

  /** An End call that loaded at step i and completes at step j: what it worked on is exactly what had
      been accepted before step i, and what was accepted in between is missing. */
  lemma EndMissesExactlyLaterEvents(cfg: Config, run: Run, i: nat, j: nat, x: string)
    requires ValidConfig(cfg) && ValidRun(cfg, run) && i < j < |run.actions|
    requires run.actions[i].EndRead? && Succeeds(run, i) && run.actions[j].EndWrite?
    requires ParseOwner(run.actions[i].handle).Some? && ParseOwner(run.actions[i].handle).value.opaqueID == x
    requires run.actions[j].agent == run.actions[i].agent
    requires var agent := run.actions[i].agent;
             && agent in run.states[i + 1].ending && agent in run.states[j].ending
             && run.states[j].ending[agent] == run.states[i + 1].ending[agent]
    ensures var read := run.states[j].ending[run.actions[j].agent].record.events;
            && multiset(read) == Accepted(run, x, i)
            && Accepted(run, x, j) == multiset(read) + AcceptedBetween(run, x, i, j)
  {
    assert StepAt(cfg, run, i);
    EndReadStores(cfg, run.states[i], run.actions[i]);
    LoadedByOwner(cfg, run.states[i], run.actions[i].handle, run.actions[i].now);
    EndReadsEveryAcceptedEvent(cfg, run, i, run.actions[i].handle, x, run.actions[i].now);
    var read := LoadTaskForEnd(cfg, run.states[i].files, run.actions[i].handle, run.actions[i].now).value.events;
    var owner := OwnerEvents(run, x, i);
    assert read == owner + read[|owner|..];
    AcceptedSplits(run, x, i, j);
  }

  lemma EndReadStores(cfg: Config, s: System, a: Action)
    requires a.EndRead? && Apply(cfg, s, a).ok
    ensures LoadTaskForEnd(cfg, s.files, a.handle, a.now).Ok?
    ensures Apply(cfg, s, a).state.ending
         == s.ending[a.agent := PendingEnd(a.handle, LoadTaskForEnd(cfg, s.files, a.handle, a.now).value)]
  {
  }
}
