/** internal/process: attributing processes of one snapshot to a task, by ranked seeds and then
    by a fixpoint over the parent relation. */
module ProcessObserver {
  import opened Text
  import opened Contract
  import opened Sorting

  type Identity = ProcessIdentity
  type Port = PortIdentity

  datatype Metadata = Metadata(identity: Identity, parentPID: int, workingDir: string)
  datatype Attribution = ByReceipt | ByEvent | ByWorkingDirectory | ByOpenPath | ByDescent
  datatype Evidence = Evidence(identity: Identity, parentPID: int, reason: Attribution, ports: seq<Port>)
  datatype Limitation = Limitation(operation: string, detail: string)
  datatype Hints = Hints(receiptProcesses: seq<Identity>, eventProcesses: seq<Identity>, candidatePaths: seq<string>)

  /** What the native adapter and the file system answer during one call. */
  datatype Native = Native(
    snapshot: Result<seq<Metadata>, string>,
    withinRoot: string -> bool,
    holdsAnyPath: Identity -> Result<bool, string>,
    listeningPorts: Identity -> Result<seq<Port>, string>)

  // ---- Specification ----

  /** byPID: of several entries with one PID the last would win. */
  function ByPID(processes: seq<Metadata>): map<int, Metadata> {
    if processes == [] then map[]
    else
      var last := processes[|processes| - 1];
      ByPID(processes[..|processes| - 1])[last.identity.pid := last]
  }

  ghost predicate UniquePIDs(processes: seq<Metadata>) {
    forall i, j :: 0 <= i < j < |processes| ==> processes[i].identity.pid != processes[j].identity.pid
  }

  /** The seed reason of a PID, the highest that applies in the order receipt, event, working directory,
      open path. Hints name the process that the table holds for the PID; working directories count for
      the entries in `dirs` and open paths for those in `opens`. */
  ghost function SeedFrom(hints: Hints, native: Native, procs: map<int, Metadata>, dirs: seq<Metadata>,
                          opens: seq<Metadata>, pid: int): Option<Attribution> {
    if pid in procs && procs[pid].identity in hints.receiptProcesses then Some(ByReceipt)
    else if pid in procs && procs[pid].identity in hints.eventProcesses then Some(ByEvent)
    else if exists m :: m in dirs && WorksInside(native, m, pid) then Some(ByWorkingDirectory)
    else if exists m :: m in opens && HoldsPath(hints, native, m, pid) then Some(ByOpenPath)
    else None
  }

  ghost predicate WorksInside(native: Native, m: Metadata, pid: int) {
    m.identity.pid == pid && native.withinRoot(m.workingDir)
  }

  ghost predicate HoldsPath(hints: Hints, native: Native, m: Metadata, pid: int) {
    m.identity.pid == pid && hints.candidatePaths != [] && native.holdsAnyPath(m.identity) == Ok(true)
  }

  ghost function Seed(hints: Hints, native: Native, processes: seq<Metadata>, pid: int): Option<Attribution> {
    SeedFrom(hints, native, ByPID(processes), processes, processes, pid)
  }

  /** A parent chain of `n` steps inside the snapshot that ends at a seed. */
  ghost predicate Descends(processes: seq<Metadata>, hints: Hints, native: Native, pid: int, n: nat)
    decreases n
  {
    if n == 0 then Seed(hints, native, processes, pid).Some?
    else exists m :: m in processes && m.identity.pid == pid && Descends(processes, hints, native, m.parentPID, n - 1)
  }

  ghost predicate Attributable(processes: seq<Metadata>, hints: Hints, native: Native, pid: int) {
    exists n: nat :: Descends(processes, hints, native, pid, n)
  }

  ghost function ReasonOf(processes: seq<Metadata>, hints: Hints, native: Native, pid: int): Attribution {
    match Seed(hints, native, processes, pid) case Some(reason) => reason case None => ByDescent
  }

  /** The attribution of a snapshot: exactly the PIDs with a chain to a seed, each with its highest
      reason. Apart from the table of PIDs nothing here depends on the order of the snapshot. */
  ghost predicate Attributed(attributed: map<int, Attribution>, processes: seq<Metadata>, hints: Hints,
                             native: Native) {
    && (forall pid :: pid in attributed <==> Attributable(processes, hints, native, pid))
    && (forall pid :: pid in attributed ==> attributed[pid] == ReasonOf(processes, hints, native, pid))
    && attributed.Keys <= ByPID(processes).Keys
  }

  // ---- The snapshot as a map ----

  ghost predicate Keyed(procs: map<int, Metadata>) {
    forall pid :: pid in procs ==> procs[pid].identity.pid == pid
  }

  lemma {:induction false} ByPIDHolds(processes: seq<Metadata>)
    ensures Keyed(ByPID(processes))
    ensures forall pid :: pid in ByPID(processes) ==> ByPID(processes)[pid] in processes
    ensures forall m :: m in processes ==> m.identity.pid in ByPID(processes)
  {
    if processes != [] {
      var n := |processes| - 1;
      ByPIDHolds(processes[..n]);
      assert processes == processes[..n] + [processes[n]];
    }
  }

  lemma {:induction false} ByPIDOfUnique(processes: seq<Metadata>)
    requires UniquePIDs(processes)
    ensures forall m :: m in processes ==> m.identity.pid in ByPID(processes) && ByPID(processes)[m.identity.pid] == m
  {
    if processes != [] {
      var n := |processes| - 1;
      ByPIDOfUnique(processes[..n]);
      forall m | m in processes ensures m.identity.pid in ByPID(processes) && ByPID(processes)[m.identity.pid] == m {
        if m != processes[n] {
          var i :| 0 <= i < |processes| && processes[i] == m;
          assert m in processes[..n];
        }
      }
    }
  }

  /** Permuting a snapshot with unique PIDs does not change it as a map. */
  lemma ByPIDOfPermutation(a: seq<Metadata>, b: seq<Metadata>)
    requires UniquePIDs(a) && UniquePIDs(b) && multiset(a) == multiset(b)
    ensures ByPID(a) == ByPID(b)
  {
    SameMembers(a, b);
    ByPIDHolds(a);
    ByPIDHolds(b);
    ByPIDOfUnique(a);
    ByPIDOfUnique(b);
    forall pid ensures pid in ByPID(a) <==> pid in ByPID(b) {
      if pid in ByPID(a) { assert ByPID(a)[pid] in b; }
      if pid in ByPID(b) { assert ByPID(b)[pid] in a; }
    }
    forall pid | pid in ByPID(a) ensures ByPID(a)[pid] == ByPID(b)[pid] {
      assert ByPID(a)[pid] in b;
    }
  }

  // ---- The seed phases ----

  /** `target` holds exactly the seeds found so far. */
  ghost predicate Seeded(target: map<int, Attribution>, hints: Hints, native: Native, procs: map<int, Metadata>,
                         dirs: seq<Metadata>, opens: seq<Metadata>) {
    forall pid ::
      && (pid in target <==> SeedFrom(hints, native, procs, dirs, opens, pid).Some?)
      && (pid in target ==> Some(target[pid]) == SeedFrom(hints, native, procs, dirs, opens, pid))
  }

  /** bindStableHints: a hint binds the process that the table holds for its PID, if that is the very same
      process and has no reason yet. */
  method BindStableHints(target: map<int, Attribution>, procs: map<int, Metadata>, identities: seq<Identity>,
                         reason: Attribution)
    returns (bound: map<int, Attribution>)
    requires Keyed(procs)
    ensures forall pid :: pid in bound <==> pid in target || (pid in procs && procs[pid].identity in identities)
    ensures forall pid :: pid in bound ==> bound[pid] == if pid in target then target[pid] else reason
  {
    bound := target;
    for n := 0 to |identities|
      invariant forall pid ::
                  pid in bound <==> pid in target || (pid in procs && procs[pid].identity in identities[..n])
      invariant forall pid :: pid in bound ==> bound[pid] == if pid in target then target[pid] else reason
    {
      var hint := identities[n];
      assert identities[..n + 1] == identities[..n] + [hint];
      if hint.pid !in procs || procs[hint.pid].identity != hint {
        continue;
      }
      if hint.pid !in bound {
        bound := bound[hint.pid := reason];
      }
    }
    assert identities[..|identities|] == identities;
  }

  lemma DirectorySeed(hints: Hints, native: Native, procs: map<int, Metadata>, dirs: seq<Metadata>, m: Metadata,
                      pid: int)
    ensures SeedFrom(hints, native, procs, dirs + [m], [], pid)
         == if SeedFrom(hints, native, procs, dirs, [], pid).None? && WorksInside(native, m, pid)
            then Some(ByWorkingDirectory)
            else SeedFrom(hints, native, procs, dirs, [], pid)
  {
    assert forall d :: d in dirs + [m] <==> d in dirs || d == m;
  }

  lemma OpenSeed(hints: Hints, native: Native, procs: map<int, Metadata>, dirs: seq<Metadata>, opens: seq<Metadata>,
                 m: Metadata, pid: int)
    ensures SeedFrom(hints, native, procs, dirs, opens + [m], pid)
         == if SeedFrom(hints, native, procs, dirs, opens, pid).None? && HoldsPath(hints, native, m, pid)
            then Some(ByOpenPath)
            else SeedFrom(hints, native, procs, dirs, opens, pid)
  {
    assert forall d :: d in opens + [m] <==> d in opens || d == m;
  }

  /** One entry of the snapshot in the working directory loop. */
  method SeedOneDirectory(start: map<int, Attribution>, metadata: Metadata, ghost hints: Hints, native: Native,
                          ghost procs: map<int, Metadata>, ghost dirs: seq<Metadata>)
    returns (target: map<int, Attribution>)
    requires Seeded(start, hints, native, procs, dirs, [])
    ensures Seeded(target, hints, native, procs, dirs + [metadata], [])
  {
    target := start;
    if native.withinRoot(metadata.workingDir) {
      if metadata.identity.pid !in target {
        target := target[metadata.identity.pid := ByWorkingDirectory];
      }
    }
    forall pid ensures SeedFrom(hints, native, procs, dirs + [metadata], [], pid)
                    == if pid in target then Some(target[pid]) else None
    {
      DirectorySeed(hints, native, procs, dirs, metadata, pid);
    }
  }

  method SeedWorkingDirectories(start: map<int, Attribution>, processes: seq<Metadata>, ghost hints: Hints,
                                native: Native)
    returns (target: map<int, Attribution>)
    requires Seeded(start, hints, native, ByPID(processes), [], [])
    ensures Seeded(target, hints, native, ByPID(processes), processes, [])
  {
    target := start;
    ghost var procs := ByPID(processes);
    for n := 0 to |processes|
      invariant Seeded(target, hints, native, procs, processes[..n], [])
    {
      target := SeedOneDirectory(target, processes[n], hints, native, procs, processes[..n]);
      assert processes[..n + 1] == processes[..n] + [processes[n]];
    }
    assert processes[..|processes|] == processes;
  }

  /** One entry of the snapshot in the open path loop. */
  method SeedOneOpenPath(start: map<int, Attribution>, metadata: Metadata, hints: Hints, native: Native,
                         ghost procs: map<int, Metadata>, ghost dirs: seq<Metadata>, ghost opens: seq<Metadata>)
    returns (target: map<int, Attribution>, failure: Option<string>)
    requires Seeded(start, hints, native, procs, dirs, opens) && hints.candidatePaths != []
    ensures Seeded(target, hints, native, procs, dirs, opens + [metadata])
    ensures failure.Some? <==> SeedFrom(hints, native, procs, dirs, opens, metadata.identity.pid).None?
                               && native.holdsAnyPath(metadata.identity).Err?
    ensures failure.Some? ==> native.holdsAnyPath(metadata.identity) == Err(failure.value)
  {
    target, failure := start, None;
    if metadata.identity.pid !in target {
      var holds := native.holdsAnyPath(metadata.identity);
      if holds.Err? {
        failure := Some(holds.error);
      } else if holds.value {
        target := target[metadata.identity.pid := ByOpenPath];
      }
    }
    forall pid ensures SeedFrom(hints, native, procs, dirs, opens + [metadata], pid)
                    == if pid in target then Some(target[pid]) else None
    {
      OpenSeed(hints, native, procs, dirs, opens, metadata, pid);
    }
  }

  lemma NoPathsNoOpens(target: map<int, Attribution>, hints: Hints, native: Native, procs: map<int, Metadata>,
                       dirs: seq<Metadata>, opens: seq<Metadata>)
    requires Seeded(target, hints, native, procs, dirs, []) && hints.candidatePaths == []
    ensures Seeded(target, hints, native, procs, dirs, opens)
  {
    forall pid
      ensures SeedFrom(hints, native, procs, dirs, opens, pid) == SeedFrom(hints, native, procs, dirs, [], pid)
    {
    }
  }

  method SeedOpenPaths(start: map<int, Attribution>, processes: seq<Metadata>, hints: Hints, native: Native)
    returns (target: map<int, Attribution>, limitations: seq<Limitation>)
    requires Seeded(start, hints, native, ByPID(processes), processes, [])
    ensures Seeded(target, hints, native, ByPID(processes), processes, processes)
    ensures limitations != [] <==> PathQueryFailed(processes, hints, native, |processes|)
    ensures NamesPathFailures(limitations, processes, hints, native, |processes|)
  {
    target, limitations := start, [];
    ghost var procs := ByPID(processes);
    if |hints.candidatePaths| > 0 {
      for n := 0 to |processes|
        invariant Seeded(target, hints, native, procs, processes, processes[..n])
        invariant limitations != [] <==> PathQueryFailed(processes, hints, native, n)
        invariant NamesPathFailures(limitations, processes, hints, native, n)
      {
        ghost var before := limitations;
        var failure;
        target, failure := SeedOneOpenPath(target, processes[n], hints, native, procs, processes, processes[..n]);
        if failure.Some? {
          limitations := AppendLimitationOnce(limitations, Limitation("open_path_attribution", failure.value));
        }
        PathQueryNext(processes, hints, native, n);
        PathFailureNext(before, limitations, processes, hints, native, n);
        assert processes[..n + 1] == processes[..n] + [processes[n]];
      }
      assert processes[..|processes|] == processes;
    } else {
      NoPathsNoOpens(target, hints, native, procs, processes, processes);
    }
  }

  /** The open paths of entry k are queried, because its PID has no reason yet, and the query fails. */
  ghost predicate QueryFailsAt(processes: seq<Metadata>, hints: Hints, native: Native, k: nat)
    requires k < |processes|
  {
    && hints.candidatePaths != [] && native.holdsAnyPath(processes[k].identity).Err?
    && SeedFrom(hints, native, ByPID(processes), processes, processes[..k], processes[k].identity.pid).None?
  }

  ghost predicate PathQueryFailed(processes: seq<Metadata>, hints: Hints, native: Native, n: nat)
    requires n <= |processes|
  {
    exists k :: 0 <= k < n && QueryFailsAt(processes, hints, native, k)
  }

  ghost predicate FailsWith(processes: seq<Metadata>, hints: Hints, native: Native, k: nat, l: Limitation)
    requires k < |processes|
  {
    && QueryFailsAt(processes, hints, native, k) && l.operation == "open_path_attribution"
    && native.holdsAnyPath(processes[k].identity) == Err(l.detail)
  }

  /** One limitation for each message with which such a query failed, and no other. */
  ghost predicate NamesPathFailures(limitations: seq<Limitation>, processes: seq<Metadata>, hints: Hints,
                                    native: Native, n: nat)
    requires n <= |processes|
  {
    && (forall l :: l in limitations <==> exists k :: 0 <= k < n && FailsWith(processes, hints, native, k, l))
    && forall i, j :: 0 <= i < j < |limitations| ==> limitations[i] != limitations[j]
  }

  lemma PathFailureNext(before: seq<Limitation>, after: seq<Limitation>, processes: seq<Metadata>, hints: Hints,
                        native: Native, n: nat)
    requires n < |processes| && NamesPathFailures(before, processes, hints, native, n)
    requires if QueryFailsAt(processes, hints, native, n)
             then after == AppendLimitationOnce(before, Limitation("open_path_attribution",
                                                                   native.holdsAnyPath(processes[n].identity).error))
             else after == before
    ensures NamesPathFailures(after, processes, hints, native, n + 1)
  {
    forall l ensures l in after <==> exists k :: 0 <= k < n + 1 && FailsWith(processes, hints, native, k, l) {
      assert l in after <==> l in before || FailsWith(processes, hints, native, n, l);
    }
  }

  lemma PathQueryNext(processes: seq<Metadata>, hints: Hints, native: Native, n: nat)
    requires n < |processes|
    ensures PathQueryFailed(processes, hints, native, n + 1)
            <==> PathQueryFailed(processes, hints, native, n) || QueryFailsAt(processes, hints, native, n)
  {
  }

  function AppendLimitationOnce(values: seq<Limitation>, value: Limitation): seq<Limitation> {
    if value in values then values else values + [value]
  }

  // ---- The fixpoint over parents ----

  /** Everything attributed has a chain to a seed, and every seed is attributed. */
  ghost predicate Sound(attributed: map<int, Attribution>, processes: seq<Metadata>, hints: Hints, native: Native) {
    && attributed.Keys <= ByPID(processes).Keys
    && (forall pid :: pid in attributed ==>
          Attributable(processes, hints, native, pid) && attributed[pid] == ReasonOf(processes, hints, native, pid))
    && (forall pid :: Seed(hints, native, processes, pid).Some? ==> pid in attributed)
  }

  ghost predicate ClosedFor(attributed: map<int, Attribution>, processes: seq<Metadata>) {
    forall m :: m in processes ==> m.identity.pid in attributed || m.parentPID !in attributed
  }

  lemma SeedsAreSound(target: map<int, Attribution>, processes: seq<Metadata>, hints: Hints, native: Native)
    requires Seeded(target, hints, native, ByPID(processes), processes, processes)
    ensures Sound(target, processes, hints, native)
  {
    forall pid | pid in target
      ensures Attributable(processes, hints, native, pid) && target[pid] == ReasonOf(processes, hints, native, pid)
    {
      assert Descends(processes, hints, native, pid, 0);
    }
    forall pid | pid in target.Keys ensures pid in ByPID(processes).Keys {
      SeedIsListed(hints, native, processes, pid);
    }
  }

  lemma SeedIsListed(hints: Hints, native: Native, processes: seq<Metadata>, pid: int)
    requires Seed(hints, native, processes, pid).Some?
    ensures pid in ByPID(processes)
  {
    ByPIDHolds(processes);
    if m :| m in processes && WorksInside(native, m, pid) {
      assert m.identity.pid == pid;
    } else if m :| m in processes && HoldsPath(hints, native, m, pid) {
      assert m.identity.pid == pid;
    }
  }

  lemma ChildIsAttributable(attributed: map<int, Attribution>, processes: seq<Metadata>, hints: Hints, native: Native,
                            m: Metadata)
    requires Sound(attributed, processes, hints, native)
    requires m in processes && m.identity.pid !in attributed && m.parentPID in attributed
    ensures Sound(attributed[m.identity.pid := ByDescent], processes, hints, native)
    ensures m.identity.pid in ByPID(processes)
  {
    ByPIDHolds(processes);
    var n: nat :| Descends(processes, hints, native, m.parentPID, n);
    assert Descends(processes, hints, native, m.identity.pid, n + 1);
  }

  lemma {:induction false} ClosedIsComplete(attributed: map<int, Attribution>, processes: seq<Metadata>, hints: Hints,
                                            native: Native, pid: int, n: nat)
    requires Sound(attributed, processes, hints, native) && ClosedFor(attributed, processes)
    requires Descends(processes, hints, native, pid, n)
    ensures pid in attributed
    decreases n
  {
    if n > 0 {
      var m :| m in processes && m.identity.pid == pid && Descends(processes, hints, native, m.parentPID, n - 1);
      ClosedIsComplete(attributed, processes, hints, native, m.parentPID, n - 1);
    }
  }

  /** One round: attribute children of attributed parents, in snapshot order. */
  method DescendRound(start: map<int, Attribution>, processes: seq<Metadata>, ghost hints: Hints, ghost native: Native)
    returns (attributed: map<int, Attribution>, changed: bool)
    requires Sound(start, processes, hints, native)
    ensures Sound(attributed, processes, hints, native)
    ensures start.Keys <= attributed.Keys <= ByPID(processes).Keys
    ensures changed ==> start.Keys < attributed.Keys
    ensures !changed ==> attributed == start && ClosedFor(attributed, processes)
  {
    attributed, changed := start, false;
    for n := 0 to |processes|
      invariant Sound(attributed, processes, hints, native)
      invariant start.Keys <= attributed.Keys <= ByPID(processes).Keys
      invariant changed ==> start.Keys < attributed.Keys
      invariant !changed ==> attributed == start && ClosedFor(attributed, processes[..n])
    {
      var metadata := processes[n];
      assert processes[..n + 1] == processes[..n] + [metadata];
      assert metadata in processes;
      if metadata.identity.pid in attributed {
        continue;
      }
      if metadata.parentPID in attributed {
        ChildIsAttributable(attributed, processes, hints, native, metadata);
        attributed := attributed[metadata.identity.pid := ByDescent];
        changed := true;
      }
    }
    assert processes[..|processes|] == processes;
  }

  lemma ClosedIsAttributed(attributed: map<int, Attribution>, processes: seq<Metadata>, hints: Hints, native: Native)
    requires Sound(attributed, processes, hints, native) && ClosedFor(attributed, processes)
    ensures Attributed(attributed, processes, hints, native)
  {
    forall pid ensures pid in attributed <==> Attributable(processes, hints, native, pid) {
      if Attributable(processes, hints, native, pid) {
        var n: nat :| Descends(processes, hints, native, pid, n);
        ClosedIsComplete(attributed, processes, hints, native, pid, n);
      }
    }
  }

  /** The hint phases of Resolve. */
  method BindHints(processes: seq<Metadata>, hints: Hints, ghost native: Native) returns (target: map<int, Attribution>)
    ensures Seeded(target, hints, native, ByPID(processes), [], [])
  {
    ByPIDHolds(processes);
    var byPID := ByPID(processes);
    target := BindStableHints(map[], byPID, hints.receiptProcesses, ByReceipt);
    target := BindStableHints(target, byPID, hints.eventProcesses, ByEvent);
  }

  /** The attribution part of Resolve. The unattributed processes shrink in every round that
      changes something, so the loop ends. */
  method Attribute(processes: seq<Metadata>, hints: Hints, native: Native)
    returns (attributed: map<int, Attribution>, limitations: seq<Limitation>)
    ensures Attributed(attributed, processes, hints, native)
    ensures limitations != [] <==> PathQueryFailed(processes, hints, native, |processes|)
    ensures NamesPathFailures(limitations, processes, hints, native, |processes|)
  {
    attributed := BindHints(processes, hints, native);
    attributed := SeedWorkingDirectories(attributed, processes, hints, native);
    attributed, limitations := SeedOpenPaths(attributed, processes, hints, native);
    SeedsAreSound(attributed, processes, hints, native);
    var changed := true;
    while changed
      invariant Sound(attributed, processes, hints, native)
      invariant !changed ==> ClosedFor(attributed, processes)
      decreases ByPID(processes).Keys - attributed.Keys, changed
    {
      attributed, changed := DescendRound(attributed, processes, hints, native);
    }
    ClosedIsAttributed(attributed, processes, hints, native);
  }

  // ---- Order ----

  lemma SeedOfSameSnapshot(a: seq<Metadata>, b: seq<Metadata>, hints: Hints, native: Native, pid: int)
    requires ByPID(a) == ByPID(b) && forall m :: m in a <==> m in b
    ensures Seed(hints, native, a, pid) == Seed(hints, native, b, pid)
  {
  }

  lemma {:induction false} DescendsInSameSnapshot(a: seq<Metadata>, b: seq<Metadata>, hints: Hints, native: Native,
                                                  pid: int, n: nat)
    requires ByPID(a) == ByPID(b) && (forall m :: m in a <==> m in b) && Descends(a, hints, native, pid, n)
    ensures Descends(b, hints, native, pid, n)
    decreases n
  {
    if n == 0 {
      SeedOfSameSnapshot(a, b, hints, native, pid);
    } else {
      var m :| m in a && m.identity.pid == pid && Descends(a, hints, native, m.parentPID, n - 1);
      DescendsInSameSnapshot(a, b, hints, native, m.parentPID, n - 1);
      assert m in b;
    }
  }

  /** Snapshots with the same entries and the same table of PIDs attribute alike. */
  lemma AttributionOfSameSnapshot(a: seq<Metadata>, b: seq<Metadata>, hints: Hints, native: Native,
                                  attributed: map<int, Attribution>)
    requires ByPID(a) == ByPID(b) && forall m :: m in a <==> m in b
    requires Attributed(attributed, a, hints, native)
    ensures Attributed(attributed, b, hints, native)
  {
    forall pid ensures Attributable(a, hints, native, pid) <==> Attributable(b, hints, native, pid) {
      if n: nat :| Descends(a, hints, native, pid, n) {
        DescendsInSameSnapshot(a, b, hints, native, pid, n);
      }
      if n: nat :| Descends(b, hints, native, pid, n) {
        DescendsInSameSnapshot(b, a, hints, native, pid, n);
      }
    }
    forall pid | pid in attributed ensures attributed[pid] == ReasonOf(b, hints, native, pid) {
      SeedOfSameSnapshot(a, b, hints, native, pid);
    }
  }
}
