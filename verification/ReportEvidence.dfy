/** internal/app: which evidence goes into a report, and what a later verification of that report can
    rely on. */
module ReportEvidence {
  import opened Text
  import opened Contract
  import opened Sorting
  import opened FsObserve
  import opened FsDiff
  import opened ProcessObserver
  import opened ProcessEvidence
  import opened Correlate
  import opened Reporting
  import opened Verification

  // ---- Processes that only the baseline knows ----

  predicate Explicit(hints: Hints, id: Identity) {
    id in hints.eventProcesses || id in hints.receiptProcesses
  }

  /** Named by an event or receipt, or not the process that had this PID at the baseline. */
  predicate Relevant(item: Evidence, baseline: map<int, Metadata>, hints: Hints) {
    || Explicit(hints, item.identity)
    || item.identity.pid !in baseline
    || baseline[item.identity.pid].identity.createdAt != item.identity.createdAt
  }

  ghost predicate ByAscendingPID(evidence: seq<Evidence>) {
    forall i, j :: 0 <= i < j < |evidence| ==> evidence[i].identity.pid < evidence[j].identity.pid
  }

  lemma AscendingGrows(evidence: seq<Evidence>, n: nat, result: seq<Evidence>)
    requires ByAscendingPID(evidence) && ByAscendingPID(result) && n < |evidence|
    requires forall e :: e in result ==> e in evidence[..n]
    ensures ByAscendingPID(result + [evidence[n]])
  {
    forall i | 0 <= i < |result| ensures result[i].identity.pid < evidence[n].identity.pid {
      assert result[i] in evidence[..n];
    }
  }

  /** excludeBaselineOnlyProcesses: the relevant items, in their order. */
  method ExcludeBaselineOnlyProcesses(evidence: seq<Evidence>, baseline: seq<Metadata>, hints: Hints)
    returns (result: seq<Evidence>)
    ensures forall e :: e in result <==> e in evidence && Relevant(e, ByPID(baseline), hints)
    ensures ByAscendingPID(evidence) ==> ByAscendingPID(result)
  {
    var identities := ByPID(baseline);
    var explicit := hints.eventProcesses + hints.receiptProcesses;
    result := [];
    for n := 0 to |evidence|
      invariant forall e :: e in result <==> e in evidence[..n] && Relevant(e, identities, hints)
      invariant ByAscendingPID(evidence) ==> ByAscendingPID(result)
    {
      var item := evidence[n];
      assert evidence[..n + 1] == evidence[..n] + [item];
      var keep := item.identity in explicit;
      if item.identity.pid !in identities
         || identities[item.identity.pid].identity.createdAt != item.identity.createdAt {
        keep := true;
      }
      if keep {
        if ByAscendingPID(evidence) {
          AscendingGrows(evidence, n, result);
        }
        result := result + [item];
      }
    }
    assert evidence[..|evidence|] == evidence;
  }

  /** Over a baseline with unique PIDs, exactly the processes that were already running then and that
      nothing names are left out; a process that reuses a PID stays. */
  lemma BaselineOnlyExactly(item: Evidence, baseline: seq<Metadata>, hints: Hints)
    requires UniquePIDs(baseline)
    ensures !Relevant(item, ByPID(baseline), hints) <==>
            !Explicit(hints, item.identity) && exists m :: m in baseline && m.identity == item.identity
  {
    ByPIDHolds(baseline);
    ByPIDOfUnique(baseline);
    var procs, pid := ByPID(baseline), item.identity.pid;
    if pid in procs && procs[pid].identity.createdAt == item.identity.createdAt {
      assert procs[pid] in baseline && procs[pid].identity == item.identity;
    }
  }

  // ---- One process per PID ----

  /** Every process in the input was seen in this snapshot. */
  ghost predicate SeenIn(processes: seq<Evidence>, native: Native) {
    forall e :: e in processes ==> Alive(e.identity, native)
  }

  lemma EvidenceSeen(evidence: seq<Evidence>, attributed: map<int, Attribution>, native: Native, kept: seq<Evidence>)
    requires native.snapshot.Ok? && EvidenceList(evidence, ByPID(native.snapshot.value), attributed, native)
    requires forall e :: e in kept ==> e in evidence
    ensures SeenIn(kept, native)
  {
    forall e | e in kept ensures Alive(e.identity, native) {
      assert IsEvidence(e, ByPID(native.snapshot.value), attributed, native);
    }
  }

  /** A process that a reported candidate names comes from the process evidence. */
  lemma ReportedProcess(ids: IDs, input: Input, tied: seq<Candidate>, result: seq<Candidate>, c: Candidate,
                        id: Identity)
    requires forall d :: d in input.candidates ==> d.process.None?
    requires ReportCandidates(ids, input, tied, result) && c in result && Names(c, id)
    ensures exists e :: e in input.processes && e.identity == id
  {
    SameMembers(tied, result);
    var from := AllCandidates(ids, input);
    var i :| 0 <= i < |tied| && tied[i] == c;
    assert Correlated(from[i], input.events, c);
    assert from[i].process == c.process;
    ProcessCandidateFacts(ids, input.processes);
    assert from[i] in AllProcessCandidates(ids, input.processes) by {
      assert from[i] in from;
    }
  }

  /** The same candidates in the same order as far as processes and ports go: path, level, status and
      limitations may differ. */
  ghost predicate SameSubjects(a: seq<Candidate>, b: seq<Candidate>) {
    |a| == |b| && forall i :: 0 <= i < |a| ==> SameSubject(a[i], b[i])
  }

  ghost predicate SameSubject(a: Candidate, b: Candidate) {
    a.kind == b.kind && a.process == b.process && a.port == b.port
  }

  /** A report built from one snapshot names at most one process per PID, and so does every later form
      of it. */
  lemma OneProcessPerPID(ids: IDs, input: Input, tied: seq<Candidate>, result: seq<Candidate>, later: seq<Candidate>,
                         identities: seq<Identity>, observed: Native)
    requires forall d :: d in input.candidates ==> d.process.None?
    requires SeenIn(input.processes, observed)
    requires ReportCandidates(ids, input, tied, result) && SameSubjects(result, later)
    requires IdentitiesOf(later, identities)
    ensures OneIdentityPerPID(identities)
  {
    forall id | id in identities ensures Alive(id, observed) {
      var c :| c in later && Names(c, id);
      var i :| 0 <= i < |later| && later[i] == c;
      assert SameSubject(result[i], later[i]);
      assert result[i] in result && Names(result[i], id);
      ReportedProcess(ids, input, tied, result, result[i], id);
    }
    forall a, b | a in identities && b in identities && a.pid == b.pid ensures a == b {
      assert Alive(a, observed) && Alive(b, observed);
    }
  }

  /** What verification says about process and port candidates, and exactly when it is right: a process
      status, unless the snapshot failed and the process is alive; a port status, unless the port is there
      and the snapshot or the query of its process failed. */
  ghost predicate StatusTellsTruth(c: Candidate, status: CurrentStatus, native: Native, world: World) {
    && (c.kind.ProcessKind? && c.process.Some? ==>
          var alive := world.alive(c.process.value);
          (status == ActiveReference <==> alive) <==> (alive ==> native.snapshot.Ok?))
    && (c.kind.PortKind? && c.process.Some? && c.port.Some? ==>
          var id := c.process.value;
          var there := world.alive(id) && world.listens(id, c.port.value);
          (status == ActiveReference <==> there)
          <==> (there ==> native.snapshot.Ok? && native.listeningPorts(id).Ok?))
  }

  /** From observation to verification: for a report whose processes came from one snapshot, and any
      revision of it, process and port statuses are right exactly as far as the later queries succeed; a
      reused PID never counts. */
  lemma VerifiedReportTellsTruth(ids: IDs, input: Input, tied: seq<Candidate>, result: seq<Candidate>,
                                 later: seq<Candidate>, identities: seq<Identity>, observed: Native, native: Native,
                                 world: World, targets: map<string, string>, seen: Observation)
    requires forall d :: d in input.candidates ==> d.process.None?
    requires SeenIn(input.processes, observed)
    requires ReportCandidates(ids, input, tied, result) && SameSubjects(result, later)
    requires IdentitiesOf(later, identities)
    requires VerifiedExactly(seen.verified, identities, native) && Truthful(native, world)
    ensures forall i :: 0 <= i < |later| ==>
              StatusTellsTruth(later[i], VerifyAll(later, targets, seen)[i].currentStatus, native, world)
  {
    OneProcessPerPID(ids, input, tied, result, later, identities, observed);
    forall i | 0 <= i < |later|
      ensures StatusTellsTruth(later[i], VerifyAll(later, targets, seen)[i].currentStatus, native, world)
    {
      var c := later[i];
      assert c in later;
      assert VerifyAll(later, targets, seen)[i] == VerifyOne(c, targets, seen);
      StatusOfNamed(c, later, identities, targets, seen, native, world);
    }
  }

  lemma StatusOfNamed(c: Candidate, later: seq<Candidate>, identities: seq<Identity>, targets: map<string, string>,
                      seen: Observation, native: Native, world: World)
    requires c in later && IdentitiesOf(later, identities) && OneIdentityPerPID(identities)
    requires VerifiedExactly(seen.verified, identities, native) && Truthful(native, world)
    ensures StatusTellsTruth(c, VerifyOne(c, targets, seen).currentStatus, native, world)
  {
    if c.process.Some? {
      var id := c.process.value;
      assert Names(c, id);
      NoNamedReuse(id, identities, native);
      if c.kind.ProcessKind? {
        ProcessStatusExactly(c, id, identities, targets, seen, native, world);
      } else if c.kind.PortKind? && c.port.Some? {
        PortStatusExactly(c, id, c.port.value, identities, targets, seen, native, world);
      }
    }
  }

  // ---- Retrospective candidates ----

  predicate InWindow(e: Entry, startedAt: Time, endedAt: Time) {
    startedAt <= e.modTime <= endedAt
  }

  const IN_WINDOW := "object modification time falls within the declared task window"

  function RetrospectiveCandidate(idOf: (string, string) -> string, e: Entry): Candidate {
    Candidate(idOf(e.identity, e.path), KindOf(e), e.path, e.identity, None, 0, None, e.size,
              Unattributed, Present, IN_WINDOW, "review", [], [], [], [])
  }

  predicate IdLe(a: Candidate, b: Candidate) { LexLe(a.id, b.id) }

  lemma IdLePreorder()
    ensures TotalPreorder(IdLe)
  {
    LexLeIsTotalOrder();
    forall a: Candidate, b: Candidate ensures IdLe(a, b) || IdLe(b, a) {
      assert LexLe(a.id, b.id) || LexLe(b.id, a.id);
    }
  }

  ghost function WindowKeys(entries: map<string, Entry>, startedAt: Time, endedAt: Time): set<string> {
    set key | key in entries && startedAt <= entries[key].modTime <= endedAt
  }

  /** A candidate that states an object of the window, and nothing else. */
  ghost predicate StatesObject(idOf: (string, string) -> string, e: Entry, c: Candidate) {
    && (if e.kind.DirectoryEntry? then c.kind.DirectoryKind? else c.kind.FileKind?)
    && c.id == idOf(e.identity, e.path) && c.path == e.path && c.objectIdentity == e.identity && c.sizeBytes == e.size
    && c.evidenceLevel.Unattributed? && c.currentStatus.Present? && c.recommendation == "review"
    && c.reason == "object modification time falls within the declared task window"
    && c.process.None? && c.port.None? && c.parentPID == 0
    && c.eventIDs == [] && c.receiptIDs == [] && c.limitations == [] && c.conflicts == []
  }

  /** One candidate per key, and nothing else. */
  ghost predicate CandidatesOf(idOf: (string, string) -> string, entries: map<string, Entry>, keys: set<string>,
                               candidates: seq<Candidate>) {
    && |candidates| == |keys|
    && forall c :: c in candidates <==> exists key :: key in keys && key in entries
                                                        && StatesObject(idOf, entries[key], c)
  }

  /** retrospectiveCandidates: exactly the objects modified within the window, by ID. */
  method RetrospectiveCandidates(idOf: (string, string) -> string, entries: map<string, Entry>, startedAt: Time,
                                 endedAt: Time)
    returns (candidates: seq<Candidate>)
    ensures CandidatesOf(idOf, entries, WindowKeys(entries, startedAt, endedAt), candidates)
    ensures Ordered(candidates, IdLe)
  {
    var found := CollectWindow(idOf, entries, startedAt, endedAt);
    IdLePreorder();
    candidates := SortSlice(found, IdLe);
    SameMembers(found, candidates);
  }

  method CollectWindow(idOf: (string, string) -> string, entries: map<string, Entry>, startedAt: Time, endedAt: Time)
    returns (candidates: seq<Candidate>)
    ensures CandidatesOf(idOf, entries, WindowKeys(entries, startedAt, endedAt), candidates)
  {
    candidates := [];
    var rest := entries.Keys;
    ghost var done: set<string> := {};
    while rest != {}
      invariant rest <= entries.Keys && done == WindowKeys(entries, startedAt, endedAt) - rest
      invariant CandidatesOf(idOf, entries, done, candidates)
      decreases rest
    {
      var key := PickAny(rest);
      assert forall c :: StatesObject(idOf, entries[key], c) <==> c == RetrospectiveCandidate(idOf, entries[key]);
      if InWindow(entries[key], startedAt, endedAt) {
        candidates := candidates + [RetrospectiveCandidate(idOf, entries[key])];
        done := done + {key};
      }
      rest := rest - {key};
    }
  }

  /** A retrospective report never claims a baseline and is always partial evidence, whatever the
      events and processes. */
  lemma RetrospectiveReport(idOf: (string, string) -> string, entries: map<string, Entry>, keys: set<string>,
                            ids: IDs, input: Input, tied: seq<Candidate>, result: seq<Candidate>)
    requires CandidatesOf(idOf, entries, keys, input.candidates) && input.limitations != []
    requires ReportCandidates(ids, input, tied, result)
    ensures StatusOf(|AllCandidates(ids, input)|, |AllLimitations(input)|) == PartialEvidence
    ensures forall c :: c in result ==> c.evidenceLevel != BaselineObserved
  {
    forall c | c in input.candidates ensures c.evidenceLevel == Unattributed {
      var key :| key in keys && key in entries && StatesObject(idOf, entries[key], c);
    }
    RetrospectiveNeverBaseline(ids, input, tied, result);
  }
}
