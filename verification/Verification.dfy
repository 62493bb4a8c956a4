/** internal/app: what Verify does to the candidates of a report between its read and its append. */
module Verification {
  import opened Text
  import opened Contract
  import opened Sorting
  import opened ProcessObserver
  import opened ProcessEvidence

  /** os.Lstat and objectIdentity on one exact path. */
  datatype Lstat = NotExist | Failed(message: string) | Found(identity: Result<string, string>, size: nat)

  /** fsobserve.VerifyCandidate. */
  function VerifyObject(lstat: string -> Lstat, c: Candidate): Result<CurrentStatus, string> {
    if c.path == "" || !(c.kind.FileKind? || c.kind.DirectoryKind?) then Err("candidate is not a filesystem object")
    else
      match lstat(c.path)
      case NotExist => Ok(NoLongerPresent)
      case Failed(message) => Err(message)
      case Found(identity, size) =>
        match identity
        case Err(message) => Err(message)
        case Ok(id) => Ok(if id != c.objectIdentity || size != c.sizeBytes then ChangedSinceReport else Present)
  }

  /** verifyPort. */
  function VerifyPort(c: Candidate, verified: map<int, Evidence>): CurrentStatus {
    if c.process.None? || c.port.None? then UnknownStatus
    else if c.process.value.pid !in verified then NoLongerPresent
    else if c.port.value in verified[c.process.value.pid].ports then ActiveReference
    else NoLongerPresent
  }

  /** What one call sees: the file system, and the processes found alive. */
  datatype Observation = Observation(lstat: string -> Lstat, verified: map<int, Evidence>, limitations: seq<string>)

  /** One step of the loop of Verify. */
  function VerifyOne(c: Candidate, targets: map<string, string>, seen: Observation): Candidate {
    match c.kind
    case ProcessKind =>
      c.(currentStatus := if c.process.None? then UnknownStatus
                          else if c.process.value.pid in seen.verified then ActiveReference
                          else NoLongerPresent)
    case PortKind => c.(currentStatus := VerifyPort(c, seen.verified))
    case _ =>
      if c.id !in targets then
        c.(currentStatus := UnknownStatus, limitations := c.limitations + ["exact candidate target is unavailable"])
      else
        match VerifyObject(seen.lstat, c.(path := targets[c.id]))
        case Ok(status) => c.(currentStatus := status)
        case Err(message) => c.(currentStatus := UnknownStatus, limitations := c.limitations + [message])
  }

  /** The loop: every candidate is re-checked in place. */
  method VerifyCandidates(candidates: seq<Candidate>, targets: map<string, string>, seen: Observation)
    returns (result: seq<Candidate>)
    ensures result == VerifyAll(candidates, targets, seen)
  {
    result := candidates;
    for index := 0 to |candidates|
      invariant |result| == |candidates|
      invariant forall i :: 0 <= i < index ==> result[i] == VerifyOne(candidates[i], targets, seen)
      invariant forall i :: index <= i < |candidates| ==> result[i] == candidates[i]
    {
      result := result[index := VerifyOne(result[index], targets, seen)];
    }
  }

  function VerifyAll(candidates: seq<Candidate>, targets: map<string, string>,
                     seen: Observation): (result: seq<Candidate>)
    ensures |result| == |candidates|
    ensures forall i :: 0 <= i < |candidates| ==> result[i] == VerifyOne(candidates[i], targets, seen)
  {
    seq(|candidates|, i requires 0 <= i < |candidates| => VerifyOne(candidates[i], targets, seen))
  }

  /** The same candidates in the same order: only status and limitations may differ, and
      limitations only grow. */
  ghost predicate SameCandidates(a: seq<Candidate>, b: seq<Candidate>) {
    |a| == |b| && forall i :: 0 <= i < |a| ==>
                                && b[i] == a[i].(currentStatus := b[i].currentStatus, limitations := b[i].limitations)
                                && a[i].limitations <= b[i].limitations
  }

  lemma SameCandidatesTransitive(a: seq<Candidate>, b: seq<Candidate>, c: seq<Candidate>)
    requires SameCandidates(a, b) && SameCandidates(b, c)
    ensures SameCandidates(a, c)
  {
  }

  /** Verification neither adds, drops, reorders nor rewrites candidates. */
  lemma VerifyKeepsCandidates(candidates: seq<Candidate>, targets: map<string, string>, seen: Observation)
    ensures SameCandidates(candidates, VerifyAll(candidates, targets, seen))
  {
    var result := VerifyAll(candidates, targets, seen);
    forall i | 0 <= i < |candidates|
      ensures result[i] == candidates[i].(currentStatus := result[i].currentStatus,
                                          limitations := result[i].limitations)
      ensures candidates[i].limitations <= result[i].limitations
    {
      assert result[i] == VerifyOne(candidates[i], targets, seen);
    }
  }

  // ---- Which identities are asked for ----

  ghost predicate Names(c: Candidate, id: Identity) {
    c.process == Some(id)
  }

  ghost predicate IdentitiesOf(candidates: seq<Candidate>, identities: seq<Identity>) {
    forall id :: id in identities <==> exists c :: c in candidates && Names(c, id)
  }

  /** uniqueProcessIdentities: each process that a candidate names, once. */
  method UniqueProcessIdentities(candidates: seq<Candidate>) returns (identities: seq<Identity>)
    ensures IdentitiesOf(candidates, identities)
    ensures forall i, j :: 0 <= i < j < |identities| ==> identities[i] != identities[j]
  {
    var seen: set<Identity> := {};
    identities := [];
    for n := 0 to |candidates|
      invariant forall id :: id in seen <==> id in identities
      invariant forall id :: id in identities <==> exists i :: 0 <= i < n && Names(candidates[i], id)
      invariant forall i, j :: 0 <= i < j < |identities| ==> identities[i] != identities[j]
    {
      var candidate := candidates[n];
      if candidate.process.None? {
        continue;
      }
      var id := candidate.process.value;
      assert Names(candidates[n], id);
      if id in seen {
        continue;
      }
      seen := seen + {id};
      identities := identities + [id];
    }
    forall id ensures id in identities <==> exists c :: c in candidates && Names(c, id) {
      if id in identities {
        var i :| 0 <= i < |candidates| && Names(candidates[i], id);
        assert candidates[i] in candidates;
      }
      if c :| c in candidates && Names(c, id) {
        var i :| 0 <= i < |candidates| && candidates[i] == c;
        assert Names(candidates[i], id);
      }
    }
  }

  // ---- What a status means ----

  /** This very process, PID and creation time, is in the snapshot. */
  ghost predicate Alive(id: Identity, native: Native) {
    native.snapshot.Ok? &&
    var procs := ByPID(native.snapshot.value);
    id.pid in procs && procs[id.pid].identity == id
  }

  /** The PID is now used by another process that some other candidate names. */
  ghost predicate NamedReuse(id: Identity, identities: seq<Identity>, native: Native) {
    native.snapshot.Ok? &&
    var procs := ByPID(native.snapshot.value);
    id.pid in procs && procs[id.pid].identity != id && procs[id.pid].identity in identities
  }

  /** The report's processes came from one snapshot: no PID appears with two creation times. */
  ghost predicate OneIdentityPerPID(identities: seq<Identity>) {
    forall a, b :: a in identities && b in identities && a.pid == b.pid ==> a == b
  }

  lemma NoNamedReuse(id: Identity, identities: seq<Identity>, native: Native)
    requires OneIdentityPerPID(identities) && id in identities
    ensures !NamedReuse(id, identities, native)
  {
    if native.snapshot.Ok? {
      ByPIDHolds(native.snapshot.value);
    }
  }

  /** What really runs and listens while a call observes the system. */
  datatype World = World(alive: Identity -> bool, listens: (Identity, Port) -> bool)

  /** Answers that the native adapter gives are true; a query that fails says nothing. */
  ghost predicate Truthful(native: Native, world: World) {
    && (native.snapshot.Ok? ==> forall id :: world.alive(id) <==> Alive(id, native))
    && (forall id, port :: native.listeningPorts(id).Ok? ==>
                             (world.listens(id, port) <==> port in native.listeningPorts(id).value))
  }

  /** With a successful snapshot a process reads ACTIVE_REFERENCE when it or a named successor is listed. */
  lemma ProcessStatusByTable(c: Candidate, id: Identity, identities: seq<Identity>, targets: map<string, string>,
                             seen: Observation, native: Native)
    requires c.kind.ProcessKind? && Names(c, id) && id in identities
    requires native.snapshot.Ok? && VerifiedExactly(seen.verified, identities, native)
    ensures VerifyOne(c, targets, seen).currentStatus
         == if Alive(id, native) || NamedReuse(id, identities, native) then ActiveReference else NoLongerPresent
  {
  }

  /** The status of a process candidate is right if and only if the snapshot succeeded and the PID has not
      been reused by a process that another candidate names, or it failed and the process is gone. */
  lemma ProcessStatusExactly(c: Candidate, id: Identity, identities: seq<Identity>, targets: map<string, string>,
                             seen: Observation, native: Native, world: World)
    requires c.kind.ProcessKind? && Names(c, id) && id in identities
    requires VerifiedExactly(seen.verified, identities, native) && Truthful(native, world)
    ensures var status := VerifyOne(c, targets, seen).currentStatus;
            && status in {ActiveReference, NoLongerPresent}
            && ((status == ActiveReference <==> world.alive(id))
                <==> if native.snapshot.Ok? then !NamedReuse(id, identities, native) else !world.alive(id))
  {
    if native.snapshot.Ok? {
      ProcessStatusByTable(c, id, identities, targets, seen, native);
    }
  }

  ghost predicate Lists(id: Identity, port: Port, native: Native) {
    native.listeningPorts(id).Ok? && port in native.listeningPorts(id).value
  }

  /** The PID is now used by another process that some other candidate names and that lists this port. */
  ghost predicate NamedReuseOfPort(id: Identity, port: Port, identities: seq<Identity>, native: Native) {
    NamedReuse(id, identities, native) && Lists(ByPID(native.snapshot.value)[id.pid].identity, port, native)
  }

  /** With a successful snapshot a port reads ACTIVE_REFERENCE when its process or a named successor is
      listed with it. */
  lemma PortStatusByTable(c: Candidate, id: Identity, port: Port, identities: seq<Identity>,
                          targets: map<string, string>, seen: Observation, native: Native)
    requires c.kind.PortKind? && Names(c, id) && c.port == Some(port) && id in identities
    requires native.snapshot.Ok? && VerifiedExactly(seen.verified, identities, native)
    ensures VerifyOne(c, targets, seen).currentStatus
         == if (Alive(id, native) && Lists(id, port, native)) || NamedReuseOfPort(id, port, identities, native)
            then ActiveReference else NoLongerPresent
  {
    if id.pid in seen.verified {
      var listed := native.listeningPorts(ByPID(native.snapshot.value)[id.pid].identity);
      if listed.Ok? {
        SameMembers(seen.verified[id.pid].ports, listed.value);
      }
    }
  }

  /** The status of a port candidate is right if and only if the snapshot succeeded, the PID has not been
      reused by a process that another candidate names and that lists the same port, and a port that is
      there could be queried; or the snapshot failed and the port is gone. */
  lemma PortStatusExactly(c: Candidate, id: Identity, port: Port, identities: seq<Identity>,
                          targets: map<string, string>, seen: Observation, native: Native, world: World)
    requires c.kind.PortKind? && Names(c, id) && c.port == Some(port) && id in identities
    requires VerifiedExactly(seen.verified, identities, native) && Truthful(native, world)
    ensures var status := VerifyOne(c, targets, seen).currentStatus;
            var there := world.alive(id) && world.listens(id, port);
            && status in {ActiveReference, NoLongerPresent}
            && ((status == ActiveReference <==> there)
                <==> if native.snapshot.Ok?
                     then !NamedReuseOfPort(id, port, identities, native) && (there ==> native.listeningPorts(id).Ok?)
                     else !there)
  {
    if native.snapshot.Ok? {
      PortStatusByTable(c, id, port, identities, targets, seen, native);
    }
  }

  /** A snapshot with one process whose ports cannot be queried. */
  ghost function Unqueried(id: Identity): Native {
    Native(Ok([Metadata(id, 1, "")]), (path: string) => false, (other: Identity) => Ok(false),
           (other: Identity) => Err("permission denied"))
  }

  /** A process is alive and listens, no PID was reused, the snapshot succeeded: because the port query
      failed, the port reads NO_LONGER_PRESENT. */
  lemma FailedPortQueryReadsAbsent(c: Candidate, id: Identity, port: Port, targets: map<string, string>,
                                   lstat: string -> Lstat)
    requires c.kind.PortKind? && Names(c, id) && c.port == Some(port)
    ensures var world := World((other: Identity) => other == id,
                               (other: Identity, p: Port) => other == id && p == port);
            var seen := Observation(lstat, map[id.pid := Evidence(id, 1, ByEvent, [])], []);
            && Truthful(Unqueried(id), world) && VerifiedExactly(seen.verified, [id], Unqueried(id))
            && world.alive(id) && world.listens(id, port) && !NamedReuse(id, [id], Unqueried(id))
            && VerifyOne(c, targets, seen).currentStatus == NoLongerPresent
  {
    var m := Metadata(id, 1, "");
    assert [m][..0] == [];
    assert ByPID([m]) == map[id.pid := m];
  }

  /** A snapshot in which PID 7 belongs to a newer process that listens on `port`. */
  ghost function Reusing(port: Port): Native {
    Native(Ok([Metadata(ProcessIdentity(7, 2), 1, "")]), (path: string) => false, (id: Identity) => Ok(false),
           (id: Identity) => Ok([port]))
  }

  /** A report that names both processes: the older one is gone, and still it and its port read
      ACTIVE_REFERENCE. */
  lemma ReusedPIDReadsActive(c: Candidate, port: Port, targets: map<string, string>, lstat: string -> Lstat)
    requires c.process == Some(ProcessIdentity(7, 1)) && c.port == Some(port)
    requires (c.kind.ProcessKind? || c.kind.PortKind?)
    ensures var identities := [ProcessIdentity(7, 1), ProcessIdentity(7, 2)];
            var world := World((id: Identity) => id == ProcessIdentity(7, 2), (id: Identity, p: Port) => p == port);
            var seen := Observation(lstat, map[7 := Evidence(ProcessIdentity(7, 2), 1, ByEvent, [port])], []);
            && Truthful(Reusing(port), world) && VerifiedExactly(seen.verified, identities, Reusing(port))
            && !world.alive(ProcessIdentity(7, 1)) && VerifyOne(c, targets, seen).currentStatus == ActiveReference
  {
    var m := Metadata(ProcessIdentity(7, 2), 1, "");
    assert [m][..0] == [];
    assert ByPID([m]) == map[7 := m];
  }

  /** A live process reads NO_LONGER_PRESENT because the snapshot failed. */
  lemma LiveProcessReadsAbsent(c: Candidate, id: Identity, native: Native, targets: map<string, string>,
                               lstat: string -> Lstat)
    requires c.kind.ProcessKind? && Names(c, id) && native.snapshot.Err?
    requires forall other :: native.listeningPorts(other).Err?
    ensures var world := World((other: Identity) => other == id, (other: Identity, p: Port) => false);
            var seen := Observation(lstat, map[], []);
            && Truthful(native, world) && VerifiedExactly(seen.verified, [id], native) && world.alive(id)
            && VerifyOne(c, targets, seen).currentStatus == NoLongerPresent
  {
  }

  /** A failed snapshot makes every process and port candidate of a report read NO_LONGER_PRESENT, while
      files and directories are judged as if it had succeeded. */
  lemma FailedSnapshotReadsAbsent(candidates: seq<Candidate>, identities: seq<Identity>, targets: map<string, string>,
                                  seen: Observation, other: Observation, native: Native)
    requires forall c :: c in candidates ==> ValidCandidate(c)
    requires native.snapshot.Err? && VerifiedExactly(seen.verified, identities, native) && other.lstat == seen.lstat
    ensures forall i :: 0 <= i < |candidates| ==>
              if candidates[i].kind.ProcessKind? || candidates[i].kind.PortKind?
              then VerifyAll(candidates, targets, seen)[i].currentStatus == NoLongerPresent
              else VerifyAll(candidates, targets, seen)[i] == VerifyAll(candidates, targets, other)[i]
  {
    forall i | 0 <= i < |candidates|
      ensures if candidates[i].kind.ProcessKind? || candidates[i].kind.PortKind?
              then VerifyAll(candidates, targets, seen)[i].currentStatus == NoLongerPresent
              else VerifyAll(candidates, targets, seen)[i] == VerifyAll(candidates, targets, other)[i]
    {
      assert candidates[i] in candidates;
      assert VerifyAll(candidates, targets, seen)[i] == VerifyOne(candidates[i], targets, seen);
      assert VerifyAll(candidates, targets, other)[i] == VerifyOne(candidates[i], targets, other);
    }
  }

  /** Whether the recorded target of a file or directory is still the reported object. */
  ghost predicate Intact(c: Candidate, targets: map<string, string>, lstat: string -> Lstat) {
    c.id in targets && targets[c.id] != "" && lstat(targets[c.id]) == Found(Ok(c.objectIdentity), c.sizeBytes)
  }

  ghost predicate Vanished(c: Candidate, targets: map<string, string>, lstat: string -> Lstat) {
    c.id in targets && targets[c.id] != "" && lstat(targets[c.id]).NotExist?
  }

  /** Something else is there: another object, or another size. */
  ghost predicate Replaced(c: Candidate, targets: map<string, string>, lstat: string -> Lstat) {
    c.id in targets && targets[c.id] != "" &&
    var there := lstat(targets[c.id]);
    there.Found? && there.identity.Ok? && (there.identity.value != c.objectIdentity || there.size != c.sizeBytes)
  }

  /** Verifying twice with nothing changed in between says the same, and of any two verifications of one
      file or directory, PRESENT is read exactly where the recorded target is still the reported object,
      NO_LONGER_PRESENT exactly where nothing is there, CHANGED_SINCE_REPORT exactly where something else is
      there, whatever the first one had read. */
  lemma ObjectStatusExactly(c: Candidate, targets: map<string, string>, first: Observation, second: Observation)
    requires c.kind.FileKind? || c.kind.DirectoryKind?
    ensures var again := VerifyOne(VerifyOne(c, targets, first), targets, second);
            && (again.currentStatus == Present <==> Intact(c, targets, second.lstat))
            && (again.currentStatus == NoLongerPresent <==> Vanished(c, targets, second.lstat))
            && (again.currentStatus == ChangedSinceReport <==> Replaced(c, targets, second.lstat))
            && again.currentStatus != ActiveReference
            && (again.currentStatus == UnknownStatus
                <==> |again.limitations| > |VerifyOne(c, targets, first).limitations|)
            && (first.lstat == second.lstat ==> again.currentStatus == VerifyOne(c, targets, first).currentStatus)
  {
  }
}
