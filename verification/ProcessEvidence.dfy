/** internal/process: evidence for attributed processes, and re-verification of known identities. */
module ProcessEvidence {
  import opened Text
  import opened Contract
  import opened Decimal
  import opened Sorting
  import opened ProcessObserver

  // ---- Orders ----

  predicate PortLe(a: Port, b: Port) {
    if a.protocol != b.protocol then LexLess(a.protocol, b.protocol)
    else if a.address != b.address then LexLess(a.address, b.address)
    else a.number <= b.number
  }

  predicate PidLe(a: Evidence, b: Evidence) {
    a.identity.pid <= b.identity.pid
  }

  lemma PortLePreorder()
    ensures TotalPreorder(PortLe)
  {
    forall a: Port, b: Port ensures PortLe(a, b) || PortLe(b, a) {
      LexLessTotal(a.protocol, b.protocol);
      LexLessTotal(a.address, b.address);
    }
    forall a: Port, b: Port, c: Port | PortLe(a, b) && PortLe(b, c) ensures PortLe(a, c) {
      PortLeTransitive(a, b, c);
    }
  }

  lemma PortLeTransitive(a: Port, b: Port, c: Port)
    requires PortLe(a, b) && PortLe(b, c)
    ensures PortLe(a, c)
  {
    if a.protocol != b.protocol && b.protocol != c.protocol {
      LexLessTransitive(a.protocol, b.protocol, c.protocol);
      LexLessTotal(a.protocol, c.protocol);
    } else if a.protocol == b.protocol == c.protocol && a.address != b.address && b.address != c.address {
      LexLessTransitive(a.address, b.address, c.address);
      LexLessTotal(a.address, c.address);
    }
  }

  lemma SortedPortsUnique(ports: seq<Port>, a: seq<Port>, b: seq<Port>)
    requires SortOf(ports, a, PortLe) && SortOf(ports, b, PortLe)
    ensures a == b
  {
    PortLePreorder();
    forall x, y | x in a && y in a && PortLe(x, y) && PortLe(y, x) ensures x == y {
      LexLessTotal(x.protocol, y.protocol);
      LexLessTotal(x.address, y.address);
    }
    SortUnique(a, b, PortLe);
  }

  // ---- Evidence ----

  /** The evidence of one attributed process: its identity, parent and reason, and the ports it
      listens on, sorted; no ports when they could not be listed. */
  ghost predicate IsEvidence(e: Evidence, procs: map<int, Metadata>, attributed: map<int, Attribution>,
                             native: Native) {
    var pid := e.identity.pid;
    && pid in attributed && pid in procs
    && e.identity == procs[pid].identity && e.parentPID == procs[pid].parentPID && e.reason == attributed[pid]
    && match native.listeningPorts(e.identity)
       case Ok(ports) => SortOf(ports, e.ports, PortLe)
       case Err(_) => e.ports == []
  }

  /** Ports are ordered by protocol, then by address, then by number. */
  lemma PortsAscend(ports: seq<Port>, sorted: seq<Port>, i: nat, j: nat)
    requires SortOf(ports, sorted, PortLe) && i < j < |sorted|
    ensures sorted[i] in ports && sorted[j] in ports
    ensures sorted[i].protocol != sorted[j].protocol ==> LexLess(sorted[i].protocol, sorted[j].protocol)
    ensures sorted[i].protocol == sorted[j].protocol && sorted[i].address != sorted[j].address ==>
              LexLess(sorted[i].address, sorted[j].address)
    ensures sorted[i].protocol == sorted[j].protocol && sorted[i].address == sorted[j].address ==>
              sorted[i].number <= sorted[j].number
  {
    SameMembers(ports, sorted);
    assert PortLe(sorted[i], sorted[j]);
  }

  /** One piece of evidence per attributed process, by ascending PID. */
  ghost predicate EvidenceList(evidence: seq<Evidence>, procs: map<int, Metadata>, attributed: map<int, Attribution>,
                               native: Native) {
    && (forall i, j :: 0 <= i < j < |evidence| ==> evidence[i].identity.pid < evidence[j].identity.pid)
    && (forall e :: e in evidence ==> IsEvidence(e, procs, attributed, native))
    && (forall pid :: pid in attributed ==> exists e :: e in evidence && e.identity.pid == pid)
  }

  /** What is said of a process whose ports could not be listed. */
  ghost predicate PortsFail(procs: map<int, Metadata>, native: Native, pid: int, l: Limitation) {
    pid in procs && native.listeningPorts(procs[pid].identity).Err?
    && l == Limitation("listening_ports",
                       "pid " + Itoa(pid) + ": " + native.listeningPorts(procs[pid].identity).error)
  }

  ghost predicate NamesPortFailures(limitations: seq<Limitation>, procs: map<int, Metadata>, native: Native,
                                    pids: set<int>) {
    forall l :: l in limitations <==> exists pid :: pid in pids && PortsFail(procs, native, pid, l)
  }

  method CollectEvidence(procs: map<int, Metadata>, attributed: map<int, Attribution>, native: Native)
    returns (evidence: seq<Evidence>, limitations: seq<Limitation>)
    requires Keyed(procs) && attributed.Keys <= procs.Keys
    ensures EvidenceList(evidence, procs, attributed, native)
    ensures limitations == [] <==> forall pid :: pid in attributed ==> native.listeningPorts(procs[pid].identity).Ok?
    ensures forall l :: l in limitations <==> exists pid :: pid in attributed && PortsFail(procs, native, pid, l)
  {
    var found: seq<Evidence> := [];
    limitations := [];
    var rest := attributed.Keys;
    PortLePreorder();
    while rest != {}
      invariant rest <= attributed.Keys
      invariant forall e :: e in found ==> IsEvidence(e, procs, attributed, native) && e.identity.pid !in rest
      invariant forall pid :: pid in attributed && pid !in rest ==> exists e :: e in found && e.identity.pid == pid
      invariant DistinctKeys(found, (e: Evidence) => e.identity.pid)
      invariant limitations == [] <==>
                forall pid :: pid in attributed && pid !in rest ==> native.listeningPorts(procs[pid].identity).Ok?
      invariant NamesPortFailures(limitations, procs, native, attributed.Keys - rest)
      decreases rest
    {
      var pid := PickAny(rest);
      var metadata := procs[pid];
      var ports := [];
      var listed := native.listeningPorts(metadata.identity);
      if listed.Err? {
        limitations := limitations + [Limitation("listening_ports", "pid " + Itoa(pid) + ": " + listed.error)];
      } else {
        ports := SortSlice(listed.value, PortLe);
      }
      var item := Evidence(metadata.identity, metadata.parentPID, attributed[pid], ports);
      assert IsEvidence(item, procs, attributed, native);
      AppendFound(found, item, attributed, rest, pid);
      assert attributed.Keys - (rest - {pid}) == attributed.Keys - rest + {pid};
      found, rest := found + [item], rest - {pid};
    }
    assert attributed.Keys - {} == attributed.Keys;
    evidence := SortSlice(found, PidLe);
    FoundIsList(found, evidence, procs, attributed, native);
  }

  /** Map iteration in Go visits the keys in any order. */
  method PickAny<T(==)>(s: set<T>) returns (x: T)
    requires s != {}
    ensures x in s
  {
    x :| x in s;
  }

  lemma AppendFound(found: seq<Evidence>, item: Evidence, attributed: map<int, Attribution>, rest: set<int>, pid: int)
    requires pid in rest && item.identity.pid == pid
    requires forall e :: e in found ==> e.identity.pid !in rest
    requires forall p :: p in attributed && p !in rest ==> exists e :: e in found && e.identity.pid == p
    requires DistinctKeys(found, (e: Evidence) => e.identity.pid)
    ensures DistinctKeys(found + [item], (e: Evidence) => e.identity.pid)
    ensures forall p :: p in attributed && p !in rest - {pid} ==> exists e :: e in found + [item] && e.identity.pid == p
  {
    forall p | p in attributed && p !in rest - {pid} ensures exists e :: e in found + [item] && e.identity.pid == p {
      if p == pid {
        assert item in found + [item];
      } else {
        var e :| e in found && e.identity.pid == p;
        assert e in found + [item];
      }
    }
  }

  lemma FoundIsList(found: seq<Evidence>, evidence: seq<Evidence>, procs: map<int, Metadata>,
                    attributed: map<int, Attribution>, native: Native)
    requires SortOf(found, evidence, PidLe) && DistinctKeys(found, (e: Evidence) => e.identity.pid)
    requires forall e :: e in found ==> IsEvidence(e, procs, attributed, native)
    requires forall pid :: pid in attributed ==> exists e :: e in found && e.identity.pid == pid
    ensures EvidenceList(evidence, procs, attributed, native)
  {
    SameMembers(found, evidence);
    DistinctKeysPermuted(found, evidence, (e: Evidence) => e.identity.pid);
    forall pid | pid in attributed ensures exists e :: e in evidence && e.identity.pid == pid {
      var e :| e in found && e.identity.pid == pid;
      assert e in evidence;
    }
  }

  /** Something could not be observed: open paths that were queried, or ports of an attributed process. */
  ghost predicate Incomplete(hints: Hints, native: Native, attributed: map<int, Attribution>)
    requires native.snapshot.Ok?
  {
    var processes := native.snapshot.value;
    || PathQueryFailed(processes, hints, native, |processes|)
    || exists pid :: pid in attributed && pid in ByPID(processes)
                     && native.listeningPorts(ByPID(processes)[pid].identity).Err?
  }

  /** The limitations are those of failed queries for open paths and of failed port queries. */
  ghost predicate NamesFailures(limitations: seq<Limitation>, hints: Hints, native: Native,
                                attributed: map<int, Attribution>)
    requires native.snapshot.Ok?
  {
    var processes := native.snapshot.value;
    forall l :: l in limitations <==>
                || (exists k :: 0 <= k < |processes| && FailsWith(processes, hints, native, k, l))
                || (exists pid :: pid in attributed && PortsFail(ByPID(processes), native, pid, l))
  }

  /** Resolve. A failed snapshot gives no evidence at all, and says so. */
  method Resolve(hints: Hints, native: Native)
    returns (evidence: seq<Evidence>, limitations: seq<Limitation>, ghost attributed: map<int, Attribution>)
    ensures native.snapshot.Err? ==> evidence == [] && limitations == [Limitation("process_snapshot",
                                                                                  native.snapshot.error)]
    ensures native.snapshot.Ok? ==>
              && Attributed(attributed, native.snapshot.value, hints, native)
              && EvidenceList(evidence, ByPID(native.snapshot.value), attributed, native)
              && (limitations != [] <==> Incomplete(hints, native, attributed))
              && NamesFailures(limitations, hints, native, attributed)
  {
    attributed := map[];
    if native.snapshot.Err? {
      return [], [Limitation("process_snapshot", native.snapshot.error)], map[];
    }
    var processes := native.snapshot.value;
    ByPIDHolds(processes);
    var found, openPath := Attribute(processes, hints, native);
    attributed := found;
    var ports;
    evidence, ports := CollectEvidence(ByPID(processes), found, native);
    limitations := openPath + ports;
  }

  lemma {:induction false} EvidenceUnique(a: seq<Evidence>, b: seq<Evidence>, procs: map<int, Metadata>,
                                          attributed: map<int, Attribution>, native: Native)
    requires EvidenceList(a, procs, attributed, native) && EvidenceList(b, procs, attributed, native)
    ensures a == b
  {
    forall e | e in a ensures e in b {
      var f :| f in b && f.identity.pid == e.identity.pid;
      SameEvidence(e, f, procs, attributed, native);
    }
    forall f | f in b ensures f in a {
      var e :| e in a && e.identity.pid == f.identity.pid;
      SameEvidence(e, f, procs, attributed, native);
    }
    IncreasingSame(a, b);
  }

  lemma SameEvidence(e: Evidence, f: Evidence, procs: map<int, Metadata>, attributed: map<int, Attribution>,
                     native: Native)
    requires IsEvidence(e, procs, attributed, native) && IsEvidence(f, procs, attributed, native)
    requires e.identity.pid == f.identity.pid
    ensures e == f
  {
    var listed := native.listeningPorts(e.identity);
    if listed.Ok? {
      SortedPortsUnique(listed.value, e.ports, f.ports);
    }
  }

  /** Strictly increasing sequences with the same members are equal. */
  lemma {:induction false} IncreasingSame(a: seq<Evidence>, b: seq<Evidence>)
    requires forall i, j :: 0 <= i < j < |a| ==> a[i].identity.pid < a[j].identity.pid
    requires forall i, j :: 0 <= i < j < |b| ==> b[i].identity.pid < b[j].identity.pid
    requires (forall e :: e in a ==> e in b) && (forall e :: e in b ==> e in a)
    ensures a == b
  {
    assert b != [] ==> b[0] in b;
    if a != [] {
      assert a[0] in b && b[0] in a;
      assert a[0] == b[0];
      forall e | e in a[1..] ensures e in b[1..] {
        assert e in b && e != b[0];
      }
      forall e | e in b[1..] ensures e in a[1..] {
        assert e in a && e != a[0];
      }
      IncreasingSame(a[1..], b[1..]);
    }
  }

  /** For a snapshot with unique PIDs the evidence does not depend on the order of the snapshot. */
  lemma EvidenceOrderIndependent(a: seq<Metadata>, b: seq<Metadata>, hints: Hints, native: Native,
                                 attributedA: map<int, Attribution>, attributedB: map<int, Attribution>,
                                 evidenceA: seq<Evidence>, evidenceB: seq<Evidence>)
    requires UniquePIDs(a) && UniquePIDs(b) && multiset(a) == multiset(b)
    requires Attributed(attributedA, a, hints, native) && Attributed(attributedB, b, hints, native)
    requires EvidenceList(evidenceA, ByPID(a), attributedA, native)
    requires EvidenceList(evidenceB, ByPID(b), attributedB, native)
    ensures attributedA == attributedB && evidenceA == evidenceB
  {
    ByPIDOfPermutation(a, b);
    SameMembers(a, b);
    AttributionOfSameSnapshot(b, a, hints, native, attributedB);
    AttributionUnique(attributedA, attributedB, a, hints, native);
    EvidenceUnique(evidenceA, evidenceB, ByPID(a), attributedA, native);
  }

  lemma AttributionUnique(a: map<int, Attribution>, b: map<int, Attribution>, processes: seq<Metadata>, hints: Hints,
                          native: Native)
    requires Attributed(a, processes, hints, native) && Attributed(b, processes, hints, native)
    ensures a == b
  {
    forall pid ensures pid in a <==> pid in b {
      assert pid in a <==> Attributable(processes, hints, native, pid);
    }
    assert a.Keys == b.Keys;
    forall pid | pid in a ensures a[pid] == b[pid] {
      assert pid in b;
    }
  }

  // ---- Re-verification ----

  /** Verify keeps exactly the asked identities that are alive with the same PID and creation time. */
  ghost predicate VerifiedExactly(verified: map<int, Evidence>, identities: seq<Identity>, native: Native) {
    && (native.snapshot.Err? ==> verified == map[])
    && (native.snapshot.Ok? ==>
          var procs := ByPID(native.snapshot.value);
          && (forall pid :: pid in verified <==> pid in procs && procs[pid].identity in identities)
          && (forall pid :: pid in verified ==>
                pid in procs && verified[pid].identity == procs[pid].identity
                && match native.listeningPorts(procs[pid].identity)
                   case Ok(ports) => multiset(verified[pid].ports) == multiset(ports)
                   case Err(_) => verified[pid].ports == []))
  }

  method Verify(identities: seq<Identity>, native: Native)
    returns (verified: map<int, Evidence>, limitations: seq<Limitation>)
    ensures VerifiedExactly(verified, identities, native)
    ensures native.snapshot.Err? ==> limitations != []
  {
    var hints := Hints([], identities, []);
    var evidence;
    ghost var attributed;
    evidence, limitations, attributed := Resolve(hints, native);
    verified := map[];
    for n := 0 to |evidence|
      invariant n == 0 ==> verified == map[]
      invariant forall pid :: pid in verified ==>
                  exists i :: 0 <= i < n && evidence[i] == verified[pid] && evidence[i].identity.pid == pid
                              && evidence[i].identity in identities
      invariant forall i :: 0 <= i < n && evidence[i].identity in identities ==> evidence[i].identity.pid in verified
    {
      var item := evidence[n];
      if item.identity in identities {
        verified := verified[item.identity.pid := item];
      }
    }
    if native.snapshot.Ok? {
      VerifyIsExact(verified, evidence, attributed, identities, native);
    }
  }

  lemma VerifyIsExact(verified: map<int, Evidence>, evidence: seq<Evidence>, attributed: map<int, Attribution>,
                      identities: seq<Identity>, native: Native)
    requires native.snapshot.Ok? && Attributed(attributed, native.snapshot.value, Hints([], identities, []), native)
    requires EvidenceList(evidence, ByPID(native.snapshot.value), attributed, native)
    requires forall pid :: pid in verified ==>
               exists i :: 0 <= i < |evidence| && evidence[i] == verified[pid] && evidence[i].identity.pid == pid
                           && evidence[i].identity in identities
    requires forall i :: 0 <= i < |evidence| && evidence[i].identity in identities ==>
               evidence[i].identity.pid in verified
    ensures VerifiedExactly(verified, identities, native)
  {
    var procs := ByPID(native.snapshot.value);
    var hints := Hints([], identities, []);
    ByPIDHolds(native.snapshot.value);
    forall pid | pid in verified ensures verified[pid] in evidence && verified[pid].identity.pid == pid {
      var i :| 0 <= i < |evidence| && evidence[i] == verified[pid] && evidence[i].identity.pid == pid
               && evidence[i].identity in identities;
    }
    forall pid ensures pid in verified <==> pid in procs && procs[pid].identity in identities {
      if pid in verified {
        assert IsEvidence(verified[pid], procs, attributed, native);
      }
      if pid in procs && procs[pid].identity in identities {
        assert Descends(native.snapshot.value, hints, native, pid, 0);
        assert Attributable(native.snapshot.value, hints, native, pid);
        var e :| e in evidence && e.identity.pid == pid;
        assert IsEvidence(e, procs, attributed, native);
        var i :| 0 <= i < |evidence| && evidence[i] == e;
      }
    }
    forall pid | pid in verified
      ensures pid in procs && verified[pid].identity == procs[pid].identity
      ensures match native.listeningPorts(procs[pid].identity)
              case Ok(ports) => multiset(verified[pid].ports) == multiset(ports)
              case Err(_) => verified[pid].ports == []
    {
      assert IsEvidence(verified[pid], procs, attributed, native);
    }
  }
}
