/** internal/correlate: BuildReport, and the retrospective report that internal/app makes with it. */
module Reporting {
  import opened Text
  import opened Contract
  import opened Decimal
  import opened Sorting
  import opened Correlate
  import opened Sums
  import PO = ProcessObserver

  // ---- Process and port candidates ----

  function ProcessLevel(reason: PO.Attribution): EvidenceLevel {
    match reason
    case ByReceipt => ReceiptBound
    case ByEvent => EventBound
    case _ => Inferred
  }

  function ReasonText(reason: PO.Attribution): string {
    match reason
    case ByReceipt => "receipt"
    case ByEvent => "event"
    case ByWorkingDirectory => "working_directory"
    case ByOpenPath => "open_candidate_path"
    case ByDescent => "descendant"
  }

  function IdentityText(ids: IDs, identity: ProcessIdentity): string {
    Itoa(identity.pid) + ":" + ids.timeText(identity.createdAt)
  }

  function PortCandidate(ids: IDs, e: PO.Evidence, port: PortIdentity): Candidate {
    Candidate(ids.port(e.identity, port), PortKind, "",
              IdentityText(ids, e.identity) + ":" + port.address + ":" + Itoa(port.number),
              Some(e.identity), 0, Some(port), 0, ProcessLevel(e.reason), ActiveReference,
              "listening port owned by attributed process", "review", [], [], [], [])
  }

  /** processCandidates: the process, then one candidate per listening port. */
  function ProcessCandidates(ids: IDs, e: PO.Evidence): seq<Candidate> {
    [Candidate(ids.process(e.identity), ProcessKind, "", IdentityText(ids, e.identity), Some(e.identity), e.parentPID,
               None, 0, ProcessLevel(e.reason), ActiveReference, ReasonText(e.reason), "review", [], [], [], [])]
    + MapSeq((port: PortIdentity) => PortCandidate(ids, e, port), e.ports)
  }

  function AllProcessCandidates(ids: IDs, processes: seq<PO.Evidence>): seq<Candidate> {
    if processes == [] then []
    else AllProcessCandidates(ids, processes[..|processes| - 1]) + ProcessCandidates(ids, processes[|processes| - 1])
  }

  /** Everything a report is about, before correlation. */
  function AllCandidates(ids: IDs, input: Input): seq<Candidate> {
    input.candidates + AllProcessCandidates(ids, input.processes)
  }

  lemma {:induction false} ProcessCandidateFacts(ids: IDs, processes: seq<PO.Evidence>)
    ensures forall c :: c in AllProcessCandidates(ids, processes) ==>
              && c.evidenceLevel != BaselineObserved && c.eventIDs == [] && c.receiptIDs == [] && c.process.Some?
              && exists e :: e in processes && c.process == Some(e.identity)
  {
    if processes != [] {
      var n := |processes| - 1;
      ProcessCandidateFacts(ids, processes[..n]);
      assert processes == processes[..n] + [processes[n]];
      forall c | c in ProcessCandidates(ids, processes[n])
        ensures c.evidenceLevel != BaselineObserved && c.eventIDs == [] && c.receiptIDs == []
        ensures c.process == Some(processes[n].identity)
      {
        var i :| 0 <= i < |ProcessCandidates(ids, processes[n])| && ProcessCandidates(ids, processes[n])[i] == c;
      }
      assert processes[n] in processes;
      forall c | c in AllProcessCandidates(ids, processes)
        ensures exists e :: e in processes && c.process == Some(e.identity)
      {
        if c in AllProcessCandidates(ids, processes[..n]) {
          var e :| e in processes[..n] && c.process == Some(e.identity);
          assert e in processes;
        }
      }
    }
  }

  // ---- Order of candidates ----

  function KindRank(kind: CandidateKind): nat {
    match kind
    case FileKind => 0
    case DirectoryKind => 1
    case ProcessKind => 2
    case PortKind => 3
  }

  predicate KindIdLe(a: Candidate, b: Candidate) {
    if KindRank(a.kind) == KindRank(b.kind) then LexLe(a.id, b.id) else KindRank(a.kind) < KindRank(b.kind)
  }

  lemma KindIdLePreorder()
    ensures TotalPreorder(KindIdLe)
  {
    forall a: Candidate, b: Candidate ensures KindIdLe(a, b) || KindIdLe(b, a) {
      LexLessTotal(a.id, b.id);
    }
    forall a: Candidate, b: Candidate, c: Candidate | KindIdLe(a, b) && KindIdLe(b, c) ensures KindIdLe(a, c) {
      if a.id != b.id && b.id != c.id && KindRank(a.kind) == KindRank(b.kind) == KindRank(c.kind) {
        LexLessTransitive(a.id, b.id, c.id);
      }
    }
  }

  // ---- What a report says about processes and ports ----

  ghost function ProcessCount(id: ProcessIdentity): Candidate -> nat {
    (c: Candidate) => if c.kind.ProcessKind? && c.process == Some(id) then 1 else 0
  }

  ghost function PortCount(id: ProcessIdentity, port: PortIdentity): Candidate -> nat {
    (c: Candidate) => if c.kind.PortKind? && c.process == Some(id) && c.port == Some(port) then 1 else 0
  }

  ghost function Items(id: ProcessIdentity): PO.Evidence -> nat {
    (e: PO.Evidence) => if e.identity == id then 1 else 0
  }

  ghost function Listings(id: ProcessIdentity, port: PortIdentity): PO.Evidence -> nat {
    (e: PO.Evidence) => if e.identity == id then multiset(e.ports)[port] else 0
  }

  lemma CandidatesOfOne(ids: IDs, e: PO.Evidence, id: ProcessIdentity, port: PortIdentity)
    ensures SumSeq(ProcessCount(id), ProcessCandidates(ids, e)) == Items(id)(e)
    ensures SumSeq(PortCount(id, port), ProcessCandidates(ids, e)) == Listings(id, port)(e)
  {
    var all := ProcessCandidates(ids, e);
    var ports := MapSeq((p: PortIdentity) => PortCandidate(ids, e, p), e.ports);
    assert all == [all[0]] + ports;
    SumSeqConcat(ProcessCount(id), [all[0]], ports);
    SumSeqConcat(PortCount(id, port), [all[0]], ports);
    assert SumSeq(ProcessCount(id), [all[0]]) == ProcessCount(id)(all[0]);
    assert SumSeq(PortCount(id, port), [all[0]]) == PortCount(id, port)(all[0]);
    forall c | c in ports ensures ProcessCount(id)(c) == 0 {
      var i :| 0 <= i < |ports| && ports[i] == c;
    }
    SumSeqZero(ProcessCount(id), ports);
    PortsOfOne(ids, e, id, port, ports);
  }

  lemma PortsOfOne(ids: IDs, e: PO.Evidence, id: ProcessIdentity, port: PortIdentity, ports: seq<Candidate>)
    requires ports == MapSeq((p: PortIdentity) => PortCandidate(ids, e, p), e.ports)
    ensures SumSeq(PortCount(id, port), ports) == Listings(id, port)(e)
  {
    var f: PortIdentity -> nat := p => if p == port then 1 else 0;
    if e.identity == id {
      SumSeqPointwise(PortCount(id, port), f, ports, e.ports);
      SumSeqCounts(f, e.ports, port);
    } else {
      forall c | c in ports ensures PortCount(id, port)(c) == 0 {
        var i :| 0 <= i < |ports| && ports[i] == c;
      }
      SumSeqZero(PortCount(id, port), ports);
    }
  }

  lemma {:induction false} CandidatesOfAll(ids: IDs, processes: seq<PO.Evidence>, id: ProcessIdentity,
                                           port: PortIdentity)
    ensures SumSeq(ProcessCount(id), AllProcessCandidates(ids, processes)) == SumSeq(Items(id), processes)
    ensures SumSeq(PortCount(id, port), AllProcessCandidates(ids, processes)) == SumSeq(Listings(id, port), processes)
  {
    if processes != [] {
      var n := |processes| - 1;
      CandidatesOfAll(ids, processes[..n], id, port);
      CandidatesOfOne(ids, processes[n], id, port);
      SumSeqConcat(ProcessCount(id), AllProcessCandidates(ids, processes[..n]), ProcessCandidates(ids, processes[n]));
      SumSeqConcat(PortCount(id, port), AllProcessCandidates(ids, processes[..n]),
                   ProcessCandidates(ids, processes[n]));
    }
  }

  ghost predicate FileLike(c: Candidate) { c.kind.FileKind? || c.kind.DirectoryKind? }

  /** As many process candidates as there are evidence items for the process, and as many port candidates as
      those items list the port. */
  ghost predicate CountsEvidence(processes: seq<PO.Evidence>, candidates: seq<Candidate>) {
    && (forall id :: SumSeq(ProcessCount(id), candidates) == SumSeq(Items(id), processes))
    && (forall id, port :: SumSeq(PortCount(id, port), candidates) == SumSeq(Listings(id, port), processes))
  }

  lemma CountedInReport(ids: IDs, input: Input, tied: seq<Candidate>, result: seq<Candidate>)
    requires ReportCandidates(ids, input, tied, result) && forall c :: c in input.candidates ==> FileLike(c)
    ensures CountsEvidence(input.processes, result)
  {
    forall id, port
      ensures SumSeq(ProcessCount(id), result) == SumSeq(Items(id), input.processes)
      ensures SumSeq(PortCount(id, port), result) == SumSeq(Listings(id, port), input.processes)
    {
      SumsOfReport(ids, input, tied, result, ProcessCount(id));
      SumsOfReport(ids, input, tied, result, PortCount(id, port));
      CandidatesOfAll(ids, input.processes, id, port);
    }
    forall id ensures SumSeq(ProcessCount(id), result) == SumSeq(Items(id), input.processes) {
      SumsOfReport(ids, input, tied, result, ProcessCount(id));
      CandidatesOfAll(ids, input.processes, id, PortIdentity("", "", 0));
    }
  }

  /** A weight that depends on kind, process and port only, and is zero for files and directories. */
  ghost predicate SubjectWeight(weight: Candidate -> nat) {
    && (forall c :: FileLike(c) ==> weight(c) == 0)
    && (forall c: Candidate,
        d: Candidate :: c.kind == d.kind && c.process == d.process && c.port == d.port ==> weight(c) == weight(d))
  }

  lemma SumsOfReport(ids: IDs, input: Input, tied: seq<Candidate>, result: seq<Candidate>, weight: Candidate -> nat)
    requires ReportCandidates(ids, input, tied, result) && forall c :: c in input.candidates ==> FileLike(c)
    requires SubjectWeight(weight)
    ensures SumSeq(weight, result) == SumSeq(weight, AllProcessCandidates(ids, input.processes))
  {
    var from := AllCandidates(ids, input);
    SumSeqPermuted(weight, result, tied);
    SubjectsKept(from, input.events, tied);
    SumSeqPointwise(weight, weight, tied, from);
    SumSeqConcat(weight, input.candidates, AllProcessCandidates(ids, input.processes));
    SumSeqZero(weight, input.candidates);
  }

  lemma SubjectsKept(from: seq<Candidate>, events: seq<Summary>, tied: seq<Candidate>)
    requires CorrelatedAll(from, events, tied)
    ensures forall i :: 0 <= i < |from| ==>
              tied[i].kind == from[i].kind && tied[i].process == from[i].process && tied[i].port == from[i].port
  {
    forall i | 0 <= i < |from|
      ensures tied[i].kind == from[i].kind && tied[i].process == from[i].process && tied[i].port == from[i].port
    {
      assert Correlated(from[i], events, tied[i]);
    }
  }

  // ---- How each of them looks ----

  /** Receipt, event or inference, as the reason of the attribution has it. */
  ghost predicate LevelFor(reason: PO.Attribution, level: EvidenceLevel) {
    && (reason.ByReceipt? ==> level.ReceiptBound?) && (reason.ByEvent? ==> level.EventBound?)
    && (reason.ByWorkingDirectory? || reason.ByOpenPath? || reason.ByDescent? ==> level.Inferred?)
  }

  /** A process or port candidate and the evidence it states. */
  ghost predicate States(c: Candidate, e: PO.Evidence) {
    && c.process == Some(e.identity) && LevelFor(e.reason, c.evidenceLevel) && c.currentStatus.ActiveReference?
    && c.path == "" && c.eventIDs == [] && c.receiptIDs == [] && c.conflicts == [] && c.recommendation == "review"
    && (c.kind.ProcessKind? ==> c.parentPID == e.parentPID && c.port.None?)
    && (c.kind.PortKind? ==> c.port.Some? && c.port.value in e.ports)
  }

  /** The IDs and texts of such a candidate. */
  ghost predicate Told(ids: IDs, c: Candidate, e: PO.Evidence) {
    var who := Itoa(e.identity.pid) + ":" + ids.timeText(e.identity.createdAt);
    && c.sizeBytes == 0 && c.limitations == []
    && (c.kind.ProcessKind? ==>
          && c.id == ids.process(e.identity) && c.objectIdentity == who
          && (e.reason.ByReceipt? ==> c.reason == "receipt") && (e.reason.ByEvent? ==> c.reason == "event")
          && (e.reason.ByWorkingDirectory? ==> c.reason == "working_directory")
          && (e.reason.ByOpenPath? ==> c.reason == "open_candidate_path")
          && (e.reason.ByDescent? ==> c.reason == "descendant"))
    && (c.kind.PortKind? ==>
          && c.port.Some? && c.parentPID == 0 && c.id == ids.port(e.identity, c.port.value)
          && c.objectIdentity == who + ":" + c.port.value.address + ":" + Itoa(c.port.value.number)
          && c.reason == "listening port owned by attributed process")
  }

  lemma {:induction false} ProcessCandidatesState(ids: IDs, processes: seq<PO.Evidence>,
                                                  c: Candidate) returns (e: PO.Evidence)
    requires c in AllProcessCandidates(ids, processes)
    ensures e in processes && States(c, e) && Told(ids, c, e) && (c.kind.ProcessKind? || c.kind.PortKind?)
  {
    var n := |processes| - 1;
    assert processes == processes[..n] + [processes[n]];
    if c in AllProcessCandidates(ids, processes[..n]) {
      e := ProcessCandidatesState(ids, processes[..n], c);
    } else {
      e := processes[n];
      var i :| 0 <= i < |ProcessCandidates(ids, e)| && ProcessCandidates(ids, e)[i] == c;
      assert i > 0 ==> e.ports[i - 1] in e.ports;
    }
  }

  /** A candidate without a path is not touched by correlation. */
  lemma PathlessUntouched(c: Candidate, events: seq<Summary>, d: Candidate)
    requires Correlated(c, events, d) && c.path == "" && c.eventIDs == [] && c.receiptIDs == []
    ensures d == c.(recommendation := "review")
  {
    MatchingMembers(c, events);
    var plain := c.(recommendation := "review");
    assert forall s :: s !in Matching(c, events);
    assert Tied(plain, Matching(c, events), d);
    NoRepeatsMultiset(d.eventIDs, []);
    SameMembers(d.eventIDs, []);
    NoRepeatsMultiset(d.receiptIDs, []);
    SameMembers(d.receiptIDs, []);
  }

  ghost predicate OnlyEvidence(processes: seq<PO.Evidence>, candidates: seq<Candidate>) {
    forall c :: c in candidates && !FileLike(c) ==> exists e :: e in processes && States(c, e)
  }

  lemma ReportStatesEvidence(ids: IDs, input: Input, tied: seq<Candidate>, result: seq<Candidate>)
    requires ReportCandidates(ids, input, tied, result) && forall c :: c in input.candidates ==> FileLike(c)
    ensures OnlyEvidence(input.processes, result)
    ensures forall c :: c in result && !FileLike(c) ==>
              exists e :: e in input.processes && States(c, e) && Told(ids, c, e)
  {
    SameMembers(tied, result);
    var from := AllCandidates(ids, input);
    forall c | c in result && !FileLike(c)
      ensures exists e :: e in input.processes && States(c, e) && Told(ids, c, e) {
      var i :| 0 <= i < |tied| && tied[i] == c;
      SubjectsKept(from, input.events, tied);
      assert from[i] in from && from[i] in AllProcessCandidates(ids, input.processes);
      var e := ProcessCandidatesState(ids, input.processes, from[i]);
      PathlessUntouched(from[i], input.events, c);
    }
  }

  // ---- The order of a report ----

  ghost predicate KindBefore(a: CandidateKind, b: CandidateKind) {
    || (a.FileKind? && !b.FileKind?) || (a.DirectoryKind? && (b.ProcessKind? || b.PortKind?))
    || (a.ProcessKind? && b.PortKind?)
  }

  /** Files, directories, processes, ports; within a kind by ID. */
  ghost predicate KindOrder(candidates: seq<Candidate>) {
    forall i, j :: 0 <= i < j < |candidates| ==>
                     || KindBefore(candidates[i].kind, candidates[j].kind)
                     || (candidates[i].kind == candidates[j].kind && LexLe(candidates[i].id, candidates[j].id))
  }

  lemma SortedIsKindOrder(candidates: seq<Candidate>)
    requires Ordered(candidates, KindIdLe)
    ensures KindOrder(candidates)
  {
    forall i, j | 0 <= i < j < |candidates|
      ensures || KindBefore(candidates[i].kind, candidates[j].kind)
              || (candidates[i].kind == candidates[j].kind && LexLe(candidates[i].id, candidates[j].id))
    {
      assert KindIdLe(candidates[i], candidates[j]);
    }
  }

  // ---- BuildReport ----

  function LimitationText(l: PO.Limitation): string { l.operation + ": " + l.detail }

  function AllLimitations(input: Input): seq<string> {
    input.limitations + MapSeq(LimitationText, input.processLimitations)
  }

  function StatusOf(candidates: nat, limitations: nat): ReportStatus {
    if limitations > 0 then PartialEvidence else if candidates > 0 then ReviewRequired else NoCandidates
  }

  /** Each candidate correlated with the events, in place. */
  ghost predicate CorrelatedAll(from: seq<Candidate>, events: seq<Summary>, to: seq<Candidate>) {
    |to| == |from| && forall i :: 0 <= i < |from| ==> Correlated(from[i], events, to[i])
  }

  /** The candidates of a report: all candidates correlated, in an order of kind and ID. */
  ghost predicate ReportCandidates(ids: IDs, input: Input, tied: seq<Candidate>, result: seq<Candidate>) {
    CorrelatedAll(AllCandidates(ids, input), input.events, tied) && SortOf(tied, result, KindIdLe)
  }

  /** The limitations of the observation, then one line per process limitation; and the status that follows:
      partial with any limitation, else to review with any candidate. */
  ghost predicate Concludes(input: Input, report: Report) {
    && |report.limitations| == |input.limitations| + |input.processLimitations|
    && input.limitations <= report.limitations
    && (forall k :: 0 <= k < |input.processLimitations| ==>
                      report.limitations[|input.limitations| + k]
                      == input.processLimitations[k].operation + ": " + input.processLimitations[k].detail)
    && (report.status.PartialEvidence? <==> report.limitations != [])
    && (report.status.ReviewRequired? <==> report.limitations == [] && report.candidates != [])
    && (report.status.NoCandidates? <==> report.limitations == [] && report.candidates == [])
  }

  /** What is reported about processes is exactly the evidence, if the other candidates are of the file system. */
  ghost predicate ReportsEvidence(input: Input, candidates: seq<Candidate>) {
    (forall c :: c in input.candidates ==> FileLike(c)) ==>
      CountsEvidence(input.processes, candidates) && OnlyEvidence(input.processes, candidates)
  }

  lemma ReportFacts(ids: IDs, input: Input, tied: seq<Candidate>, candidates: seq<Candidate>)
    requires ReportCandidates(ids, input, tied, candidates)
    ensures KindOrder(candidates) && ReportsEvidence(input, candidates)
  {
    SortedIsKindOrder(candidates);
    if forall c :: c in input.candidates ==> FileLike(c) {
      CountedInReport(ids, input, tied, candidates);
      ReportStatesEvidence(ids, input, tied, candidates);
    }
  }

  lemma ConcludesWith(input: Input, report: Report)
    requires report.limitations == AllLimitations(input)
    requires report.status == StatusOf(|report.candidates|, |report.limitations|)
    ensures Concludes(input, report)
  {
  }

  /** BuildReport; `clock` stands for the current time when the input has none. */
  method BuildReport(ids: IDs, input: Input, clock: Time) returns (r: Option<Report>)
    ensures r.Some? ==>
              && input.taskID != "" && ValidReport(r.value)
              && (exists tied :: ReportCandidates(ids, input, tied, r.value.candidates))
              && KindOrder(r.value.candidates)
              && Concludes(input, r.value) && ReportsEvidence(input, r.value.candidates)
              && r.value.status == StatusOf(|AllCandidates(ids, input)|, |AllLimitations(input)|)
    ensures r.Some? ==>
              var now := if input.now == ZERO_TIME then clock else input.now;
              && r.value.taskID == input.taskID && r.value.createdAt == now
              && r.value.reportID == ids.report(input.taskID, now)
    ensures r.None? ==> input.taskID == "" || exists tied :: Unreportable(ids, input, tied, clock)
  {
    if input.taskID == "" {
      return None;
    }
    var now := if input.now == ZERO_TIME then clock else input.now;
    var candidates := CorrelateAll(AllCandidates(ids, input), input.events);
    ghost var tied := candidates;
    candidates := SortByKind(candidates);
    assert ReportCandidates(ids, input, tied, candidates);
    ReportFacts(ids, input, tied, candidates);
    SameMembers(tied, candidates);
    var limitations := AllLimitations(input);
    var status := NoCandidates;
    if |candidates| > 0 {
      status := ReviewRequired;
    }
    if |limitations| > 0 {
      status := PartialEvidence;
    }
    var report := Report(REPORT_SCHEMA_VERSION, ids.report(input.taskID, now), input.taskID, None, status, now,
                         candidates, limitations);
    ConcludesWith(input, report);
    if !ValidReport(report) {
      assert Unreportable(ids, input, tied, clock);
      return None;
    }
    r := Some(report);
  }

  /** Validation refuses: a bad identifier or time, or a candidate that is not valid after correlation. */
  ghost predicate Unreportable(ids: IDs, input: Input, tied: seq<Candidate>, clock: Time) {
    var now := if input.now == ZERO_TIME then clock else input.now;
    && CorrelatedAll(AllCandidates(ids, input), input.events, tied)
    && (!ValidID(input.taskID) || !ValidID(ids.report(input.taskID, now)) || now == ZERO_TIME
        || exists c :: c in tied && !ValidCandidate(c))
  }

  method CorrelateAll(from: seq<Candidate>, events: seq<Summary>) returns (to: seq<Candidate>)
    ensures CorrelatedAll(from, events, to)
  {
    to := from;
    for index := 0 to |from|
      invariant |to| == |from|
      invariant forall i :: 0 <= i < index ==> Correlated(from[i], events, to[i])
      invariant forall i :: index <= i < |from| ==> to[i] == from[i]
    {
      var d := CorrelateOne(to[index], events);
      to := to[index := d];
    }
  }

  method SortByKind(candidates: seq<Candidate>) returns (sorted: seq<Candidate>)
    ensures SortOf(candidates, sorted, KindIdLe)
  {
    KindIdLePreorder();
    sorted := SortSlice(candidates, KindIdLe);
  }

  // ---- Theorems ----

  lemma CorrelatedAllUnique(from: seq<Candidate>, a: seq<Summary>, b: seq<Summary>, x: seq<Candidate>,
                            y: seq<Candidate>)
    requires forall c :: c in from ==> c.eventIDs == [] && c.receiptIDs == []
    requires forall s :: s in a <==> s in b
    requires CorrelatedAll(from, a, x) && CorrelatedAll(from, b, y)
    ensures x == y
  {
    forall i | 0 <= i < |from| ensures x[i] == y[i] {
      assert from[i] in from;
      CorrelationOrderIndependent(from[i], a, b, x[i], y[i]);
    }
  }

  lemma CorrelatedKeepsID(c: Candidate, events: seq<Summary>, d: Candidate)
    requires Correlated(c, events, d)
    ensures d.id == c.id && d.kind == c.kind && d.path == c.path && d.recommendation == "review"
  {
  }

  lemma TiedTieFree(from: seq<Candidate>, events: seq<Summary>, tied: seq<Candidate>)
    requires CorrelatedAll(from, events, tied) && DistinctKeys(from, (c: Candidate) => c.id)
    ensures TieFree(tied, KindIdLe)
  {
    IDsKept(from, events, tied);
    forall x, y | x in tied && y in tied && KindIdLe(x, y) && KindIdLe(y, x) ensures x == y {
      TieMeansSameID(x, y);
      SameIDSameCandidate(from, tied, x, y);
    }
  }

  lemma IDsKept(from: seq<Candidate>, events: seq<Summary>, tied: seq<Candidate>)
    requires CorrelatedAll(from, events, tied)
    ensures forall i :: 0 <= i < |from| ==> tied[i].id == from[i].id
  {
    forall i | 0 <= i < |from| ensures tied[i].id == from[i].id {
      CorrelatedKeepsID(from[i], events, tied[i]);
    }
  }

  lemma SameIDSameCandidate(from: seq<Candidate>, tied: seq<Candidate>, x: Candidate, y: Candidate)
    requires |tied| == |from| && forall i :: 0 <= i < |from| ==> tied[i].id == from[i].id
    requires DistinctKeys(from, (c: Candidate) => c.id) && x in tied && y in tied && x.id == y.id
    ensures x == y
  {
    var i :| 0 <= i < |tied| && tied[i] == x;
    var j :| 0 <= j < |tied| && tied[j] == y;
  }

  lemma TieMeansSameID(x: Candidate, y: Candidate)
    requires KindIdLe(x, y) && KindIdLe(y, x)
    ensures x.id == y.id
  {
    LexLessTotal(x.id, y.id);
  }

  /** With distinct candidate IDs and no initial provenance, permuting the events does not change the
      reported candidates. */
  lemma ReportOrderIndependent(ids: IDs, a: Input, b: Input, tiedA: seq<Candidate>, tiedB: seq<Candidate>,
                               x: seq<Candidate>, y: seq<Candidate>)
    requires a.(events := b.events) == b && multiset(a.events) == multiset(b.events)
    requires DistinctKeys(AllCandidates(ids, a), (c: Candidate) => c.id)
    requires forall c :: c in a.candidates ==> c.eventIDs == [] && c.receiptIDs == []
    requires ReportCandidates(ids, a, tiedA, x) && ReportCandidates(ids, b, tiedB, y)
    ensures x == y
  {
    SameMembers(a.events, b.events);
    ProcessCandidateFacts(ids, a.processes);
    CorrelatedAllUnique(AllCandidates(ids, a), a.events, b.events, tiedA, tiedB);
    TiedTieFree(AllCandidates(ids, a), a.events, tiedA);
    SortedTieFree(tiedA, x, y);
  }

  lemma SortedTieFree(tied: seq<Candidate>, x: seq<Candidate>, y: seq<Candidate>)
    requires SortOf(tied, x, KindIdLe) && SortOf(tied, y, KindIdLe) && TieFree(tied, KindIdLe)
    ensures x == y
  {
    KindIdLePreorder();
    SameMembers(tied, x);
    SortUnique(x, y, KindIdLe);
  }

  // ---- Retrospective reports ----

  /** The loop of InspectCompletedAuthorized over the report's candidates. */
  method LowerBaseline(candidates: seq<Candidate>) returns (result: seq<Candidate>)
    ensures |result| == |candidates|
    ensures forall i :: 0 <= i < |candidates| ==>
              result[i] == if candidates[i].evidenceLevel == BaselineObserved
                           then candidates[i].(evidenceLevel := Unattributed)
                           else candidates[i]
  {
    result := candidates;
    for index := 0 to |candidates|
      invariant |result| == |candidates|
      invariant forall i :: 0 <= i < index ==>
                  result[i] == if candidates[i].evidenceLevel == BaselineObserved
                               then candidates[i].(evidenceLevel := Unattributed)
                               else candidates[i]
      invariant forall i :: index <= i < |candidates| ==> result[i] == candidates[i]
    {
      if result[index].evidenceLevel == BaselineObserved {
        result := result[index := result[index].(evidenceLevel := Unattributed)];
      }
    }
  }

  /** Retrospective input: unattributed candidates and the limitation that there was no baseline. The
      report is always partial evidence and never claims a baseline, even before levels are lowered. */
  lemma RetrospectiveNeverBaseline(ids: IDs, input: Input, tied: seq<Candidate>, result: seq<Candidate>)
    requires input.limitations != []
    requires forall c :: c in input.candidates ==> c.evidenceLevel == Unattributed
    requires ReportCandidates(ids, input, tied, result)
    ensures StatusOf(|AllCandidates(ids, input)|, |AllLimitations(input)|) == PartialEvidence
    ensures forall c :: c in result ==> c.evidenceLevel != BaselineObserved
  {
    ProcessCandidateFacts(ids, input.processes);
    SameMembers(tied, result);
    var from := AllCandidates(ids, input);
    forall c | c in result ensures c.evidenceLevel != BaselineObserved {
      var i :| 0 <= i < |tied| && tied[i] == c;
      assert from[i] in from;
      NeverRaisedToBaseline(from[i], input.events, c);
    }
  }

  lemma NeverRaisedToBaseline(c: Candidate, events: seq<Summary>, d: Candidate)
    requires Correlated(c, events, d) && c.evidenceLevel != BaselineObserved
    ensures d.evidenceLevel != BaselineObserved
  {
    assert Strongest(c.(recommendation := "review"), Matching(c, events), d.evidenceLevel);
  }
}
