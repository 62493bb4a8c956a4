/** internal/correlate: candidates from the file system and from processes are tied to task events and
    become a report. */
module Correlate {
  import opened Text
  import opened Contract
  import opened Decimal
  import opened Sorting
  import opened Paths
  import PO = ProcessObserver

  /** Digest-based identifiers, as arbitrary functions. */
  datatype IDs = IDs(
    report: (string, Time) -> string,
    failure: (string, Time) -> string,
    process: ProcessIdentity -> string,
    port: (ProcessIdentity, PortIdentity) -> string,
    timeText: Time -> string)

  datatype Input = Input(
    taskID: string,
    now: Time,
    candidates: seq<Candidate>,
    limitations: seq<string>,
    events: seq<Summary>,
    processes: seq<PO.Evidence>,
    processLimitations: seq<PO.Limitation>)

  // ---- Evidence ----

  function Rank(level: EvidenceLevel): nat {
    match level
    case Unattributed => 0
    case Inferred => 1
    case EventBound => 2
    case ReceiptBound => 3
    case BaselineObserved => 4
  }

  function StrongerEvidence(current: EvidenceLevel, candidate: EvidenceLevel): EvidenceLevel {
    if Rank(candidate) > Rank(current) then candidate else current
  }

  /** eventMatchesCandidate: a declared output is the candidate's path, both cleaned. */
  predicate EventMatches(s: Summary, c: Candidate) {
    c.path != "" && exists output :: output in s.declaredOutputs && Clean(output) == Clean(c.path)
  }

  function Bound(s: Summary): EvidenceLevel {
    if s.receiptID != "" then ReceiptBound else EventBound
  }

  function AppendUnique(values: seq<string>, value: string): seq<string> {
    if value in values then values else values + [value]
  }

  const CLEANUP_CONFLICT := "cleanup was attempted but the object is still present or its current state is uncertain"

  /** The cleanup of a candidate that is not gone. */
  predicate ConflictingCleanup(s: Summary, c: Candidate) {
    s.eventType.CleanupAttempted? && !c.currentStatus.NoLongerPresent?
  }

  // ---- What correlation makes of one candidate ----

  ghost predicate NoRepeats(ids: seq<string>) {
    forall i, j :: 0 <= i < j < |ids| ==> ids[i] != ids[j]
  }

  /** `level` is the strongest of the initial level and the bounds of the matching events. */
  ghost predicate Strongest(c: Candidate, matching: seq<Summary>, level: EvidenceLevel) {
    && Rank(level) >= Rank(c.evidenceLevel)
    && (forall s :: s in matching ==> Rank(level) >= Rank(Bound(s)))
    && (level == c.evidenceLevel || exists s :: s in matching && level == Bound(s))
  }

  /** The initial IDs and the non-empty IDs of the matching events, nothing else; without repeats if the
      initial ones had none. */
  ghost predicate Provenance(initial: seq<string>, matching: seq<Summary>, idOf: Summary -> string, ids: seq<string>) {
    && (forall id :: id in ids <==> id in initial || exists s :: s in matching && idOf(s) == id && id != "")
    && (NoRepeats(initial) ==> NoRepeats(ids))
  }

  ghost predicate Conflicts(c: Candidate, matching: seq<Summary>, conflicts: seq<string>) {
    conflicts == if exists s :: s in matching && ConflictingCleanup(s, c)
                 then AppendUnique(c.conflicts, CLEANUP_CONFLICT)
                 else c.conflicts
  }

  function EventIDOf(s: Summary): string { s.eventID }
  function ReceiptIDOf(s: Summary): string { s.receiptID }

  /** What the inner loop has made of `c` after the events in `matching`. */
  ghost predicate Tied(c: Candidate, matching: seq<Summary>, d: Candidate) {
    && d == c.(evidenceLevel := d.evidenceLevel, eventIDs := d.eventIDs, receiptIDs := d.receiptIDs,
               conflicts := d.conflicts)
    && Strongest(c, matching, d.evidenceLevel)
    && Provenance(c.eventIDs, matching, EventIDOf, d.eventIDs)
    && Provenance(c.receiptIDs, matching, ReceiptIDOf, d.receiptIDs)
    && Conflicts(c, matching, d.conflicts)
  }

  ghost function Matching(c: Candidate, events: seq<Summary>): seq<Summary> {
    if events == [] then []
    else
      var n := |events| - 1;
      Matching(c, events[..n]) + if EventMatches(events[n], c) then [events[n]] else []
  }

  /** The final form of a candidate: tied to all matching events, with sorted provenance. */
  ghost predicate Correlated(c: Candidate, events: seq<Summary>, d: Candidate) {
    && Tied(c.(recommendation := "review"), Matching(c, events), d)
    && Ordered(d.eventIDs, LexLe) && Ordered(d.receiptIDs, LexLe)
  }

  // ---- One step of the inner loop ----

  function Tie(d: Candidate, s: Summary): Candidate {
    d.(evidenceLevel := StrongerEvidence(d.evidenceLevel, Bound(s)),
       eventIDs := if s.eventID != "" then AppendUnique(d.eventIDs, s.eventID) else d.eventIDs,
       receiptIDs := if s.receiptID != "" then AppendUnique(d.receiptIDs, s.receiptID) else d.receiptIDs,
       conflicts := if ConflictingCleanup(s, d) then AppendUnique(d.conflicts, CLEANUP_CONFLICT) else d.conflicts)
  }

  lemma StrongestNext(c: Candidate, matching: seq<Summary>, level: EvidenceLevel, s: Summary)
    requires Strongest(c, matching, level)
    ensures Strongest(c, matching + [s], StrongerEvidence(level, Bound(s)))
  {
    var more := matching + [s];
    assert s in more;
    if level != c.evidenceLevel {
      var t :| t in matching && level == Bound(t);
      assert t in more;
    }
  }

  lemma ProvenanceNext(initial: seq<string>, matching: seq<Summary>, idOf: Summary -> string, ids: seq<string>,
                       s: Summary)
    requires Provenance(initial, matching, idOf, ids)
    ensures Provenance(initial, matching + [s], idOf, if idOf(s) != "" then AppendUnique(ids, idOf(s)) else ids)
  {
    var more, next := matching + [s], if idOf(s) != "" then AppendUnique(ids, idOf(s)) else ids;
    forall id ensures id in next <==> id in initial || exists t :: t in more && idOf(t) == id && id != "" {
      if id in next && id !in ids {
        assert s in more && idOf(s) == id;
      } else if id in ids && id !in initial {
        var t :| t in matching && idOf(t) == id && id != "";
        assert t in more;
      }
      if t :| t in more && idOf(t) == id && id != "" {
        assert t == s || t in matching;
      }
    }
  }

  lemma ConflictsNext(c: Candidate, matching: seq<Summary>, d: Candidate, s: Summary)
    requires Conflicts(c, matching, d.conflicts) && d.currentStatus == c.currentStatus
    ensures Conflicts(c, matching + [s],
                      if ConflictingCleanup(s, d) then AppendUnique(d.conflicts, CLEANUP_CONFLICT) else d.conflicts)
  {
    var more := matching + [s];
    assert s in more;
    if t :| t in matching && ConflictingCleanup(t, c) {
      assert t in more;
    }
  }

  lemma TieNext(c: Candidate, matching: seq<Summary>, d: Candidate, s: Summary)
    requires Tied(c, matching, d)
    ensures Tied(c, matching + [s], Tie(d, s))
  {
    StrongestNext(c, matching, d.evidenceLevel, s);
    ProvenanceNext(c.eventIDs, matching, EventIDOf, d.eventIDs, s);
    ProvenanceNext(c.receiptIDs, matching, ReceiptIDOf, d.receiptIDs, s);
    ConflictsNext(c, matching, d, s);
  }

  /** The body of the loop over candidates. */
  method CorrelateOne(c: Candidate, events: seq<Summary>) returns (d: Candidate)
    ensures Correlated(c, events, d)
  {
    ghost var plain := c.(recommendation := "review");
    d := c.(recommendation := "review");
    for n := 0 to |events|
      invariant d.path == c.path && Tied(plain, Matching(c, events[..n]), d)
    {
      assert events[..n + 1][..n] == events[..n];
      if !EventMatches(events[n], d) {
        continue;
      }
      TieNext(plain, Matching(c, events[..n]), d, events[n]);
      d := Tie(d, events[n]);
    }
    assert events[..|events|] == events;
    d := SortProvenance(d, plain, Matching(c, events));
  }

  method SortProvenance(d: Candidate, ghost c: Candidate, ghost matching: seq<Summary>) returns (r: Candidate)
    requires Tied(c, matching, d)
    ensures Tied(c, matching, r) && Ordered(r.eventIDs, LexLe) && Ordered(r.receiptIDs, LexLe)
  {
    LexLePreorder();
    var eventIDs := SortSlice(d.eventIDs, LexLe);
    var receiptIDs := SortSlice(d.receiptIDs, LexLe);
    ProvenanceSorted(c.eventIDs, matching, EventIDOf, d.eventIDs, eventIDs);
    ProvenanceSorted(c.receiptIDs, matching, ReceiptIDOf, d.receiptIDs, receiptIDs);
    r := d.(eventIDs := eventIDs, receiptIDs := receiptIDs);
  }

  lemma ProvenanceSorted(initial: seq<string>, matching: seq<Summary>, idOf: Summary -> string, ids: seq<string>,
                         sorted: seq<string>)
    requires Provenance(initial, matching, idOf, ids) && multiset(sorted) == multiset(ids)
    ensures Provenance(initial, matching, idOf, sorted)
  {
    SameMembers(ids, sorted);
    if NoRepeats(ids) {
      assert DistinctKeys(ids, (id: string) => id);
      DistinctKeysPermuted(ids, sorted, (id: string) => id);
    }
  }

  // ---- The result, read off the events ----

  /** A declared output of the event is the path of the candidate, both cleaned. */
  ghost predicate Declares(s: Summary, c: Candidate) {
    c.path != "" && exists k :: 0 <= k < |s.declaredOutputs| && Clean(s.declaredOutputs[k]) == Clean(c.path)
  }

  lemma MatchingDeclares(c: Candidate, events: seq<Summary>)
    ensures forall s :: s in Matching(c, events) <==> s in events && Declares(s, c)
  {
    MatchingMembers(c, events);
    forall s ensures EventMatches(s, c) <==> Declares(s, c) {
      if c.path != "" && EventMatches(s, c) {
        var output :| output in s.declaredOutputs && Clean(output) == Clean(c.path);
        var k :| 0 <= k < |s.declaredOutputs| && s.declaredOutputs[k] == output;
      }
    }
  }

  /** A baseline stays; otherwise a declaring event with a receipt gives RECEIPT_BOUND, one without gives at
      least EVENT_BOUND, and without either the level stays. */
  ghost predicate RaisedTo(c: Candidate, events: seq<Summary>, level: EvidenceLevel) {
    var receipt := exists s :: s in events && Declares(s, c) && s.receiptID != "";
    var event := exists s :: s in events && Declares(s, c);
    && (c.evidenceLevel.BaselineObserved? || c.evidenceLevel.ReceiptBound? ==> level == c.evidenceLevel)
    && (c.evidenceLevel.EventBound? ==> level == if receipt then ReceiptBound else EventBound)
    && (c.evidenceLevel.Inferred? || c.evidenceLevel.Unattributed? ==>
          level == if receipt then ReceiptBound else if event then EventBound else c.evidenceLevel)
  }

  lemma LevelExactly(c: Candidate, matching: seq<Summary>, events: seq<Summary>, level: EvidenceLevel)
    requires Strongest(c, matching, level) && forall s :: s in matching <==> s in events && Declares(s, c)
    ensures RaisedTo(c, events, level)
  {
    if s :| s in events && Declares(s, c) && s.receiptID != "" {
      assert s in matching;
    }
    if s :| s in events && Declares(s, c) {
      assert s in matching;
    }
  }

  const CLEANUP_TEXT := "cleanup was attempted but the object is still present or its current state is uncertain"

  /** What correlation makes of a candidate without initial provenance: the raised level, the sorted distinct
      IDs of the declaring events, and a conflict if one of them tried to clean up what is not gone. */
  ghost predicate CorrelatedAs(c: Candidate, events: seq<Summary>, d: Candidate) {
    && d == c.(recommendation := "review", evidenceLevel := d.evidenceLevel, eventIDs := d.eventIDs,
               receiptIDs := d.receiptIDs, conflicts := d.conflicts)
    && RaisedTo(c, events, d.evidenceLevel)
    && (forall id :: id in d.eventIDs <==> id != "" && exists s :: s in events && Declares(s, c) && s.eventID == id)
    && (forall id :: id in d.receiptIDs <==> id != "" && exists s :: s in events && Declares(s, c) && s.receiptID == id)
    && NoRepeats(d.eventIDs) && NoRepeats(d.receiptIDs) && Ordered(d.eventIDs, LexLe) && Ordered(d.receiptIDs, LexLe)
    && d.conflicts == (if CleanupFailed(c, events) && CLEANUP_TEXT !in c.conflicts then c.conflicts + [CLEANUP_TEXT]
                       else c.conflicts)
  }

  ghost predicate CleanupFailed(c: Candidate, events: seq<Summary>) {
    !c.currentStatus.NoLongerPresent? && exists s :: s in events && Declares(s, c) && s.eventType.CleanupAttempted?
  }

  lemma IDsExactly(c: Candidate, events: seq<Summary>, matching: seq<Summary>, idOf: Summary -> string,
                   ids: seq<string>)
    requires Provenance([], matching, idOf, ids) && forall s :: s in matching <==> s in events && Declares(s, c)
    ensures forall id :: id in ids <==> id != "" && exists s :: s in events && Declares(s, c) && idOf(s) == id
  {
    forall id ensures id in ids <==> id != "" && exists s :: s in events && Declares(s, c) && idOf(s) == id {
      if id != "" {
        if s :| s in events && Declares(s, c) && idOf(s) == id {
          assert s in matching;
        }
      }
    }
  }

  lemma ConflictsExactly(c: Candidate, events: seq<Summary>, matching: seq<Summary>, conflicts: seq<string>)
    requires Conflicts(c, matching, conflicts) && forall s :: s in matching <==> s in events && Declares(s, c)
    ensures conflicts == if CleanupFailed(c, events) && CLEANUP_TEXT !in c.conflicts then c.conflicts + [CLEANUP_TEXT]
                         else c.conflicts
  {
    if s :| s in events && Declares(s, c) && s.eventType.CleanupAttempted? {
      assert s in matching;
    }
  }

  lemma CorrelationExactly(c: Candidate, events: seq<Summary>, d: Candidate)
    requires Correlated(c, events, d) && c.eventIDs == [] && c.receiptIDs == []
    ensures CorrelatedAs(c, events, d)
  {
    var plain, matching := c.(recommendation := "review"), Matching(c, events);
    MatchingDeclares(c, events);
    SameDeclares(c, plain, events, matching);
    LevelExactly(plain, matching, events, d.evidenceLevel);
    IDsExactly(plain, events, matching, EventIDOf, d.eventIDs);
    IDsExactly(plain, events, matching, ReceiptIDOf, d.receiptIDs);
    ConflictsExactly(plain, events, matching, d.conflicts);
    PlainReadsAlike(c, plain, events, d);
  }

  lemma SameDeclares(c: Candidate, plain: Candidate, events: seq<Summary>, matching: seq<Summary>)
    requires plain == c.(recommendation := "review")
    requires forall s :: s in matching <==> s in events && Declares(s, c)
    ensures forall s :: Declares(s, c) <==> Declares(s, plain)
    ensures forall s :: s in matching <==> s in events && Declares(s, plain)
  {
    forall s ensures Declares(s, c) <==> Declares(s, plain) {
    }
  }

  lemma PlainReadsAlike(c: Candidate, plain: Candidate, events: seq<Summary>, d: Candidate)
    requires plain == c.(recommendation := "review") && forall s :: Declares(s, c) <==> Declares(s, plain)
    ensures RaisedTo(plain, events, d.evidenceLevel) <==> RaisedTo(c, events, d.evidenceLevel)
    ensures CleanupFailed(plain, events) <==> CleanupFailed(c, events)
  {
  }

  // ---- How much provenance a candidate gets ----

  /** The distinct non-empty IDs of the events that match a candidate. */
  ghost function MatchedIDs(c: Candidate, events: seq<Summary>, idOf: Summary -> string): set<string> {
    set s | s in events && EventMatches(s, c) && idOf(s) != "" :: idOf(s)
  }

  lemma {:induction false} NoRepeatsCount(ids: seq<string>)
    requires NoRepeats(ids)
    ensures |set id | id in ids| == |ids|
  {
    if ids != [] {
      var n := |ids| - 1;
      NoRepeatsCount(ids[..n]);
      assert (set id | id in ids) == (set id | id in ids[..n]) + {ids[n]};
    }
  }

  lemma ProvenanceCount(c: Candidate, events: seq<Summary>, idOf: Summary -> string, ids: seq<string>)
    requires Provenance([], Matching(c, events), idOf, ids)
    ensures |ids| == |MatchedIDs(c, events, idOf)| && forall id :: id in ids <==> id in MatchedIDs(c, events, idOf)
  {
    MatchingMembers(c, events);
    NoRepeatsCount(ids);
    assert (set id | id in ids) == MatchedIDs(c, events, idOf);
  }

  /** At most 128 IDs, each of them valid. */
  ghost predicate Bounded(ids: set<string>) {
    |ids| <= 128 && forall id :: id in ids ==> ValidID(id)
  }

  /** A candidate without initial provenance is valid after correlation if and only if it was valid and at
      most 128 distinct event IDs and 128 distinct receipt IDs, all valid, match it. */
  lemma CorrelatedValidExactly(c: Candidate, events: seq<Summary>, d: Candidate)
    requires c.eventIDs == [] && c.receiptIDs == [] && Correlated(c, events, d)
    ensures ValidCandidate(d) <==>
            && ValidCandidate(c.(recommendation := "review"))
            && Bounded(MatchedIDs(c, events, EventIDOf)) && Bounded(MatchedIDs(c, events, ReceiptIDOf))
  {
    TiedValidExactly(c.(recommendation := "review"), d);
    ProvenanceCount(c, events, EventIDOf, d.eventIDs);
    ProvenanceCount(c, events, ReceiptIDOf, d.receiptIDs);
  }

  lemma TiedValidExactly(c: Candidate, d: Candidate)
    requires c.eventIDs == [] && c.receiptIDs == []
    requires d == c.(evidenceLevel := d.evidenceLevel, eventIDs := d.eventIDs, receiptIDs := d.receiptIDs,
                     conflicts := d.conflicts)
    ensures ValidCandidate(d) <==>
            && ValidCandidate(c) && |d.eventIDs| <= 128 && |d.receiptIDs| <= 128
            && (forall id :: id in d.eventIDs ==> ValidID(id)) && (forall id :: id in d.receiptIDs ==> ValidID(id))
  {
    assert forall id :: id in d.eventIDs + d.receiptIDs <==> id in d.eventIDs || id in d.receiptIDs;
  }

  // ---- The result depends on the events as a set ----

  lemma {:induction false} MatchingMembers(c: Candidate, events: seq<Summary>)
    ensures forall s :: s in Matching(c, events) <==> s in events && EventMatches(s, c)
  {
    if events != [] {
      var n := |events| - 1;
      assert events == events[..n] + [events[n]];
      MatchingMembers(c, events[..n]);
    }
  }

  ghost predicate SameSet<T(!new)>(a: seq<T>, b: seq<T>) {
    forall x :: x in a <==> x in b
  }

  lemma StrongestUnique(c: Candidate, a: seq<Summary>, b: seq<Summary>, x: EvidenceLevel, y: EvidenceLevel)
    requires SameSet(a, b) && Strongest(c, a, x) && Strongest(c, b, y)
    ensures x == y
  {
    assert Rank(x) == Rank(y);
  }

  lemma {:induction false} NoRepeatsMultiset(a: seq<string>, b: seq<string>)
    requires NoRepeats(a) && NoRepeats(b) && SameSet(a, b)
    ensures multiset(a) == multiset(b)
  {
    forall id ensures multiset(a)[id] == multiset(b)[id] {
      OccursOnce(a, id);
      OccursOnce(b, id);
    }
  }

  lemma {:induction false} OccursOnce(ids: seq<string>, id: string)
    requires NoRepeats(ids)
    ensures multiset(ids)[id] == if id in ids then 1 else 0
  {
    if multiset(ids)[id] >= 2 {
      var i, j := RepeatedPlaces(ids, id);
    }
  }

  lemma SortedIDsUnique(a: seq<string>, b: seq<string>)
    requires NoRepeats(a) && NoRepeats(b) && SameSet(a, b) && Ordered(a, LexLe) && Ordered(b, LexLe)
    ensures a == b
  {
    NoRepeatsMultiset(a, b);
    LexLeIsTotalOrder();
    SortUnique(a, b, LexLe);
  }

  lemma ProvenanceUnique(a: seq<Summary>, b: seq<Summary>, idOf: Summary -> string, x: seq<string>, y: seq<string>)
    requires SameSet(a, b) && Provenance([], a, idOf, x) && Provenance([], b, idOf, y)
    requires Ordered(x, LexLe) && Ordered(y, LexLe)
    ensures x == y
  {
    forall id ensures id in x <==> id in y {
      if id in x {
        var s :| s in a && idOf(s) == id && id != "";
        assert s in b;
      }
      if id in y {
        var s :| s in b && idOf(s) == id && id != "";
        assert s in a;
      }
    }
    SortedIDsUnique(x, y);
  }

  lemma ConflictsUnique(c: Candidate, a: seq<Summary>, b: seq<Summary>, x: seq<string>, y: seq<string>)
    requires SameSet(a, b) && Conflicts(c, a, x) && Conflicts(c, b, y)
    ensures x == y
  {
    if s :| s in a && ConflictingCleanup(s, c) {
      assert s in b;
    }
    if s :| s in b && ConflictingCleanup(s, c) {
      assert s in a;
    }
  }

  /** A candidate without initial provenance comes out the same for every order of the events. */
  lemma CorrelationOrderIndependent(c: Candidate, a: seq<Summary>, b: seq<Summary>, x: Candidate, y: Candidate)
    requires c.eventIDs == [] && c.receiptIDs == []
    requires forall s :: s in a <==> s in b
    requires Correlated(c, a, x) && Correlated(c, b, y)
    ensures x == y
  {
    var plain := c.(recommendation := "review");
    var p, q := Matching(c, a), Matching(c, b);
    MatchingMembers(c, a);
    MatchingMembers(c, b);
    assert SameSet(p, q);
    StrongestUnique(plain, p, q, x.evidenceLevel, y.evidenceLevel);
    ProvenanceUnique(p, q, EventIDOf, x.eventIDs, y.eventIDs);
    ProvenanceUnique(p, q, ReceiptIDOf, x.receiptIDs, y.receiptIDs);
    ConflictsUnique(plain, p, q, x.conflicts, y.conflicts);
  }
}
