/** internal/fsobserve: Compare, the exact metadata difference between a baseline and a later snapshot. */
module FsDiff {
  import opened Text
  import opened Contract
  import opened Decimal
  import opened Sorting
  import opened FsObserve

  /** The digest-based candidate ID is an arbitrary function of kind, identity and path. */
  type CandidateIDs = (CandidateKind, string, string) -> string

  function KindOf(e: Entry): CandidateKind {
    if e.kind.DirectoryEntry? then DirectoryKind else FileKind
  }

  /** candidateFor. */
  function CandidateFor(ids: CandidateIDs, e: Entry, status: CurrentStatus, reason: string): Candidate {
    Candidate(ids(KindOf(e), e.identity, e.path), KindOf(e), e.path, e.identity, None, 0, None, e.size,
              BaselineObserved, status, reason, "review", [], [], [], [])
  }

  /** The four compared fields. */
  predicate SameObject(a: Entry, b: Entry) {
    a.identity == b.identity && a.size == b.size && a.modTime == b.modTime && a.mode == b.mode
  }

  const CREATED := "created after task observation began"
  const CHANGED := "changed after task observation began"

  /** What one key of the current snapshot contributes. */
  function Change(ids: CandidateIDs, baseline: map<string, Entry>, key: string, e: Entry): Option<Candidate> {
    if key !in baseline then Some(CandidateFor(ids, e, Present, CREATED))
    else if !SameObject(e, baseline[key]) then Some(CandidateFor(ids, e, ChangedSinceReport, CHANGED))
    else None
  }

  ghost function Changes(ids: CandidateIDs, baseline: map<string, Entry>, current: map<string, Entry>,
                         keys: seq<string>): seq<Candidate>
    requires forall key :: key in keys ==> key in current
  {
    if keys == [] then []
    else
      var n := |keys| - 1;
      var change := Change(ids, baseline, keys[n], current[keys[n]]);
      Changes(ids, baseline, current, keys[..n]) + if change.Some? then [change.value] else []
  }

  ghost function Missing(baseline: map<string, Entry>, current: map<string, Entry>, keys: seq<string>): seq<string>
    requires forall key :: key in keys ==> key in baseline
  {
    if keys == [] then []
    else
      var n := |keys| - 1;
      Missing(baseline, current, keys[..n]) + if keys[n] in current then [] else [baseline[keys[n]].relative]
  }

  predicate PathLe(a: Candidate, b: Candidate) { LexLe(a.path, b.path) }

  lemma PathLePreorder()
    ensures TotalPreorder(PathLe)
  {
    LexLeIsTotalOrder();
    forall a: Candidate, b: Candidate ensures PathLe(a, b) || PathLe(b, a) {
      assert LexLe(a.path, b.path) || LexLe(b.path, a.path);
    }
  }

  ghost predicate Keys(m: map<string, Entry>, keys: seq<string>) {
    multiset(keys) == multiset(m.Keys) && forall key :: key in keys <==> key in m
  }

  /** The reported changes, for some order in which the two maps were visited. */
  ghost predicate DiffOf(ids: CandidateIDs, baseline: map<string, Entry>, current: map<string, Entry>,
                         candidates: seq<Candidate>, removed: seq<string>) {
    exists keys, gone :: VisitedAs(ids, baseline, current, candidates, removed, keys, gone)
  }

  ghost predicate VisitedAs(ids: CandidateIDs, baseline: map<string, Entry>, current: map<string, Entry>,
                            candidates: seq<Candidate>, removed: seq<string>, keys: seq<string>, gone: seq<string>) {
    && Keys(current, keys) && Keys(baseline, gone)
    && multiset(candidates) == multiset(Changes(ids, baseline, current, keys))
    && multiset(removed) == multiset(Missing(baseline, current, gone))
  }

  /** The first root whose identity is another than before. */
  ghost predicate ChangedFirst(before: seq<string>, current: seq<string>, i: nat) {
    i < |before| && i < |current| && before[i] != current[i] && before[..i] == current[..i]
  }

  ghost predicate NamesChange(before: seq<string>, current: seq<string>, message: string) {
    if |before| != |current| then message == "root identity changed: root count differs"
    else exists i: nat :: ChangedFirst(before, current, i) && message == "root identity changed: root " + Itoa(i)
  }

  /** Compare: refused when a root's identity changed, else the sorted differences. */
  method Compare(ids: CandidateIDs, baseline: map<string, Entry>, baselineRoots: seq<string>,
                 current: map<string, Entry>, currentRoots: seq<string>)
    returns (r: Result<(seq<Candidate>, seq<string>), string>)
    ensures r.Ok? <==> currentRoots == baselineRoots
    ensures r.Err? ==> NamesChange(baselineRoots, currentRoots, r.error)
    ensures r.Ok? ==> DiffOf(ids, baseline, current, r.value.0, r.value.1)
    ensures r.Ok? ==> Ordered(r.value.0, PathLe) && Ordered(r.value.1, LexLe)
  {
    if |currentRoots| != |baselineRoots| {
      return Err("root identity changed: root count differs");
    }
    for i := 0 to |currentRoots|
      invariant currentRoots[..i] == baselineRoots[..i]
    {
      if currentRoots[i] != baselineRoots[i] {
        assert ChangedFirst(baselineRoots, currentRoots, i);
        return Err("root identity changed: root " + Itoa(i));
      }
    }
    var candidates, keys := CollectChanges(ids, baseline, current);
    var missing, gone := CollectMissing(baseline, current);
    var sorted := SortByPath(candidates);
    LexLePreorder();
    var removed := SortSlice(missing, LexLe);
    assert VisitedAs(ids, baseline, current, sorted, removed, keys, gone);
    r := Ok((sorted, removed));
  }

  method SortByPath(candidates: seq<Candidate>) returns (sorted: seq<Candidate>)
    ensures SortOf(candidates, sorted, PathLe)
  {
    PathLePreorder();
    sorted := SortSlice(candidates, PathLe);
  }

  method CollectChanges(ids: CandidateIDs, baseline: map<string, Entry>, current: map<string, Entry>)
    returns (candidates: seq<Candidate>, keys: seq<string>)
    ensures Keys(current, keys) && candidates == Changes(ids, baseline, current, keys)
  {
    keys := ReadNames(current.Keys);
    candidates := [];
    for n := 0 to |keys|
      invariant candidates == Changes(ids, baseline, current, keys[..n])
    {
      var entry := current[keys[n]];
      assert keys[..n + 1][..n] == keys[..n];
      if keys[n] !in baseline {
        candidates := candidates + [CandidateFor(ids, entry, Present, CREATED)];
        continue;
      }
      var before := baseline[keys[n]];
      if entry.identity != before.identity || entry.size != before.size || entry.modTime != before.modTime
         || entry.mode != before.mode {
        candidates := candidates + [CandidateFor(ids, entry, ChangedSinceReport, CHANGED)];
      }
    }
    assert keys[..|keys|] == keys;
  }

  method CollectMissing(baseline: map<string, Entry>, current: map<string, Entry>)
    returns (missing: seq<string>, keys: seq<string>)
    ensures Keys(baseline, keys) && missing == Missing(baseline, current, keys)
  {
    keys := ReadNames(baseline.Keys);
    missing := [];
    for n := 0 to |keys|
      invariant missing == Missing(baseline, current, keys[..n])
    {
      assert keys[..n + 1][..n] == keys[..n];
      if keys[n] !in current {
        missing := missing + [baseline[keys[n]].relative];
      }
    }
    assert keys[..|keys|] == keys;
  }

  // ---- Exactness ----

  lemma {:induction false} ChangesMembers(ids: CandidateIDs, baseline: map<string, Entry>, current: map<string, Entry>,
                                          keys: seq<string>, c: Candidate)
    requires forall key :: key in keys ==> key in current
    ensures c in Changes(ids, baseline, current, keys)
            <==> exists key :: key in keys && Change(ids, baseline, key, current[key]) == Some(c)
  {
    if keys != [] {
      var n := |keys| - 1;
      assert keys == keys[..n] + [keys[n]];
      ChangesMembers(ids, baseline, current, keys[..n], c);
      if key :| key in keys && Change(ids, baseline, key, current[key]) == Some(c) {
        assert key == keys[n] || key in keys[..n];
      }
      if key :| key in keys[..n] && Change(ids, baseline, key, current[key]) == Some(c) {
        assert key in keys;
      }
    }
  }

  lemma {:induction false} MissingMembers(baseline: map<string, Entry>, current: map<string, Entry>, keys: seq<string>,
                                          path: string)
    requires forall key :: key in keys ==> key in baseline
    ensures path in Missing(baseline, current, keys)
            <==> exists key :: key in keys && key !in current && baseline[key].relative == path
  {
    if keys != [] {
      var n := |keys| - 1;
      assert keys == keys[..n] + [keys[n]];
      MissingMembers(baseline, current, keys[..n], path);
      if key :| key in keys && key !in current && baseline[key].relative == path {
        assert key == keys[n] || key in keys[..n];
      }
      if key :| key in keys[..n] && key !in current && baseline[key].relative == path {
        assert key in keys;
      }
    }
  }

  /** Reported for a new key, as present, or for a shared key that differs in identity, size, time or
      mode, as changed. */
  ghost predicate Reportable(ids: CandidateIDs, baseline: map<string, Entry>, current: map<string, Entry>,
                             c: Candidate) {
    exists key :: key in current && ReportedFor(ids, baseline, key, current[key], c)
  }

  ghost predicate ReportedFor(ids: CandidateIDs, baseline: map<string, Entry>, key: string, e: Entry, c: Candidate) {
    && StatesEntry(ids, e, c)
    && ((key !in baseline && c.currentStatus.Present? && c.reason == "created after task observation began")
        || (key in baseline && Differs(e, baseline[key]) && c.currentStatus.ChangedSinceReport?
            && c.reason == "changed after task observation began"))
  }

  /** A candidate that states an entry of the file system: a directory as such, anything else as a file. */
  ghost predicate StatesEntry(ids: CandidateIDs, e: Entry, c: Candidate) {
    && (if e.kind.DirectoryEntry? then c.kind.DirectoryKind? else c.kind.FileKind?)
    && c.id == ids(c.kind, e.identity, e.path) && c.path == e.path && c.objectIdentity == e.identity
    && c.sizeBytes == e.size && c.evidenceLevel.BaselineObserved? && c.recommendation == "review"
    && c.process.None? && c.port.None? && c.parentPID == 0
    && c.eventIDs == [] && c.receiptIDs == [] && c.limitations == [] && c.conflicts == []
  }

  /** Identity, size, modification time or mode differ. */
  ghost predicate Differs(a: Entry, b: Entry) {
    a.identity != b.identity || a.size != b.size || a.modTime != b.modTime || a.mode != b.mode
  }

  ghost predicate Vanished(baseline: map<string, Entry>, current: map<string, Entry>, path: string) {
    exists key :: key in baseline && key !in current && baseline[key].relative == path
  }

  lemma ChangesExactly(ids: CandidateIDs, baseline: map<string, Entry>, current: map<string, Entry>, keys: seq<string>,
                       c: Candidate)
    requires Keys(current, keys)
    ensures c in Changes(ids, baseline, current, keys) <==> Reportable(ids, baseline, current, c)
  {
    ChangesMembers(ids, baseline, current, keys, c);
    forall key | key in current
      ensures Change(ids, baseline, key, current[key]) == Some(c)
              <==> ReportedFor(ids, baseline, key, current[key], c) {
      ChangeStatesEntry(ids, baseline, key, current[key], c);
    }
  }

  lemma ChangeStatesEntry(ids: CandidateIDs, baseline: map<string, Entry>, key: string, e: Entry, c: Candidate)
    ensures Change(ids, baseline, key, e) == Some(c) <==> ReportedFor(ids, baseline, key, e, c)
  {
  }

  lemma MissingExactly(baseline: map<string, Entry>, current: map<string, Entry>, keys: seq<string>, path: string)
    requires Keys(baseline, keys)
    ensures path in Missing(baseline, current, keys) <==> Vanished(baseline, current, path)
  {
    MissingMembers(baseline, current, keys, path);
    if key :| key in keys && key !in current && baseline[key].relative == path {
      assert key in baseline;
    }
    if key :| key in baseline && key !in current && baseline[key].relative == path {
      assert key in keys;
    }
  }

  lemma CandidatesExactly(ids: CandidateIDs, baseline: map<string, Entry>, current: map<string, Entry>,
                          candidates: seq<Candidate>, keys: seq<string>)
    requires Keys(current, keys) && multiset(candidates) == multiset(Changes(ids, baseline, current, keys))
    ensures forall c :: c in candidates <==> Reportable(ids, baseline, current, c)
  {
    SameMembers(Changes(ids, baseline, current, keys), candidates);
    forall c ensures c in candidates <==> Reportable(ids, baseline, current, c) {
      ChangesExactly(ids, baseline, current, keys, c);
    }
  }

  lemma RemovedExactly(baseline: map<string, Entry>, current: map<string, Entry>, removed: seq<string>,
                       keys: seq<string>)
    requires Keys(baseline, keys) && multiset(removed) == multiset(Missing(baseline, current, keys))
    ensures forall path :: path in removed <==> Vanished(baseline, current, path)
  {
    SameMembers(Missing(baseline, current, keys), removed);
    forall path ensures path in removed <==> Vanished(baseline, current, path) {
      MissingExactly(baseline, current, keys, path);
    }
  }

  // ---- One report per key ----

  /** New keys and shared keys that differ. */
  ghost function ChangedKeys(baseline: map<string, Entry>, current: map<string, Entry>): set<string> {
    set key | key in current && (key in baseline ==> Differs(current[key], baseline[key]))
  }

  ghost function MissingKeys(baseline: map<string, Entry>, current: map<string, Entry>): set<string> {
    baseline.Keys - current.Keys
  }

  ghost function Among(keys: seq<string>, wanted: set<string>): set<string> {
    set key | key in keys && key in wanted
  }

  lemma AmongNext(keys: seq<string>, wanted: set<string>, n: nat)
    requires n < |keys| && keys[n] !in keys[..n]
    ensures |Among(keys[..n + 1], wanted)| == |Among(keys[..n], wanted)| + if keys[n] in wanted then 1 else 0
  {
    var before, after := Among(keys[..n], wanted), Among(keys[..n + 1], wanted);
    assert keys[..n + 1] == keys[..n] + [keys[n]];
    assert after == if keys[n] in wanted then before + {keys[n]} else before;
  }

  lemma KeysDiffer(m: map<string, Entry>, keys: seq<string>, n: nat)
    requires Keys(m, keys) && n < |keys|
    ensures keys[n] !in keys[..n]
  {
    if keys[n] in keys[..n] {
      var i :| 0 <= i < n && keys[i] == keys[n];
      RepeatedElement(keys, i, n);
    }
  }

  lemma {:induction false} ChangesCount(ids: CandidateIDs, baseline: map<string, Entry>, current: map<string, Entry>,
                                        keys: seq<string>, n: nat)
    requires Keys(current, keys) && n <= |keys|
    ensures |Changes(ids, baseline, current, keys[..n])| == |Among(keys[..n], ChangedKeys(baseline, current))|
  {
    if n > 0 {
      ChangesCount(ids, baseline, current, keys, n - 1);
      KeysDiffer(current, keys, n - 1);
      AmongNext(keys, ChangedKeys(baseline, current), n - 1);
      assert keys[..n][..n - 1] == keys[..n - 1];
    }
  }

  lemma {:induction false} MissingCount(baseline: map<string, Entry>, current: map<string, Entry>, keys: seq<string>,
                                        n: nat)
    requires Keys(baseline, keys) && n <= |keys|
    ensures |Missing(baseline, current, keys[..n])| == |Among(keys[..n], MissingKeys(baseline, current))|
  {
    if n > 0 {
      MissingCount(baseline, current, keys, n - 1);
      KeysDiffer(baseline, keys, n - 1);
      AmongNext(keys, MissingKeys(baseline, current), n - 1);
      assert keys[..n][..n - 1] == keys[..n - 1];
    }
  }

  lemma DiffCounts(ids: CandidateIDs, baseline: map<string, Entry>, current: map<string, Entry>,
                   candidates: seq<Candidate>, removed: seq<string>, keys: seq<string>, gone: seq<string>)
    requires VisitedAs(ids, baseline, current, candidates, removed, keys, gone)
    ensures |candidates| == |ChangedKeys(baseline, current)| && |removed| == |MissingKeys(baseline, current)|
  {
    AllChangesCount(ids, baseline, current, keys);
    AllMissingCount(baseline, current, gone);
    SameMembers(candidates, Changes(ids, baseline, current, keys));
    SameMembers(removed, Missing(baseline, current, gone));
  }

  lemma AmongAll(keys: seq<string>, wanted: set<string>)
    requires forall key :: key in wanted ==> key in keys
    ensures Among(keys, wanted) == wanted
  {
  }

  lemma AllChangesCount(ids: CandidateIDs, baseline: map<string, Entry>, current: map<string, Entry>, keys: seq<string>)
    requires Keys(current, keys)
    ensures |Changes(ids, baseline, current, keys)| == |ChangedKeys(baseline, current)|
  {
    ChangesCount(ids, baseline, current, keys, |keys|);
    assert keys[..|keys|] == keys;
    AmongAll(keys, ChangedKeys(baseline, current));
  }

  lemma AllMissingCount(baseline: map<string, Entry>, current: map<string, Entry>, keys: seq<string>)
    requires Keys(baseline, keys)
    ensures |Missing(baseline, current, keys)| == |MissingKeys(baseline, current)|
  {
    MissingCount(baseline, current, keys, |keys|);
    assert keys[..|keys|] == keys;
    AmongAll(keys, MissingKeys(baseline, current));
  }

  /** Compare reports exactly the changes, and removes exactly what vanished, once per key. */
  lemma DiffIsExact(ids: CandidateIDs, baseline: map<string, Entry>, current: map<string, Entry>,
                    candidates: seq<Candidate>, removed: seq<string>)
    requires DiffOf(ids, baseline, current, candidates, removed)
    ensures forall c :: c in candidates <==> Reportable(ids, baseline, current, c)
    ensures forall path :: path in removed <==> Vanished(baseline, current, path)
    ensures |candidates| == |ChangedKeys(baseline, current)| && |removed| == |MissingKeys(baseline, current)|
  {
    var keys, gone :| VisitedAs(ids, baseline, current, candidates, removed, keys, gone);
    CandidatesExactly(ids, baseline, current, candidates, keys);
    RemovedExactly(baseline, current, removed, gone);
    DiffCounts(ids, baseline, current, candidates, removed, keys, gone);
  }

  /** The two maps agree on their keys and on the four compared fields. */
  ghost predicate SameObjects(baseline: map<string, Entry>, current: map<string, Entry>) {
    && baseline.Keys == current.Keys
    && forall key :: key in current ==> key in baseline && !Differs(current[key], baseline[key])
  }

  /** An empty difference means that nothing changed, and the other way round. */
  lemma EmptyDiffMeansUnchanged(ids: CandidateIDs, baseline: map<string, Entry>, current: map<string, Entry>,
                                candidates: seq<Candidate>, removed: seq<string>)
    requires DiffOf(ids, baseline, current, candidates, removed)
    ensures candidates == [] && removed == [] <==> SameObjects(baseline, current)
  {
    DiffIsExact(ids, baseline, current, candidates, removed);
    NothingReportable(ids, baseline, current);
    if candidates != [] {
      assert candidates[0] in candidates;
    }
    if removed != [] {
      assert removed[0] in removed;
    }
  }

  lemma NothingReportable(ids: CandidateIDs, baseline: map<string, Entry>, current: map<string, Entry>)
    ensures SameObjects(baseline, current)
            <==> (forall c :: !Reportable(ids, baseline, current, c))
                 && (forall path :: !Vanished(baseline, current, path))
  {
    if (forall c :: !Reportable(ids, baseline, current, c)) && (forall path :: !Vanished(baseline, current, path)) {
      forall key | key in current ensures key in baseline && !Differs(current[key], baseline[key]) {
        var created := CandidateFor(ids, current[key], Present, CREATED);
        var changed := CandidateFor(ids, current[key], ChangedSinceReport, CHANGED);
        assert !Reportable(ids, baseline, current, created) && !Reportable(ids, baseline, current, changed);
        assert !ReportedFor(ids, baseline, key, current[key], created);
        assert !ReportedFor(ids, baseline, key, current[key], changed);
      }
      forall key | key in baseline ensures key in current {
        assert !Vanished(baseline, current, baseline[key].relative);
      }
    }
  }
}
