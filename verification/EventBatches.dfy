/** internal/event and internal/app: a batch of task events becomes a sorted list of summaries, for owners
    (Normalize) and for executors (normalizeExecutorEvents). */
module EventBatches {
  import opened Text
  import opened Contract
  import opened Sorting
  import opened Paths
  import opened Scope
  import opened ScopedPaths
  import opened ExecutorPaths

  const MAX_BATCH_EVENTS := 1000

  /** By time, then by event ID. */
  predicate TimeIdLe(a: Summary, b: Summary) {
    if a.timestamp == b.timestamp then LexLe(a.eventID, b.eventID) else a.timestamp < b.timestamp
  }

  lemma TimeIdLePreorder()
    ensures TotalPreorder(TimeIdLe)
  {
    forall a: Summary, b: Summary ensures TimeIdLe(a, b) || TimeIdLe(b, a) {
      LexLessTotal(a.eventID, b.eventID);
    }
    forall a: Summary, b: Summary, c: Summary | TimeIdLe(a, b) && TimeIdLe(b, c) ensures TimeIdLe(a, c) {
      if a.eventID != b.eventID && b.eventID != c.eventID && a.timestamp == b.timestamp == c.timestamp {
        LexLessTransitive(a.eventID, b.eventID, c.eventID);
      }
    }
  }

  // ---- Batches in general ----

  /** How one event is normalised; it keeps the event's ID. */
  type Normalizer = TaskEvent -> Option<Summary>

  ghost predicate KeepsIDs(one: Normalizer) {
    forall e :: one(e).Some? ==> one(e).value.eventID == e.eventID
  }

  function EventID(e: TaskEvent): string { e.eventID }

  /** A batch is accepted when it is small enough, every event is, and no ID repeats. */
  ghost predicate Acceptable(batch: seq<TaskEvent>, one: Normalizer) {
    && |batch| <= MAX_BATCH_EVENTS
    && (forall e :: e in batch ==> one(e).Some?)
    && DistinctKeys(batch, EventID)
  }

  function Get(one: Normalizer): TaskEvent -> Summary {
    e => match one(e) case Some(s) => s case None => Summary("", CommandStarted, 0, "", "", None, None, [], "")
  }

  ghost predicate BatchResult(batch: seq<TaskEvent>, one: Normalizer, r: Option<seq<Summary>>) {
    && (r.Some? <==> Acceptable(batch, one))
    && (r.Some? ==> SortOf(MapSeq(Get(one), batch), r.value, TimeIdLe))
  }

  /** The loop shared by both operations: reject on the first bad event or repeated ID, then sort. */
  method NormalizeBatch(batch: seq<TaskEvent>, one: Normalizer) returns (r: Option<seq<Summary>>)
    ensures BatchResult(batch, one, r)
  {
    if |batch| > MAX_BATCH_EVENTS {
      return None;
    }
    var summaries := CollectSummaries(batch, one);
    if summaries.None? {
      return None;
    }
    TimeIdLePreorder();
    var sorted := SortSlice(summaries.value, TimeIdLe);
    return Some(sorted);
  }

  method CollectSummaries(batch: seq<TaskEvent>, one: Normalizer) returns (r: Option<seq<Summary>>)
    ensures r.Some? <==> (forall e :: e in batch ==> one(e).Some?) && DistinctKeys(batch, EventID)
    ensures r.Some? ==> r.value == MapSeq(Get(one), batch)
  {
    var seen: set<string> := {};
    var summaries: seq<Summary> := [];
    for index := 0 to |batch|
      invariant forall i :: 0 <= i < index ==> one(batch[i]).Some?
      invariant forall id :: id in seen <==> exists i :: 0 <= i < index && EventID(batch[i]) == id
      invariant forall i, j :: 0 <= i < j < index ==> EventID(batch[i]) != EventID(batch[j])
      invariant summaries == MapSeq(Get(one), batch[..index])
    {
      var e := batch[index];
      assert e in batch;
      assert batch[..index + 1][..index] == batch[..index];
      var summary := one(e);
      if summary.None? {
        return None;
      }
      if EventID(e) in seen {
        return None;
      }
      seen := seen + {EventID(e)};
      summaries := summaries + [summary.value];
    }
    assert batch[..|batch|] == batch;
    return Some(summaries);
  }

  /** A batch is accepted or rejected independently of its order, and every permutation of an accepted
      batch gives the same sequence. */
  lemma BatchOrderIndependent(a: seq<TaskEvent>, b: seq<TaskEvent>, one: Normalizer,
                              ra: Option<seq<Summary>>, rb: Option<seq<Summary>>)
    requires multiset(a) == multiset(b) && KeepsIDs(one)
    requires BatchResult(a, one, ra) && BatchResult(b, one, rb)
    ensures ra == rb
  {
    SameMembers(a, b);
    if DistinctKeys(a, EventID) {
      DistinctKeysPermuted(a, b, EventID);
    }
    if DistinctKeys(b, EventID) {
      DistinctKeysPermuted(b, a, EventID);
    }
    if ra.Some? {
      MapSeqPermuted(Get(one), a, b);
      SummariesTieFree(a, one, ra.value);
      TimeIdLePreorder();
      SortUnique(ra.value, rb.value, TimeIdLe);
    }
  }

  lemma SummariesTieFree(batch: seq<TaskEvent>, one: Normalizer, sorted: seq<Summary>)
    requires KeepsIDs(one) && Acceptable(batch, one) && multiset(sorted) == multiset(MapSeq(Get(one), batch))
    ensures TieFree(sorted, TimeIdLe)
  {
    var mapped := MapSeq(Get(one), batch);
    SameMembers(sorted, mapped);
    forall x, y | x in sorted && y in sorted && TimeIdLe(x, y) && TimeIdLe(y, x) ensures x == y {
      LexLessTotal(x.eventID, y.eventID);
      var i :| 0 <= i < |mapped| && mapped[i] == x;
      var j :| 0 <= j < |mapped| && mapped[j] == y;
      assert batch[i] in batch && batch[j] in batch;
      assert EventID(batch[i]) == x.eventID && EventID(batch[j]) == y.eventID;
    }
  }

  // ---- The owner's events ----

  function NormalizeOutputs(fs: FileSystem, outputs: seq<string>, base: string, roots: seq<Root>): Option<seq<string>>
    requires ValidFileSystem(fs) && CleanRoots(roots)
  {
    if outputs == [] then Some([])
    else
      match NormalizeScopedPath(fs, outputs[0], base, roots)
      case None => None
      case Some(first) =>
        match NormalizeOutputs(fs, outputs[1..], base, roots)
        case None => None
        case Some(rest) => Some([first] + rest)
  }

  /** One step of the loop of Normalize. */
  function NormalizeEvent(fs: FileSystem, e: TaskEvent, validated: Validated): Option<Summary>
    requires ValidFileSystem(fs) && CleanRoots(validated.roots) && validated.roots != []
  {
    if !ValidEvent(e) || e.taskID != validated.taskID then None
    else
      var workingDir := if e.workingDir == "" then Some("")
                        else NormalizeScopedPath(fs, e.workingDir, "", validated.roots);
      if workingDir.None? then None
      else
        var base := if workingDir.value == "" then validated.roots[0].path else workingDir.value;
        match NormalizeOutputs(fs, e.declaredOutputs, base, validated.roots)
        case None => None
        case Some(outputs) =>
          Some(Summary(e.eventID, e.eventType, e.timestamp, workingDir.value, e.commandFingerprint, e.exitCode,
                       e.process, outputs, e.receiptID))
  }

  function OwnerNormalizer(fs: FileSystem, validated: Validated): Normalizer
    requires ValidFileSystem(fs) && CleanRoots(validated.roots) && validated.roots != []
  {
    e => NormalizeEvent(fs, e, validated)
  }

  /** Normalize. */
  method Normalize(fs: FileSystem, batch: seq<TaskEvent>, validated: Validated) returns (r: Option<seq<Summary>>)
    requires ValidFileSystem(fs) && CleanRoots(validated.roots) && validated.roots != []
    ensures BatchResult(batch, OwnerNormalizer(fs, validated), r)
    ensures BatchAs(batch, OwnerReading(fs, validated), r)
    ensures r.Some? ==> forall s :: s in r.value ==> OwnerPaths(s) && SummaryInScope(fs, s, validated.roots)
  {
    r := NormalizeBatch(batch, OwnerNormalizer(fs, validated));
    OwnerBatchExactly(fs, batch, validated, r);
    if r.Some? {
      ResultsInScope(fs, batch, validated, r.value);
    }
  }

  ghost predicate SummaryInScope(fs: FileSystem, s: Summary, roots: seq<Root>)
    requires ValidFileSystem(fs) && CleanRoots(roots)
  {
    && (s.workingDir != "" ==> InScope(fs, s.workingDir, roots))
    && (forall output :: output in s.declaredOutputs ==> InScope(fs, output, roots))
  }

  lemma {:induction false} OutputsInScope(fs: FileSystem, outputs: seq<string>, base: string, roots: seq<Root>)
    requires ValidFileSystem(fs) && CleanRoots(roots) && IsAbs(base)
    requires NormalizeOutputs(fs, outputs, base, roots).Some?
    ensures forall output :: output in NormalizeOutputs(fs, outputs, base, roots).value ==> InScope(fs, output, roots)
  {
    if outputs != [] {
      NormalizedPathInScope(fs, outputs[0], base, roots);
      OutputsInScope(fs, outputs[1..], base, roots);
    }
  }

  /** Every path of a normalised owner event is clean, absolute and in scope. */
  lemma NormalizedEventInScope(fs: FileSystem, e: TaskEvent, validated: Validated)
    requires ValidFileSystem(fs) && CleanRoots(validated.roots) && validated.roots != []
    requires NormalizeEvent(fs, e, validated).Some?
    ensures var s := NormalizeEvent(fs, e, validated).value;
            && OwnerPaths(s) && SummaryInScope(fs, s, validated.roots)
            && s.eventID == e.eventID && s.timestamp == e.timestamp
  {
    var s := NormalizeEvent(fs, e, validated).value;
    assert validated.roots[0] in validated.roots;
    if e.workingDir != "" {
      NormalizedPathInScope(fs, e.workingDir, "", validated.roots);
    }
    OutputsInScope(fs, e.declaredOutputs, if s.workingDir == "" then validated.roots[0].path else s.workingDir,
                   validated.roots);
  }

  lemma ResultsInScope(fs: FileSystem, batch: seq<TaskEvent>, validated: Validated, sorted: seq<Summary>)
    requires ValidFileSystem(fs) && CleanRoots(validated.roots) && validated.roots != []
    requires BatchResult(batch, OwnerNormalizer(fs, validated), Some(sorted))
    ensures forall s :: s in sorted ==> OwnerPaths(s) && SummaryInScope(fs, s, validated.roots)
  {
    var one := OwnerNormalizer(fs, validated);
    var mapped := MapSeq(Get(one), batch);
    SameMembers(sorted, mapped);
    forall s | s in sorted ensures OwnerPaths(s) && SummaryInScope(fs, s, validated.roots) {
      var i :| 0 <= i < |mapped| && mapped[i] == s;
      assert batch[i] in batch;
      NormalizedEventInScope(fs, batch[i], validated);
    }
  }

  lemma OwnerNormalizerKeepsIDs(fs: FileSystem, validated: Validated)
    requires ValidFileSystem(fs) && CleanRoots(validated.roots) && validated.roots != []
    ensures KeepsIDs(OwnerNormalizer(fs, validated))
  {
    forall e | OwnerNormalizer(fs, validated)(e).Some?
      ensures OwnerNormalizer(fs, validated)(e).value.eventID == e.eventID
    {
      NormalizedEventInScope(fs, e, validated);
    }
  }

  /** Normalize gives one answer for all orders of a batch. */
  lemma NormalizeOrderIndependent(fs: FileSystem, a: seq<TaskEvent>, b: seq<TaskEvent>, validated: Validated,
                                  ra: Option<seq<Summary>>, rb: Option<seq<Summary>>)
    requires ValidFileSystem(fs) && CleanRoots(validated.roots) && validated.roots != []
    requires multiset(a) == multiset(b)
    requires BatchResult(a, OwnerNormalizer(fs, validated), ra) && BatchResult(b, OwnerNormalizer(fs, validated), rb)
    ensures ra == rb
  {
    OwnerNormalizerKeepsIDs(fs, validated);
    BatchOrderIndependent(a, b, OwnerNormalizer(fs, validated), ra, rb);
  }

  // ---- Exactly what becomes of one event ----

  /** Everything but the paths is copied. */
  ghost predicate Copied(e: TaskEvent, s: Summary) {
    && s.eventID == e.eventID && s.eventType == e.eventType && s.timestamp == e.timestamp
    && s.commandFingerprint == e.commandFingerprint && s.exitCode == e.exitCode && s.process == e.process
    && s.receiptID == e.receiptID
  }

  /** `s` is the event as the owner's task sees it: a valid event of this task, its working directory made
      clean and in scope, and each output likewise, relative to the working directory or, without one, to the
      workspace. */
  ghost predicate NormalizedAs(fs: FileSystem, e: TaskEvent, validated: Validated, s: Summary)
    requires validated.roots != []
  {
    && ValidEvent(e) && e.taskID == validated.taskID && Copied(e, s)
    && (if e.workingDir == "" then s.workingDir == ""
        else ScopedAs(fs, e.workingDir, "", validated.roots, s.workingDir))
    && OutputsAs(fs, e.declaredOutputs, if e.workingDir == "" then validated.roots[0].path else s.workingDir,
                 validated.roots, s.declaredOutputs)
  }

  ghost predicate OutputsAs(fs: FileSystem, outputs: seq<string>, base: string, roots: seq<Root>, r: seq<string>) {
    |r| == |outputs| && forall k :: 0 <= k < |outputs| ==> ScopedAs(fs, outputs[k], base, roots, r[k])
  }

  lemma {:induction false} OutputsExactly(fs: FileSystem, outputs: seq<string>, base: string, roots: seq<Root>,
                                          r: seq<string>)
    requires ValidFileSystem(fs) && CleanRoots(roots) && IsAbs(base)
    ensures NormalizeOutputs(fs, outputs, base, roots) == Some(r) <==> OutputsAs(fs, outputs, base, roots, r)
  {
    if outputs != [] && r != [] {
      ScopedPathExactly(fs, outputs[0], base, roots, r[0]);
      OutputsExactly(fs, outputs[1..], base, roots, r[1..]);
      assert r == [r[0]] + r[1..];
      OutputsSplit(fs, outputs, base, roots, r);
    }
  }

  lemma OutputsSplit(fs: FileSystem, outputs: seq<string>, base: string, roots: seq<Root>, r: seq<string>)
    requires outputs != [] && r != []
    ensures OutputsAs(fs, outputs, base, roots, r)
       <==> ScopedAs(fs, outputs[0], base, roots, r[0]) && OutputsAs(fs, outputs[1..], base, roots, r[1..])
  {
    if ScopedAs(fs, outputs[0], base, roots, r[0]) && OutputsAs(fs, outputs[1..], base, roots, r[1..]) {
      forall k | 0 <= k < |outputs| ensures ScopedAs(fs, outputs[k], base, roots, r[k]) {
        assert k > 0 ==> outputs[k] == outputs[1..][k - 1] && r[k] == r[1..][k - 1];
      }
    }
  }

  /** One event: accepted if and only if it can be normalised, and then as just that. */
  lemma NormalizedExactly(fs: FileSystem, e: TaskEvent, validated: Validated, s: Summary)
    requires ValidFileSystem(fs) && CleanRoots(validated.roots) && validated.roots != []
    ensures NormalizeEvent(fs, e, validated) == Some(s) <==> NormalizedAs(fs, e, validated, s)
  {
    assert validated.roots[0] in validated.roots;
    if e.workingDir == "" {
      OutputsExactly(fs, e.declaredOutputs, validated.roots[0].path, validated.roots, s.declaredOutputs);
      CopiedExactly(fs, e, validated, s, validated.roots[0].path);
    } else {
      ScopedPathExactly(fs, e.workingDir, "", validated.roots, s.workingDir);
      if ScopedAs(fs, e.workingDir, "", validated.roots, s.workingDir) {
        RenderedIsAbs(s.workingDir, e.workingDir);
        OutputsExactly(fs, e.declaredOutputs, s.workingDir, validated.roots, s.declaredOutputs);
        CopiedExactly(fs, e, validated, s, s.workingDir);
      } else {
        ElsewhereDirectory(fs, e, validated, s);
      }
    }
  }

  /** Once the working directory is settled, the outputs and the copied fields decide. */
  lemma CopiedExactly(fs: FileSystem, e: TaskEvent, validated: Validated, s: Summary, base: string)
    requires ValidFileSystem(fs) && CleanRoots(validated.roots) && validated.roots != []
    requires if e.workingDir == "" then base == validated.roots[0].path
             else NormalizeScopedPath(fs, e.workingDir, "", validated.roots) == Some(base) && base != ""
    requires e.workingDir != "" ==> s.workingDir == base
    ensures NormalizeEvent(fs, e, validated) == Some(s) <==>
            && ValidEvent(e) && e.taskID == validated.taskID && Copied(e, s)
            && (e.workingDir == "" ==> s.workingDir == "")
            && NormalizeOutputs(fs, e.declaredOutputs, base, validated.roots) == Some(s.declaredOutputs)
  {
  }

  lemma ElsewhereDirectory(fs: FileSystem, e: TaskEvent, validated: Validated, s: Summary)
    requires ValidFileSystem(fs) && CleanRoots(validated.roots) && validated.roots != []
    requires e.workingDir != "" && NormalizeScopedPath(fs, e.workingDir, "", validated.roots) != Some(s.workingDir)
    ensures NormalizeEvent(fs, e, validated) != Some(s)
  {
  }

  lemma RenderedIsAbs(p: string, raw: string)
    requires p == Render(true, Elements(raw))
    ensures IsAbs(p) && p != ""
  {
  }

  /** By time, then by event ID. */
  ghost predicate InTimeOrder(result: seq<Summary>) {
    forall i, j :: 0 <= i < j < |result| ==>
                     || result[i].timestamp < result[j].timestamp
                     || (result[i].timestamp == result[j].timestamp && LexLe(result[i].eventID, result[j].eventID))
  }

  /** The batch as a whole, for any reading of single events: small enough, all of them read, no ID twice; the
      result holds one reading per event, in order of time and ID. */
  ghost predicate BatchAs(batch: seq<TaskEvent>, reading: (TaskEvent, Summary) -> bool, r: Option<seq<Summary>>) {
    && (r.Some? <==>
          && |batch| <= 1000 && (forall e :: e in batch ==> exists s :: reading(e, s))
          && forall i, j :: 0 <= i < j < |batch| ==> batch[i].eventID != batch[j].eventID)
    && (r.Some? ==>
          && |r.value| == |batch| && InTimeOrder(r.value)
          && (forall s :: s in r.value ==> exists e :: e in batch && reading(e, s))
          && (forall e :: e in batch ==> exists s :: s in r.value && reading(e, s)))
  }

  lemma BatchExactly(batch: seq<TaskEvent>, one: Normalizer, reading: (TaskEvent, Summary) -> bool,
                     r: Option<seq<Summary>>)
    requires BatchResult(batch, one, r) && forall e, s :: one(e) == Some(s) <==> reading(e, s)
    ensures BatchAs(batch, reading, r)
  {
    ReadingsExist(batch, one, reading);
    if r.Some? {
      TimeOrder(r.value);
      ReadingsKept(batch, one, reading, r.value);
    }
  }

  lemma ReadingsExist(batch: seq<TaskEvent>, one: Normalizer, reading: (TaskEvent, Summary) -> bool)
    requires forall e, s :: one(e) == Some(s) <==> reading(e, s)
    ensures (forall e :: e in batch ==> one(e).Some?) <==> forall e :: e in batch ==> exists s :: reading(e, s)
    ensures DistinctKeys(batch, EventID)
            <==> forall i, j :: 0 <= i < j < |batch| ==> batch[i].eventID != batch[j].eventID
  {
    forall e ensures one(e).Some? <==> exists s :: reading(e, s) {
      if one(e).Some? {
        assert reading(e, one(e).value);
      }
    }
  }

  lemma TimeOrder(result: seq<Summary>)
    requires Ordered(result, TimeIdLe)
    ensures InTimeOrder(result)
  {
    forall i, j | 0 <= i < j < |result|
      ensures || result[i].timestamp < result[j].timestamp
              || (result[i].timestamp == result[j].timestamp && LexLe(result[i].eventID, result[j].eventID))
    {
      assert TimeIdLe(result[i], result[j]);
    }
  }

  lemma ReadingsKept(batch: seq<TaskEvent>, one: Normalizer, reading: (TaskEvent, Summary) -> bool,
                     result: seq<Summary>)
    requires forall e, s :: one(e) == Some(s) <==> reading(e, s)
    requires (forall e :: e in batch ==> one(e).Some?) && multiset(result) == multiset(MapSeq(Get(one), batch))
    ensures |result| == |batch|
    ensures forall s :: s in result ==> exists e :: e in batch && reading(e, s)
    ensures forall e :: e in batch ==> exists s :: s in result && reading(e, s)
  {
    SameMembers(result, MapSeq(Get(one), batch));
    forall s | s in result ensures exists e :: e in batch && reading(e, s) {
      ReadFromEvent(batch, one, s);
    }
    forall e | e in batch ensures exists s :: s in result && reading(e, s) {
      EventIsRead(batch, one, e);
    }
  }

  lemma ReadFromEvent(batch: seq<TaskEvent>, one: Normalizer, s: Summary)
    requires (forall e :: e in batch ==> one(e).Some?) && s in MapSeq(Get(one), batch)
    ensures exists e :: e in batch && one(e) == Some(s)
  {
    var i :| 0 <= i < |batch| && MapSeq(Get(one), batch)[i] == s;
    assert batch[i] in batch;
  }

  lemma EventIsRead(batch: seq<TaskEvent>, one: Normalizer, e: TaskEvent)
    requires e in batch && one(e).Some?
    ensures one(e).value in MapSeq(Get(one), batch)
  {
    var i :| 0 <= i < |batch| && batch[i] == e;
    assert MapSeq(Get(one), batch)[i] == one(e).value;
  }

  ghost function OwnerReading(fs: FileSystem, validated: Validated): (TaskEvent, Summary) -> bool
    requires validated.roots != []
  {
    (e, s) => NormalizedAs(fs, e, validated, s)
  }

  lemma OwnerBatchExactly(fs: FileSystem, batch: seq<TaskEvent>, validated: Validated, r: Option<seq<Summary>>)
    requires ValidFileSystem(fs) && CleanRoots(validated.roots) && validated.roots != []
    requires BatchResult(batch, OwnerNormalizer(fs, validated), r)
    ensures BatchAs(batch, OwnerReading(fs, validated), r)
  {
    var one, reading := OwnerNormalizer(fs, validated), OwnerReading(fs, validated);
    forall e, s ensures one(e) == Some(s) <==> reading(e, s) {
      NormalizedExactly(fs, e, validated, s);
    }
    BatchExactly(batch, one, reading, r);
  }

  // ---- The executor's events ----

  predicate AllowedEvent(e: TaskEvent, allowed: seq<string>) {
    && (e.workingDir != "" ==> SafeAlias(e.workingDir) && AllowedAlias(allowed, e.workingDir))
    && forall output :: output in e.declaredOutputs ==> SafeAlias(output) && AllowedAlias(allowed, output)
  }

  /** One step of the loop of normalizeExecutorEvents: aliases are kept as they are. */
  function ExecutorNormalizer(allowed: seq<string>): Normalizer {
    e => if !ValidEvent(e) || !AllowedEvent(e, allowed) then None
         else Some(Summary(e.eventID, e.eventType, e.timestamp, e.workingDir, e.commandFingerprint, e.exitCode,
                           e.process, e.declaredOutputs, e.receiptID))
  }

  /** `s` is the executor's event as it is stored: a valid event whose paths are all safe aliases that an
      allowed root covers, copied as it is. */
  ghost predicate TakenAs(e: TaskEvent, allowed: seq<string>, s: Summary) {
    && ValidEvent(e) && Copied(e, s) && s.workingDir == e.workingDir && s.declaredOutputs == e.declaredOutputs
    && AllowedPaths(allowed, s)
  }

  ghost function ExecutorReading(allowed: seq<string>): (TaskEvent, Summary) -> bool {
    (e, s) => TakenAs(e, allowed, s)
  }

  lemma ExecutorBatchExactly(batch: seq<TaskEvent>, allowed: seq<string>, r: Option<seq<Summary>>)
    requires BatchResult(batch, ExecutorNormalizer(allowed), r)
    ensures BatchAs(batch, ExecutorReading(allowed), r)
  {
    forall e, s ensures ExecutorNormalizer(allowed)(e) == Some(s) <==> ExecutorReading(allowed)(e, s) {
      TakenExactly(e, allowed, s);
    }
    BatchExactly(batch, ExecutorNormalizer(allowed), ExecutorReading(allowed), r);
  }

  lemma TakenExactly(e: TaskEvent, allowed: seq<string>, s: Summary)
    ensures ExecutorNormalizer(allowed)(e) == Some(s) <==> TakenAs(e, allowed, s)
  {
  }

  /** normalizeExecutorEvents. */
  method NormalizeExecutorEvents(batch: seq<TaskEvent>, allowed: seq<string>) returns (r: Option<seq<Summary>>)
    ensures BatchResult(batch, ExecutorNormalizer(allowed), r)
    ensures BatchAs(batch, ExecutorReading(allowed), r)
    ensures r.Some? ==> forall s :: s in r.value ==> AllowedPaths(allowed, s)
  {
    r := NormalizeBatch(batch, ExecutorNormalizer(allowed));
    ExecutorBatchExactly(batch, allowed, r);
    if r.Some? {
      TakenAreAllowed(batch, allowed, r.value);
    }
  }

  lemma TakenAreAllowed(batch: seq<TaskEvent>, allowed: seq<string>, result: seq<Summary>)
    requires forall s :: s in result ==> exists e :: e in batch && ExecutorReading(allowed)(e, s)
    ensures forall s :: s in result ==> AllowedPaths(allowed, s)
  {
    forall s | s in result ensures AllowedPaths(allowed, s) {
      var e :| e in batch && ExecutorReading(allowed)(e, s);
      assert TakenAs(e, allowed, s);
    }
  }

  lemma ExecutorOrderIndependent(a: seq<TaskEvent>, b: seq<TaskEvent>, allowed: seq<string>,
                                 ra: Option<seq<Summary>>, rb: Option<seq<Summary>>)
    requires multiset(a) == multiset(b)
    requires BatchResult(a, ExecutorNormalizer(allowed), ra) && BatchResult(b, ExecutorNormalizer(allowed), rb)
    ensures ra == rb
  {
    BatchOrderIndependent(a, b, ExecutorNormalizer(allowed), ra, rb);
  }
}
