/** internal/fsobserve: a bounded walk of the roots into a map, and the exact difference of two such maps. */
module FsObserve {
  import opened Text
  import opened Contract
  import opened Decimal
  import opened Sorting
  import opened Sums
  import opened Paths

  datatype EntryKind = FileEntry | DirectoryEntry | SymlinkEntry

  datatype Entry = Entry(rootIndex: nat, relative: string, path: string, kind: EntryKind, identity: string,
                         size: nat, modTime: Time, mode: nat)

  /** One callback of the directory walk: a failure, or an object below the root. */
  datatype Visit = Failed | Object(relative: string, path: string, kind: EntryKind, identity: string,
                                   size: nat, modTime: Time, mode: nat)

  /** What walking one root yields: the root's own identity and the callbacks in order. */
  datatype RootWalk = RootWalk(rootID: Option<string>, visits: seq<Visit>)

  datatype Limits = Limits(maxEntries: nat, maxBytes: nat)

  // ---- Keys ----

  function EntryKey(rootIndex: nat, relative: string): string {
    Itoa(rootIndex) + ":" + Clean(relative)
  }

  /** A key tells the root and the cleaned relative path. */
  lemma EntryKeyInjective(i: nat, a: string, j: nat, b: string)
    requires EntryKey(i, a) == EntryKey(j, b)
    ensures i == j && Clean(a) == Clean(b)
  {
    var key := EntryKey(i, a);
    ItoaLetters(i);
    ItoaLetters(j);
    SplitWhole(Itoa(i), ':');
    SplitWhole(Itoa(j), ':');
    assert key == Itoa(i) + [':'] + Clean(a) && key == Itoa(j) + [':'] + Clean(b);
    SplitConcat(Itoa(i), Clean(a), ':');
    SplitConcat(Itoa(j), Clean(b), ':');
    assert Split(key, ':')[0] == Itoa(i) && Split(key, ':')[0] == Itoa(j);
    ItoaInjective(i, j);
    assert key[|Itoa(i)| + 1..] == Clean(a) && key[|Itoa(j)| + 1..] == Clean(b);
  }

  // ---- Snapshot ----

  function EntryOf(rootIndex: nat, o: Visit): Entry
    requires o.Object?
  {
    Entry(rootIndex, o.relative, o.path, o.kind, o.identity, o.size, o.modTime, o.mode)
  }

  function KeyOf(e: Entry): string { EntryKey(e.rootIndex, e.relative) }
  function SizeOf(e: Entry): nat { e.size }

  /** The entries that the first `k` callbacks of root `i` ask for. */
  ghost function Walked(rootIndex: nat, visits: seq<Visit>): seq<Entry> {
    if visits == [] then []
    else
      var last := visits[|visits| - 1];
      Walked(rootIndex, visits[..|visits| - 1]) + if last.Object? then [EntryOf(rootIndex, last)] else []
  }

  ghost function AllWalked(roots: seq<RootWalk>): seq<Entry> {
    if roots == [] then [] else AllWalked(roots[..|roots| - 1]) + Walked(|roots| - 1, roots[|roots| - 1].visits)
  }

  /** The map that a list of entries leaves. */
  ghost function MapBy(key: Entry -> string, entries: seq<Entry>): map<string, Entry> {
    if entries == [] then map[]
    else MapBy(key, entries[..|entries| - 1])[key(entries[|entries| - 1]) := entries[|entries| - 1]]
  }

  ghost function MapOf(entries: seq<Entry>): map<string, Entry> {
    MapBy(KeyOf, entries)
  }

  ghost predicate SnapshotOf(roots: seq<RootWalk>, limits: Limits, entries: map<string, Entry>, totalBytes: nat) {
    && entries == MapOf(AllWalked(roots)) && |entries| <= limits.maxEntries
    && totalBytes == SumSeq(SizeOf, AllWalked(roots)) && totalBytes <= limits.maxBytes
    && forall i :: 0 <= i < |roots| ==> Failed !in roots[i].visits
  }

  /** A reason to give up: an unreadable root or object, too many objects, or too many bytes. */
  ghost predicate Refusal(roots: seq<RootWalk>, limits: Limits) {
    || (exists i :: 0 <= i < |roots| && (roots[i].rootID.None? || Failed in roots[i].visits))
    || |AllWalked(roots)| > limits.maxEntries
    || SumSeq(SizeOf, AllWalked(roots)) > limits.maxBytes
  }

  /** snapshot. A success has seen every object, stayed within both limits and kept each entry under
      its key; a failure has a reason. */
  method Snapshot(roots: seq<RootWalk>, limits: Limits)
    returns (r: Option<(map<string, Entry>, seq<string>)>, ghost totalBytes: nat)
    ensures r.Some? ==> SnapshotOf(roots, limits, r.value.0, totalBytes)
    ensures r.None? ==> Refusal(roots, limits)
    ensures r.Some? ==> |r.value.1| == |roots|
    ensures r.Some? ==> forall i :: 0 <= i < |roots| ==> roots[i].rootID == Some(r.value.1[i])
  {
    var entries: map<string, Entry> := map[];
    var rootIDs: seq<string> := [];
    var bytes := 0;
    totalBytes := 0;
    NoRoots(roots[..0], limits);
    for rootIndex := 0 to |roots|
      invariant Progress(roots[..rootIndex], limits, entries, bytes, rootIDs)
    {
      var observed := ObserveRoot(roots, rootIndex, entries, bytes, rootIDs, limits);
      if observed.None? {
        return None, 0;
      }
      entries, bytes, rootIDs := observed.value.0, observed.value.1, observed.value.2;
    }
    assert roots[..|roots|] == roots;
    r, totalBytes := Some((entries, rootIDs)), bytes;
  }

  /** The roots walked so far, with their identities. */
  ghost predicate Progress(roots: seq<RootWalk>, limits: Limits, entries: map<string, Entry>, bytes: nat,
                           rootIDs: seq<string>) {
    && SnapshotOf(roots, limits, entries, bytes)
    && |rootIDs| == |roots| && forall i :: 0 <= i < |roots| ==> roots[i].rootID == Some(rootIDs[i])
  }

  lemma NextIdentity(roots: seq<RootWalk>, k: nat, rootIDs: seq<string>, rootID: string)
    requires k < |roots| && |rootIDs| == k && roots[k].rootID == Some(rootID)
    requires forall i :: 0 <= i < k ==> roots[..k][i].rootID == Some(rootIDs[i])
    ensures forall i :: 0 <= i < k + 1 ==> roots[..k + 1][i].rootID == Some((rootIDs + [rootID])[i])
  {
    forall i | 0 <= i < k + 1 ensures roots[..k + 1][i].rootID == Some((rootIDs + [rootID])[i]) {
      if i < k {
        assert roots[..k][i] == roots[i];
      }
    }
  }

  method ObserveRoot(roots: seq<RootWalk>, k: nat, entries: map<string, Entry>, bytes: nat, rootIDs: seq<string>,
                     limits: Limits)
    returns (r: Option<(map<string, Entry>, nat, seq<string>)>)
    requires k < |roots| && Progress(roots[..k], limits, entries, bytes, rootIDs)
    ensures r.Some? ==> Progress(roots[..k + 1], limits, r.value.0, r.value.1, r.value.2)
    ensures r.None? ==> Refusal(roots, limits)
  {
    if roots[k].rootID.None? {
      return None;
    }
    var walked := WalkRoot(k, roots[k].visits, AllWalked(roots[..k]), entries, bytes, limits);
    if walked.Some? {
      NextRoot(roots, k, limits, entries, bytes, walked.value.0, walked.value.1);
      NextIdentity(roots, k, rootIDs, roots[k].rootID.value);
      r := Some((walked.value.0, walked.value.1, rootIDs + [roots[k].rootID.value]));
    } else {
      WalkRefused(roots, k, limits);
      r := None;
    }
  }

  lemma WalkRefused(roots: seq<RootWalk>, k: nat, limits: Limits)
    requires k < |roots|
    requires var all := AllWalked(roots[..k]) + Walked(k, roots[k].visits);
             Failed in roots[k].visits || |all| > limits.maxEntries || SumSeq(SizeOf, all) > limits.maxBytes
    ensures Refusal(roots, limits)
  {
    AllWalkedPrefix(roots, k + 1);
    SumSeqPrefix(SizeOf, AllWalked(roots[..k + 1]), AllWalked(roots));
    assert roots[..k + 1][..k] == roots[..k];
  }

  lemma {:induction false} AllWalkedPrefix(roots: seq<RootWalk>, k: nat)
    requires k <= |roots|
    ensures AllWalked(roots[..k]) <= AllWalked(roots)
  {
    if k == |roots| {
      assert roots[..k] == roots;
    } else {
      var n := |roots| - 1;
      assert roots[..n][..k] == roots[..k];
      AllWalkedPrefix(roots[..n], k);
    }
  }

  lemma {:induction false} WalkedPrefix(rootIndex: nat, visits: seq<Visit>, k: nat)
    requires k <= |visits|
    ensures Walked(rootIndex, visits[..k]) <= Walked(rootIndex, visits)
  {
    if k == |visits| {
      assert visits[..k] == visits;
    } else {
      var n := |visits| - 1;
      assert visits[..n][..k] == visits[..k];
      WalkedPrefix(rootIndex, visits[..n], k);
    }
  }

  lemma {:induction false} MapNoLarger(key: Entry -> string, entries: seq<Entry>)
    ensures |MapBy(key, entries)| <= |entries|
  {
    if entries != [] {
      var n := |entries| - 1;
      MapNoLarger(key, entries[..n]);
      assert MapBy(key, entries).Keys == MapBy(key, entries[..n]).Keys + {key(entries[n])};
    }
  }

  lemma NoRoots(roots: seq<RootWalk>, limits: Limits)
    requires roots == []
    ensures SnapshotOf(roots, limits, map[], 0)
  {
  }

  lemma NextRoot(roots: seq<RootWalk>, k: nat, limits: Limits, entries: map<string, Entry>, bytes: nat,
                 more: map<string, Entry>, moreBytes: nat)
    requires k < |roots| && SnapshotOf(roots[..k], limits, entries, bytes)
    requires var all := AllWalked(roots[..k]) + Walked(k, roots[k].visits);
             && Failed !in roots[k].visits && more == MapOf(all) && moreBytes == SumSeq(SizeOf, all)
             && |more| <= limits.maxEntries && moreBytes <= limits.maxBytes
    ensures SnapshotOf(roots[..k + 1], limits, more, moreBytes)
  {
    assert roots[..k + 1][..k] == roots[..k];
    assert AllWalked(roots[..k + 1]) == AllWalked(roots[..k]) + Walked(k, roots[k].visits);
    assert roots[..k + 1] == roots[..k] + [roots[k]];
  }

  /** The walk of one root, with the callback's updates of the map and the byte counter. */
  method WalkRoot(rootIndex: nat, visits: seq<Visit>, ghost before: seq<Entry>, start: map<string, Entry>, bytes: nat,
                  limits: Limits)
    returns (r: Option<(map<string, Entry>, nat)>)
    requires start == MapOf(before) && bytes == SumSeq(SizeOf, before)
    requires |start| <= limits.maxEntries && bytes <= limits.maxBytes
    ensures r.Some? ==>
              var all := before + Walked(rootIndex, visits);
              && Failed !in visits && r.value.0 == MapOf(all) && r.value.1 == SumSeq(SizeOf, all)
              && |r.value.0| <= limits.maxEntries && r.value.1 <= limits.maxBytes
    ensures r.None? ==>
              var all := before + Walked(rootIndex, visits);
              Failed in visits || |all| > limits.maxEntries || SumSeq(SizeOf, all) > limits.maxBytes
  {
    var entries, totalBytes := start, bytes;
    ghost var all := before + Walked(rootIndex, visits);
    assert before + [] == before;
    for n := 0 to |visits|
      invariant Within(limits, before + Walked(rootIndex, visits[..n]), entries, totalBytes)
      invariant Failed !in visits[..n]
    {
      var visit := visits[n];
      if visit.Failed? {
        return None;
      }
      WalkedNext(rootIndex, visits, n, before);
      var next := VisitObject(rootIndex, visit, entries, totalBytes, limits, before + Walked(rootIndex, visits[..n]));
      if next.None? {
        WalkedPrefix(rootIndex, visits, n + 1);
        ExceedsLater(limits, before + Walked(rootIndex, visits[..n + 1]), all);
        return None;
      }
      entries, totalBytes := next.value.0, next.value.1;
    }
    assert visits[..|visits|] == visits;
    r := Some((entries, totalBytes));
  }

  /** The map and the counter hold what has been walked, within both limits. */
  ghost predicate Within(limits: Limits, walked: seq<Entry>, entries: map<string, Entry>, totalBytes: nat) {
    && entries == MapOf(walked) && |entries| <= limits.maxEntries
    && totalBytes == SumSeq(SizeOf, walked) && totalBytes <= limits.maxBytes
  }

  ghost predicate Exceeds(limits: Limits, walked: seq<Entry>) {
    |walked| > limits.maxEntries || SumSeq(SizeOf, walked) > limits.maxBytes
  }

  lemma ExceedsLater(limits: Limits, some: seq<Entry>, all: seq<Entry>)
    requires some <= all && Exceeds(limits, some)
    ensures Exceeds(limits, all)
  {
    SumSeqPrefix(SizeOf, some, all);
  }

  lemma MapNext(walked: seq<Entry>, entry: Entry)
    ensures MapOf(walked + [entry]) == MapOf(walked)[KeyOf(entry) := entry]
    ensures SumSeq(SizeOf, walked + [entry]) == SumSeq(SizeOf, walked) + entry.size
  {
    assert (walked + [entry])[..|walked|] == walked;
  }

  lemma OnePut(entries: map<string, Entry>, key: string, entry: Entry)
    ensures |entries[key := entry]| <= |entries| + 1
  {
    assert entries[key := entry].Keys == entries.Keys + {key};
  }

  /** One callback on an object: both limits, then the update. */
  method VisitObject(rootIndex: nat, visit: Visit, entries: map<string, Entry>, totalBytes: nat, limits: Limits,
                     ghost walked: seq<Entry>)
    returns (r: Option<(map<string, Entry>, nat)>)
    requires visit.Object? && Within(limits, walked, entries, totalBytes)
    ensures r.Some? ==> Within(limits, walked + [EntryOf(rootIndex, visit)], r.value.0, r.value.1)
    ensures r.None? ==> Exceeds(limits, walked + [EntryOf(rootIndex, visit)])
  {
    var entry := EntryOf(rootIndex, visit);
    MapNext(walked, entry);
    if |entries| >= limits.maxEntries {
      MapNoLarger(KeyOf, walked);
      return None;
    }
    if totalBytes + visit.size > limits.maxBytes {
      return None;
    }
    OnePut(entries, KeyOf(entry), entry);
    r := Some((entries[EntryKey(rootIndex, visit.relative) := entry], totalBytes + visit.size));
  }

  lemma WalkedNext(rootIndex: nat, visits: seq<Visit>, n: nat, before: seq<Entry>)
    requires n < |visits| && visits[n].Object?
    ensures var now, next := before + Walked(rootIndex, visits[..n]), before + Walked(rootIndex, visits[..n + 1]);
            var entry := EntryOf(rootIndex, visits[n]);
            next == now + [entry]
    ensures Failed !in visits[..n] ==> Failed !in visits[..n + 1]
  {
    assert visits[..n + 1][..n] == visits[..n];
    var now, entry := before + Walked(rootIndex, visits[..n]), EntryOf(rootIndex, visits[n]);
    assert before + Walked(rootIndex, visits[..n + 1]) == now + [entry];
    assert visits[..n + 1] == visits[..n] + [visits[n]];
  }

  /** When the walk yields each relative path once, clean, every object has its own entry. */
  ghost predicate DistinctObjects(walked: seq<Entry>) {
    forall i, j :: 0 <= i < j < |walked| ==>
                     walked[i].rootIndex != walked[j].rootIndex
                     || Clean(walked[i].relative) != Clean(walked[j].relative)
  }

  /** One entry per object, under its key, and nothing else. */
  ghost predicate Recorded(key: Entry -> string, walked: seq<Entry>, entries: map<string, Entry>) {
    && |entries| == |walked|
    && (forall e :: e in walked ==> key(e) in entries && entries[key(e)] == e)
    && (forall k :: k in entries ==> entries[k] in walked && key(entries[k]) == k)
  }

  lemma {:induction false} DistinctKeysRecord(key: Entry -> string, walked: seq<Entry>)
    requires DistinctKeys(walked, key)
    ensures Recorded(key, walked, MapBy(key, walked))
  {
    if walked != [] {
      var n := |walked| - 1;
      var before, last := walked[..n], walked[n];
      DistinctKeysRecord(key, before);
      assert forall e :: e in before ==> key(e) != key(last);
      RecordedNext(key, before, MapBy(key, before), last);
      assert walked == before + [last];
    }
  }

  lemma RecordedNext(key: Entry -> string, before: seq<Entry>, entries: map<string, Entry>, last: Entry)
    requires Recorded(key, before, entries) && forall e :: e in before ==> key(e) != key(last)
    ensures Recorded(key, before + [last], entries[key(last) := last])
  {
    assert key(last) !in entries;
    assert entries[key(last) := last].Keys == entries.Keys + {key(last)};
  }

  // ---- Against the walk itself ----

  /** The entry states an object that the walk of root `i` visited, field by field. */
  ghost predicate StatesVisit(i: nat, o: Visit, e: Entry) {
    && o.Object? && e.rootIndex == i && e.relative == o.relative && e.path == o.path && e.kind == o.kind
    && e.identity == o.identity && e.size == o.size && e.modTime == o.modTime && e.mode == o.mode
  }

  ghost predicate Visited(roots: seq<RootWalk>, e: Entry) {
    e.rootIndex < |roots| && exists o :: o in roots[e.rootIndex].visits && StatesVisit(e.rootIndex, o, e)
  }

  lemma {:induction false} WalkedExactly(i: nat, visits: seq<Visit>, e: Entry)
    ensures e in Walked(i, visits) <==> exists o :: o in visits && StatesVisit(i, o, e)
  {
    if visits != [] {
      var n := |visits| - 1;
      WalkedExactly(i, visits[..n], e);
      assert visits == visits[..n] + [visits[n]];
      assert visits[n].Object? ==> (StatesVisit(i, visits[n], e) <==> e == EntryOf(i, visits[n]));
    }
  }

  lemma {:induction false} AllWalkedExactly(roots: seq<RootWalk>, e: Entry)
    ensures e in AllWalked(roots) <==> Visited(roots, e)
  {
    if roots != [] {
      var n := |roots| - 1;
      AllWalkedExactly(roots[..n], e);
      WalkedExactly(n, roots[n].visits, e);
      assert e in Walked(n, roots[n].visits) ==> e.rootIndex == n;
    }
  }

  /** A snapshot of a walk that visits no object twice holds exactly what was visited. */
  lemma SnapshotStatesWalk(roots: seq<RootWalk>, limits: Limits, entries: map<string, Entry>, totalBytes: nat)
    requires SnapshotOf(roots, limits, entries, totalBytes) && DistinctObjects(AllWalked(roots))
    ensures forall e :: Visited(roots, e) <==> KeyOf(e) in entries && entries[KeyOf(e)] == e
    ensures forall key :: key in entries ==> Visited(roots, entries[key]) && KeyOf(entries[key]) == key
  {
    OneEntryPerObject(AllWalked(roots));
    forall e ensures e in AllWalked(roots) <==> Visited(roots, e) {
      AllWalkedExactly(roots, e);
    }
  }

  /** Then the snapshot has exactly one entry per walked object. */
  lemma OneEntryPerObject(walked: seq<Entry>)
    requires DistinctObjects(walked)
    ensures Recorded(KeyOf, walked, MapOf(walked))
  {
    forall i, j | 0 <= i < j < |walked| ensures KeyOf(walked[i]) != KeyOf(walked[j]) {
      if KeyOf(walked[i]) == KeyOf(walked[j]) {
        EntryKeyInjective(walked[i].rootIndex, walked[i].relative, walked[j].rootIndex, walked[j].relative);
      }
    }
    DistinctKeysRecord(KeyOf, walked);
  }
}
