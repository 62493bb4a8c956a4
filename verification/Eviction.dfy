/** internal/store/retention.go: the capacity loop over the kept report files. */
module Eviction {
  import opened Contract
  import opened Sorting
  import opened Sums

  datatype OwnedFile = OwnedFile(id: string, size: nat, createdAt: Time, protected: bool)

  datatype Eviction = Eviction(removed: seq<OwnedFile>, survivors: seq<OwnedFile>, total: int)

  predicate Older(a: OwnedFile, b: OwnedFile) {
    a.createdAt <= b.createdAt
  }

  function SizeOf(f: OwnedFile): nat { f.size }

  function Bytes(kept: seq<OwnedFile>): nat {
    SumSeq(SizeOf, kept)
  }

  /** The loop from the oldest file on: stop when the total fits, pass over protected files,
      remove the others. */
  function Evict(capacity: int, kept: seq<OwnedFile>, total: int): Eviction {
    if kept == [] || total <= capacity then Eviction([], kept, total)
    else if kept[0].protected then
      var rest := Evict(capacity, kept[1..], total);
      rest.(survivors := [kept[0]] + rest.survivors)
    else
      var rest := Evict(capacity, kept[1..], total - kept[0].size);
      rest.(removed := [kept[0]] + rest.removed)
  }

  ghost predicate AllProtected(kept: seq<OwnedFile>) {
    forall f :: f in kept ==> f.protected
  }

  ghost predicate NoneProtected(kept: seq<OwnedFile>) {
    forall f :: f in kept ==> !f.protected
  }

  lemma BytesPrepend(f: OwnedFile, rest: seq<OwnedFile>)
    ensures Bytes([f] + rest) == f.size + Bytes(rest)
  {
    SumSeqConcat(SizeOf, [f], rest);
    assert Bytes([f]) == f.size;
  }

  /** Every file is removed or survives. */
  lemma {:induction false} EvictPartition(capacity: int, kept: seq<OwnedFile>, total: int)
    ensures var e := Evict(capacity, kept, total); multiset(e.removed) + multiset(e.survivors) == multiset(kept)
    decreases |kept|
  {
    if kept != [] && total > capacity {
      assert kept == [kept[0]] + kept[1..];
      EvictPartition(capacity, kept[1..], if kept[0].protected then total else total - kept[0].size);
    }
  }

  /** The total tracks the removals. */
  lemma {:induction false} EvictTotal(capacity: int, kept: seq<OwnedFile>, total: int)
    ensures var e := Evict(capacity, kept, total); e.total == total - Bytes(e.removed)
    decreases |kept|
  {
    if kept != [] && total > capacity {
      var f, rest := kept[0], kept[1..];
      EvictTotal(capacity, rest, if f.protected then total else total - f.size);
      BytesPrepend(f, Evict(capacity, rest, total - f.size).removed);
    }
  }

  /** Only unprotected files go, and the loop stops when the total fits or only protected ones are left. */
  lemma {:induction false} EvictStops(capacity: int, kept: seq<OwnedFile>, total: int)
    ensures var e := Evict(capacity, kept, total);
            NoneProtected(e.removed) && (e.total <= capacity || AllProtected(e.survivors))
    decreases |kept|
  {
    if kept != [] && total > capacity {
      EvictStops(capacity, kept[1..], if kept[0].protected then total else total - kept[0].size);
    }
  }

  lemma EvictMembers(capacity: int, kept: seq<OwnedFile>, total: int)
    ensures var e := Evict(capacity, kept, total);
            forall f :: f in kept <==> f in e.removed || f in e.survivors
  {
    EvictPartition(capacity, kept, total);
    var e := Evict(capacity, kept, total);
    assert multiset(e.removed + e.survivors) == multiset(kept);
    SameMembers(e.removed + e.survivors, kept);
  }

  ghost predicate OlderThanUnprotected(removed: seq<OwnedFile>, survivors: seq<OwnedFile>) {
    forall a, b :: a in removed && b in survivors ==> Older(a, b) || b.protected
  }

  /** A removed file is no younger than any unprotected survivor. */
  lemma {:induction false} EvictOldest(capacity: int, kept: seq<OwnedFile>, total: int)
    requires Ordered(kept, Older)
    ensures var e := Evict(capacity, kept, total); OlderThanUnprotected(e.removed, e.survivors)
    decreases |kept|
  {
    if kept != [] && total > capacity {
      var f, rest := kept[0], kept[1..];
      assert forall b :: b in rest ==> Older(f, b);
      if f.protected {
        EvictOldest(capacity, rest, total);
      } else {
        EvictOldest(capacity, rest, total - f.size);
        EvictMembers(capacity, rest, total - f.size);
      }
    }
  }

  /** Without the last removal the total would still exceed the capacity. */
  lemma {:induction false} EvictMinimal(capacity: int, kept: seq<OwnedFile>, total: int)
    ensures var e := Evict(capacity, kept, total);
            e.removed != [] ==> e.total + e.removed[|e.removed| - 1].size > capacity
    decreases |kept|
  {
    if kept != [] && total > capacity {
      var f, rest := kept[0], kept[1..];
      if f.protected {
        EvictMinimal(capacity, rest, total);
      } else {
        var e := Evict(capacity, rest, total - f.size);
        EvictMinimal(capacity, rest, total - f.size);
        EvictTotal(capacity, rest, total - f.size);
        var removed := [f] + e.removed;
        assert removed[|removed| - 1] == if e.removed == [] then f else e.removed[|e.removed| - 1];
      }
    }
  }

  lemma {:induction false} FittingEvictsNothing(capacity: int, kept: seq<OwnedFile>, total: int)
    requires total <= capacity || AllProtected(kept)
    ensures Evict(capacity, kept, total).removed == []
    decreases |kept|
  {
    if kept != [] && total > capacity {
      assert kept[0] in kept;
      assert forall f :: f in kept[1..] ==> f in kept;
      FittingEvictsNothing(capacity, kept[1..], total);
    }
  }

  // ---- Directories as sets of files ----

  ghost predicate Enumerates(kept: set<OwnedFile>, order: seq<OwnedFile>) {
    multiset(order) == multiset(kept)
  }

  lemma {:induction false} EnumerationExists(kept: set<OwnedFile>)
    ensures exists order :: Enumerates(kept, order)
  {
    if kept == {} {
      assert Enumerates(kept, []);
    } else {
      var f :| f in kept;
      EnumerationExists(kept - {f});
      var rest :| Enumerates(kept - {f}, rest);
      PrependMembers(f, rest, kept);
      assert Enumerates(kept, [f] + rest);
    }
  }

  ghost function SomeOrder(kept: set<OwnedFile>): (order: seq<OwnedFile>)
    ensures Enumerates(kept, order)
  {
    EnumerationExists(kept);
    var order :| Enumerates(kept, order);
    order
  }

  /** The size of a directory. */
  ghost function BytesOf(kept: set<OwnedFile>): nat {
    Bytes(SomeOrder(kept))
  }

  lemma BytesOfEnumeration(kept: set<OwnedFile>, order: seq<OwnedFile>)
    requires Enumerates(kept, order)
    ensures BytesOf(kept) == Bytes(order)
  {
    SumSeqPermuted(SizeOf, order, SomeOrder(kept));
  }

  lemma EnumerationMembers(kept: set<OwnedFile>, order: seq<OwnedFile>)
    requires Enumerates(kept, order)
    ensures forall f :: f in order <==> f in kept
  {
    forall f ensures f in order <==> f in kept {
      assert f in multiset(order) <==> f in multiset(kept);
    }
  }

  ghost function SetOf(files: seq<OwnedFile>): set<OwnedFile> {
    set f | f in files
  }

  /** What is left of a directory after the loop. */
  ghost function After(capacity: int, kept: set<OwnedFile>, order: seq<OwnedFile>): set<OwnedFile> {
    kept - SetOf(Evict(capacity, order, Bytes(order)).removed)
  }

  lemma SurvivorsEnumerate(capacity: int, kept: set<OwnedFile>, order: seq<OwnedFile>)
    requires Enumerates(kept, order)
    ensures Enumerates(After(capacity, kept, order), Evict(capacity, order, Bytes(order)).survivors)
  {
    var e := Evict(capacity, order, Bytes(order));
    var after := After(capacity, kept, order);
    EvictPartition(capacity, order, Bytes(order));
    forall f ensures multiset(e.survivors)[f] == multiset(after)[f] {
      assert multiset(e.removed)[f] + multiset(e.survivors)[f] == multiset(kept)[f];
      assert f in e.removed <==> multiset(e.removed)[f] > 0;
    }
  }

  ghost predicate Fits(capacity: int, kept: set<OwnedFile>) {
    BytesOf(kept) <= capacity || forall f :: f in kept ==> f.protected
  }

  /** The file that the loop removed last. */
  ghost function LastRemoved(capacity: int, order: seq<OwnedFile>): OwnedFile
    requires Evict(capacity, order, Bytes(order)).removed != []
  {
    var removed := Evict(capacity, order, Bytes(order)).removed;
    removed[|removed| - 1]
  }

  /** Files are removed in the order of the loop. */
  lemma {:induction false} EvictInOrder(capacity: int, kept: seq<OwnedFile>, total: int)
    requires Ordered(kept, Older)
    ensures Ordered(Evict(capacity, kept, total).removed, Older)
    decreases |kept|
  {
    if kept != [] && total > capacity {
      var f, rest := kept[0], kept[1..];
      assert forall b :: b in rest ==> Older(f, b);
      if f.protected {
        EvictInOrder(capacity, rest, total);
      } else {
        EvictInOrder(capacity, rest, total - f.size);
        EvictMembers(capacity, rest, total - f.size);
        PrependKeepsOrder(f, Evict(capacity, rest, total - f.size).removed, Older);
      }
    }
  }

  lemma LastRemovedIsYoungest(capacity: int, order: seq<OwnedFile>)
    requires Ordered(order, Older) && Evict(capacity, order, Bytes(order)).removed != []
    ensures var removed := Evict(capacity, order, Bytes(order)).removed;
            var last := LastRemoved(capacity, order);
            last in removed && forall a :: a in removed ==> Older(a, last)
  {
    EvictInOrder(capacity, order, Bytes(order));
  }

  /** The capacity theorem: what is left fits or is all protected; nothing protected went; what went is
      no younger than any unprotected file left; and putting back the file removed last, the youngest of
      those removed, would exceed the capacity. */
  lemma EvictionTheorem(capacity: int, kept: set<OwnedFile>, order: seq<OwnedFile>)
    requires Enumerates(kept, order) && Ordered(order, Older)
    ensures var after := After(capacity, kept, order);
            && Fits(capacity, after)
            && (forall f :: f in kept && f.protected ==> f in after)
            && (forall a, b :: a in kept && a !in after && b in after && !b.protected ==> Older(a, b))
            && (after != kept ==>
                  && Evict(capacity, order, Bytes(order)).removed != []
                  && var last := LastRemoved(capacity, order);
                     && last in kept && last !in after && BytesOf(after) + last.size > capacity
                     && forall a :: a in kept && a !in after ==> Older(a, last))
  {
    EvictStops(capacity, order, Bytes(order));
    EvictOldest(capacity, order, Bytes(order));
    RemovedAndLeft(capacity, kept, order);
    TotalIsLeft(capacity, kept, order);
    if After(capacity, kept, order) != kept {
      LastRemovalNeeded(capacity, kept, order);
    }
  }

  /** What went and what is left, as lists. */
  lemma RemovedAndLeft(capacity: int, kept: set<OwnedFile>, order: seq<OwnedFile>)
    requires Enumerates(kept, order)
    ensures var e := Evict(capacity, order, Bytes(order));
            var after := After(capacity, kept, order);
            && (forall f :: f in e.survivors <==> f in after)
            && (forall f :: f in e.removed <==> f in kept && f !in after)
  {
    var e := Evict(capacity, order, Bytes(order));
    SurvivorsEnumerate(capacity, kept, order);
    EnumerationMembers(After(capacity, kept, order), e.survivors);
    EnumerationMembers(kept, order);
    EvictMembers(capacity, order, Bytes(order));
  }

  lemma LastRemovalNeeded(capacity: int, kept: set<OwnedFile>, order: seq<OwnedFile>)
    requires Enumerates(kept, order) && Ordered(order, Older) && After(capacity, kept, order) != kept
    ensures Evict(capacity, order, Bytes(order)).removed != []
    ensures var after, last := After(capacity, kept, order), LastRemoved(capacity, order);
            && last in kept && last !in after && BytesOf(after) + last.size > capacity
            && forall a :: a in kept && a !in after ==> Older(a, last)
  {
    var removed := Evict(capacity, order, Bytes(order)).removed;
    assert removed == [] ==> SetOf(removed) == {};
    RemovedAndLeft(capacity, kept, order);
    LastRemovedIsYoungest(capacity, order);
    EvictMinimal(capacity, order, Bytes(order));
    TotalIsLeft(capacity, kept, order);
  }

  lemma TotalIsLeft(capacity: int, kept: set<OwnedFile>, order: seq<OwnedFile>)
    requires Enumerates(kept, order)
    ensures Evict(capacity, order, Bytes(order)).total == BytesOf(After(capacity, kept, order))
  {
    var e := Evict(capacity, order, Bytes(order));
    EvictPartition(capacity, order, Bytes(order));
    EvictTotal(capacity, order, Bytes(order));
    SurvivorsEnumerate(capacity, kept, order);
    BytesOfEnumeration(After(capacity, kept, order), e.survivors);
    SumSeqConcat(SizeOf, e.removed, e.survivors);
    assert multiset(e.removed + e.survivors) == multiset(order);
    SumSeqPermuted(SizeOf, e.removed + e.survivors, order);
  }

  /** A directory that fits is left alone. */
  lemma FittingDirectoryUntouched(capacity: int, kept: set<OwnedFile>, order: seq<OwnedFile>)
    requires Enumerates(kept, order) && Fits(capacity, kept)
    ensures After(capacity, kept, order) == kept
  {
    BytesOfEnumeration(kept, order);
    EnumerationMembers(kept, order);
    FittingEvictsNothing(capacity, order, Bytes(order));
  }
}
