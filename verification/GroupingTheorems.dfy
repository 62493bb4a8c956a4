/** Independence of input order, and conservation of counts and sizes, for the grouping scan. */
module GroupingTheorems {
  import opened Text
  import opened Contract
  import opened Sorting
  import opened Grouping
  import opened Sums

  /** With no two different candidates sharing a path and an ID, every permutation of the input
      gives the same groups, whatever the library sort does with its work. */
  lemma OrderIndependent(a: seq<Candidate>, b: seq<Candidate>, sortedA: seq<Candidate>, sortedB: seq<Candidate>)
    requires multiset(a) == multiset(b)
    requires forall x, y :: x in a && y in a && x.path == y.path && x.id == y.id ==> x == y
    requires SortOf(a, sortedA, PathIdLe) && SortOf(b, sortedB, PathIdLe)
    ensures Groups(sortedA) == Groups(sortedB)
  {
    PathIdLePreorder();
    SameMembers(a, sortedA);
    forall x, y | x in sortedA && y in sortedA && PathIdLe(x, y) && PathIdLe(y, x) ensures x == y {
      LexLessTotal(x.path, y.path);
      LexLessTotal(x.id, y.id);
    }
    SortUnique(sortedA, sortedB, PathIdLe);
  }

  /** The path without one trailing slash. */
  ghost function Stem(path: string): string {
    if path != "" && path[|path| - 1] == '/' then path[..|path| - 1] else path
  }

  /** A directory whose path is a proper ancestor of the child's, with the same level and status, and a child
      without conflicts. */
  ghost predicate FoldsAway(p: Candidate, c: Candidate) {
    && p.kind.DirectoryKind? && p.path != "" && c.path != p.path
    && (exists rest :: c.path == Stem(p.path) + "/" + rest)
    && c.evidenceLevel == p.evidenceLevel && c.currentStatus == p.currentStatus && c.conflicts == []
  }

  lemma AbsorbsExactly(p: Candidate, c: Candidate)
    ensures Absorbs(p, c) <==> FoldsAway(p, c)
  {
    if Stem(p.path) + "/" <= c.path {
      assert c.path == Stem(p.path) + "/" + c.path[|Stem(p.path)| + 1..];
    }
  }

  /** A candidate is folded away exactly when a directory of the input absorbs it, and never
      when it has no path. */
  lemma AbsorbedExactly(input: seq<Candidate>, all: seq<Candidate>, k: nat)
    requires SortOf(input, all, PathIdLe) && k < |all|
    ensures (exists i :: 0 <= i < k && HeadTakes(all, i, k)) <==> (exists p :: p in input && FoldsAway(p, all[k]))
    ensures IsHead(all[k], all) <==> !exists p :: p in input && FoldsAway(p, all[k])
    ensures all[k].path == "" ==> IsHead(all[k], all)
  {
    forall p ensures Absorbs(p, all[k]) <==> FoldsAway(p, all[k]) {
      AbsorbsExactly(p, all[k]);
    }
    SortedAbsorbersFirst(all);
    SameMembers(input, all);
    if exists p :: p in input && Absorbs(p, all[k]) {
      var i := HeadAbsorbs(all, k);
      assert HeadTakes(all, i, k);
    }
    if i :| 0 <= i < k && HeadTakes(all, i, k) {
      assert all[i] in input && Absorbs(all[i], all[k]);
    }
  }

  // ---- What each group says ----

  /** The places among the first n that the candidate absorbs. */
  ghost function Absorbed(all: seq<Candidate>, h: Candidate, n: nat): set<nat>
    requires n <= |all|
  {
    set k: nat | k < n && FoldsAway(h, all[k])
  }

  ghost function AbsorbedSize(h: Candidate): Candidate -> nat {
    (c: Candidate) => if FoldsAway(h, c) then c.sizeBytes else 0
  }

  lemma {:induction false} CoveredCounts(all: seq<Candidate>, h: Candidate, n: nat)
    requires n <= |all|
    ensures |Covered(h, all[..n])| == |Absorbed(all, h, n)|
  {
    if n > 0 {
      CoveredCounts(all, h, n - 1);
      assert all[..n][..n - 1] == all[..n - 1];
      AbsorbsExactly(h, all[n - 1]);
      MassGrows(h, all[..n], false);
      AbsorbedNext(all, h, n);
    }
  }

  lemma AbsorbedNext(all: seq<Candidate>, h: Candidate, n: nat)
    requires 0 < n <= |all|
    ensures |Absorbed(all, h, n)| == |Absorbed(all, h, n - 1)| + if FoldsAway(h, all[n - 1]) then 1 else 0
  {
    var before := Absorbed(all, h, n - 1);
    if FoldsAway(h, all[n - 1]) {
      assert Absorbed(all, h, n) == before + {n - 1} && n - 1 !in before;
    } else {
      assert Absorbed(all, h, n) == before;
    }
  }

  lemma {:induction false} CoveredSizes(xs: seq<Candidate>, h: Candidate)
    ensures TotalSize(Covered(h, xs)) == SumSeq(AbsorbedSize(h), xs)
  {
    if xs != [] {
      CoveredSizes(xs[..|xs| - 1], h);
      AbsorbsExactly(h, xs[|xs| - 1]);
      MassGrows(h, xs, true);
    }
  }

  lemma {:induction false} CoveredAt(all: seq<Candidate>, h: Candidate, n: nat, m: nat) returns (k: nat)
    requires n <= |all| && m < |Covered(h, all[..n])|
    ensures k < n && FoldsAway(h, all[k]) && Covered(h, all[..n])[m] == all[k] && |Absorbed(all, h, k)| == m
  {
    assert n > 0;
    assert all[..n][..n - 1] == all[..n - 1];
    AbsorbsExactly(h, all[n - 1]);
    if m < |Covered(h, all[..n - 1])| {
      k := CoveredAt(all, h, n - 1, m);
    } else {
      CoveredCounts(all, h, n - 1);
      k := n - 1;
    }
  }

  /** A sample is the path of an absorbed candidate with m absorbed ones before it. */
  ghost predicate SampleAt(all: seq<Candidate>, h: Candidate, m: nat, path: string) {
    exists k: nat :: k < |all| && FoldsAway(h, all[k]) && path == all[k].path && |Absorbed(all, h, k)| == m
  }

  /** A group states its head, how many candidates it absorbs, the size of all of them, and the first three
      of their paths. */
  ghost predicate GroupStates(g: CandidateGroup, all: seq<Candidate>, h: Candidate) {
    && g.id == h.id && g.kind == h.kind && g.path == h.path
    && g.evidenceLevel == h.evidenceLevel && g.currentStatus == h.currentStatus
    && g.descendantCount == |Absorbed(all, h, |all|)|
    && g.aggregateSizeBytes == h.sizeBytes + SumSeq(AbsorbedSize(h), all)
    && |g.samplePaths| == (if g.descendantCount < 3 then g.descendantCount else 3)
    && forall m :: 0 <= m < |g.samplePaths| ==> SampleAt(all, h, m, g.samplePaths[m])
  }

  lemma GroupStatesHead(all: seq<Candidate>, h: Candidate)
    ensures GroupStates(GroupOf(h, all), all, h)
  {
    assert all[..|all|] == all;
    CoveredCounts(all, h, |all|);
    CoveredSizes(all, h);
    var g := GroupOf(h, all);
    forall m | 0 <= m < |g.samplePaths| ensures SampleAt(all, h, m, g.samplePaths[m]) {
      var k := CoveredAt(all, h, |all|, m);
    }
  }

  /** The heads among the first n, in order. */
  ghost function Heads(all: seq<Candidate>, n: nat): seq<Candidate>
    requires n <= |all|
  {
    if n == 0 then [] else Heads(all, n - 1) + if IsHead(all[n - 1], all) then [all[n - 1]] else []
  }

  lemma {:induction false} GroupsFollowHeads(all: seq<Candidate>, n: nat)
    requires n <= |all|
    ensures |GroupsUpTo(all, n)| == |Heads(all, n)|
    ensures forall i :: 0 <= i < |Heads(all, n)| ==> GroupStates(GroupsUpTo(all, n)[i], all, Heads(all, n)[i])
  {
    if n > 0 {
      GroupsFollowHeads(all, n - 1);
      GroupStatesHead(all, all[n - 1]);
    }
  }

  /** One group per candidate that no directory of the input folds away, in the order of path and ID, and each
      states its candidate. */
  lemma GroupsExactly(input: seq<Candidate>, all: seq<Candidate>)
    requires SortOf(input, all, PathIdLe)
    ensures |Groups(all)| == |Heads(all, |all|)|
    ensures forall i :: 0 <= i < |Groups(all)| ==> GroupStates(Groups(all)[i], all, Heads(all, |all|)[i])
    ensures forall h :: multiset(Heads(all, |all|))[h]
                     == if exists p :: p in input && FoldsAway(p, h) then 0 else multiset(input)[h]
    ensures forall i, j :: 0 <= i < j < |Heads(all, |all|)| ==> SortsBefore(Heads(all, |all|)[i], Heads(all, |all|)[j])
  {
    GroupsFollowHeads(all, |all|);
    SameMembers(input, all);
    assert all[..|all|] == all;
    forall h ensures multiset(Heads(all, |all|))[h]
                  == if exists p :: p in input && FoldsAway(p, h) then 0 else multiset(input)[h] {
      HeadsCount(all, |all|, h);
      HeadUnfolded(input, all, h);
    }
    HeadsOrdered(all, |all|);
  }

  ghost function Picked<T>(keep: T -> bool, xs: seq<T>): seq<T> {
    if xs == [] then []
    else Picked(keep, xs[..|xs| - 1]) + if keep(xs[|xs| - 1]) then [xs[|xs| - 1]] else []
  }

  lemma {:induction false} PickedCount<T>(keep: T -> bool, xs: seq<T>, x: T)
    ensures multiset(Picked(keep, xs))[x] == if keep(x) then multiset(xs)[x] else 0
  {
    if xs != [] {
      var front := xs[..|xs| - 1];
      PickedCount(keep, front, x);
      assert xs == front + [xs[|xs| - 1]];
    }
  }

  ghost function HeadTest(all: seq<Candidate>): Candidate -> bool {
    (c: Candidate) => IsHead(c, all)
  }

  lemma {:induction false} HeadsPicked(all: seq<Candidate>, n: nat)
    requires n <= |all|
    ensures Heads(all, n) == Picked(HeadTest(all), all[..n])
  {
    if n > 0 {
      HeadsPicked(all, n - 1);
      assert all[..n][..n - 1] == all[..n - 1];
    }
  }

  lemma HeadsCount(all: seq<Candidate>, n: nat, h: Candidate)
    requires n <= |all|
    ensures multiset(Heads(all, n))[h] == if IsHead(h, all) then multiset(all[..n])[h] else 0
  {
    HeadsPicked(all, n);
    PickedCount(HeadTest(all), all[..n], h);
  }

  lemma HeadUnfolded(input: seq<Candidate>, all: seq<Candidate>, h: Candidate)
    requires forall c :: c in input <==> c in all
    ensures IsHead(h, all) <==> !exists p :: p in input && FoldsAway(p, h)
  {
    forall p ensures Absorbs(p, h) <==> FoldsAway(p, h) {
      AbsorbsExactly(p, h);
    }
  }

  /** By path, then by ID. */
  ghost predicate SortsBefore(a: Candidate, b: Candidate) {
    LexLess(a.path, b.path) || (a.path == b.path && LexLe(a.id, b.id))
  }

  lemma {:induction false} HeadsMembers(all: seq<Candidate>, n: nat)
    requires n <= |all|
    ensures forall h :: h in Heads(all, n) <==> h in all[..n] && IsHead(h, all)
  {
    if n > 0 {
      HeadsMembers(all, n - 1);
      assert all[..n] == all[..n - 1] + [all[n - 1]];
    }
  }

  lemma {:induction false} HeadsOrdered(all: seq<Candidate>, n: nat)
    requires Ordered(all, PathIdLe) && n <= |all|
    ensures forall i, j :: 0 <= i < j < |Heads(all, n)| ==> SortsBefore(Heads(all, n)[i], Heads(all, n)[j])
  {
    if n > 0 {
      HeadsOrdered(all, n - 1);
      HeadsMembers(all, n - 1);
      var before := Heads(all, n - 1);
      forall i | 0 <= i < |before| ensures SortsBefore(before[i], all[n - 1]) {
        assert before[i] in before;
        var k :| 0 <= k < n - 1 && all[k] == before[i];
        assert PathIdLe(all[k], all[n - 1]);
      }
    }
  }

  // ---- Totals ----

  ghost function CountTotal(groups: seq<CandidateGroup>): int {
    if groups == [] then 0
    else CountTotal(groups[..|groups| - 1]) + 1 + groups[|groups| - 1].descendantCount
  }

  ghost function SizeTotal(groups: seq<CandidateGroup>): int {
    if groups == [] then 0
    else SizeTotal(groups[..|groups| - 1]) + groups[|groups| - 1].aggregateSizeBytes
  }

  ghost function Total(groups: seq<CandidateGroup>, sized: bool): int {
    if sized then SizeTotal(groups) else CountTotal(groups)
  }

  ghost function Weight(c: Candidate, sized: bool): nat {
    if sized then c.sizeBytes else 1
  }

  ghost function Mass(xs: seq<Candidate>, sized: bool): nat {
    if sized then TotalSize(xs) else |xs|
  }

  /** Column j of row i: what the group of candidate i counts for candidate j. */
  ghost function Cell(all: seq<Candidate>, sized: bool, i: int, j: int): nat {
    if 0 <= i < |all| && 0 <= j < |all| && IsHead(all[i], all) && (i == j || Absorbs(all[i], all[j]))
    then Weight(all[j], sized) else 0
  }

  ghost function Cells(all: seq<Candidate>, sized: bool): (int, int) -> int {
    (i, j) => Cell(all, sized, i, j)
  }

  lemma {:induction false} RowIsGroup(all: seq<Candidate>, sized: bool, i: nat, n: nat)
    requires i < |all| && n <= |all|
    ensures Row(Cells(all, sized), i, n)
         == if !IsHead(all[i], all) then 0
            else (if i < n then Weight(all[i], sized) else 0) + Mass(Covered(all[i], all[..n]), sized)
  {
    if n > 0 {
      RowIsGroup(all, sized, i, n - 1);
      assert all[..n][..n - 1] == all[..n - 1];
      MassGrows(all[i], all[..n], sized);
    }
  }

  lemma MassGrows(h: Candidate, xs: seq<Candidate>, sized: bool)
    requires xs != []
    ensures Mass(Covered(h, xs), sized)
         == Mass(Covered(h, xs[..|xs| - 1]), sized)
            + if Absorbs(h, xs[|xs| - 1]) then Weight(xs[|xs| - 1], sized) else 0
  {
    var n := |xs| - 1;
    var covered := Covered(h, xs[..n]);
    if Absorbs(h, xs[n]) {
      assert Covered(h, xs) == covered + [xs[n]];
      assert (covered + [xs[n]])[..|covered|] == covered;
    } else {
      assert Covered(h, xs) == covered;
    }
  }

  lemma TotalGrows(groups: seq<CandidateGroup>, h: Candidate, all: seq<Candidate>, sized: bool)
    ensures Total(groups + [GroupOf(h, all)], sized)
         == Total(groups, sized) + Weight(h, sized) + Mass(Covered(h, all), sized)
  {
    var more := groups + [GroupOf(h, all)];
    assert more[..|more| - 1] == groups;
  }

  /** The total over the groups of the first m candidates. */
  ghost function TotalUpTo(all: seq<Candidate>, sized: bool, m: int): int {
    if 0 <= m <= |all| then Total(GroupsUpTo(all, m), sized) else 0
  }

  ghost function Totals(all: seq<Candidate>, sized: bool): int -> int {
    m => TotalUpTo(all, sized, m)
  }

  lemma RowsAreGroups(all: seq<Candidate>, sized: bool)
    ensures ByRows(Cells(all, sized), |all|, |all|) == Totals(all, sized)(|all|)
  {
    RowsAddGroups(all, sized, Cells(all, sized), Totals(all, sized));
    RowsAddUp(Cells(all, sized), Totals(all, sized), |all|, |all|);
  }

  lemma RowsAddGroups(all: seq<Candidate>, sized: bool, f: (int, int) -> int, total: int -> int)
    requires f == Cells(all, sized) && total == Totals(all, sized)
    ensures total(0) == 0 && forall i :: 0 <= i < |all| ==> total(i + 1) == total(i) + Row(f, i, |all|)
  {
    forall i | 0 <= i < |all| ensures total(i + 1) == total(i) + Row(f, i, |all|) {
      RowAddsGroup(all, sized, i, f, total);
    }
  }

  lemma RowAddsGroup(all: seq<Candidate>, sized: bool, i: nat, f: (int, int) -> int, total: int -> int)
    requires i < |all| && f == Cells(all, sized) && total == Totals(all, sized)
    ensures total(i + 1) == total(i) + Row(f, i, |all|)
  {
    RowOfHead(all, sized, i);
    GroupAddsTotal(all, sized, i);
  }

  lemma GroupAddsTotal(all: seq<Candidate>, sized: bool, i: nat)
    requires i < |all|
    ensures TotalUpTo(all, sized, i + 1)
         == TotalUpTo(all, sized, i)
            + if !IsHead(all[i], all) then 0 else Weight(all[i], sized) + Mass(Covered(all[i], all), sized)
  {
    var h, before := all[i], GroupsUpTo(all, i);
    if IsHead(h, all) {
      assert GroupsUpTo(all, i + 1) == before + [GroupOf(h, all)];
      TotalGrows(before, h, all, sized);
    } else {
      assert GroupsUpTo(all, i + 1) == before;
    }
  }

  lemma RowOfHead(all: seq<Candidate>, sized: bool, i: nat)
    requires i < |all|
    ensures Row(Cells(all, sized), i, |all|)
         == if !IsHead(all[i], all) then 0 else Weight(all[i], sized) + Mass(Covered(all[i], all), sized)
  {
    RowIsGroup(all, sized, i, |all|);
    assert all[..|all|] == all;
  }

  /** No candidate is taken by two heads. */
  ghost predicate UniquelyCovered(all: seq<Candidate>) {
    forall k :: 0 <= k < |all| ==> !TakenTwice(all, k)
  }

  ghost predicate TakenTwice(all: seq<Candidate>, k: nat) {
    exists i: nat, j: nat :: i != j && HeadTakes(all, i, k) && HeadTakes(all, j, k)
  }

  lemma ColumnOfCandidate(all: seq<Candidate>, sized: bool, k: nat)
    requires AbsorbersFirst(all) && k < |all|
    ensures Column(Cells(all, sized), k, |all|) >= Weight(all[k], sized)
    ensures Column(Cells(all, sized), k, |all|) == Weight(all[k], sized)
            <==> Weight(all[k], sized) == 0 || !TakenTwice(all, k)
  {
    var f := Cells(all, sized);
    var at := k;
    if !IsHead(all[k], all) {
      at := HeadAbsorbs(all, k);
      assert HeadTakes(all, at, k);
    }
    CellBounds(f, k, |all|, at, at);
    if TakenTwice(all, k) {
      var i: nat, j: nat :| i != j && HeadTakes(all, i, k) && HeadTakes(all, j, k);
      TwiceInColumn(all, sized, i, j, k);
    } else {
      TakenOnce(all, sized, k, at);
    }
    if Weight(all[k], sized) == 0 {
      SingleCell(f, k, |all|, at);
    }
  }

  lemma TakenOnce(all: seq<Candidate>, sized: bool, k: nat, at: nat)
    requires k < |all| && !TakenTwice(all, k)
    requires if IsHead(all[k], all) then at == k else HeadTakes(all, at, k)
    ensures Column(Cells(all, sized), k, |all|) == Weight(all[k], sized)
  {
    var f := Cells(all, sized);
    forall i | 0 <= i < |all| && i != at ensures f(i, k) == 0 {
      OtherCellIsZero(all, sized, k, at, i);
    }
    SingleCell(f, k, |all|, at);
  }

  lemma OtherCellIsZero(all: seq<Candidate>, sized: bool, k: nat, at: nat, i: nat)
    requires k < |all| && i < |all| && i != at && !TakenTwice(all, k)
    requires if IsHead(all[k], all) then at == k else HeadTakes(all, at, k)
    ensures Cell(all, sized, i, k) == 0
  {
    if HeadTakes(all, i, k) {
      assert false;
    }
  }

  lemma TwiceInColumn(all: seq<Candidate>, sized: bool, i: nat, j: nat, k: nat)
    requires i != j && HeadTakes(all, i, k) && HeadTakes(all, j, k)
    ensures Column(Cells(all, sized), k, |all|) >= 2 * Weight(all[k], sized)
  {
    var f := Cells(all, sized);
    assert f(i, k) == Weight(all[k], sized) && f(j, k) == Weight(all[k], sized);
    CellBounds(f, k, |all|, i, j);
    CellBounds(f, k, |all|, j, i);
  }

  ghost function Weights(all: seq<Candidate>, sized: bool): int -> int {
    k => if 0 <= k < |all| then Weight(all[k], sized) else 0
  }

  lemma {:induction false} MassIsSum(all: seq<Candidate>, sized: bool, n: nat)
    requires n <= |all|
    ensures Mass(all[..n], sized) == SumTo(Weights(all, sized), n)
  {
    if n > 0 {
      MassIsSum(all, sized, n - 1);
      assert all[..n][..n - 1] == all[..n - 1];
    }
  }

  /** Every candidate that weighs something is taken at most once. */
  ghost predicate CountedOnce(all: seq<Candidate>, sized: bool) {
    forall k :: 0 <= k < |all| ==> Weight(all[k], sized) == 0 || !TakenTwice(all, k)
  }

  /** No column is below its weight, and all are exact just in case of `once`. */
  ghost predicate Bounded(f: (int, int) -> int, w: int -> int, n: nat, once: bool) {
    && (forall k :: 0 <= k < n ==> Column(f, k, n) >= w(k))
    && (once <==> forall k :: 0 <= k < n ==> Column(f, k, n) == w(k))
  }

  lemma ColumnsAreInput(all: seq<Candidate>, sized: bool)
    requires AbsorbersFirst(all)
    ensures ByColumns(Cells(all, sized), |all|, |all|) >= Mass(all, sized)
    ensures ByColumns(Cells(all, sized), |all|, |all|) == Mass(all, sized) <==> CountedOnce(all, sized)
  {
    MassOfWhole(all, sized, Weights(all, sized));
    ColumnsExact(all, sized, Cells(all, sized), Weights(all, sized));
    ColumnsCompare(Cells(all, sized), Weights(all, sized), |all|, Mass(all, sized), CountedOnce(all, sized));
  }

  lemma ColumnsCompare(f: (int, int) -> int, w: int -> int, n: nat, mass: nat, once: bool)
    requires mass == SumTo(w, n) && Bounded(f, w, n, once)
    ensures ByColumns(f, n, n) >= mass && (ByColumns(f, n, n) == mass <==> once)
  {
    ColumnsBound(f, w, n, n);
  }

  lemma MassOfWhole(all: seq<Candidate>, sized: bool, w: int -> int)
    requires w == Weights(all, sized)
    ensures Mass(all, sized) == SumTo(w, |all|)
  {
    MassIsSum(all, sized, |all|);
    assert all[..|all|] == all;
  }

  lemma ColumnsExact(all: seq<Candidate>, sized: bool, f: (int, int) -> int, w: int -> int)
    requires AbsorbersFirst(all) && f == Cells(all, sized) && w == Weights(all, sized)
    ensures Bounded(f, w, |all|, CountedOnce(all, sized))
  {
    forall k | 0 <= k < |all|
      ensures Column(f, k, |all|) >= w(k)
      ensures Column(f, k, |all|) == w(k) <==> Weight(all[k], sized) == 0 || !TakenTwice(all, k)
    {
      ColumnOfCandidate(all, sized, k);
    }
  }

  lemma TotalIsColumns(all: seq<Candidate>, sized: bool)
    ensures Total(Groups(all), sized) == ByColumns(Cells(all, sized), |all|, |all|)
  {
    RowsAreGroups(all, sized);
    Exchange(Cells(all, sized), |all|, |all|);
  }

  /** The totals over the groups are never below the input's. The count is exact if and only if no
      candidate is taken by two heads, the size if and only if no candidate of non-zero size is. */
  lemma Conservation(all: seq<Candidate>)
    requires AbsorbersFirst(all)
    ensures CountTotal(Groups(all)) >= |all|
    ensures SizeTotal(Groups(all)) >= TotalSize(all)
    ensures CountTotal(Groups(all)) == |all| <==> UniquelyCovered(all)
    ensures SizeTotal(Groups(all)) == TotalSize(all)
            <==> forall k :: 0 <= k < |all| && all[k].sizeBytes != 0 ==> !TakenTwice(all, k)
  {
    TotalIsColumns(all, true);
    TotalIsColumns(all, false);
    ColumnsAreInput(all, true);
    ColumnsAreInput(all, false);
  }

  // ---- The exact condition on the input ----

  /** Two directories of the input absorb `c`, and the deeper one has conflicts, or they share a path
      and nothing absorbs the second. */
  ghost predicate Overlapping(xs: seq<Candidate>, a: Candidate, b: Candidate, c: Candidate) {
    && a in xs && b in xs && (a == b ==> multiset(xs)[a] > 1)
    && Absorbs(a, c) && Absorbs(b, c)
    && ((Descendant(a.path, b.path) && b.conflicts != []) || (a.path == b.path && IsHead(b, xs)))
  }

  lemma IndicesOf(xs: seq<Candidate>, a: Candidate, b: Candidate) returns (i: nat, j: nat)
    requires a in xs && b in xs && (a == b ==> multiset(xs)[a] > 1)
    ensures i < |xs| && j < |xs| && i != j && xs[i] == a && xs[j] == b
  {
    if a == b {
      i, j := RepeatedPlaces(xs, a);
    } else {
      i :| 0 <= i < |xs| && xs[i] == a;
      j :| 0 <= j < |xs| && xs[j] == b;
    }
  }

  /** A head that absorbs `c` and is `a` or absorbs `a`; it is not at a place whose path `a` is not below. */
  lemma HeadAbove(all: seq<Candidate>, i: nat, k: nat) returns (h: nat)
    requires AbsorbersFirst(all) && i < |all| && k < |all| && Absorbs(all[i], all[k])
    ensures HeadTakes(all, h, k) && (h == i || Absorbs(all[h], all[i]))
  {
    if IsHead(all[i], all) {
      h := i;
    } else {
      h := HeadAbsorbs(all, i);
      AbsorptionInherited(all[h], all[i], all[k]);
    }
  }

  lemma OverlapTakesTwice(all: seq<Candidate>, k: nat, a: Candidate, b: Candidate)
    requires AbsorbersFirst(all) && k < |all| && Overlapping(all, a, b, all[k])
    ensures TakenTwice(all, k)
  {
    var i, j := IndicesOf(all, a, b);
    var h := HeadAbove(all, i, k);
    assert HeadTakes(all, j, k);
    assert h != j;
  }

  lemma TwiceTakenOverlaps(all: seq<Candidate>, k: nat)
    requires k < |all| && TakenTwice(all, k)
    ensures exists a, b :: Overlapping(all, a, b, all[k])
  {
    var i: nat, j: nat :| i != j && HeadTakes(all, i, k) && HeadTakes(all, j, k);
    var a, b := all[i], all[j];
    assert a in all && b in all;
    if a == b {
      if i < j { RepeatedElement(all, i, j); } else { RepeatedElement(all, j, i); }
    }
    PathsOfOneChild(a, b, all[k]);
    assert Overlapping(all, a, b, all[k]) || Overlapping(all, b, a, all[k]);
  }

  lemma PathsOfOneChild(a: Candidate, b: Candidate, c: Candidate)
    requires Absorbs(a, c) && Absorbs(b, c)
    ensures a.path == b.path || Descendant(a.path, b.path) || Descendant(b.path, a.path)
  {
    if TrimSuffix(a.path, '/') != TrimSuffix(b.path, '/') {
      OneHeadIsInside(a, b, c);
    }
  }

  lemma OverlapPermuted(xs: seq<Candidate>, ys: seq<Candidate>, a: Candidate, b: Candidate, c: Candidate)
    requires multiset(xs) == multiset(ys)
    ensures Overlapping(xs, a, b, c) <==> Overlapping(ys, a, b, c)
  {
    SameMembers(xs, ys);
  }

  /** What a caller can read off the input: the count is exact if and only if no candidate has two
      overlapping directories, the size if and only if none of non-zero size has. */
  lemma CountedTwiceExactly(input: seq<Candidate>, all: seq<Candidate>)
    requires SortOf(input, all, PathIdLe)
    ensures CountTotal(Groups(all)) == |input| <==> !exists a, b, c :: c in input && Overlapping(input, a, b, c)
    ensures SizeTotal(Groups(all)) == TotalSize(input)
            <==> !exists a, b, c :: c in input && c.sizeBytes != 0 && Overlapping(input, a, b, c)
  {
    SortedAbsorbersFirst(all);
    SameMembers(input, all);
    Conservation(all);
    SameTotalSize(input, all);
    forall k | 0 <= k < |all| ensures TakenTwice(all, k) <==> exists a, b :: Overlapping(input, a, b, all[k]) {
      TakenTwiceExactly(input, all, k);
    }
    forall a, b, c | c in input && Overlapping(input, a, b, c)
      ensures exists k :: 0 <= k < |all| && all[k] == c && TakenTwice(all, k)
    {
      assert c in all;
      var k :| 0 <= k < |all| && all[k] == c;
      assert Overlapping(input, a, b, all[k]);
    }
  }

  lemma TakenTwiceExactly(input: seq<Candidate>, all: seq<Candidate>, k: nat)
    requires multiset(input) == multiset(all) && AbsorbersFirst(all) && k < |all|
    ensures TakenTwice(all, k) <==> exists a, b :: Overlapping(input, a, b, all[k])
  {
    if TakenTwice(all, k) {
      TwiceTakenOverlaps(all, k);
      var a, b :| Overlapping(all, a, b, all[k]);
      OverlapPermuted(input, all, a, b, all[k]);
    }
    if a, b :| Overlapping(input, a, b, all[k]) {
      OverlapPermuted(input, all, a, b, all[k]);
      OverlapTakesTwice(all, k, a, b);
    }
  }

  lemma SameTotalSize(xs: seq<Candidate>, ys: seq<Candidate>)
    requires multiset(xs) == multiset(ys)
    ensures TotalSize(xs) == TotalSize(ys) && |xs| == |ys|
  {
    SameMembers(xs, ys);
    TotalSizeIsSum(xs);
    TotalSizeIsSum(ys);
    SumSeqPermuted((c: Candidate) => c.sizeBytes, xs, ys);
  }

  // ---- A condition on the input that a caller can read off ----

  /** Directory candidates are free of conflicts, occur once, and differ in slash-trimmed path. */
  ghost predicate SeparateDirectories(xs: seq<Candidate>) {
    && (forall x :: x in xs && x.kind.DirectoryKind? ==> x.conflicts == [] && multiset(xs)[x] == 1)
    && (forall x, y :: x in xs && y in xs && x.kind.DirectoryKind? && y.kind.DirectoryKind? && x != y ==>
                         TrimSuffix(x.path, '/') != TrimSuffix(y.path, '/'))
  }

  lemma OneHeadIsInside(a: Candidate, b: Candidate, c: Candidate)
    requires Absorbs(a, c) && Absorbs(b, c)
    requires TrimSuffix(a.path, '/') != TrimSuffix(b.path, '/')
    ensures Descendant(a.path, b.path) || Descendant(b.path, a.path)
  {
    var ta, tb := TrimSuffix(a.path, '/'), TrimSuffix(b.path, '/');
    assert c.path[..|ta| + 1] == ta + "/" && c.path[..|tb| + 1] == tb + "/";
    assert c.path[..|ta|] == ta && c.path[..|tb|] == tb;
    if |ta| < |tb| {
      assert ta + "/" <= tb by {
        assert (tb + "/")[..|ta| + 1] == ta + "/";
      }
    } else if |tb| < |ta| {
      assert tb + "/" <= ta by {
        assert (ta + "/")[..|tb| + 1] == tb + "/";
      }
    }
  }

  /** Then every candidate is a head or is taken by exactly one head, and grouping conserves
      the number of candidates and their total size. */
  lemma SeparateDirectoriesConserve(input: seq<Candidate>, all: seq<Candidate>)
    requires SortOf(input, all, PathIdLe) && SeparateDirectories(input)
    ensures UniquelyCovered(all)
    ensures forall k :: 0 <= k < |all| ==>
                          (IsHead(all[k], all) <==> !exists i :: 0 <= i < k && HeadTakes(all, i, k))
    ensures CountTotal(Groups(all)) == |input|
    ensures SizeTotal(Groups(all)) == TotalSize(input)
  {
    SameMembers(input, all);
    SortedAbsorbersFirst(all);
    forall i, j, k | HeadTakes(all, i, k) && HeadTakes(all, j, k) ensures i == j {
      HeadsOfOneCandidate(all, i, j, k);
    }
    forall k | 0 <= k < |all|
      ensures IsHead(all[k], all) <==> !exists i :: 0 <= i < k && HeadTakes(all, i, k)
    {
      AbsorbedExactly(input, all, k);
    }
    Conservation(all);
    SameTotalSize(input, all);
  }

  lemma HeadsOfOneCandidate(all: seq<Candidate>, i: nat, j: nat, k: nat)
    requires SeparateDirectories(all)
    requires HeadTakes(all, i, k) && HeadTakes(all, j, k)
    ensures i == j
  {
    var a, b := all[i], all[j];
    assert a in all && b in all;
    if a == b {
      if i < j { RepeatedElement(all, i, j); }
      if j < i { RepeatedElement(all, j, i); }
    } else {
      OneHeadIsInside(a, b, all[k]);
    }
  }

  lemma {:induction false} TotalSizeIsSum(xs: seq<Candidate>)
    ensures TotalSize(xs) == SumSeq((c: Candidate) => c.sizeBytes, xs)
  {
    if xs != [] {
      TotalSizeIsSum(xs[..|xs| - 1]);
    }
  }

  // ---- The condition is needed ----

  ghost function Plain(id: string, kind: CandidateKind, path: string, size: nat, conflicts: seq<string>): Candidate {
    Candidate(id, kind, path, "", None, 0, None, size, BaselineObserved, Present, "", "review", [], [], [], conflicts)
  }

  ghost function Nest(size: nat): seq<Candidate> {
    [Plain("1", DirectoryKind, "a", 0, []), Plain("2", DirectoryKind, "a/b", 0, ["kept"]),
     Plain("3", FileKind, "a/b/c", size, [])]
  }

  lemma NestIsTakenTwice(size: nat)
    ensures AbsorbersFirst(Nest(size)) && TakenTwice(Nest(size), 2)
  {
    var all := Nest(size);
    assert forall p, c :: p in all && c in all && Absorbs(p, c) ==> |p.path| < |c.path|;
    assert TrimSuffix("a", '/') + "/" == "a/" && TrimSuffix("a/b", '/') + "/" == "a/b/";
    assert "a/b/c"[..2] == "a/" && "a/b/c"[..4] == "a/b/";
    assert HeadTakes(all, 0, 2);
    assert HeadTakes(all, 1, 2);
  }

  lemma SizeOfThree(a: Candidate, b: Candidate, c: Candidate)
    ensures TotalSize([a, b, c]) == a.sizeBytes + b.sizeBytes + c.sizeBytes
  {
    assert [a, b, c][..2] == [a, b] && [a, b][..1] == [a] && [a][..0] == [];
    assert TotalSize([a]) == a.sizeBytes;
    assert TotalSize([a, b]) == TotalSize([a]) + b.sizeBytes;
  }

  /** A directory with a conflict stays a head inside its parent, and both count its children; the sizes
      are wrong exactly when the shared child has one. */
  lemma ConflictingDirectoryCountsTwice(size: nat)
    ensures AbsorbersFirst(Nest(size)) && !UniquelyCovered(Nest(size))
    ensures CountTotal(Groups(Nest(size))) > 3
    ensures SizeTotal(Groups(Nest(size))) > size <==> size > 0
  {
    NestIsTakenTwice(size);
    var all := Nest(size);
    Conservation(all);
    SizeOfThree(all[0], all[1], all[2]);
    assert all == [all[0], all[1], all[2]];
    assert all[2].sizeBytes == size && TakenTwice(all, 2);
    assert forall k :: 0 <= k < |all| && all[k].sizeBytes != 0 ==> k == 2;
    assert SizeTotal(Groups(all)) == TotalSize(all) <==> size == 0;
  }
}
