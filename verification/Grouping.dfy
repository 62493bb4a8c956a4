/** internal/group: the greedy scan that folds candidates under a directory candidate. */
module Grouping {
  import opened Text
  import opened Contract
  import opened Sorting

  /** descendant(parent, child). */
  predicate Descendant(parent: string, child: string) {
    child != parent && TrimSuffix(parent, '/') + "/" <= child
  }

  /** A directory candidate takes a candidate below it that agrees with it and has no conflicts. */
  predicate Absorbs(p: Candidate, c: Candidate) {
    && p.kind.DirectoryKind? && p.path != ""
    && Descendant(p.path, c.path)
    && c.evidenceLevel == p.evidenceLevel
    && c.currentStatus == p.currentStatus
    && c.conflicts == []
  }

  /** The sort key: path, then ID. */
  predicate PathIdLe(a: Candidate, b: Candidate) {
    if a.path == b.path then LexLe(a.id, b.id) else LexLess(a.path, b.path)
  }

  // ---- The order-free specification ----

  /** Nothing in the input absorbs `c`. */
  ghost predicate IsHead(c: Candidate, all: seq<Candidate>) {
    forall p :: p in all ==> !Absorbs(p, c)
  }

  function Covered(h: Candidate, xs: seq<Candidate>): seq<Candidate> {
    if xs == [] then []
    else
      var n := |xs| - 1;
      Covered(h, xs[..n]) + if Absorbs(h, xs[n]) then [xs[n]] else []
  }

  function TotalSize(xs: seq<Candidate>): nat {
    if xs == [] then 0 else TotalSize(xs[..|xs| - 1]) + xs[|xs| - 1].sizeBytes
  }

  function FirstPaths(xs: seq<Candidate>): seq<string> {
    seq(if |xs| < 3 then |xs| else 3, i requires 0 <= i < |xs| => xs[i].path)
  }

  /** The group of a head: everything in the input that it absorbs. */
  function GroupOf(h: Candidate, all: seq<Candidate>): CandidateGroup {
    var covered := Covered(h, all);
    CandidateGroup(h.id, h.kind, h.path, h.evidenceLevel, h.currentStatus,
                   |covered|, h.sizeBytes + TotalSize(covered), FirstPaths(covered))
  }

  /** One group per head among the first `n` candidates of `all`. */
  ghost function GroupsUpTo(all: seq<Candidate>, n: nat): seq<CandidateGroup>
    requires n <= |all|
  {
    if n == 0 then []
    else GroupsUpTo(all, n - 1) + if IsHead(all[n - 1], all) then [GroupOf(all[n - 1], all)] else []
  }

  ghost function Groups(all: seq<Candidate>): seq<CandidateGroup> {
    GroupsUpTo(all, |all|)
  }

  // ---- Order and ancestry ----

  lemma PathIdLePreorder()
    ensures TotalPreorder(PathIdLe)
  {
    forall a: Candidate, b: Candidate ensures PathIdLe(a, b) || PathIdLe(b, a) {
      LexLessTotal(a.path, b.path);
      LexLessTotal(a.id, b.id);
    }
    forall a: Candidate, b: Candidate, c: Candidate | PathIdLe(a, b) && PathIdLe(b, c)
      ensures PathIdLe(a, c)
    {
      PathIdLeTransitive(a, b, c);
    }
  }

  lemma PathIdLeTransitive(a: Candidate, b: Candidate, c: Candidate)
    requires PathIdLe(a, b) && PathIdLe(b, c)
    ensures PathIdLe(a, c)
  {
    LexLessTotal(a.path, b.path);
    if a.path == b.path == c.path {
      if a.id != b.id && b.id != c.id {
        LexLessTransitive(a.id, b.id, c.id);
      }
    } else if a.path != b.path && b.path != c.path {
      LexLessTransitive(a.path, b.path, c.path);
    }
  }

  /** An absorbed candidate sorts strictly after its absorber. */
  lemma AbsorberSortsFirst(p: Candidate, c: Candidate)
    requires Absorbs(p, c)
    ensures p.path < c.path
    ensures !PathIdLe(c, p)
  {
    assert p.path <= TrimSuffix(p.path, '/') + "/";
    ProperPrefixLess(p.path, c.path);
    LexLessTotal(p.path, c.path);
  }

  /** Absorption is inherited from the absorber's own absorber. */
  lemma AbsorptionInherited(q: Candidate, p: Candidate, c: Candidate)
    requires Absorbs(q, p) && Absorbs(p, c)
    ensures Absorbs(q, c)
  {
    AbsorberSortsFirst(q, p);
    AbsorberSortsFirst(p, c);
  }

  /** All that the scan needs from sorting: an absorber stands before what it absorbs. */
  ghost predicate AbsorbersFirst(all: seq<Candidate>) {
    forall i, k :: 0 <= i < |all| && 0 <= k < |all| && Absorbs(all[i], all[k]) ==> i < k
  }

  lemma SortedAbsorbersFirst(all: seq<Candidate>)
    requires Ordered(all, PathIdLe)
    ensures AbsorbersFirst(all)
  {
    forall i, k | 0 <= i < |all| && 0 <= k < |all| && Absorbs(all[i], all[k]) ensures i < k {
      AbsorberSortsFirst(all[i], all[k]);
    }
  }

  /** Some head, earlier in the sorted order, absorbs every absorbed candidate. */
  lemma {:induction false} HeadAbsorbs(all: seq<Candidate>, k: nat) returns (i: nat)
    requires AbsorbersFirst(all)
    requires k < |all| && !IsHead(all[k], all)
    ensures i < k && IsHead(all[i], all) && Absorbs(all[i], all[k])
    decreases k
  {
    var p :| p in all && Absorbs(p, all[k]);
    i :| 0 <= i < |all| && all[i] == p;
    if !IsHead(all[i], all) {
      var h := HeadAbsorbs(all, i);
      AbsorptionInherited(all[h], all[i], all[k]);
      i := h;
    }
  }

  /** Nothing at or before a candidate's own place is covered by it. */
  lemma {:induction false} CoveredLater(all: seq<Candidate>, index: nat, n: nat)
    requires AbsorbersFirst(all)
    requires index < |all| && n <= index + 1
    ensures Covered(all[index], all[..n]) == []
  {
    if n > 0 {
      CoveredLater(all, index, n - 1);
      assert all[..n][..n - 1] == all[..n - 1];
      assert !Absorbs(all[index], all[n - 1]);
    }
  }

  // ---- The greedy scan ----

  ghost predicate HeadTakes(all: seq<Candidate>, i: nat, k: nat) {
    i < |all| && k < |all| && IsHead(all[i], all) && Absorbs(all[i], all[k])
  }

  /** `used` marks exactly the candidates taken by a head among the first `index`. */
  ghost predicate Marked(all: seq<Candidate>, used: seq<bool>, index: nat) {
    |used| == |all| &&
    forall k :: 0 <= k < |all| ==> (used[k] <==> exists i :: 0 <= i < index && HeadTakes(all, i, k))
  }

  /** The mark tells exactly whether the next candidate is a head. */
  lemma MarkDecidesHead(all: seq<Candidate>, used: seq<bool>, index: nat)
    requires AbsorbersFirst(all)
    requires index < |all| && Marked(all, used, index)
    ensures used[index] <==> !IsHead(all[index], all)
  {
    if !IsHead(all[index], all) {
      var i := HeadAbsorbs(all, index);
      assert HeadTakes(all, i, index);
    }
  }

  /** Candidates: the result is the order-free specification of a sorted copy of the input. */
  method Candidates(input: seq<Candidate>) returns (groups: seq<CandidateGroup>)
    ensures exists all :: SortOf(input, all, PathIdLe) && groups == Groups(all)
  {
    PathIdLePreorder();
    var candidates := SortSlice(input, PathIdLe);
    SortedAbsorbersFirst(candidates);
    groups := Scan(candidates);
  }

  /** The forward scan over the sorted copy. */
  method Scan(candidates: seq<Candidate>) returns (groups: seq<CandidateGroup>)
    requires AbsorbersFirst(candidates)
    ensures groups == Groups(candidates)
  {
    var used := new bool[|candidates|](_ => false);
    groups := [];
    for index := 0 to |candidates|
      invariant Marked(candidates, used[..], index)
      invariant groups == GroupsUpTo(candidates, index)
    {
      MarkDecidesHead(candidates, used[..], index);
      ghost var before := used[..];
      if !used[index] {
        var group := Head(candidates, index, used);
        groups := groups + [group];
      }
      MarkNext(candidates, before, used[..], index);
    }
  }

  /** One group: the head at `index` with everything it absorbs, which is marked. */
  method Head(candidates: seq<Candidate>, index: nat, used: array<bool>) returns (group: CandidateGroup)
    requires AbsorbersFirst(candidates)
    requires index < |candidates| == used.Length
    modifies used
    ensures group == GroupOf(candidates[index], candidates)
    ensures forall k :: 0 <= k < used.Length ==>
                          (used[k] <==> old(used[k]) || Absorbs(candidates[index], candidates[k]))
  {
    var candidate := candidates[index];
    group := CandidateGroup(candidate.id, candidate.kind, candidate.path, candidate.evidenceLevel,
                            candidate.currentStatus, 0, candidate.sizeBytes, []);
    if candidate.kind.DirectoryKind? && candidate.path != "" {
      CoveredLater(candidates, index, index + 1);
      group := Absorb(candidates, index, group, used);
    } else {
      NothingCovered(candidate, candidates);
    }
  }

  lemma {:induction false} NothingCovered(h: Candidate, xs: seq<Candidate>)
    requires !h.kind.DirectoryKind? || h.path == ""
    ensures Covered(h, xs) == []
  {
    if xs != [] {
      NothingCovered(h, xs[..|xs| - 1]);
    }
  }

  lemma MarkNext(all: seq<Candidate>, before: seq<bool>, after: seq<bool>, index: nat)
    requires index < |all| && Marked(all, before, index)
    requires |after| == |all|
    requires forall k :: 0 <= k < |all| ==> (after[k] <==> before[k] || HeadTakes(all, index, k))
    ensures Marked(all, after, index + 1)
  {
    forall k | 0 <= k < |all|
      ensures after[k] <==> exists i :: 0 <= i < index + 1 && HeadTakes(all, i, k)
    {
      if exists i :: 0 <= i < index + 1 && HeadTakes(all, i, k) {
        var i :| 0 <= i < index + 1 && HeadTakes(all, i, k);
        assert i == index || before[k];
      }
    }
  }

  /** The inner loop: mark and count everything below the directory at `index`. */
  method Absorb(candidates: seq<Candidate>, index: nat, start: CandidateGroup, used: array<bool>)
    returns (group: CandidateGroup)
    requires index < |candidates| == used.Length
    requires candidates[index].kind.DirectoryKind? && candidates[index].path != ""
    requires start == GroupOf(candidates[index], candidates[..index + 1])
    requires forall k :: 0 <= k < index + 1 ==> !Absorbs(candidates[index], candidates[k])
    modifies used
    ensures group == GroupOf(candidates[index], candidates)
    ensures forall k :: 0 <= k < used.Length ==>
                          (used[k] <==> old(used[k]) || Absorbs(candidates[index], candidates[k]))
  {
    var candidate := candidates[index];
    group := start;
    ghost var before := used[..];
    for childIndex := index + 1 to |candidates|
      invariant group == GroupOf(candidate, candidates[..childIndex])
      invariant forall k :: 0 <= k < childIndex ==>
                              (used[k] <==> before[k] || Absorbs(candidate, candidates[k]))
      invariant forall k :: childIndex <= k < used.Length ==> used[k] == before[k]
    {
      var taken: bool;
      group, taken := TakeChild(candidates, childIndex, candidate, group);
      if taken {
        used[childIndex] := true;
      }
    }
    assert candidates[..|candidates|] == candidates;
  }

  /** One step of the inner loop: whether the directory takes the child, and its group after that. */
  method TakeChild(candidates: seq<Candidate>, childIndex: nat, candidate: Candidate, group: CandidateGroup)
    returns (next: CandidateGroup, taken: bool)
    requires childIndex < |candidates| && candidate.kind.DirectoryKind? && candidate.path != ""
    requires group == GroupOf(candidate, candidates[..childIndex])
    ensures next == GroupOf(candidate, candidates[..childIndex + 1])
    ensures taken <==> Absorbs(candidate, candidates[childIndex])
  {
    var child := candidates[childIndex];
    GroupGrows(candidate, candidates, childIndex);
    if !Descendant(candidate.path, child.path) {
      return group, false;
    }
    if child.evidenceLevel != candidate.evidenceLevel || child.currentStatus != candidate.currentStatus
       || |child.conflicts| > 0 {
      return group, false;
    }
    taken := true;
    next := group.(descendantCount := group.descendantCount + 1,
                   aggregateSizeBytes := group.aggregateSizeBytes + child.sizeBytes);
    if |next.samplePaths| < 3 {
      next := next.(samplePaths := next.samplePaths + [child.path]);
    }
  }

  lemma GroupGrows(h: Candidate, all: seq<Candidate>, n: nat)
    requires n < |all|
    ensures var g, next := GroupOf(h, all[..n]), GroupOf(h, all[..n + 1]);
            next == if !Absorbs(h, all[n]) then g else
                      g.(descendantCount := g.descendantCount + 1,
                         aggregateSizeBytes := g.aggregateSizeBytes + all[n].sizeBytes,
                         samplePaths := if |g.samplePaths| < 3 then g.samplePaths + [all[n].path] else g.samplePaths)
  {
    assert all[..n + 1][..n] == all[..n];
    if Absorbs(h, all[n]) {
      var covered := Covered(h, all[..n]);
      assert Covered(h, all[..n + 1]) == covered + [all[n]];
      assert (covered + [all[n]])[..|covered|] == covered;
      assert FirstPaths(covered + [all[n]])
          == if |covered| < 3 then FirstPaths(covered) + [all[n].path] else FirstPaths(covered);
    } else {
      assert Covered(h, all[..n + 1]) == Covered(h, all[..n]);
    }
  }
}
