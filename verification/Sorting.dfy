/** What the code relies on when it calls a library sort, stated for any total preorder:
    the output is an ordered permutation, and it is unique when no two different elements tie. */
module Sorting {
  import opened Text

  ghost predicate TotalPreorder<T(!new)>(le: (T, T) -> bool) {
    && (forall x, y :: le(x, y) || le(y, x))
    && (forall x, y, z :: le(x, y) && le(y, z) ==> le(x, z))
  }

  predicate Ordered<T>(xs: seq<T>, le: (T, T) -> bool) {
    forall i, j :: 0 <= i < j < |xs| ==> le(xs[i], xs[j])
  }

  /** `ys` is a possible outcome of sorting `xs`; ties may come out in any order. */
  ghost predicate SortOf<T>(xs: seq<T>, ys: seq<T>, le: (T, T) -> bool) {
    Ordered(ys, le) && multiset(ys) == multiset(xs)
  }

  /** Elements of `xs` that tie are the same element. */
  ghost predicate TieFree<T>(xs: seq<T>, le: (T, T) -> bool) {
    forall x, y :: x in xs && y in xs && le(x, y) && le(y, x) ==> x == y
  }

  lemma SameMembers<T>(xs: seq<T>, ys: seq<T>)
    requires multiset(xs) == multiset(ys)
    ensures |xs| == |ys|
    ensures forall x :: x in xs <==> x in ys
  {
    assert |multiset(xs)| == |multiset(ys)|;
    forall x ensures x in xs <==> x in ys {
      assert x in multiset(xs) <==> x in multiset(ys);
    }
  }

  lemma SameTails<T>(xs: seq<T>, ys: seq<T>)
    requires multiset(xs) == multiset(ys) && xs != [] && ys != [] && xs[0] == ys[0]
    ensures multiset(xs[1..]) == multiset(ys[1..])
  {
    assert xs == [xs[0]] + xs[1..] && ys == [ys[0]] + ys[1..];
    assert multiset(xs[1..]) == multiset(xs) - multiset{xs[0]};
    assert multiset(ys[1..]) == multiset(ys) - multiset{ys[0]};
  }

  /** Two ordered permutations of the same tie-free sequence are equal. */
  lemma {:induction false} SortUnique<T(!new)>(xs: seq<T>, ys: seq<T>, le: (T, T) -> bool)
    requires TotalPreorder(le)
    requires Ordered(xs, le) && Ordered(ys, le) && multiset(xs) == multiset(ys)
    requires TieFree(xs, le)
    ensures xs == ys
  {
    SameMembers(xs, ys);
    if xs != [] {
      assert xs[0] in ys && ys[0] in xs;
      assert le(xs[0], ys[0]) && le(ys[0], xs[0]);
      assert xs[0] == ys[0];
      SameTails(xs, ys);
      SortUnique(xs[1..], ys[1..], le);
    }
  }

  /** sort.Slice: library code, kept as an insertion sort with the contract callers rely on. */
  method SortSlice<T(!new)>(xs: seq<T>, le: (T, T) -> bool) returns (ys: seq<T>)
    requires TotalPreorder(le)
    ensures SortOf(xs, ys, le)
  {
    ys := [];
    for n := 0 to |xs|
      invariant Ordered(ys, le)
      invariant multiset(ys) == multiset(xs[..n])
    {
      var x := xs[n];
      var k := |ys|;
      while k > 0 && !le(ys[k - 1], x)
        invariant 0 <= k <= |ys|
        invariant forall i :: k <= i < |ys| ==> le(x, ys[i])
      {
        k := k - 1;
      }
      InsertKeepsOrder(ys, k, x, le);
      assert xs[..n + 1] == xs[..n] + [x];
      assert ys == ys[..k] + ys[k..];
      ys := ys[..k] + [x] + ys[k..];
    }
    assert xs[..|xs|] == xs;
  }

  lemma InsertKeepsOrder<T(!new)>(ys: seq<T>, k: nat, x: T, le: (T, T) -> bool)
    requires TotalPreorder(le) && Ordered(ys, le)
    requires k <= |ys| && (k > 0 ==> le(ys[k - 1], x))
    requires forall i :: k <= i < |ys| ==> le(x, ys[i])
    ensures Ordered(ys[..k] + [x] + ys[k..], le)
  {
    forall i | 0 <= i < k ensures le(ys[i], x) {
      if i < k - 1 {
        assert le(ys[i], ys[k - 1]);
      }
    }
  }

  // ---- Distinct keys, and maps over permutations ----

  ghost predicate DistinctKeys<T, K>(xs: seq<T>, key: T -> K) {
    forall i, j :: 0 <= i < j < |xs| ==> key(xs[i]) != key(xs[j])
  }

  lemma RepeatedElement<T>(xs: seq<T>, i: nat, j: nat)
    requires i < j < |xs| && xs[i] == xs[j]
    ensures multiset(xs)[xs[i]] >= 2
  {
    assert xs == xs[..j] + xs[j..];
    assert xs[..j][i] == xs[i] && xs[j..][0] == xs[j];
    assert xs[i] in xs[..j] && xs[i] in xs[j..];
  }

  lemma {:induction false} RepeatedPlaces<T>(xs: seq<T>, x: T) returns (i: nat, j: nat)
    requires multiset(xs)[x] >= 2
    ensures i < j < |xs| && xs[i] == x && xs[j] == x
  {
    var n := |xs| - 1;
    assert xs == xs[..n] + [xs[n]];
    if xs[n] == x {
      assert multiset(xs[..n])[x] >= 1;
      assert x in xs[..n];
      i :| 0 <= i < n && xs[..n][i] == x;
      j := n;
    } else {
      i, j := RepeatedPlaces(xs[..n], x);
    }
  }

  /** Distinctness of keys does not depend on the order. */
  lemma DistinctKeysPermuted<T, K>(xs: seq<T>, ys: seq<T>, key: T -> K)
    requires multiset(xs) == multiset(ys) && DistinctKeys(xs, key)
    ensures DistinctKeys(ys, key)
  {
    SameMembers(xs, ys);
    forall i, j | 0 <= i < j < |ys| ensures key(ys[i]) != key(ys[j]) {
      if ys[i] == ys[j] {
        RepeatedElement(ys, i, j);
        var a, b := RepeatedPlaces(xs, ys[i]);
      } else {
        assert ys[i] in xs && ys[j] in xs;
      }
    }
  }

  function MapSeq<T, U>(f: T -> U, xs: seq<T>): (ys: seq<U>)
    ensures |ys| == |xs| && forall i :: 0 <= i < |xs| ==> ys[i] == f(xs[i])
  {
    if xs == [] then [] else MapSeq(f, xs[..|xs| - 1]) + [f(xs[|xs| - 1])]
  }

  lemma {:induction false} MapSeqConcat<T, U>(f: T -> U, a: seq<T>, b: seq<T>)
    ensures MapSeq(f, a + b) == MapSeq(f, a) + MapSeq(f, b)
  {
    assert forall i :: 0 <= i < |a + b| ==> MapSeq(f, a + b)[i] == (MapSeq(f, a) + MapSeq(f, b))[i];
  }

  /** Mapping permuted sequences gives permuted sequences. */
  lemma {:induction false} MapSeqPermuted<T, U>(f: T -> U, xs: seq<T>, ys: seq<T>)
    requires multiset(xs) == multiset(ys)
    ensures multiset(MapSeq(f, xs)) == multiset(MapSeq(f, ys))
  {
    SameMembers(xs, ys);
    if xs != [] {
      var n := |xs| - 1;
      var x := xs[n];
      assert x in ys;
      var k :| 0 <= k < |ys| && ys[k] == x;
      var rest := ys[..k] + ys[k + 1..];
      assert ys == ys[..k] + [x] + ys[k + 1..];
      assert xs == xs[..n] + [x];
      assert multiset(rest) == multiset(ys) - multiset{x};
      MapSeqPermuted(f, xs[..n], rest);
      MapSeqConcat(f, ys[..k], ys[k + 1..]);
      MapSeqConcat(f, ys[..k] + [x], ys[k + 1..]);
      MapSeqConcat(f, ys[..k], [x]);
    }
  }

  // ---- Directory listings: the names of a finite directory in the order os.ReadDir gives ----

  lemma LexLePreorder()
    ensures TotalPreorder(LexLe)
  {
    LexLeIsTotalOrder();
  }

  /** os.ReadDir: every name once, in string order. */
  ghost predicate ListingOf(dir: set<string>, names: seq<string>) {
    Ordered(names, LexLe) && multiset(names) == multiset(dir)
  }

  lemma ListingMembers(dir: set<string>, names: seq<string>)
    requires ListingOf(dir, names)
    ensures forall n :: n in names <==> n in dir
    ensures |names| == |dir|
  {
    forall n ensures n in names <==> n in dir {
      assert n in multiset(names) <==> n in multiset(dir);
    }
    assert |multiset(names)| == |multiset(dir)|;
  }

  lemma ListingUnique(dir: set<string>, a: seq<string>, b: seq<string>)
    requires ListingOf(dir, a) && ListingOf(dir, b)
    ensures a == b
  {
    LexLeIsTotalOrder();
    SortUnique(a, b, LexLe);
  }

  lemma {:induction false} LeastExists<T(!new)>(dir: set<T>, le: (T, T) -> bool)
    requires TotalPreorder(le) && dir != {}
    ensures exists m :: m in dir && forall n :: n in dir ==> le(m, n)
  {
    var some :| some in dir;
    var rest := dir - {some};
    assert le(some, some);
    if rest == {} {
      assert dir == {some};
    } else {
      LeastExists(rest, le);
      var m :| m in rest && forall n :: n in rest ==> le(m, n);
      var least := if le(some, m) then some else m;
      assert forall n :: n in dir ==> n == some || n in rest;
      assert least in dir && forall n :: n in dir ==> le(least, n);
    }
  }

  lemma PrependKeepsOrder<T>(m: T, rest: seq<T>, le: (T, T) -> bool)
    requires Ordered(rest, le) && forall n :: n in rest ==> le(m, n)
    ensures Ordered([m] + rest, le)
  {
  }

  lemma PrependMembers<T>(m: T, rest: seq<T>, dir: set<T>)
    requires m in dir && multiset(rest) == multiset(dir - {m})
    ensures multiset([m] + rest) == multiset(dir)
    ensures forall n :: n in rest ==> n in dir
  {
    assert multiset(dir) == multiset{m} + multiset(dir - {m});
    forall n | n in rest ensures n in dir {
      assert n in multiset(rest);
    }
  }

  ghost function Enumerate<T(!new)>(dir: set<T>, le: (T, T) -> bool): (names: seq<T>)
    requires TotalPreorder(le)
    ensures Ordered(names, le) && multiset(names) == multiset(dir)
  {
    if dir == {} then []
    else
      LeastExists(dir, le);
      var m :| m in dir && forall n :: n in dir ==> le(m, n);
      var rest := Enumerate(dir - {m}, le);
      PrependMembers(m, rest, dir);
      PrependKeepsOrder(m, rest, le);
      [m] + rest
  }

  ghost function Listing(dir: set<string>): (names: seq<string>)
    ensures ListingOf(dir, names)
  {
    LexLePreorder();
    Enumerate(dir, LexLe)
  }

  method ReadDir(dir: set<string>) returns (names: seq<string>)
    ensures ListingOf(dir, names)
  {
    var rest, found := dir, [];
    while rest != {}
      invariant rest <= dir
      invariant multiset(found) == multiset(dir - rest)
      decreases rest
    {
      var name :| name in rest;
      assert dir - (rest - {name}) == (dir - rest) + {name};
      found, rest := found + [name], rest - {name};
    }
    assert dir - rest == dir;
    LexLePreorder();
    names := SortSlice(found, LexLe);
  }

  /** os.ReadDir, as the one listing there is. */
  method ReadListing(dir: set<string>) returns (names: seq<string>)
    ensures names == Listing(dir)
  {
    names := ReadDir(dir);
    ListingUnique(dir, names, Listing(dir));
  }

  /** os.ReadDir where only the names matter, not their order. */
  method ReadNames(dir: set<string>) returns (names: seq<string>)
    ensures multiset(names) == multiset(dir)
    ensures forall n :: n in names <==> n in dir
  {
    names := ReadDir(dir);
    ListingMembers(dir, names);
  }
}
