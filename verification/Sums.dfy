/** Finite sums over a grid, used for counting arguments: adding by rows or by columns is the same. */
module Sums {

  ghost function Row(f: (int, int) -> int, i: int, n: nat): int {
    if n == 0 then 0 else Row(f, i, n - 1) + f(i, n - 1)
  }

  ghost function Column(f: (int, int) -> int, j: int, m: nat): int {
    if m == 0 then 0 else Column(f, j, m - 1) + f(m - 1, j)
  }

  ghost function ByRows(f: (int, int) -> int, m: nat, n: nat): int {
    if m == 0 then 0 else ByRows(f, m - 1, n) + Row(f, m - 1, n)
  }

  ghost function ByColumns(f: (int, int) -> int, m: nat, n: nat): int {
    if n == 0 then 0 else ByColumns(f, m, n - 1) + Column(f, n - 1, m)
  }

  /** A running total that grows by one row at a time is the sum by rows. */
  lemma {:induction false} RowsAddUp(f: (int, int) -> int, total: int -> int, m: nat, n: nat)
    requires total(0) == 0 && forall i :: 0 <= i < m ==> total(i + 1) == total(i) + Row(f, i, n)
    ensures ByRows(f, m, n) == total(m)
  {
    if m > 0 {
      RowsAddUp(f, total, m - 1, n);
      assert total(m - 1 + 1) == total(m - 1) + Row(f, m - 1, n);
    }
  }

  lemma {:induction false} AddRow(f: (int, int) -> int, m: nat, n: nat)
    requires m > 0
    ensures ByColumns(f, m, n) == ByColumns(f, m - 1, n) + Row(f, m - 1, n)
  {
    if n > 0 {
      AddRow(f, m, n - 1);
    }
  }

  lemma {:induction false} Exchange(f: (int, int) -> int, m: nat, n: nat)
    ensures ByRows(f, m, n) == ByColumns(f, m, n)
  {
    if m == 0 {
      EmptyGrid(f, n);
    } else {
      Exchange(f, m - 1, n);
      AddRow(f, m, n);
    }
  }

  lemma {:induction false} EmptyGrid(f: (int, int) -> int, n: nat)
    ensures ByColumns(f, 0, n) == 0
  {
    if n > 0 {
      EmptyGrid(f, n - 1);
    }
  }

  /** A column with one non-zero cell adds up to that cell. */
  lemma {:induction false} SingleCell(f: (int, int) -> int, j: int, m: nat, at: int)
    requires forall i :: 0 <= i < m && i != at ==> f(i, j) == 0
    ensures Column(f, j, m) == if 0 <= at < m then f(at, j) else 0
  {
    if m > 0 {
      SingleCell(f, j, m - 1, at);
    }
  }

  /** A column of non-negative cells is at least the sum of any two of them, and of any one. */
  lemma {:induction false} CellBounds(f: (int, int) -> int, j: int, m: nat, at: int, other: int)
    requires forall i :: 0 <= i < m ==> f(i, j) >= 0
    ensures Column(f, j, m) >= 0
    ensures 0 <= at < m ==> Column(f, j, m) >= f(at, j)
    ensures 0 <= at < other < m ==> Column(f, j, m) >= f(at, j) + f(other, j)
  {
    if m > 0 {
      CellBounds(f, j, m - 1, at, other);
    }
  }

  ghost function SumTo(weight: int -> int, n: nat): int {
    if n == 0 then 0 else SumTo(weight, n - 1) + weight(n - 1)
  }

  /** Columns that are each at least their weight add up to at least the weights, and to exactly the
      weights if and only if each column is exact. */
  lemma {:induction false} ColumnsBound(f: (int, int) -> int, weight: int -> int, m: nat, n: nat)
    requires forall j :: 0 <= j < n ==> Column(f, j, m) >= weight(j)
    ensures ByColumns(f, m, n) >= SumTo(weight, n)
    ensures ByColumns(f, m, n) == SumTo(weight, n) <==> forall j :: 0 <= j < n ==> Column(f, j, m) == weight(j)
  {
    if n > 0 {
      ColumnsBound(f, weight, m, n - 1);
    }
  }

  // ---- Sums over a sequence ----

  function SumSeq<T>(weight: T -> nat, xs: seq<T>): nat {
    if xs == [] then 0 else SumSeq(weight, xs[..|xs| - 1]) + weight(xs[|xs| - 1])
  }

  lemma {:induction false} SumSeqConcat<T>(weight: T -> nat, a: seq<T>, b: seq<T>)
    ensures SumSeq(weight, a + b) == SumSeq(weight, a) + SumSeq(weight, b)
  {
    if b == [] {
      assert a + b == a;
    } else {
      var n := |b| - 1;
      assert (a + b)[..|a + b| - 1] == a + b[..n];
      SumSeqConcat(weight, a, b[..n]);
    }
  }

  /** A sum does not depend on the order. */
  lemma {:induction false} SumSeqPermuted<T>(weight: T -> nat, a: seq<T>, b: seq<T>)
    requires multiset(a) == multiset(b)
    ensures SumSeq(weight, a) == SumSeq(weight, b)
  {
    if a == [] {
      assert |multiset(b)| == 0;
    } else {
      var n := |a| - 1;
      var x := a[n];
      assert x in multiset(a);
      assert x in b;
      var k :| 0 <= k < |b| && b[k] == x;
      WithoutOne(a, b, k);
      SumSeqPermuted(weight, a[..n], b[..k] + b[k + 1..]);
      SumSeqAround(weight, b, k);
    }
  }

  lemma WithoutOne<T>(a: seq<T>, b: seq<T>, k: nat)
    requires a != [] && k < |b| && b[k] == a[|a| - 1] && multiset(a) == multiset(b)
    ensures multiset(a[..|a| - 1]) == multiset(b[..k] + b[k + 1..])
  {
    OneOut(b, k);
    OneOut(a, |a| - 1);
    assert a[..|a| - 1] + a[|a|..] == a[..|a| - 1];
  }

  lemma OneOut<T>(xs: seq<T>, k: nat)
    requires k < |xs|
    ensures multiset(xs[..k] + xs[k + 1..]) == multiset(xs) - multiset{xs[k]}
  {
    assert xs == xs[..k] + ([xs[k]] + xs[k + 1..]);
  }

  lemma SumSeqAround<T>(weight: T -> nat, b: seq<T>, k: nat)
    requires k < |b|
    ensures SumSeq(weight, b) == SumSeq(weight, b[..k] + b[k + 1..]) + weight(b[k])
  {
    CutAround(b, k);
    SumSeqInserted(weight, b[..k], b[k], b[k + 1..]);
  }

  lemma CutAround<T>(b: seq<T>, k: nat)
    requires k < |b|
    ensures b[..k] + [b[k]] + b[k + 1..] == b
  {
  }

  lemma SumSeqInserted<T>(weight: T -> nat, front: seq<T>, x: T, back: seq<T>)
    ensures SumSeq(weight, front + [x] + back) == SumSeq(weight, front + back) + weight(x)
  {
    SumSeqConcat(weight, front, back);
    SumSeqConcat(weight, front + [x], back);
    SumSeqNext(weight, front, x);
  }

  lemma SumSeqNext<T>(weight: T -> nat, front: seq<T>, x: T)
    ensures SumSeq(weight, front + [x]) == SumSeq(weight, front) + weight(x)
  {
    assert (front + [x])[..|front|] == front;
  }

  /** Equal weights place by place add up to the same. */
  lemma {:induction false} SumSeqPointwise<T, U>(f: T -> nat, g: U -> nat, a: seq<T>, b: seq<U>)
    requires |a| == |b| && forall i :: 0 <= i < |a| ==> f(a[i]) == g(b[i])
    ensures SumSeq(f, a) == SumSeq(g, b)
  {
    if a != [] {
      SumSeqPointwise(f, g, a[..|a| - 1], b[..|b| - 1]);
    }
  }

  lemma {:induction false} SumSeqZero<T>(f: T -> nat, a: seq<T>)
    requires forall x :: x in a ==> f(x) == 0
    ensures SumSeq(f, a) == 0
  {
    if a != [] {
      assert a[|a| - 1] in a && forall x :: x in a[..|a| - 1] ==> x in a;
      SumSeqZero(f, a[..|a| - 1]);
    }
  }

  lemma {:induction false} SumSeqCounts<T(!new)>(f: T -> nat, a: seq<T>, x: T)
    requires forall y :: f(y) == if y == x then 1 else 0
    ensures SumSeq(f, a) == multiset(a)[x]
  {
    if a != [] {
      SumSeqCounts(f, a[..|a| - 1], x);
      assert a == a[..|a| - 1] + [a[|a| - 1]];
    }
  }

  /** Weights of at most one that add up to one: a single place has it. */
  lemma {:induction false} SumSeqOne<T>(f: T -> nat, a: seq<T>) returns (i: nat)
    requires SumSeq(f, a) == 1
    ensures i < |a| && f(a[i]) == 1 && forall j :: 0 <= j < |a| && j != i ==> f(a[j]) == 0
  {
    var n := |a| - 1;
    if f(a[n]) == 1 {
      i := n;
      forall j | 0 <= j < n ensures f(a[j]) == 0 {
        SumSeqAround(f, a[..n], j);
      }
    } else {
      i := SumSeqOne(f, a[..n]);
    }
  }

  lemma SumSeqPrefix<T>(weight: T -> nat, a: seq<T>, b: seq<T>)
    requires a <= b
    ensures SumSeq(weight, a) <= SumSeq(weight, b)
  {
    assert b == a + b[|a|..];
    SumSeqConcat(weight, a, b[|a|..]);
  }
}
