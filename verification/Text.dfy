/** String operations of the Go standard library that the evidence core is built on:
    splitting and joining on one separator, prefixes and suffixes, and the lexicographic
    order used by every sort over strings. A `char` stands for one byte of a Go string. */
module Text {

  datatype Option<+T> = None | Some(value: T)

  datatype Result<+T, +E> = Ok(value: T) | Err(error: E)

  /** strings.TrimSuffix for the one-character suffix that the code uses. */
  function TrimSuffix(s: string, c: char): string {
    if s != "" && s[|s| - 1] == c then s[..|s| - 1] else s
  }

  /** strings.TrimPrefix. */
  function TrimPrefix(s: string, p: string): string {
    if p <= s then s[|p|..] else s
  }

  /** strings.Contains. */
  predicate Contains(s: string, sub: string) {
    exists i :: 0 <= i <= |s| && sub <= s[i..]
  }

  /** strings.Split on a one-character separator: always at least one part. */
  function Split(s: string, sep: char): (parts: seq<string>)
    ensures |parts| >= 1
  {
    if s == "" then [""]
    else if s[0] == sep then [""] + Split(s[1..], sep)
    else
      var rest := Split(s[1..], sep);
      [[s[0]] + rest[0]] + rest[1..]
  }

  /** strings.Join with a one-character separator. */
  function Join(parts: seq<string>, sep: char): string {
    if |parts| == 0 then ""
    else if |parts| == 1 then parts[0]
    else parts[0] + [sep] + Join(parts[1..], sep)
  }

  lemma {:induction false} SplitConcat(a: string, b: string, sep: char)
    ensures Split(a + [sep] + b, sep) == Split(a, sep) + Split(b, sep)
  {
    var whole := a + [sep] + b;
    if a == "" {
      assert whole[1..] == b;
    } else {
      assert whole[1..] == a[1..] + [sep] + b;
      SplitConcat(a[1..], b, sep);
    }
  }

  lemma {:induction false} SplitWhole(s: string, sep: char)
    requires sep !in s
    ensures Split(s, sep) == [s]
  {
    if s != "" {
      SplitWhole(s[1..], sep);
      assert [s[0]] + s[1..] == s;
    }
  }

  lemma {:induction false} SplitParts(s: string, sep: char)
    ensures forall part :: part in Split(s, sep) ==> sep !in part
  {
    if s != "" {
      SplitParts(s[1..], sep);
      var rest := Split(s[1..], sep);
      assert rest[0] in rest;
    }
  }

  /** Joining and splitting undo each other, on separator-free parts. */
  lemma {:induction false} SplitJoin(parts: seq<string>, sep: char)
    requires |parts| >= 1
    requires forall part :: part in parts ==> sep !in part
    ensures Split(Join(parts, sep), sep) == parts
  {
    SplitWhole(parts[0], sep);
    if |parts| > 1 {
      SplitJoin(parts[1..], sep);
      SplitConcat(parts[0], Join(parts[1..], sep), sep);
    }
  }

  lemma {:induction false} JoinSplit(s: string, sep: char)
    ensures Join(Split(s, sep), sep) == s
  {
    if s != "" {
      JoinSplit(s[1..], sep);
      var rest := Split(s[1..], sep);
      var parts := Split(s, sep);
      if s[0] == sep {
        assert parts[1..] == rest;
      } else if |rest| == 1 {
        assert parts == [[s[0]] + rest[0]];
      } else {
        assert parts[1..] == rest[1..];
      }
    }
  }

  lemma {:induction false} JoinConcat(a: seq<string>, b: seq<string>, sep: char)
    requires |a| >= 1 && |b| >= 1
    ensures Join(a + b, sep) == Join(a, sep) + [sep] + Join(b, sep)
  {
    assert (a + b)[0] == a[0];
    assert (a + b)[1..] == a[1..] + b;
    if |a| > 1 {
      JoinConcat(a[1..], b, sep);
    }
  }

  // ---- The order of Go strings ----

  predicate LexLess(a: string, b: string) {
    b != "" && (a == "" || a[0] < b[0] || (a[0] == b[0] && LexLess(a[1..], b[1..])))
  }

  predicate LexLe(a: string, b: string) {
    a == b || LexLess(a, b)
  }

  lemma {:induction false} LexLessTransitive(a: string, b: string, c: string)
    requires LexLess(a, b) && LexLess(b, c)
    ensures LexLess(a, c)
  {
    if a != "" && a[0] == b[0] == c[0] {
      LexLessTransitive(a[1..], b[1..], c[1..]);
    }
  }

  lemma {:induction false} LexLessTotal(a: string, b: string)
    ensures LexLess(a, b) || LexLess(b, a) || a == b
    ensures !(LexLess(a, b) && LexLess(b, a))
    ensures !LexLess(a, a)
  {
    if a != "" {
      LexLessTotal(a[1..], a[1..]);
      if b != "" && a[0] == b[0] {
        LexLessTotal(a[1..], b[1..]);
        assert a == [a[0]] + a[1..] && b == [b[0]] + b[1..];
      }
    }
  }

  /** A proper prefix comes first. */
  lemma {:induction false} ProperPrefixLess(a: string, b: string)
    requires a < b
    ensures LexLess(a, b)
  {
    if a != "" {
      assert a[1..] < b[1..];
      ProperPrefixLess(a[1..], b[1..]);
    }
  }

  lemma LexLeIsTotalOrder()
    ensures forall a: string, b: string :: LexLe(a, b) || LexLe(b, a)
    ensures forall a: string, b: string :: LexLe(a, b) && LexLe(b, a) ==> a == b
    ensures forall a: string, b: string, c: string :: LexLe(a, b) && LexLe(b, c) ==> LexLe(a, c)
  {
    forall a: string, b: string
      ensures LexLe(a, b) || LexLe(b, a)
      ensures LexLe(a, b) && LexLe(b, a) ==> a == b
    {
      LexLessTotal(a, b);
    }
    forall a: string, b: string, c: string | LexLe(a, b) && LexLe(b, c)
      ensures LexLe(a, c)
    {
      if LexLess(a, b) && LexLess(b, c) {
        LexLessTransitive(a, b, c);
      }
    }
  }

  /** The order of strings: at the first place where they differ, or where the shorter one ends. */
  lemma {:induction false} LexLessExactly(a: string, b: string)
    ensures LexLess(a, b) <==> exists k :: FirstDifference(a, b, k)
  {
    if a != "" && b != "" && a[0] == b[0] {
      LexLessExactly(a[1..], b[1..]);
      if k :| FirstDifference(a[1..], b[1..], k) {
        assert a == [a[0]] + a[1..] && b == [b[0]] + b[1..];
        assert FirstDifference(a, b, k + 1);
      }
      if k :| FirstDifference(a, b, k) {
        assert k > 0;
        assert a[1..][..k - 1] == a[..k][1..] && b[1..][..k - 1] == b[..k][1..];
        assert FirstDifference(a[1..], b[1..], k - 1);
      }
    } else if LexLess(a, b) {
      assert FirstDifference(a, b, 0);
    }
  }

  ghost predicate FirstDifference(a: string, b: string, k: int) {
    && 0 <= k <= |a| && k < |b| && a[..k] == b[..k] && (k == |a| || a[k] < b[k])
  }

  // ---- Where the parts of a split text are ----

  /** The text between two separators, or between a separator and an end. */
  ghost predicate Between(t: string, sep: char, i: int, j: int) {
    && 0 <= i <= j <= |t| && (i == 0 || t[i - 1] == sep) && (j == |t| || t[j] == sep)
    && forall k :: i <= k < j ==> t[k] != sep
  }

  ghost predicate IsPart(t: string, sep: char, part: string, later: bool) {
    exists i, j :: Between(t, sep, i, j) && part == t[i..j] && (i > 0 <==> later)
  }

  lemma {:induction false} SplitPlaces(t: string, sep: char, part: string)
    ensures Split(t, sep)[0] == part <==> IsPart(t, sep, part, false)
    ensures part in Split(t, sep)[1..] <==> IsPart(t, sep, part, true)
  {
    if t == "" {
      assert Between(t, sep, 0, 0);
    } else {
      SplitPlaces(t[1..], sep, part);
      if t[0] == sep {
        PlacesAfterSeparator(t, sep, part);
      } else {
        var rest := Split(t[1..], sep);
        SplitPlaces(t[1..], sep, rest[0]);
        PlacesAfterLetter(t, sep, part, rest[0]);
      }
    }
  }

  lemma PlacesAfterSeparator(t: string, sep: char, part: string)
    requires t != "" && t[0] == sep
    ensures IsPart(t, sep, part, false) <==> part == ""
    ensures IsPart(t, sep, part, true) <==> IsPart(t[1..], sep, part, false) || IsPart(t[1..], sep, part, true)
  {
    NothingBefore(t, sep, part);
    if i, j :| Between(t, sep, i, j) && part == t[i..j] && i > 0 {
      PlaceMoves(t, sep, i - 1, j - 1);
      assert IsPart(t[1..], sep, part, i > 1);
    }
    if i, j :| Between(t[1..], sep, i, j) && part == t[1..][i..j] {
      PlaceMoves(t, sep, i, j);
      assert IsPart(t, sep, part, true);
    }
  }

  lemma NothingBefore(t: string, sep: char, part: string)
    requires t != "" && t[0] == sep
    ensures IsPart(t, sep, part, false) <==> part == ""
  {
    assert Between(t, sep, 0, 0) && t[0..0] == "";
    assert forall j :: Between(t, sep, 0, j) ==> j == 0;
  }

  lemma PlaceMoves(t: string, sep: char, i: nat, j: int)
    requires t != "" && t[0] == sep && i <= j < |t|
    ensures Between(t, sep, i + 1, j + 1) <==> Between(t[1..], sep, i, j)
    ensures t[1..][i..j] == t[i + 1..j + 1]
  {
    var u := t[1..];
    assert forall k :: 0 <= k < |u| ==> u[k] == t[k + 1];
    assert forall k :: 0 < k < |t| ==> t[k] == u[k - 1];
  }

  lemma OneEnd(t: string, sep: char, i: int, j: int, k: int)
    requires Between(t, sep, i, j) && Between(t, sep, i, k)
    ensures j == k
  {
  }

  lemma PlacesAfterLetter(t: string, sep: char, part: string, first: string)
    requires t != "" && t[0] != sep && IsPart(t[1..], sep, first, false)
    ensures IsPart(t, sep, part, false) <==> part == [t[0]] + first
    ensures IsPart(t, sep, part, true) <==> IsPart(t[1..], sep, part, true)
  {
    FirstAfterLetter(t, sep, part, first);
    LaterAfterLetter(t, sep, part);
  }

  lemma FirstAfterLetter(t: string, sep: char, part: string, first: string)
    requires t != "" && t[0] != sep && IsPart(t[1..], sep, first, false)
    ensures IsPart(t, sep, part, false) <==> part == [t[0]] + first
  {
    var i, j :| Between(t[1..], sep, i, j) && first == t[1..][i..j] && !(i > 0);
    assert Between(t, sep, 0, j + 1);
    assert t[0..j + 1] == [t[0]] + t[1..][0..j];
    if IsPart(t, sep, part, false) {
      var m, n :| Between(t, sep, m, n) && part == t[m..n] && !(m > 0);
      OneEnd(t, sep, 0, n, j + 1);
    }
  }

  lemma LaterAfterLetter(t: string, sep: char, part: string)
    requires t != "" && t[0] != sep
    ensures IsPart(t, sep, part, true) <==> IsPart(t[1..], sep, part, true)
  {
    if IsPart(t, sep, part, true) {
      var i, j :| Between(t, sep, i, j) && part == t[i..j] && i > 0;
      assert Between(t[1..], sep, i - 1, j - 1);
      assert t[1..][i - 1..j - 1] == t[i..j];
    }
    if IsPart(t[1..], sep, part, true) {
      var i, j :| Between(t[1..], sep, i, j) && part == t[1..][i..j] && i > 0;
      assert Between(t, sep, i + 1, j + 1);
      assert t[1..][i..j] == t[i + 1..j + 1];
    }
  }
}
