/** The Unix rules of path/filepath that scopes, aliases and events depend on:
    Clean, Join, Rel, Dir and the test for a path inside a root. */
module Paths {
  import opened Text

  predicate IsAbs(p: string) { p != "" && p[0] == '/' }

  // ---- Clean ----

  /** One path element: empty and "." vanish, ".." takes back the element before it. */
  function Step(rooted: bool, stack: seq<string>, part: string): seq<string> {
    if part == "" || part == "." then stack
    else if part == ".." then
      if stack != [] && stack[|stack| - 1] != ".." then stack[..|stack| - 1]
      else if rooted then stack
      else stack + [part]
    else stack + [part]
  }

  function Fold(rooted: bool, stack: seq<string>, parts: seq<string>): seq<string>
    decreases |parts|
  {
    if parts == [] then stack else Fold(rooted, Step(rooted, stack, parts[0]), parts[1..])
  }

  function Elements(p: string): seq<string> {
    Fold(IsAbs(p), [], Split(p, '/'))
  }

  function Render(rooted: bool, elements: seq<string>): string {
    if rooted then "/" + Join(elements, '/')
    else if elements == [] then "."
    else Join(elements, '/')
  }

  function Clean(p: string): string {
    Render(IsAbs(p), Elements(p))
  }

  /** filepath.Join of two elements. */
  function JoinPath(a: string, b: string): string {
    if a == "" then (if b == "" then "" else Clean(b))
    else if b == "" then Clean(a)
    else Clean(a + "/" + b)
  }

  /** A path element that Clean keeps. */
  predicate Plain(part: string) {
    part != "" && part != "." && part != ".." && '/' !in part
  }

  ghost predicate AllPlain(parts: seq<string>) {
    forall part :: part in parts ==> Plain(part)
  }

  function Kept(parts: seq<string>): seq<string> {
    if parts == [] then []
    else (if parts[0] == "" || parts[0] == "." then [] else [parts[0]]) + Kept(parts[1..])
  }

  lemma {:induction false} FoldConcat(rooted: bool, stack: seq<string>, a: seq<string>, b: seq<string>)
    ensures Fold(rooted, stack, a + b) == Fold(rooted, Fold(rooted, stack, a), b)
    decreases |a|
  {
    if a == [] {
      assert a + b == b;
    } else {
      assert (a + b)[1..] == a[1..] + b;
      FoldConcat(rooted, Step(rooted, stack, a[0]), a[1..], b);
    }
  }

  /** Without "..", folding only appends. */
  lemma {:induction false} FoldAppends(rooted: bool, stack: seq<string>, parts: seq<string>)
    requires ".." !in parts
    ensures Fold(rooted, stack, parts) == stack + Kept(parts)
    decreases |parts|
  {
    if parts != [] {
      FoldAppends(rooted, Step(rooted, stack, parts[0]), parts[1..]);
    }
  }

  lemma {:induction false} KeptPlain(parts: seq<string>)
    requires AllPlain(parts)
    ensures Kept(parts) == parts
  {
    if parts != [] {
      assert parts[0] in parts;
      assert forall part :: part in parts[1..] ==> part in parts;
      KeptPlain(parts[1..]);
    }
  }

  lemma {:induction false} KeptMembers(parts: seq<string>)
    ensures forall part :: part in Kept(parts) ==> part in parts && part != "" && part != "."
    ensures |Kept(parts)| <= |parts|
  {
    if parts != [] {
      KeptMembers(parts[1..]);
    }
  }

  lemma {:induction false} KeptConcat(a: seq<string>, b: seq<string>)
    ensures Kept(a + b) == Kept(a) + Kept(b)
    decreases |a|
  {
    if a == [] {
      assert a + b == b;
    } else {
      assert (a + b)[1..] == a[1..] + b;
      KeptConcat(a[1..], b);
    }
  }

  lemma {:induction false} RootedFoldPlain(stack: seq<string>, parts: seq<string>)
    requires AllPlain(stack) && forall part :: part in parts ==> '/' !in part
    ensures AllPlain(Fold(true, stack, parts))
    decreases |parts|
  {
    if parts != [] {
      assert parts[0] in parts;
      var next := Step(true, stack, parts[0]);
      assert forall part :: part in next ==> part in stack || part == parts[0];
      RootedFoldPlain(next, parts[1..]);
    }
  }

  /** The elements of an absolute path are plain. */
  lemma AbsElementsPlain(p: string)
    requires IsAbs(p)
    ensures AllPlain(Elements(p))
  {
    SplitParts(p, '/');
    RootedFoldPlain([], Split(p, '/'));
  }

  /** Absolute paths in clean form are exactly the rendered plain element lists. */
  lemma ElementsOfRender(elements: seq<string>)
    requires AllPlain(elements)
    ensures IsAbs(Render(true, elements))
    ensures Elements(Render(true, elements)) == elements
    ensures Clean(Render(true, elements)) == Render(true, elements)
  {
    var text := Join(elements, '/');
    assert "/" + text == "" + ['/'] + text;
    SplitConcat("", text, '/');
    FoldConcat(true, [], [""], Split(text, '/'));
    if elements == [] {
      assert Elements("/") == [];
    } else {
      SplitJoin(elements, '/');
      FoldAppends(true, [], elements);
      KeptPlain(elements);
    }
  }

  /** Clean keeps the elements of an absolute path, and is idempotent on it. */
  lemma CleanAbs(p: string)
    requires IsAbs(p)
    ensures IsAbs(Clean(p)) && Elements(Clean(p)) == Elements(p) && Clean(Clean(p)) == Clean(p)
  {
    AbsElementsPlain(p);
    ElementsOfRender(Elements(p));
  }

  /** Joining a relative path without ".." below an absolute one appends its elements. */
  lemma JoinBelow(base: string, tail: string)
    requires IsAbs(base) && tail != "" && ".." !in Split(tail, '/')
    ensures IsAbs(JoinPath(base, tail))
    ensures Elements(JoinPath(base, tail)) == Elements(base) + Kept(Split(tail, '/'))
    ensures Clean(JoinPath(base, tail)) == JoinPath(base, tail)
  {
    var joined := base + "/" + tail;
    assert joined == base + ['/'] + tail;
    SplitConcat(base, tail, '/');
    FoldConcat(true, [], Split(base, '/'), Split(tail, '/'));
    FoldAppends(true, Elements(base), Split(tail, '/'));
    CleanAbs(joined);
  }

  // ---- Rel ----

  function CommonPrefix(a: seq<string>, b: seq<string>): nat {
    if a == [] || b == [] || a[0] != b[0] then 0 else 1 + CommonPrefix(a[1..], b[1..])
  }

  function Ups(n: nat): seq<string> {
    if n == 0 then [] else [".."] + Ups(n - 1)
  }

  function RelativeText(elements: seq<string>): string {
    if elements == [] then "." else Join(elements, '/')
  }

  /** filepath.Rel for an absolute base, the only kind the code passes. */
  function Rel(base: string, target: string): Option<string>
    requires IsAbs(base)
  {
    if !IsAbs(target) then None
    else
      var b, t := Elements(base), Elements(target);
      var k := CommonPrefix(b, t);
      CommonPrefixBounds(b, t);
      Some(RelativeText(Ups(|b| - k) + t[k..]))
  }

  /** Inside a root: the relative path exists and does not climb out. */
  function Inside(root: string, p: string): Option<string>
    requires IsAbs(root)
  {
    match Rel(root, p)
    case None => None
    case Some(relative) => if relative == ".." || "../" <= relative then None else Some(relative)
  }

  predicate PathWithin(root: string, p: string)
    requires IsAbs(root)
  {
    Inside(root, p).Some?
  }

  lemma {:induction false} CommonPrefixBounds(a: seq<string>, b: seq<string>)
    ensures CommonPrefix(a, b) <= |a| && CommonPrefix(a, b) <= |b|
    ensures CommonPrefix(a, b) == |a| <==> a <= b
  {
    if a != [] && b != [] && a[0] == b[0] {
      CommonPrefixBounds(a[1..], b[1..]);
      assert a[1..] <= b[1..] <==> a <= b;
    }
  }

  lemma RelativeTextClimbs(n: nat, rest: seq<string>)
    requires n > 0
    ensures var text := RelativeText(Ups(n) + rest); text == ".." || "../" <= text
  {
    var parts := Ups(n) + rest;
    assert parts[0] == "..";
  }

  lemma RelativeTextStays(elements: seq<string>)
    requires AllPlain(elements)
    ensures var text := RelativeText(elements); text != ".." && !("../" <= text)
  {
    if elements != [] {
      var text := Join(elements, '/');
      assert elements[0] in elements;
      SplitJoin(elements, '/');
      if "../" <= text {
        assert text == ".." + ['/'] + text[3..];
        SplitConcat("..", text[3..], '/');
        SplitWhole("..", '/');
      } else if text == ".." {
        SplitWhole("..", '/');
      }
    }
  }

  /** The textual test is exactly the prefix relation on elements. */
  lemma InsideExactly(root: string, p: string)
    requires IsAbs(root)
    ensures Inside(root, p).Some? <==> IsAbs(p) && Elements(root) <= Elements(p)
    ensures Inside(root, p).Some? ==> Inside(root, p).value == RelativeText(Elements(p)[|Elements(root)|..])
  {
    if IsAbs(p) {
      var b, t := Elements(root), Elements(p);
      CommonPrefixBounds(b, t);
      AbsElementsPlain(p);
      if b <= t {
        assert Ups(0) + t[|b|..] == t[|b|..];
        assert forall part :: part in t[|b|..] ==> part in t;
        RelativeTextStays(t[|b|..]);
      } else {
        var k := CommonPrefix(b, t);
        RelativeTextClimbs(|b| - k, t[k..]);
      }
    }
  }

  // ---- Traversal and scheme separators ----

  /** Backslashes count as slashes when the code looks for "..". */
  function Slashed(s: string): (r: string)
    ensures |r| == |s|
  {
    if s == "" then "" else [if s[0] == '\\' then '/' else s[0]] + Slashed(s[1..])
  }

  /** hasTraversal, hasParentTraversal, and the loop of safeAlias: a ".." between separators. */
  predicate HasTraversal(s: string) {
    ".." in Split(Slashed(s), '/')
  }

  lemma {:induction false} SlashedConcat(a: string, b: string)
    ensures Slashed(a + b) == Slashed(a) + Slashed(b)
    decreases |a|
  {
    if a == "" {
      assert a + b == b;
    } else {
      assert (a + b)[1..] == a[1..] + b;
      SlashedConcat(a[1..], b);
    }
  }

  lemma TraversalConcat(a: string, b: string)
    ensures HasTraversal(a + "/" + b) <==> HasTraversal(a) || HasTraversal(b)
  {
    SlashedConcat(a + "/", b);
    SlashedConcat(a, "/");
    assert Slashed("/") == "/";
    assert Slashed(a + "/" + b) == Slashed(a) + ['/'] + Slashed(b);
    SplitConcat(Slashed(a), Slashed(b), '/');
  }

  /** A joined path has a traversal exactly when one of its elements has. */
  lemma {:induction false} TraversalOfJoin(parts: seq<string>)
    requires parts != []
    ensures HasTraversal(Join(parts, '/')) <==> exists part :: part in parts && HasTraversal(part)
  {
    if |parts| > 1 {
      TraversalOfJoin(parts[1..]);
      TraversalConcat(parts[0], Join(parts[1..], '/'));
      assert parts[0] + ['/'] + Join(parts[1..], '/') == parts[0] + "/" + Join(parts[1..], '/');
      assert forall part :: part in parts <==> part == parts[0] || part in parts[1..];
    }
  }

  /** Text free of traversal has no ".." element. */
  lemma NoTraversalNoUps(s: string)
    requires !HasTraversal(s)
    ensures ".." !in Split(s, '/')
    ensures forall part :: part in Split(s, '/') ==> !HasTraversal(part)
  {
    JoinSplit(s, '/');
    TraversalOfJoin(Split(s, '/'));
    assert Slashed("..") == "..";
    SplitWhole("..", '/');
  }

  lemma {:induction false} DoubleSlashSplits(s: string, i: nat)
    requires i + 1 < |s| && s[i] == '/' && s[i + 1] == '/'
    ensures "" in Split(s, '/')[1..]
  {
    var before, after := s[..i], s[i + 2..];
    assert s == before + ['/'] + ("" + ['/'] + after);
    SplitConcat(before, "" + ['/'] + after, '/');
    SplitConcat("", after, '/');
    assert Split("", '/') == [""];
    assert Split(s, '/')[|Split(before, '/')|] == "";
  }

  lemma CleanAbsSplit(p: string)
    requires IsAbs(p) && Clean(p) == p
    ensures AllPlain(Elements(p))
    ensures Split(p, '/')[1..] == if p == "/" then [""] else Elements(p)
  {
    var elements := Elements(p);
    AbsElementsPlain(p);
    assert p == "" + ['/'] + Join(elements, '/');
    SplitConcat("", Join(elements, '/'), '/');
    if elements != [] {
      SplitJoin(elements, '/');
    }
  }

  /** A clean absolute path cannot contain the scheme separator of an alias. */
  lemma CleanAbsHasNoScheme(p: string)
    requires IsAbs(p) && Clean(p) == p
    ensures !Contains(p, "://")
  {
    CleanAbsSplit(p);
    if i :| 0 <= i <= |p| && "://" <= p[i..] {
      assert p[i..][1] == p[i + 1] && p[i..][2] == p[i + 2];
      DoubleSlashSplits(p, i + 1);
    }
  }

  // ---- What the definitions mean, place by place ----

  lemma {:induction false} SlashedAt(s: string, k: nat)
    requires k < |s|
    ensures Slashed(s)[k] == if s[k] == '\\' then '/' else s[k]
  {
    if k > 0 {
      SlashedAt(s[1..], k - 1);
    }
  }

  predicate Separator(c: char) { c == '/' || c == '\\' }

  /** Two dots between slashes, backslashes or the ends of the text. */
  ghost predicate DotsAt(s: string, i: int) {
    && 0 <= i && i + 2 <= |s| && s[i] == '.' && s[i + 1] == '.'
    && (i == 0 || Separator(s[i - 1])) && (i + 2 == |s| || Separator(s[i + 2]))
  }

  lemma TraversalExactly(s: string)
    ensures HasTraversal(s) <==> exists i :: DotsAt(s, i)
  {
    DotsInSlashed(Slashed(s), "..");
    forall i ensures DotsAt(s, i) <==> SlashedDotsAt(Slashed(s), i) {
      SameDots(s, i);
    }
  }

  ghost predicate SlashedDotsAt(t: string, i: int) {
    && 0 <= i && i + 2 <= |t| && t[i] == '.' && t[i + 1] == '.'
    && (i == 0 || t[i - 1] == '/') && (i + 2 == |t| || t[i + 2] == '/')
  }

  lemma SameDots(s: string, i: int)
    ensures DotsAt(s, i) <==> SlashedDotsAt(Slashed(s), i)
  {
    if 0 <= i && i + 2 <= |s| {
      SlashedAt(s, i);
      SlashedAt(s, i + 1);
      if i > 0 { SlashedAt(s, i - 1); }
      if i + 2 < |s| { SlashedAt(s, i + 2); }
    }
  }

  lemma DotsInSlashed(t: string, dots: string)
    requires dots == ".."
    ensures dots in Split(t, '/') <==> exists i :: SlashedDotsAt(t, i)
  {
    SplitPlaces(t, '/', dots);
    var parts := Split(t, '/');
    assert parts == [parts[0]] + parts[1..];
    if dots in parts {
      var later := dots != parts[0];
      assert IsPart(t, '/', dots, later);
      var i, j :| Between(t, '/', i, j) && dots == t[i..j] && (i > 0 <==> later);
      DotsBetween(t, i, j, dots);
    }
    if i :| SlashedDotsAt(t, i) {
      assert Between(t, '/', i, i + 2) && t[i..i + 2] == dots;
      assert IsPart(t, '/', dots, i > 0);
    }
  }

  lemma DotsBetween(t: string, i: int, j: int, dots: string)
    requires dots == ".." && Between(t, '/', i, j) && dots == t[i..j]
    ensures SlashedDotsAt(t, i)
  {
    assert |t[i..j]| == 2 && t[i..j][0] == t[i] && t[i..j][1] == t[i + 1];
  }

  /** How the elements of an absolute path grow with one more part: nothing for an empty part or a dot, one
      element less for two dots, one more for a name. */
  lemma ElementsNext(p: string, part: string)
    requires IsAbs(p) && '/' !in part
    ensures Elements(p + "/" + part)
         == if part == "" || part == "." then Elements(p)
            else if part == ".." then (if Elements(p) == [] then [] else Elements(p)[..|Elements(p)| - 1])
            else Elements(p) + [part]
  {
    AbsElementsPlain(p);
    assert p + "/" + part == p + ['/'] + part;
    SplitConcat(p, part, '/');
    SplitWhole(part, '/');
    FoldConcat(true, [], Split(p, '/'), [part]);
    if Elements(p) != [] {
      assert Elements(p)[|Elements(p)| - 1] in Elements(p);
    }
  }

  lemma ElementsOfSlash()
    ensures Elements("/") == []
  {
    assert "/"[1..] == "";
    assert Split("/", '/') == ["", ""];
    assert ["", ""][1..] == [""] && [""][1..] == [];
  }
}
