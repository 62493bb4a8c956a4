/** internal/event: a raw path of an owner's event becomes a clean path inside a root, both as written
    and after symbolic links. */
module ScopedPaths {
  import opened Text
  import opened Paths
  import opened Scope

  datatype Presence = Exists | NotExist | Failed

  /** os.Lstat and filepath.EvalSymlinks, fixed during one call. */
  datatype FileSystem = FileSystem(lstat: string -> Presence, evalSymlinks: string -> Option<string>)

  ghost predicate ValidFileSystem(fs: FileSystem) {
    forall p :: IsAbs(p) && fs.evalSymlinks(p).Some? ==> IsAbs(fs.evalSymlinks(p).value)
  }

  // ---- filepath.Dir ----

  function LastSlash(p: string): int {
    if p == "" then -1 else if p[|p| - 1] == '/' then |p| - 1 else LastSlash(p[..|p| - 1])
  }

  lemma {:induction false} LastSlashBounds(p: string)
    ensures -1 <= LastSlash(p) < |p|
  {
    if p != "" && p[|p| - 1] != '/' {
      LastSlashBounds(p[..|p| - 1]);
    }
  }

  function Dir(p: string): string {
    LastSlashBounds(p);
    Clean(p[..LastSlash(p) + 1])
  }

  lemma {:induction false} LastSlashOf(a: string, b: string)
    requires '/' !in b
    ensures LastSlash(a + "/" + b) == |a|
  {
    var p := a + "/" + b;
    if b == "" {
      assert p[|p| - 1] == '/';
    } else {
      assert p[|p| - 1] == b[|b| - 1] && b[|b| - 1] in b;
      assert p[..|p| - 1] == a + "/" + b[..|b| - 1];
      LastSlashOf(a, b[..|b| - 1]);
    }
  }

  /** Dir cuts the text at the last slash. */
  lemma DirCuts(front: string, last: string)
    requires '/' !in last
    ensures Dir(front + "/" + last) == Clean(front + "/")
  {
    LastSlashOf(front, last);
    assert (front + "/" + last)[..|front| + 1] == front + "/";
  }

  /** The parent of a clean absolute path drops its last element. */
  lemma DirOfElements(before: seq<string>, last: string)
    requires AllPlain(before) && Plain(last)
    ensures Dir(Render(true, before + [last])) == Render(true, before)
    ensures |Render(true, before)| < |Render(true, before + [last])|
  {
    ParentText(before, last);
    ElementsOfRender(before);
    if before == [] {
      assert Render(true, before + [last]) == "" + "/" + last;
      DirCuts("", last);
      assert "" + "/" == "/" == Render(true, before);
    } else {
      var front := Render(true, before);
      assert Render(true, before + [last]) == front + "/" + last;
      DirCuts(front, last);
      TrailingSlash(front);
    }
  }

  lemma ParentText(before: seq<string>, last: string)
    ensures before != [] ==> Join(before + [last], '/') == Join(before, '/') + "/" + last
    ensures before == [] ==> Join(before + [last], '/') == last
  {
    if before != [] {
      JoinConcat(before, [last], '/');
    }
  }

  lemma TrailingSlash(p: string)
    requires IsAbs(p)
    ensures Clean(p + "/") == Clean(p)
  {
    assert p + "/" == p + ['/'] + "";
    SplitConcat(p, "", '/');
    FoldConcat(true, [], Split(p, '/'), [""]);
  }

  // ---- The existing prefix ----

  function Prefix(path: string, k: nat): string
    requires k <= |Elements(path)|
  {
    Render(true, Elements(path)[..k])
  }

  /** The longest existing prefix of at most `k` elements, resolved, with the rest of the path put back. */
  function ResolvedFrom(fs: FileSystem, path: string, k: nat): Option<string>
    requires k <= |Elements(path)|
  {
    match fs.lstat(Prefix(path, k))
    case Exists =>
      (match fs.evalSymlinks(Prefix(path, k))
       case None => None
       case Some(resolved) =>
         Some(if k == |Elements(path)| then resolved else JoinPath(resolved, Join(Elements(path)[k..], '/'))))
    case Failed => None
    case NotExist => if k == 0 then Some(path) else ResolvedFrom(fs, path, k - 1)
  }

  /** resolveExistingPrefix: the loop over parents is that search, and ends because each parent is a
      shorter path. */
  method ResolveExistingPrefix(fs: FileSystem, path: string) returns (r: Option<string>)
    requires IsAbs(path) && Clean(path) == path
    ensures r == ResolvedFrom(fs, path, |Elements(path)|)
  {
    var probe := path;
    AbsElementsPlain(path);
    ghost var k: nat := |Elements(path)|;
    assert Elements(path)[..k] == Elements(path);
    while true
      invariant k <= |Elements(path)| && probe == Prefix(path, k)
      invariant ResolvedFrom(fs, path, |Elements(path)|) == ResolvedFrom(fs, path, k)
      decreases |probe|
    {
      RemainderBelow(path, k);
      ParentOfPrefix(path, k);
      match fs.lstat(probe) {
        case Exists =>
          var resolved := fs.evalSymlinks(probe);
          if resolved.None? {
            return None;
          }
          var remainder := Rel(probe, path).value;
          if remainder == "." {
            return resolved;
          }
          return Some(JoinPath(resolved.value, remainder));
        case Failed =>
          return None;
        case NotExist =>
          var parent := Dir(probe);
          if parent == probe {
            return Some(path);
          }
          probe := parent;
          k := k - 1;
      }
    }
  }

  lemma ParentOfElements(elements: seq<string>, k: nat)
    requires AllPlain(elements) && k <= |elements|
    ensures k == 0 ==> Dir(Render(true, elements[..k])) == Render(true, elements[..k])
    ensures k > 0 ==> Dir(Render(true, elements[..k])) == Render(true, elements[..k - 1])
                      && |Render(true, elements[..k - 1])| < |Render(true, elements[..k])|
  {
    if k == 0 {
      ParentOfNothing(elements[..0]);
    } else {
      LastElement(elements, k);
      DirOfElements(elements[..k - 1], elements[k - 1]);
    }
  }

  /** Only "/" is its own parent. */
  lemma ParentOfNothing(elements: seq<string>)
    requires elements == []
    ensures Dir(Render(true, elements)) == Render(true, elements)
  {
    var root := Render(true, elements);
    ElementsOfRender(elements);
    assert root == "" + "/" + "" && root == "" + "/";
    DirCuts("", "");
  }

  lemma LastElement(elements: seq<string>, k: nat)
    requires AllPlain(elements) && 0 < k <= |elements|
    ensures elements[..k] == elements[..k - 1] + [elements[k - 1]]
    ensures AllPlain(elements[..k - 1]) && Plain(elements[k - 1])
  {
    assert elements[k - 1] in elements && forall part :: part in elements[..k - 1] ==> part in elements;
  }

  lemma ParentOfPrefix(path: string, k: nat)
    requires IsAbs(path) && k <= |Elements(path)|
    ensures k == 0 ==> Dir(Prefix(path, k)) == Prefix(path, k)
    ensures k > 0 ==> Dir(Prefix(path, k)) == Prefix(path, k - 1) && |Prefix(path, k - 1)| < |Prefix(path, k)|
  {
    AbsElementsPlain(path);
    ParentOfElements(Elements(path), k);
  }

  lemma RemainderBelow(path: string, k: nat)
    requires IsAbs(path) && k <= |Elements(path)|
    ensures var elements := Elements(path);
            && IsAbs(Prefix(path, k)) && Rel(Prefix(path, k), path) == Some(RelativeText(elements[k..]))
            && (RelativeText(elements[k..]) == "." <==> k == |elements|)
  {
    var elements := Elements(path);
    AbsElementsPlain(path);
    assert forall part :: part in elements[..k] ==> part in elements;
    assert forall part :: part in elements[k..] ==> part in elements;
    ElementsOfRender(elements[..k]);
    RelativeTextDot(elements[k..]);
    InsideExactly(Prefix(path, k), path);
  }

  // ---- normalizeScopedPath ----

  function Resolved(fs: FileSystem, path: string): Option<string> {
    ResolvedFrom(fs, path, |Elements(path)|)
  }

  /** The search over the roots: the first root that contains the path as written decides. */
  function CheckScope(fs: FileSystem, path: string, roots: seq<Root>): Option<string>
    requires ValidFileSystem(fs) && CleanRoots(roots)
  {
    if roots == [] then None
    else
      assert roots[0] in roots;
      if !PathWithin(roots[0].path, path) then CheckScope(fs, path, roots[1..])
      else
        match fs.evalSymlinks(roots[0].path)
        case None => None
        case Some(resolvedRoot) =>
          match Resolved(fs, path)
          case None => None
          case Some(resolved) => if PathWithin(resolvedRoot, resolved) then Some(path) else None
  }

  const NUL: char := '\0'

  function NormalizeScopedPath(fs: FileSystem, raw: string, base: string, roots: seq<Root>): Option<string>
    requires ValidFileSystem(fs) && CleanRoots(roots)
  {
    if raw == "" || NUL in raw || (!IsAbs(raw) && base == "") then None
    else CheckScope(fs, Clean(if IsAbs(raw) then raw else JoinPath(base, raw)), roots)
  }

  /** The path lies in a root as written, and in that root's real directory after symbolic links. */
  ghost predicate InScope(fs: FileSystem, path: string, roots: seq<Root>)
    requires ValidFileSystem(fs) && CleanRoots(roots)
  {
    && IsAbs(path) && Clean(path) == path
    && exists root :: root in roots && PathWithin(root.path, path)
         && fs.evalSymlinks(root.path).Some? && Resolved(fs, path).Some?
         && PathWithin(fs.evalSymlinks(root.path).value, Resolved(fs, path).value)
  }

  lemma {:induction false} CheckedPathInScope(fs: FileSystem, path: string, roots: seq<Root>)
    requires ValidFileSystem(fs) && CleanRoots(roots) && IsAbs(path) && Clean(path) == path
    requires CheckScope(fs, path, roots).Some?
    ensures CheckScope(fs, path, roots) == Some(path) && InScope(fs, path, roots)
  {
    assert roots[0] in roots;
    if !PathWithin(roots[0].path, path) {
      assert forall root :: root in roots[1..] ==> root in roots;
      CheckedPathInScope(fs, path, roots[1..]);
    }
  }

  /** Whatever normalizeScopedPath returns is in scope. */
  lemma NormalizedPathInScope(fs: FileSystem, raw: string, base: string, roots: seq<Root>)
    requires ValidFileSystem(fs) && CleanRoots(roots) && (base == "" || IsAbs(base))
    requires NormalizeScopedPath(fs, raw, base, roots).Some?
    ensures InScope(fs, NormalizeScopedPath(fs, raw, base, roots).value, roots)
  {
    var joined := if IsAbs(raw) then raw else JoinPath(base, raw);
    if !IsAbs(raw) {
      CleanAbs(base + "/" + raw);
    }
    CleanAbs(joined);
    CheckedPathInScope(fs, Clean(joined), roots);
  }

  // ---- Exactly which paths are accepted, and as what ----

  ghost predicate AbsentAbove(fs: FileSystem, path: string, k: nat, n: nat)
    requires n <= |Elements(path)|
  {
    forall j :: k < j <= n ==> fs.lstat(Prefix(path, j)) == NotExist
  }

  /** The first k elements are the longest existing prefix of the first n, which resolves to `target`. */
  ghost predicate LongestPrefix(fs: FileSystem, path: string, k: nat, n: nat, target: string)
    requires n <= |Elements(path)|
  {
    && k <= n && AbsentAbove(fs, path, k, n) && fs.lstat(Prefix(path, k)) == Exists
    && fs.evalSymlinks(Prefix(path, k)) == Some(target)
  }

  ghost function PutBack(path: string, k: nat, target: string): string
    requires k <= |Elements(path)|
  {
    if k == |Elements(path)| then target else JoinPath(target, Join(Elements(path)[k..], '/'))
  }

  /** The real form of a path: its longest existing prefix resolved, with the rest put back; the path itself
      if nothing of it exists. */
  ghost predicate RealForm(fs: FileSystem, path: string, n: nat, form: string)
    requires n <= |Elements(path)|
  {
    || (exists k: nat, target :: LongestPrefix(fs, path, k, n, target) && form == PutBack(path, k, target))
    || (form == path && AbsentAbove(fs, path, 0, n) && fs.lstat(Prefix(path, 0)) == NotExist)
  }

  lemma {:induction false} ResolvedExactly(fs: FileSystem, path: string, n: nat, form: string)
    requires n <= |Elements(path)|
    ensures ResolvedFrom(fs, path, n) == Some(form) <==> RealForm(fs, path, n, form)
  {
    match fs.lstat(Prefix(path, n))
    case NotExist =>
      if n > 0 {
        ResolvedExactly(fs, path, n - 1, form);
        NotThereIsSmaller(fs, path, n, form);
      } else {
        assert forall k: nat, target :: !LongestPrefix(fs, path, k, n, target);
      }
    case Exists =>
      assert forall k: nat, target :: LongestPrefix(fs, path, k, n, target) ==> k == n;
      if fs.evalSymlinks(Prefix(path, n)).Some? {
        assert LongestPrefix(fs, path, n, n, fs.evalSymlinks(Prefix(path, n)).value);
      }
    case Failed =>
      assert forall k: nat, target :: !LongestPrefix(fs, path, k, n, target);
  }

  lemma SamePrefix(fs: FileSystem, path: string, k: nat, n: nat, target: string)
    requires 0 < n <= |Elements(path)| && fs.lstat(Prefix(path, n)) == NotExist
    ensures LongestPrefix(fs, path, k, n, target) <==> LongestPrefix(fs, path, k, n - 1, target)
  {
  }

  lemma NotThereIsSmaller(fs: FileSystem, path: string, n: nat, form: string)
    requires 0 < n <= |Elements(path)| && fs.lstat(Prefix(path, n)) == NotExist
    ensures RealForm(fs, path, n, form) <==> RealForm(fs, path, n - 1, form)
  {
    if k: nat, target :| LongestPrefix(fs, path, k, n, target) && form == PutBack(path, k, target) {
      SamePrefix(fs, path, k, n, target);
    }
    if k: nat, target :| LongestPrefix(fs, path, k, n - 1, target) && form == PutBack(path, k, target) {
      SamePrefix(fs, path, k, n, target);
    }
    assert AbsentAbove(fs, path, 0, n) <==> AbsentAbove(fs, path, 0, n - 1);
  }

  /** Root i is the first that contains the path as written, and its real form contains that of the path. */
  ghost predicate FirstRoot(fs: FileSystem, roots: seq<Root>, path: string, i: nat) {
    && i < |roots| && Elements(roots[i].path) <= Elements(path)
    && (forall k :: 0 <= k < i ==> !(Elements(roots[k].path) <= Elements(path)))
    && exists target, form :: RealInside(fs, roots[i].path, path, target, form)
  }

  ghost predicate RealInside(fs: FileSystem, root: string, path: string, target: string, form: string) {
    && fs.evalSymlinks(root) == Some(target) && RealForm(fs, path, |Elements(path)|, form)
    && IsAbs(form) && Elements(target) <= Elements(form)
  }

  /** `p` is what the text `raw` names, relative to `base`, in the scope of the roots. */
  ghost predicate ScopedAs(fs: FileSystem, raw: string, base: string, roots: seq<Root>, p: string) {
    && raw != "" && NUL !in raw && (IsAbs(raw) || base != "")
    && p == Render(true, Elements(if IsAbs(raw) then raw else base + "/" + raw))
    && exists i: nat :: FirstRoot(fs, roots, p, i)
  }

  lemma {:induction false} CheckScopeExactly(fs: FileSystem, path: string, roots: seq<Root>)
    requires ValidFileSystem(fs) && CleanRoots(roots) && IsAbs(path)
    ensures CheckScope(fs, path, roots) == Some(path) <==> exists i: nat :: FirstRoot(fs, roots, path, i)
    ensures CheckScope(fs, path, roots).Some? ==> CheckScope(fs, path, roots) == Some(path)
  {
    if roots != [] {
      assert roots[0] in roots && forall root :: root in roots[1..] ==> root in roots;
      InsideExactly(roots[0].path, path);
      if PathWithin(roots[0].path, path) {
        FirstRootDecides(fs, path, roots);
      } else {
        CheckScopeExactly(fs, path, roots[1..]);
        LaterRoot(fs, path, roots);
      }
    }
  }

  lemma LaterRoot(fs: FileSystem, path: string, roots: seq<Root>)
    requires roots != [] && !(Elements(roots[0].path) <= Elements(path))
    ensures (exists i: nat :: FirstRoot(fs, roots[1..], path, i)) <==> exists i: nat :: FirstRoot(fs, roots, path, i)
  {
    if i: nat :| FirstRoot(fs, roots[1..], path, i) {
      assert FirstRoot(fs, roots, path, i + 1);
    }
    if i: nat :| FirstRoot(fs, roots, path, i) {
      assert i > 0;
      assert FirstRoot(fs, roots[1..], path, i - 1);
    }
  }

  lemma FirstRootDecides(fs: FileSystem, path: string, roots: seq<Root>)
    requires ValidFileSystem(fs) && CleanRoots(roots) && IsAbs(path) && roots != []
    requires roots[0] in roots && PathWithin(roots[0].path, path) && Elements(roots[0].path) <= Elements(path)
    ensures CheckScope(fs, path, roots) == Some(path) <==> exists i: nat :: FirstRoot(fs, roots, path, i)
    ensures CheckScope(fs, path, roots).Some? ==> CheckScope(fs, path, roots) == Some(path)
  {
    var root := roots[0].path;
    assert forall i: nat :: FirstRoot(fs, roots, path, i) ==> i == 0;
    if fs.evalSymlinks(root).Some? && Resolved(fs, path).Some? {
      var target, form := fs.evalSymlinks(root).value, Resolved(fs, path).value;
      ResolvedExactly(fs, path, |Elements(path)|, form);
      InsideExactly(target, form);
      assert PathWithin(target, form) <==> RealInside(fs, root, path, target, form);
    }
    if target, form :| RealInside(fs, root, path, target, form) {
      ResolvedExactly(fs, path, |Elements(path)|, form);
      InsideExactly(target, form);
    }
    assert (exists target, form :: RealInside(fs, root, path, target, form)) <==> FirstRoot(fs, roots, path, 0);
  }

  /** normalizeScopedPath gives a path if and only if the text names it in scope. */
  lemma ScopedPathExactly(fs: FileSystem, raw: string, base: string, roots: seq<Root>, p: string)
    requires ValidFileSystem(fs) && CleanRoots(roots) && (base == "" || IsAbs(base))
    ensures NormalizeScopedPath(fs, raw, base, roots) == Some(p) <==> ScopedAs(fs, raw, base, roots, p)
  {
    if raw != "" && NUL !in raw && (IsAbs(raw) || base != "") {
      var text := if IsAbs(raw) then raw else base + "/" + raw;
      CleanAbs(text);
      CheckScopeExactly(fs, Clean(text), roots);
    }
  }
}
