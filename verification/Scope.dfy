/** internal/scope: which directories a task may name as its roots. */
module Scope {
  import opened Text
  import opened Paths

  datatype Root = Root(path: string, identity: string)
  datatype Validated = Validated(taskID: string, roots: seq<Root>)
  datatype TaskScope = TaskScope(taskID: string, workspace: string, tempRoots: seq<string>)

  datatype ScopeError = MissingFields | UnsafePath | TooBroad | Unreadable | Overlapping

  /** What the operating system answers during one call. */
  datatype RootInfo = Absent | NotDirectory | Directory(identity: string)
  datatype Host = Host(home: string, cwd: Option<string>, lstat: string -> RootInfo)

  ghost predicate ValidHost(host: Host) {
    host.cwd.Some? ==> IsAbs(host.cwd.value)
  }

  /** filepath.Abs. */
  function AbsPath(host: Host, raw: string): Option<string> {
    if IsAbs(raw) then Some(Clean(raw))
    else if host.cwd.None? then None
    else Some(JoinPath(host.cwd.value, raw))
  }

  predicate SamePath(a: string, b: string) {
    b != "" && Clean(a) == Clean(b)
  }

  function ValidateRoot(host: Host, raw: string): Result<Root, ScopeError> {
    if raw == "" || HasTraversal(raw) then Err(UnsafePath)
    else
      match AbsPath(host, raw)
      case None => Err(UnsafePath)
      case Some(joined) =>
        var abs := Clean(joined);
        if abs == "/" || SamePath(abs, host.home) then Err(TooBroad)
        else
          match host.lstat(abs)
          case Absent => Err(Unreadable)
          case NotDirectory => Err(UnsafePath)
          case Directory(identity) => Ok(Root(abs, identity))
  }

  predicate StrictlyInside(a: string, b: string)
    requires IsAbs(a)
  {
    Inside(a, b).Some? && Inside(a, b).value != "."
  }

  predicate PathsOverlap(a: string, b: string)
    requires IsAbs(a) && IsAbs(b)
  {
    SamePath(a, b) || StrictlyInside(a, b) || StrictlyInside(b, a)
  }

  /** An accepted root is a clean absolute path, and not the file system root. */
  lemma AcceptedRoot(host: Host, raw: string)
    requires ValidHost(host) && ValidateRoot(host, raw).Ok?
    ensures var path := ValidateRoot(host, raw).value.path;
            IsAbs(path) && Clean(path) == path && Elements(path) != [] && !SamePath(path, host.home)
  {
    var joined := AbsPath(host, raw).value;
    if IsAbs(raw) {
      CleanAbs(raw);
    } else {
      CleanAbs(host.cwd.value + "/" + raw);
    }
    CleanAbs(joined);
  }

  lemma RelativeTextDot(elements: seq<string>)
    requires AllPlain(elements)
    ensures RelativeText(elements) == "." <==> elements == []
  {
    if elements != [] {
      assert elements[0] in elements;
      SplitJoin(elements, '/');
      SplitWhole(".", '/');
    }
  }

  /** pathsOverlap is the symmetric prefix relation on path elements. */
  lemma OverlapExactly(a: string, b: string)
    requires IsAbs(a) && IsAbs(b)
    ensures PathsOverlap(a, b) <==> Elements(a) <= Elements(b) || Elements(b) <= Elements(a)
  {
    AbsElementsPlain(a);
    AbsElementsPlain(b);
    InsideExactly(a, b);
    InsideExactly(b, a);
    CleanAbs(a);
    CleanAbs(b);
    if Elements(a) <= Elements(b) {
      var rest := Elements(b)[|Elements(a)|..];
      assert forall part :: part in rest ==> part in Elements(b);
      RelativeTextDot(rest);
      assert rest == [] ==> Elements(a) == Elements(b);
    }
    if Elements(b) <= Elements(a) {
      var rest := Elements(a)[|Elements(b)|..];
      assert forall part :: part in rest ==> part in Elements(a);
      RelativeTextDot(rest);
      assert rest == [] ==> Elements(a) == Elements(b);
    }
  }

  /** No root lies at or below another. */
  ghost predicate Separated(paths: seq<string>) {
    forall i, j :: 0 <= i < |paths| && 0 <= j < |paths| && i != j ==> !(Elements(paths[i]) <= Elements(paths[j]))
  }

  ghost function RawRoots(input: TaskScope): seq<string> {
    [input.workspace] + input.tempRoots
  }

  ghost function RootPaths(roots: seq<Root>): seq<string> {
    seq(|roots|, i requires 0 <= i < |roots| => roots[i].path)
  }

  predicate FieldsPresent(input: TaskScope) {
    input.taskID != "" && |input.taskID| <= 256 && input.workspace != ""
  }

  ghost predicate Nested(a: string, b: string) {
    Elements(a) <= Elements(b) || Elements(b) <= Elements(a)
  }

  ghost predicate RootsOf(host: Host, raws: seq<string>, roots: seq<Root>) {
    |roots| == |raws| && forall i :: 0 <= i < |raws| ==> ValidateRoot(host, raws[i]) == Ok(roots[i])
  }

  /** Each root is acceptable on its own, and no two are nested. */
  ghost predicate Acceptable(host: Host, raws: seq<string>) {
    && (forall i :: 0 <= i < |raws| ==> ValidateRoot(host, raws[i]).Ok?)
    && (forall i, j :: 0 <= i < j < |raws| ==>
                         !Nested(ValidateRoot(host, raws[i]).value.path, ValidateRoot(host, raws[j]).value.path))
  }

  ghost predicate CleanRoots(roots: seq<Root>) {
    forall root :: root in roots ==> IsAbs(root.path) && Clean(root.path) == root.path
  }

  /** Validate accepts exactly the scopes whose roots are each acceptable and pairwise separate,
      and keeps them in order. */
  method Validate(host: Host, input: TaskScope) returns (r: Result<Validated, ScopeError>)
    requires ValidHost(host)
    ensures r.Ok? <==> FieldsPresent(input) && Acceptable(host, RawRoots(input))
    ensures r.Ok? ==>
              && r.value.taskID == input.taskID
              && RootsOf(host, RawRoots(input), r.value.roots)
              && Separated(RootPaths(r.value.roots)) && CleanRoots(r.value.roots)
  {
    if input.taskID == "" || |input.taskID| > 256 || input.workspace == "" {
      return Err(MissingFields);
    }
    var rawRoots := [input.workspace] + input.tempRoots;
    var checked := CollectRoots(host, rawRoots);
    if checked.Err? {
      return Err(checked.error);
    }
    var roots := checked.value;
    AcceptableRootsAreSeparated(host, rawRoots, roots);
    r := Ok(Validated(input.taskID, roots));
  }

  /** The loop of Validate over the raw roots. */
  method CollectRoots(host: Host, rawRoots: seq<string>) returns (r: Result<seq<Root>, ScopeError>)
    requires ValidHost(host)
    ensures r.Ok? <==> Acceptable(host, rawRoots)
    ensures r.Ok? ==> RootsOf(host, rawRoots, r.value) && CleanRoots(r.value)
  {
    var roots: seq<Root> := [];
    for n := 0 to |rawRoots|
      invariant RootsOf(host, rawRoots[..n], roots) && CleanRoots(roots)
      invariant Acceptable(host, rawRoots[..n])
    {
      var checked := ValidateRoot(host, rawRoots[n]);
      if checked.Err? {
        return Err(checked.error);
      }
      AcceptedRoot(host, rawRoots[n]);
      var root := checked.value;
      var clash := OverlapsAny(roots, root);
      if clash {
        return Err(Overlapping);
      }
      AcceptableGrows(host, rawRoots, n, roots, root);
      roots := roots + [root];
    }
    assert rawRoots[..|rawRoots|] == rawRoots;
    r := Ok(roots);
  }

  /** The inner loop of Validate over the roots accepted so far. */
  method OverlapsAny(roots: seq<Root>, root: Root) returns (clash: bool)
    requires CleanRoots(roots) && IsAbs(root.path)
    ensures clash <==> exists i :: 0 <= i < |roots| && Nested(roots[i].path, root.path)
  {
    for k := 0 to |roots|
      invariant forall i :: 0 <= i < k ==> !Nested(roots[i].path, root.path)
    {
      assert roots[k] in roots;
      clash := Overlap(roots[k].path, root.path);
      if clash {
        return true;
      }
    }
    clash := false;
  }

  /** pathsOverlap. */
  method Overlap(a: string, b: string) returns (clash: bool)
    requires IsAbs(a) && IsAbs(b)
    ensures clash <==> Nested(a, b)
  {
    OverlapExactly(a, b);
    clash := PathsOverlap(a, b);
  }

  lemma AcceptableGrows(host: Host, raws: seq<string>, n: nat, roots: seq<Root>, root: Root)
    requires n < |raws| && RootsOf(host, raws[..n], roots) && Acceptable(host, raws[..n])
    requires ValidateRoot(host, raws[n]) == Ok(root)
    requires !exists i :: 0 <= i < |roots| && Nested(roots[i].path, root.path)
    ensures RootsOf(host, raws[..n + 1], roots + [root]) && Acceptable(host, raws[..n + 1])
  {
    assert raws[..n + 1] == raws[..n] + [raws[n]];
    RootsGrow(host, raws[..n], raws[n], roots, root);
    forall i | 0 <= i < n ensures !Nested(ValidateRoot(host, raws[..n][i]).value.path, root.path) {
      assert ValidateRoot(host, raws[..n][i]) == Ok(roots[i]);
    }
    SeparateGrow(host, raws[..n], raws[n], root);
  }

  lemma RootsGrow(host: Host, raws: seq<string>, raw: string, roots: seq<Root>, root: Root)
    requires RootsOf(host, raws, roots) && ValidateRoot(host, raw) == Ok(root)
    ensures RootsOf(host, raws + [raw], roots + [root])
  {
  }

  lemma SeparateGrow(host: Host, raws: seq<string>, raw: string, root: Root)
    requires Acceptable(host, raws) && ValidateRoot(host, raw) == Ok(root)
    requires forall i :: 0 <= i < |raws| ==> !Nested(ValidateRoot(host, raws[i]).value.path, root.path)
    ensures Acceptable(host, raws + [raw])
  {
    var more := raws + [raw];
    forall i, j | 0 <= i < j < |more|
      ensures !Nested(ValidateRoot(host, more[i]).value.path, ValidateRoot(host, more[j]).value.path)
    {
      assert more[i] == raws[i] && (j < |raws| ==> more[j] == raws[j]);
    }
  }

  lemma AcceptableRootsAreSeparated(host: Host, raws: seq<string>, roots: seq<Root>)
    requires Acceptable(host, raws) && RootsOf(host, raws, roots)
    ensures Separated(RootPaths(roots))
  {
    var paths := RootPaths(roots);
    forall i, j | 0 <= i < |paths| && 0 <= j < |paths| && i != j ensures !(Elements(paths[i]) <= Elements(paths[j])) {
      var a, b := if i < j then i else j, if i < j then j else i;
      assert !Nested(ValidateRoot(host, raws[a]).value.path, ValidateRoot(host, raws[b]).value.path);
    }
  }

  /** A root is accepted if and only if its text is not empty and free of traversal, can be made absolute, is
      neither the file system root nor the home directory, and names a directory; it becomes the clean path. */
  lemma RootAcceptedExactly(host: Host, raw: string, root: Root)
    requires ValidHost(host)
    ensures ValidateRoot(host, raw) == Ok(root) <==>
            && raw != "" && !HasTraversal(raw) && (IsAbs(raw) || host.cwd.Some?)
            && root.path == Render(true, Elements(if IsAbs(raw) then raw else host.cwd.value + "/" + raw))
            && root.path != "/" && (host.home != "" ==> root.path != Clean(host.home))
            && host.lstat(root.path) == Directory(root.identity)
  {
    if IsAbs(raw) || host.cwd.Some? {
      CleanAbs(if IsAbs(raw) then raw else host.cwd.value + "/" + raw);
    }
  }
}
