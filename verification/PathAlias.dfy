/** internal/pathalias: printing exact paths as aliases of bound roots, and reading them back. */
module PathAlias {
  import opened Text
  import opened Decimal
  import opened Paths
  import opened Scope

  datatype Binding = Binding(alias: string, path: string, identity: string)
  type Table = seq<Binding>

  /** stableIdentity: an oracle for the file system during one call. */
  type Identities = string -> Option<string>

  const WORKSPACE := "workspace://"

  function AliasOf(index: nat): string {
    if index == 0 then WORKSPACE else "temp://" + Itoa(index - 1)
  }

  /** New. */
  method NewTable(validated: Validated, identityOf: Identities) returns (r: Option<Table>)
    requires CleanRoots(validated.roots)
    ensures r.Some? <==> validated.roots != [] && forall root :: root in validated.roots ==> identityOf(root.path).Some?
    ensures r.Some? ==>
              && |r.value| == |validated.roots| && Bound(r.value, identityOf)
              && forall i :: 0 <= i < |r.value| ==> r.value[i].path == validated.roots[i].path
  {
    if |validated.roots| == 0 {
      return None;
    }
    var bindings: Table := [];
    for index := 0 to |validated.roots|
      invariant |bindings| == index && Bound(bindings, identityOf)
      invariant forall i :: 0 <= i < index ==> bindings[i].path == validated.roots[i].path
      invariant forall i :: 0 <= i < index ==> identityOf(validated.roots[i].path).Some?
    {
      var root := validated.roots[index];
      assert root in validated.roots;
      var binding := BindRoot(index, root, identityOf);
      if binding.None? {
        return None;
      }
      BoundGrows(bindings, binding.value, identityOf);
      bindings := bindings + [binding.value];
    }
    r := Some(bindings);
  }

  /** The binding of one root; none when the root has no identity. */
  method BindRoot(index: nat, root: Root, identityOf: Identities) returns (r: Option<Binding>)
    requires IsAbs(root.path) && Clean(root.path) == root.path
    ensures r.Some? <==> identityOf(root.path).Some?
    ensures r.Some? ==> r.value.alias == AliasOf(index) && r.value.path == root.path
                        && identityOf(root.path) == Some(r.value.identity)
  {
    var alias := WORKSPACE;
    if index > 0 {
      alias := "temp://" + Itoa(index - 1);
    }
    var identity := identityOf(root.path);
    if identity.None? {
      return None;
    }
    r := Some(Binding(alias, Clean(root.path), identity.value));
  }

  lemma BoundGrows(table: Table, b: Binding, identityOf: Identities)
    requires Bound(table, identityOf)
    requires b.alias == AliasOf(|table|) && IsAbs(b.path) && Clean(b.path) == b.path
    requires identityOf(b.path) == Some(b.identity)
    ensures Bound(table + [b], identityOf)
  {
  }

  /** Project, from binding `from` on. */
  function ProjectFrom(table: Table, from: nat, exact: string): Option<string>
    requires from <= |table| && forall b :: b in table ==> IsAbs(b.path)
    decreases |table| - from
  {
    if from == |table| then None
    else
      var binding := table[from];
      match Inside(binding.path, exact)
      case None => ProjectFrom(table, from + 1, exact)
      case Some(relative) =>
        if relative == "." then Some(binding.alias)
        else Some(TrimSuffix(binding.alias, '/') + "/" + relative)
  }

  function Project(table: Table, exact: string): Option<string>
    requires forall b :: b in table ==> IsAbs(b.path)
  {
    ProjectFrom(table, 0, Clean(exact))
  }

  predicate Matches(bound: string, alias: string) {
    alias == bound || TrimSuffix(bound, '/') + "/" <= alias
  }

  /** What an alias says below its root. */
  function Tail(bound: string, alias: string): string {
    TrimPrefix(TrimPrefix(alias, TrimSuffix(bound, '/')), "/")
  }

  function ResolveTail(root: string, tail: string): Option<string>
    requires IsAbs(root)
  {
    if tail == "" then Some(root)
    else if IsAbs(tail) || HasTraversal(tail) then None
    else
      var resolved := Clean(JoinPath(root, tail));
      if Inside(root, resolved).None? then None else Some(resolved)
  }

  /** Resolve, from binding `from` on. */
  function ResolveFrom(table: Table, from: nat, alias: string, identityOf: Identities): Option<string>
    requires from <= |table| && forall b :: b in table ==> IsAbs(b.path)
    decreases |table| - from
  {
    if from == |table| then None
    else
      var binding := table[from];
      if !Matches(binding.alias, alias) then ResolveFrom(table, from + 1, alias, identityOf)
      else if identityOf(binding.path) != Some(binding.identity) then None
      else ResolveTail(binding.path, Tail(binding.alias, alias))
  }

  function Resolve(table: Table, alias: string, identityOf: Identities): Option<string>
    requires forall b :: b in table ==> IsAbs(b.path)
  {
    ResolveFrom(table, 0, alias, identityOf)
  }

  // ---- Bound tables ----

  /** A table as New makes it, whose roots still have the identities they were bound with. */
  ghost predicate Bound(table: Table, identityOf: Identities) {
    && (forall b :: b in table ==> IsAbs(b.path))
    && forall i :: 0 <= i < |table| ==>
                     && table[i].alias == AliasOf(i)
                     && Clean(table[i].path) == table[i].path
                     && identityOf(table[i].path) == Some(table[i].identity)
  }

  ghost function TablePaths(table: Table): seq<string> {
    seq(|table|, i requires 0 <= i < |table| => table[i].path)
  }

  // ---- Aliases of different roots never match the same text ----

  function AliasPrefix(index: nat): string {
    TrimSuffix(AliasOf(index), '/')
  }

  lemma AliasShape(index: nat)
    ensures AliasPrefix(index) == if index == 0 then "workspace:/" else AliasOf(index)
    ensures AliasOf(index) != "" && Matches(AliasOf(index), AliasOf(index))
  {
    if index > 0 {
      var digits := Itoa(index - 1);
      ItoaLetters(index - 1);
      var alias := AliasOf(index);
      assert alias[|alias| - 1] == digits[|digits| - 1] && digits[|digits| - 1] in digits;
    }
  }

  /** The text after "temp://" and before the next slash is the index. */
  lemma TempAliasIndex(index: nat, alias: string)
    requires index > 0 && Matches(AliasOf(index), alias)
    ensures "temp://" <= alias && Split(alias[7..], '/')[0] == Itoa(index - 1)
  {
    AliasShape(index);
    ItoaLetters(index - 1);
    var rest := if alias == AliasOf(index) then "" else alias[|AliasOf(index)| + 1..];
    assert alias == AliasOf(index) || alias == AliasOf(index) + ['/'] + rest;
    PartAfterHead("temp://", Itoa(index - 1), rest, alias);
  }

  lemma PartAfterHead(head: string, part: string, rest: string, whole: string)
    requires '/' !in part && (whole == head + part || whole == head + part + ['/'] + rest)
    ensures head <= whole && Split(whole[|head|..], '/')[0] == part
  {
    SplitWhole(part, '/');
    if whole == head + part {
      assert whole[|head|..] == part;
    } else {
      assert whole[|head|..] == part + ['/'] + rest;
      SplitConcat(part, rest, '/');
    }
  }

  lemma AliasDeterminesRoot(i: nat, j: nat, alias: string)
    requires Matches(AliasOf(i), alias) && Matches(AliasOf(j), alias)
    ensures i == j
  {
    AliasShape(i);
    AliasShape(j);
    assert alias[0] == if i == 0 then 'w' else 't';
    assert alias[0] == if j == 0 then 'w' else 't';
    if i > 0 && j > 0 {
      TempAliasIndex(i, alias);
      TempAliasIndex(j, alias);
      ItoaInjective(i - 1, j - 1);
    }
  }

  lemma {:induction false} ResolveUsesMatch(table: Table, from: nat, index: nat, alias: string, identityOf: Identities)
    requires Bound(table, identityOf) && from <= index < |table|
    requires Matches(AliasOf(index), alias)
    ensures ResolveFrom(table, from, alias, identityOf) == ResolveTail(table[index].path, Tail(AliasOf(index), alias))
    decreases index - from
  {
    if from < index {
      if Matches(AliasOf(from), alias) {
        AliasDeterminesRoot(from, index, alias);
      }
      ResolveUsesMatch(table, from + 1, index, alias, identityOf);
    }
  }

  lemma {:induction false} ResolvedMatch(table: Table, from: nat, alias: string,
                                         identityOf: Identities) returns (index: nat)
    requires Bound(table, identityOf) && from <= |table|
    requires ResolveFrom(table, from, alias, identityOf).Some?
    ensures index < |table| && Matches(AliasOf(index), alias)
    decreases |table| - from
  {
    if Matches(table[from].alias, alias) {
      index := from;
    } else {
      index := ResolvedMatch(table, from + 1, alias, identityOf);
    }
  }

  // ---- Printing ----

  /** The alias text of a list of elements below root `index`. */
  function AliasText(index: nat, below: seq<string>): string {
    if below == [] then AliasOf(index) else AliasPrefix(index) + "/" + Join(below, '/')
  }

  lemma PlainJoin(below: seq<string>)
    requires AllPlain(below) && below != []
    ensures Join(below, '/') != "" && !IsAbs(Join(below, '/')) && Join(below, '/') != "."
    ensures Split(Join(below, '/'), '/') == below
  {
    assert below[0] in below;
    SplitJoin(below, '/');
    var text := Join(below, '/');
    assert Split(text, '/')[0] == below[0];
  }

  lemma AliasTextReads(index: nat, below: seq<string>)
    requires AllPlain(below)
    ensures Matches(AliasOf(index), AliasText(index, below))
    ensures Tail(AliasOf(index), AliasText(index, below)) == Join(below, '/')
  {
    AliasShape(index);
    if below != [] {
      TailAfter(AliasPrefix(index), Join(below, '/'));
    } else if index == 0 {
      assert WORKSPACE == "workspace:/" + "/" + "";
      TailAfter("workspace:/", "");
    }
  }

  lemma TailAfter(prefix: string, text: string)
    ensures TrimPrefix(TrimPrefix(prefix + "/" + text, prefix), "/") == text
  {
    var whole := prefix + "/" + text;
    assert whole[..|prefix|] == prefix;
    assert whole[|prefix|..] == "/" + text;
  }

  /** The first root that contains a path, or nothing. */
  ghost function RootIndex(table: Table, from: nat, exact: string): Option<nat>
    requires from <= |table|
    decreases |table| - from
  {
    if from == |table| then None
    else if Elements(table[from].path) <= Elements(exact) then Some(from)
    else RootIndex(table, from + 1, exact)
  }

  /** The elements of a path below a root that contains it. */
  ghost function Below(root: string, exact: string): seq<string>
    requires Elements(root) <= Elements(exact)
  {
    Elements(exact)[|Elements(root)|..]
  }

  lemma {:induction false} RootIndexBounds(table: Table, from: nat, exact: string)
    requires from <= |table|
    ensures RootIndex(table, from, exact).Some? ==>
              var i := RootIndex(table, from, exact).value;
              from <= i < |table| && Elements(table[i].path) <= Elements(exact)
    ensures RootIndex(table, from, exact).None? ==>
              forall i :: from <= i < |table| ==> !(Elements(table[i].path) <= Elements(exact))
    decreases |table| - from
  {
    if from < |table| && !(Elements(table[from].path) <= Elements(exact)) {
      RootIndexBounds(table, from + 1, exact);
    }
  }

  /** The alias text that Project gives an absolute path. */
  ghost function ProjectedText(table: Table, from: nat, exact: string): Option<string>
    requires from <= |table|
  {
    RootIndexBounds(table, from, exact);
    match RootIndex(table, from, exact)
    case None => None
    case Some(i) => Some(AliasText(i, Below(table[i].path, exact)))
  }

  lemma {:induction false} ProjectIs(table: Table, from: nat, exact: string, identityOf: Identities)
    requires Bound(table, identityOf) && from <= |table| && IsAbs(exact)
    ensures ProjectFrom(table, from, exact) == ProjectedText(table, from, exact)
    decreases |table| - from
  {
    if from < |table| {
      var binding := table[from];
      assert binding in table;
      InsideExactly(binding.path, exact);
      if Elements(binding.path) <= Elements(exact) {
        TextBelow(from, binding.path, exact);
      } else {
        ProjectIs(table, from + 1, exact, identityOf);
      }
    }
  }

  lemma TextBelow(index: nat, root: string, exact: string)
    requires IsAbs(root) && IsAbs(exact) && Elements(root) <= Elements(exact)
    ensures Inside(root, exact).Some?
    ensures var relative := Inside(root, exact).value;
            AliasText(index, Below(root, exact))
            == if relative == "." then AliasOf(index) else TrimSuffix(AliasOf(index), '/') + "/" + relative
  {
    InsideExactly(root, exact);
    AbsElementsPlain(exact);
    var below := Below(root, exact);
    assert forall part :: part in below ==> part in Elements(exact);
    RelativeTextDot(below);
  }

  lemma ProjectAbs(table: Table, exact: string, identityOf: Identities)
    requires Bound(table, identityOf) && IsAbs(exact)
    ensures Project(table, exact) == ProjectedText(table, 0, exact)
  {
    CleanAbs(exact);
    ProjectIs(table, 0, Clean(exact), identityOf);
    SameRoot(table, 0, Clean(exact), exact);
  }

  lemma {:induction false} SameRoot(table: Table, from: nat, a: string, b: string)
    requires from <= |table| && Elements(a) == Elements(b)
    ensures RootIndex(table, from, a) == RootIndex(table, from, b)
    decreases |table| - from
  {
    if from < |table| {
      SameRoot(table, from + 1, a, b);
    }
  }

  // ---- Reading ----

  /** A tail that resolves appends its elements to the root. */
  lemma ResolveTailExactly(root: string, tail: string)
    requires IsAbs(root) && Clean(root) == root
    ensures ResolveTail(root, tail).Some? <==> tail == "" || (!IsAbs(tail) && !HasTraversal(tail))
    ensures ResolveTail(root, tail).Some? ==>
              var p := ResolveTail(root, tail).value;
              IsAbs(p) && Clean(p) == p && Elements(p) == Elements(root) + Kept(Split(tail, '/'))
  {
    if tail != "" && !IsAbs(tail) && !HasTraversal(tail) {
      NoTraversalNoUps(tail);
      JoinBelow(root, tail);
      InsideExactly(root, Clean(JoinPath(root, tail)));
    } else if tail == "" {
      assert Elements(root) + [] == Elements(root);
    }
  }

  lemma ResolveAliasText(table: Table, i: nat, below: seq<string>, identityOf: Identities)
    requires Bound(table, identityOf) && i < |table| && AllPlain(below)
    ensures var r := Resolve(table, AliasText(i, below), identityOf);
            && (r.Some? <==> !HasTraversal(Join(below, '/')))
            && (r.Some? ==> IsAbs(r.value) && Clean(r.value) == r.value
                            && Elements(r.value) == Elements(table[i].path) + below)
  {
    assert table[i] in table;
    AliasTextReads(i, below);
    ResolveUsesMatch(table, 0, i, AliasText(i, below), identityOf);
    ResolveTailExactly(table[i].path, Join(below, '/'));
    if below != [] {
      PlainJoin(below);
      KeptPlain(below);
    } else {
      assert Split(Slashed(""), '/') == [""];
      assert Kept(Split("", '/')) == [];
    }
  }

  // ---- Theorems ----

  /** The text of a path below the root that contains it. */
  ghost function Remainder(table: Table, exact: string): string {
    RootIndexBounds(table, 0, exact);
    match RootIndex(table, 0, exact)
    case None => ""
    case Some(i) => Join(Below(table[i].path, exact), '/')
  }

  lemma BelowPlain(root: string, exact: string)
    requires IsAbs(exact) && Elements(root) <= Elements(exact)
    ensures AllPlain(Below(root, exact))
    ensures Elements(root) + Below(root, exact) == Elements(exact)
  {
    AbsElementsPlain(exact);
    assert forall part :: part in Below(root, exact) ==> part in Elements(exact);
  }

  /** Resolving undoes projecting, on a clean absolute path under a root, if and only if the part
      below the root has no ".." between slashes or backslashes. */
  lemma ResolveProject(table: Table, exact: string, identityOf: Identities)
    requires Bound(table, identityOf) && IsAbs(exact) && Clean(exact) == exact
    ensures Project(table, exact).Some? <==> exists b :: b in table && Elements(b.path) <= Elements(exact)
    ensures Project(table, exact).Some? ==>
              (Resolve(table, Project(table, exact).value, identityOf) == Some(exact)
               <==> !HasTraversal(Remainder(table, exact)))
              && (HasTraversal(Remainder(table, exact)) ==>
                    Resolve(table, Project(table, exact).value, identityOf) == None)
  {
    ProjectAbs(table, exact, identityOf);
    RootIndexBounds(table, 0, exact);
    if RootIndex(table, 0, exact).Some? {
      var i := RootIndex(table, 0, exact).value;
      assert table[i] in table;
      BelowPlain(table[i].path, exact);
      ResolveAliasText(table, i, Below(table[i].path, exact), identityOf);
    }
  }

  /** Different paths under the roots have different aliases, with or without backslashes. */
  lemma ProjectInjective(table: Table, a: string, b: string, identityOf: Identities)
    requires Bound(table, identityOf)
    requires IsAbs(a) && IsAbs(b) && Clean(a) == a && Clean(b) == b
    requires Project(table, a).Some? && Project(table, a) == Project(table, b)
    ensures a == b
  {
    ProjectAbs(table, a, identityOf);
    ProjectAbs(table, b, identityOf);
    RootIndexBounds(table, 0, a);
    RootIndexBounds(table, 0, b);
    var i, j := RootIndex(table, 0, a).value, RootIndex(table, 0, b).value;
    var belowA, belowB := Below(table[i].path, a), Below(table[j].path, b);
    BelowPlain(table[i].path, a);
    BelowPlain(table[j].path, b);
    AliasTextReads(i, belowA);
    AliasTextReads(j, belowB);
    AliasDeterminesRoot(i, j, Project(table, a).value);
    JoinDeterminesParts(belowA, belowB);
    assert Elements(a) == Elements(table[i].path) + belowA;
    assert Elements(b) == Elements(table[i].path) + belowB;
  }

  lemma JoinDeterminesParts(a: seq<string>, b: seq<string>)
    requires AllPlain(a) && AllPlain(b) && Join(a, '/') == Join(b, '/')
    ensures a == b
  {
    if a != [] { PlainJoin(a); }
    if b != [] { PlainJoin(b); }
  }

  /** Whatever resolves is a clean path at or below the root whose alias it carries. */
  lemma ResolveStaysInside(table: Table, alias: string, identityOf: Identities) returns (i: nat)
    requires Bound(table, identityOf) && Resolve(table, alias, identityOf).Some?
    ensures i < |table| && Matches(AliasOf(i), alias)
    ensures var p := Resolve(table, alias, identityOf).value;
            && IsAbs(p) && Clean(p) == p && Elements(table[i].path) <= Elements(p)
            && Elements(p) == Elements(table[i].path) + Kept(Split(Tail(AliasOf(i), alias), '/'))
            && PathWithin(table[i].path, p)
  {
    i := ResolvedMatch(table, 0, alias, identityOf);
    assert table[i] in table;
    ResolveUsesMatch(table, 0, i, alias, identityOf);
    ResolveTailExactly(table[i].path, Tail(AliasOf(i), alias));
    InsideExactly(table[i].path, Resolve(table, alias, identityOf).value);
  }

  /** Over separated roots, an alias that resolves has a canonical spelling that resolves alike. */
  lemma ResolveProjectResolve(table: Table, alias: string, identityOf: Identities)
    requires Bound(table, identityOf) && Separated(TablePaths(table))
    requires Resolve(table, alias, identityOf).Some?
    ensures var p := Resolve(table, alias, identityOf).value;
            Project(table, p).Some? && Resolve(table, Project(table, p).value, identityOf) == Some(p)
  {
    var p := Resolve(table, alias, identityOf).value;
    var i := ResolveStaysInside(table, alias, identityOf);
    OnlyRoot(table, i, p);
    var below := Below(table[i].path, p);
    var tail := Tail(AliasOf(i), alias);
    assert table[i] in table;
    ResolveUsesMatch(table, 0, i, alias, identityOf);
    assert below == Kept(Split(tail, '/'));
    KeptHasNoTraversal(tail, below);
    ResolveProject(table, p, identityOf);
  }

  lemma KeptHasNoTraversal(tail: string, below: seq<string>)
    requires tail == "" || !HasTraversal(tail)
    requires below == Kept(Split(tail, '/'))
    ensures !HasTraversal(Join(below, '/'))
  {
    KeptMembers(Split(tail, '/'));
    assert Split(Slashed(""), '/') == [""];
    if tail != "" {
      NoTraversalNoUps(tail);
    }
    if below != [] {
      TraversalOfJoin(below);
    }
  }

  /** Separated roots: the root that contains a path is unique, so Project cannot pick another. */
  lemma OnlyRoot(table: Table, i: nat, p: string)
    requires Separated(TablePaths(table)) && i < |table| && Elements(table[i].path) <= Elements(p)
    ensures RootIndex(table, 0, p) == Some(i)
  {
    RootIndexBounds(table, 0, p);
    var j := RootIndex(table, 0, p).value;
    var paths := TablePaths(table);
    assert paths[i] == table[i].path && paths[j] == table[j].path;
    PrefixesOfOne(Elements(paths[i]), Elements(paths[j]), Elements(p));
  }

  lemma PrefixesOfOne(a: seq<string>, b: seq<string>, c: seq<string>)
    requires a <= c && b <= c
    ensures a <= b || b <= a
  {
    assert a == c[..|a|] && b == c[..|b|];
  }

  // ---- Exactly what resolves, whatever has become of the roots ----

  /** A table as New made it; its roots may have been replaced since. */
  ghost predicate Aliased(table: Table) {
    && (forall b :: b in table ==> IsAbs(b.path))
    && forall i :: 0 <= i < |table| ==> table[i].alias == AliasOf(i) && Clean(table[i].path) == table[i].path
  }

  /** The alias of root i, or that alias, a slash and more text. */
  ghost predicate Spells(i: nat, alias: string, tail: string) {
    (alias == AliasOf(i) && tail == "") || alias == AliasPrefix(i) + "/" + tail
  }

  /** The root still has the identity it was bound with. */
  ghost predicate Unchanged(b: Binding, identityOf: Identities) {
    identityOf(b.path) == Some(b.identity)
  }

  ghost predicate ResolvesTo(table: Table, i: nat, alias: string, tail: string, identityOf: Identities, p: string) {
    && i < |table| && Spells(i, alias, tail) && Unchanged(table[i], identityOf)
    && (tail == "" || (!IsAbs(tail) && !HasTraversal(tail)))
    && p == Render(true, Elements(table[i].path) + Kept(Split(tail, '/')))
  }

  lemma SpelledTail(i: nat, alias: string, tail: string)
    requires Spells(i, alias, tail)
    ensures Matches(AliasOf(i), alias) && Tail(AliasOf(i), alias) == tail
  {
    if alias == AliasPrefix(i) + "/" + tail {
      TailAfter(AliasPrefix(i), tail);
    } else {
      AliasTextReads(i, []);
    }
  }

  lemma MatchIsSpelled(i: nat, alias: string)
    requires Matches(AliasOf(i), alias)
    ensures Spells(i, alias, Tail(AliasOf(i), alias))
  {
    if AliasPrefix(i) + "/" <= alias {
      var rest := alias[|AliasPrefix(i)| + 1..];
      assert alias == AliasPrefix(i) + "/" + rest;
      TailAfter(AliasPrefix(i), rest);
    } else {
      AliasTextReads(i, []);
    }
  }

  lemma {:induction false} FirstMatchDecides(table: Table, from: nat, index: nat, alias: string, identityOf: Identities)
    requires Aliased(table) && from <= index < |table| && Matches(AliasOf(index), alias)
    ensures ResolveFrom(table, from, alias, identityOf)
         == if Unchanged(table[index], identityOf) then
              (assert table[index] in table; ResolveTail(table[index].path, Tail(AliasOf(index), alias)))
            else None
    decreases index - from
  {
    if from < index {
      if Matches(AliasOf(from), alias) {
        AliasDeterminesRoot(from, index, alias);
      }
      FirstMatchDecides(table, from + 1, index, alias, identityOf);
    }
  }

  lemma {:induction false} NoMatchNothing(table: Table, from: nat, alias: string, identityOf: Identities)
    requires Aliased(table) && from <= |table| && forall i :: from <= i < |table| ==> !Matches(AliasOf(i), alias)
    ensures ResolveFrom(table, from, alias, identityOf) == None
    decreases |table| - from
  {
    if from < |table| {
      NoMatchNothing(table, from + 1, alias, identityOf);
    }
  }

  lemma TailResolvesExactly(root: string, tail: string, p: string)
    requires IsAbs(root) && Clean(root) == root
    ensures ResolveTail(root, tail) == Some(p) <==>
            && (tail == "" || (!IsAbs(tail) && !HasTraversal(tail)))
            && p == Render(true, Elements(root) + Kept(Split(tail, '/')))
  {
    ResolveTailExactly(root, tail);
  }

  /** An alias resolves to a path if and only if it spells the alias of a root, that root has not been
      replaced, and what follows is relative and free of traversal; the path is that root with the parts that
      follow. */
  lemma ResolveExactly(table: Table, alias: string, identityOf: Identities, p: string)
    requires Aliased(table)
    ensures Resolve(table, alias, identityOf) == Some(p)
            <==> exists i: nat, tail :: ResolvesTo(table, i, alias, tail, identityOf, p)
  {
    if i: nat :| i < |table| && Matches(AliasOf(i), alias) {
      MatchIsSpelled(i, alias);
      OneSpelling(table, i, alias, Tail(AliasOf(i), alias), identityOf, p);
    } else {
      NoMatchNothing(table, 0, alias, identityOf);
      if i: nat, tail :| ResolvesTo(table, i, alias, tail, identityOf, p) {
        SpelledTail(i, alias, tail);
      }
    }
  }

  lemma OneSpelling(table: Table, i: nat, alias: string, tail: string, identityOf: Identities, p: string)
    requires Aliased(table) && i < |table| && Spells(i, alias, tail)
    ensures Resolve(table, alias, identityOf) == Some(p) <==> ResolvesTo(table, i, alias, tail, identityOf, p)
    ensures (exists j: nat, other :: ResolvesTo(table, j, alias, other, identityOf, p))
            <==> ResolvesTo(table, i, alias, tail, identityOf, p)
  {
    assert table[i] in table;
    SpelledTail(i, alias, tail);
    FirstMatchDecides(table, 0, i, alias, identityOf);
    TailResolvesExactly(table[i].path, tail, p);
    forall j: nat, other | ResolvesTo(table, j, alias, other, identityOf, p) ensures j == i && other == tail {
      SpelledTail(j, alias, other);
      AliasDeterminesRoot(i, j, alias);
    }
  }

  /** Nothing under a replaced root resolves. */
  lemma ReplacedRootRefuses(table: Table, i: nat, alias: string, tail: string, identityOf: Identities)
    requires Aliased(table) && i < |table| && Spells(i, alias, tail) && !Unchanged(table[i], identityOf)
    ensures Resolve(table, alias, identityOf) == None
  {
    if Resolve(table, alias, identityOf).Some? {
      OneSpelling(table, i, alias, tail, identityOf, Resolve(table, alias, identityOf).value);
    }
  }

  // ---- From accepted roots to round trips ----

  /** Every clean path under a root comes back from its alias, if what is below the root has no traversal. */
  ghost predicate RoundTrips(table: Table, identityOf: Identities)
    requires forall b :: b in table ==> IsAbs(b.path)
  {
    forall i, p :: 0 <= i < |table| && Under(table[i].path, p) ==> ComesBack(table, p, identityOf)
  }

  /** A clean path at or below a root, without traversal below it. */
  ghost predicate Under(root: string, p: string) {
    IsAbs(p) && Clean(p) == p && Elements(root) <= Elements(p) && !HasTraversal(Join(Below(root, p), '/'))
  }

  ghost predicate ComesBack(table: Table, p: string, identityOf: Identities)
    requires forall b :: b in table ==> IsAbs(b.path)
  {
    Project(table, p).Some? && Resolve(table, Project(table, p).value, identityOf) == Some(p)
  }

  lemma BoundRootsRoundTrip(table: Table, identityOf: Identities)
    requires Bound(table, identityOf) && Separated(TablePaths(table))
    ensures RoundTrips(table, identityOf)
  {
    forall i, p | 0 <= i < |table| && Under(table[i].path, p) ensures ComesBack(table, p, identityOf) {
      OnlyRoot(table, i, p);
      assert table[i] in table;
      ResolveProject(table, p, identityOf);
    }
  }

  /** Validation and New together, as Begin calls them: a table if and only if the scope is acceptable and
      every root has an identity, and then paths come back from their aliases. */
  method BindScope(host: Host, input: TaskScope, identityOf: Identities) returns (r: Option<Table>)
    requires ValidHost(host)
    ensures r.Some? ==>
              && Bound(r.value, identityOf) && Separated(TablePaths(r.value)) && RoundTrips(r.value, identityOf)
              && |r.value| == |RawRoots(input)|
    ensures r.Some? <==> FieldsPresent(input) && Acceptable(host, RawRoots(input))
                         && Identified(host, input, identityOf)
  {
    var validated := Validate(host, input);
    if validated.Err? {
      return None;
    }
    RootsIdentified(host, input, validated.value.roots, identityOf);
    r := NewTable(validated.value, identityOf);
    if r.Some? {
      assert TablePaths(r.value) == RootPaths(validated.value.roots);
      BoundRootsRoundTrip(r.value, identityOf);
    }
  }

  /** Every accepted root has an identity. */
  ghost predicate Identified(host: Host, input: TaskScope, identityOf: Identities) {
    forall raw :: raw in RawRoots(input) && ValidateRoot(host, raw).Ok? ==>
                    identityOf(ValidateRoot(host, raw).value.path).Some?
  }

  lemma RootsIdentified(host: Host, input: TaskScope, roots: seq<Root>, identityOf: Identities)
    requires RootsOf(host, RawRoots(input), roots)
    ensures Identified(host, input, identityOf) <==> forall root :: root in roots ==> identityOf(root.path).Some?
  {
    var raws := RawRoots(input);
    if Identified(host, input, identityOf) {
      forall root | root in roots ensures identityOf(root.path).Some? {
        var i :| 0 <= i < |roots| && roots[i] == root;
        assert raws[i] in raws && ValidateRoot(host, raws[i]) == Ok(root);
      }
    }
    if forall root :: root in roots ==> identityOf(root.path).Some? {
      forall raw | raw in raws && ValidateRoot(host, raw).Ok?
        ensures identityOf(ValidateRoot(host, raw).value.path).Some?
      {
        var i :| 0 <= i < |raws| && raws[i] == raw;
        assert roots[i] in roots;
      }
    }
  }

  // ---- A path that does not come back ----

  /** A name that is one element of a path, but reads as ".." and more once backslashes separate. */
  lemma BackslashName(name: string, rest: string)
    requires name == "..\\" + rest && '/' !in rest
    ensures Plain(name) && HasTraversal(name)
  {
    SlashedConcat("..\\", rest);
    var up := "..";
    assert Slashed("..\\") == up + ['/'];
    assert Slashed(name) == up + ['/'] + Slashed(rest);
    SplitConcat(up, Slashed(rest), '/');
    SplitWhole(up, '/');
    assert (Split(up, '/') + Split(Slashed(rest), '/'))[0] == up;
  }

  /** An object of that name directly in a root is projected to an alias that resolves to nothing. */
  lemma BackslashNameIsLost(table: Table, i: nat, name: string, exact: string, identityOf: Identities)
    requires Bound(table, identityOf) && Separated(TablePaths(table)) && i < |table|
    requires Plain(name) && HasTraversal(name) && exact == Render(true, Elements(table[i].path) + [name])
    ensures IsAbs(exact) && Clean(exact) == exact && Elements(table[i].path) <= Elements(exact)
    ensures Project(table, exact).Some? && Resolve(table, Project(table, exact).value, identityOf) == None
  {
    assert table[i] in table;
    AbsElementsPlain(table[i].path);
    ElementsOfRender(Elements(table[i].path) + [name]);
    OnlyRoot(table, i, exact);
    assert Below(table[i].path, exact) == [name];
    assert Join([name], '/') == name;
    ResolveProject(table, exact, identityOf);
  }

  /** For example the file "/r/..\x" in the workspace "/r". */
  lemma LostPath(root: string, name: string, identityOf: Identities)
    requires root == "/r" && name == "..\\x" && identityOf(root) == Some("id")
    ensures var table := [Binding(WORKSPACE, root, "id")];
            && Bound(table, identityOf) && IsAbs(root + "/" + name) && Clean(root + "/" + name) == root + "/" + name
            && Project(table, root + "/" + name).Some?
            && Resolve(table, Project(table, root + "/" + name).value, identityOf) == None
  {
    var table := [Binding(WORKSPACE, root, "id")];
    var r := root[1..];
    assert r == "r" && root == "/" + r;
    BackslashName(name, "x");
    ElementsOfRender([r]);
    assert Render(true, [r]) == root;
    ElementsOfRender([r, name]);
    assert [r, name][1..] == [name] && Join([name], '/') == name;
    assert Join([r, name], '/') == r + ['/'] + name;
    assert "/" + (r + ['/'] + name) == root + "/" + name;
    assert Render(true, [r, name]) == root + "/" + name;
    assert [r] + [name] == [r, name];
    BackslashNameIsLost(table, 0, name, root + "/" + name, identityOf);
  }
}
