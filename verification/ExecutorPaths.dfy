/** internal/app: the alias checks on executor events, and the expansion of aliases when a task ends. */
module ExecutorPaths {
  import opened Text
  import opened Contract
  import opened Paths
  import opened PathAlias

  /** The alias prefix an allowed root stands for. */
  function AllowedPrefix(root: string): string {
    if root == "workspace" then WORKSPACE else root
  }

  predicate AllowedBy(root: string, alias: string) {
    var prefix := AllowedPrefix(root);
    alias == prefix || TrimSuffix(prefix, '/') + "/" <= alias
  }

  /** allowedAlias. */
  predicate AllowedAlias(allowed: seq<string>, alias: string) {
    exists root :: root in allowed && AllowedBy(root, alias)
  }

  /** safeAlias. */
  predicate SafeAlias(value: string) {
    value != "" && Contains(value, "://") && !HasTraversal(value)
  }

  /** Some text, the scheme separator and some text, with no element ".." by either kind of slash. */
  ghost predicate ReadsSafe(alias: string) {
    && (exists before, after :: alias == before + "://" + after)
    && !exists i :: DotsAt(alias, i)
  }

  /** The alias of an allowed root itself or one below it, where the workspace is named by its bare word. */
  ghost predicate ReadsBelow(root: string, alias: string) {
    alias == Named(root) || exists rest :: alias == Unslashed(Named(root)) + "/" + rest
  }

  ghost function Named(root: string): string {
    if root == "workspace" then "workspace://" else root
  }

  ghost function Unslashed(alias: string): string {
    if alias != "" && alias[|alias| - 1] == '/' then alias[..|alias| - 1] else alias
  }

  lemma SafeAliasExactly(alias: string)
    ensures SafeAlias(alias) <==> ReadsSafe(alias)
  {
    TraversalExactly(alias);
    if i :| 0 <= i <= |alias| && "://" <= alias[i..] {
      assert alias == alias[..i] + "://" + alias[i + 3..];
    }
    if before, after :| alias == before + "://" + after {
      assert alias[|before|..] == "://" + after;
    }
  }

  lemma AllowedAliasExactly(allowed: seq<string>, alias: string)
    ensures AllowedAlias(allowed, alias) <==> exists root :: root in allowed && ReadsBelow(root, alias)
  {
    forall root ensures AllowedBy(root, alias) <==> ReadsBelow(root, alias) {
      var cut := Unslashed(Named(root));
      assert AllowedPrefix(root) == Named(root) && TrimSuffix(AllowedPrefix(root), '/') == cut;
      if cut + "/" <= alias {
        assert alias == cut + "/" + alias[|cut| + 1..];
      }
    }
  }

  // ---- Confinement ----

  lemma TrailingSlashKept(tail: string)
    ensures Kept(Split(tail, '/')) == Kept(Split(TrimSuffix(tail, '/'), '/'))
  {
    var trimmed := TrimSuffix(tail, '/');
    if trimmed != tail {
      assert tail == trimmed + ['/'] + "";
      SplitConcat(trimmed, "", '/');
      assert Kept(Split("", '/')) == [];
      KeptConcat(Split(trimmed, '/'), Split("", '/'));
    }
  }

  lemma TailOfMatch(i: nat, alias: string)
    requires AliasPrefix(i) + "/" <= alias
    ensures Matches(AliasOf(i), alias)
    ensures alias == AliasPrefix(i) + "/" + Tail(AliasOf(i), alias)
  {
    var rest := alias[|AliasPrefix(i)| + 1..];
    assert alias == AliasPrefix(i) + "/" + rest;
    TailAfter(AliasPrefix(i), rest);
  }

  lemma ExtensionKeeps(tail: string, rest: string)
    ensures Kept(Split(tail, '/')) <= Kept(Split(TrimSuffix(tail, '/') + "/" + rest, '/'))
  {
    var cut := TrimSuffix(tail, '/');
    assert cut + "/" + rest == cut + ['/'] + rest;
    SplitConcat(cut, rest, '/');
    KeptConcat(Split(cut, '/'), Split(rest, '/'));
    TrailingSlashKept(tail);
  }

  lemma TrimBelow(start: string, tail: string)
    requires tail != ""
    ensures TrimSuffix(start + "/" + tail, '/') == start + "/" + TrimSuffix(tail, '/')
  {
    var whole := start + "/" + tail;
    assert whole[|whole| - 1] == tail[|tail| - 1];
  }

  /** How an alias allowed by `prefix` reads below the root that `prefix` names. */
  lemma AllowedTail(i: nat, prefix: string, alias: string)
    requires Matches(AliasOf(i), prefix) && !IsAbs(Tail(AliasOf(i), prefix))
    requires TrimSuffix(prefix, '/') + "/" <= alias
    ensures Matches(AliasOf(i), alias)
    ensures Kept(Split(Tail(AliasOf(i), prefix), '/')) <= Kept(Split(Tail(AliasOf(i), alias), '/'))
  {
    if prefix == AliasOf(i) {
      AllowedTailOfRoot(i, alias);
    } else {
      TailOfMatch(i, prefix);
      AllowedTailBelow(i, Tail(AliasOf(i), prefix), alias);
    }
  }

  lemma AllowedTailBelow(i: nat, tail: string, alias: string)
    requires TrimSuffix(AliasPrefix(i) + "/" + tail, '/') + "/" <= alias
    ensures Matches(AliasOf(i), alias)
    ensures Kept(Split(tail, '/')) <= Kept(Split(Tail(AliasOf(i), alias), '/'))
  {
    var start := AliasPrefix(i);
    if tail == "" {
      assert TrimSuffix(start + "/" + tail, '/') == start;
      TailOfMatch(i, alias);
      assert Kept(Split("", '/')) == [];
    } else {
      var rest := RestBelow(start, tail, alias);
      ExtensionKeeps(tail, rest);
    }
  }

  /** What follows a trimmed tail in a longer text. */
  lemma RestBelow(start: string, tail: string, alias: string) returns (rest: string)
    requires tail != "" && TrimSuffix(start + "/" + tail, '/') + "/" <= alias
    ensures start + "/" <= alias
    ensures TrimPrefix(TrimPrefix(alias, start), "/") == TrimSuffix(tail, '/') + "/" + rest
  {
    TrimBelow(start, tail);
    var trimmed := TrimSuffix(start + "/" + tail, '/');
    rest := alias[|trimmed| + 1..];
    assert alias == trimmed + "/" + rest;
    ContinuedTail(start, TrimSuffix(tail, '/'), rest, alias);
  }

  lemma ContinuedTail(start: string, cut: string, rest: string, alias: string)
    requires alias == start + "/" + cut + "/" + rest
    ensures start + "/" <= alias && TrimPrefix(TrimPrefix(alias, start), "/") == cut + "/" + rest
  {
    assert alias == start + "/" + (cut + "/" + rest);
    TailAfter(start, cut + "/" + rest);
  }

  lemma AllowedTailOfRoot(i: nat, alias: string)
    requires AliasPrefix(i) + "/" <= alias
    ensures Matches(AliasOf(i), alias)
    ensures Kept(Split(Tail(AliasOf(i), AliasOf(i)), '/')) == []
  {
    TailOfMatch(i, alias);
    AliasTextReads(i, []);
    assert Kept(Split("", '/')) == [];
  }

  /** A path allowed by a root that itself resolves lies at or below that root's directory,
      whenever it resolves at all. */
  lemma AllowedPathConfined(table: Table, root: string, alias: string, identityOf: Identities)
    requires Bound(table, identityOf) && AllowedBy(root, alias)
    requires Resolve(table, AllowedPrefix(root), identityOf).Some?
    requires Resolve(table, alias, identityOf).Some?
    ensures var directory := Resolve(table, AllowedPrefix(root), identityOf).value;
            var path := Resolve(table, alias, identityOf).value;
            IsAbs(directory) && PathWithin(directory, path)
  {
    var prefix := AllowedPrefix(root);
    var directory := Resolve(table, prefix, identityOf).value;
    var path := Resolve(table, alias, identityOf).value;
    var i := ResolveStaysInside(table, prefix, identityOf);
    if alias != prefix {
      BelowPrefix(table, prefix, alias, i, identityOf);
    }
    InsideExactly(directory, path);
  }

  lemma BelowPrefix(table: Table, prefix: string, alias: string, i: nat, identityOf: Identities)
    requires Bound(table, identityOf) && i < |table| && Matches(AliasOf(i), prefix)
    requires TrimSuffix(prefix, '/') + "/" <= alias
    requires Resolve(table, prefix, identityOf).Some? && Resolve(table, alias, identityOf).Some?
    ensures IsAbs(Resolve(table, alias, identityOf).value) && IsAbs(Resolve(table, prefix, identityOf).value)
    ensures Elements(Resolve(table, prefix, identityOf).value) <= Elements(Resolve(table, alias, identityOf).value)
  {
    var k := ResolveStaysInside(table, prefix, identityOf);
    var j := ResolveStaysInside(table, alias, identityOf);
    AliasDeterminesRoot(k, i, prefix);
    RelativePrefix(table, prefix, i, identityOf);
    AllowedTail(i, prefix, alias);
    AliasDeterminesRoot(i, j, alias);
  }

  lemma RelativePrefix(table: Table, prefix: string, i: nat, identityOf: Identities)
    requires Bound(table, identityOf) && i < |table| && Matches(AliasOf(i), prefix)
    requires Resolve(table, prefix, identityOf).Some?
    ensures !IsAbs(Tail(AliasOf(i), prefix))
  {
    assert table[i] in table;
    ResolveUsesMatch(table, 0, i, prefix, identityOf);
    ResolveTailExactly(table[i].path, Tail(AliasOf(i), prefix));
  }

  // ---- Expansion when the task ends ----

  function ExpandPath(table: Table, path: string, identityOf: Identities): Option<string>
    requires forall b :: b in table ==> IsAbs(b.path)
  {
    if Contains(path, "://") then Resolve(table, path, identityOf) else Some(path)
  }

  ghost predicate Expands(table: Table, from: Summary, to: Summary, identityOf: Identities)
    requires forall b :: b in table ==> IsAbs(b.path)
  {
    && ExpandPath(table, from.workingDir, identityOf) == Some(to.workingDir)
    && |to.declaredOutputs| == |from.declaredOutputs|
    && (forall k :: 0 <= k < |from.declaredOutputs| ==>
                      ExpandPath(table, from.declaredOutputs[k], identityOf) == Some(to.declaredOutputs[k]))
    && to == from.(workingDir := to.workingDir, declaredOutputs := to.declaredOutputs)
  }

  ghost predicate Expandable(table: Table, from: Summary, identityOf: Identities)
    requires forall b :: b in table ==> IsAbs(b.path)
  {
    && ExpandPath(table, from.workingDir, identityOf).Some?
    && forall k :: 0 <= k < |from.declaredOutputs| ==>
                     ExpandPath(table, from.declaredOutputs[k], identityOf).Some?
  }

  /** expandAliasedEvents: every alias is replaced by the path it resolves to and nothing else changes;
      it fails exactly when some alias does not resolve. */
  method ExpandAliasedEvents(table: Table, summaries: seq<Summary>, identityOf: Identities)
    returns (r: Option<seq<Summary>>)
    requires forall b :: b in table ==> IsAbs(b.path)
    ensures r.Some? <==> forall i :: 0 <= i < |summaries| ==> Expandable(table, summaries[i], identityOf)
    ensures r.Some? ==>
              && |r.value| == |summaries|
              && forall i :: 0 <= i < |summaries| ==> Expands(table, summaries[i], r.value[i], identityOf)
  {
    var result := summaries;
    for index := 0 to |summaries|
      invariant |result| == |summaries|
      invariant forall i :: 0 <= i < index ==> Expands(table, summaries[i], result[i], identityOf)
      invariant forall i :: index <= i < |summaries| ==> result[i] == summaries[i]
    {
      var summary := result[index];
      if Contains(summary.workingDir, "://") {
        var exact := Resolve(table, summary.workingDir, identityOf);
        if exact.None? {
          return None;
        }
        summary := summary.(workingDir := exact.value);
      }
      var outputs := ExpandOutputs(table, summary.declaredOutputs, identityOf);
      if outputs.None? {
        return None;
      }
      result := result[index := summary.(declaredOutputs := outputs.value)];
    }
    r := Some(result);
  }

  method ExpandOutputs(table: Table, outputs: seq<string>, identityOf: Identities) returns (r: Option<seq<string>>)
    requires forall b :: b in table ==> IsAbs(b.path)
    ensures r.Some? <==> forall k :: 0 <= k < |outputs| ==> ExpandPath(table, outputs[k], identityOf).Some?
    ensures r.Some? ==>
              && |r.value| == |outputs|
              && forall k :: 0 <= k < |outputs| ==> ExpandPath(table, outputs[k], identityOf) == Some(r.value[k])
  {
    var result := outputs;
    for n := 0 to |outputs|
      invariant |result| == |outputs|
      invariant forall k :: 0 <= k < n ==> ExpandPath(table, outputs[k], identityOf) == Some(result[k])
      invariant forall k :: n <= k < |outputs| ==> result[k] == outputs[k]
    {
      if !Contains(result[n], "://") {
        continue;
      }
      var exact := Resolve(table, result[n], identityOf);
      if exact.None? {
        return None;
      }
      result := result[n := exact.value];
    }
    r := Some(result);
  }

  /** Paths that an owner's events carry: clean and absolute, or no working directory at all. */
  ghost predicate OwnerPaths(s: Summary) {
    && (s.workingDir == "" || (IsAbs(s.workingDir) && Clean(s.workingDir) == s.workingDir))
    && forall output :: output in s.declaredOutputs ==> IsAbs(output) && Clean(output) == output
  }

  /** Expansion leaves owner-normalised events untouched. */
  lemma OwnerEventsUntouched(table: Table, from: Summary, to: Summary, identityOf: Identities)
    requires forall b :: b in table ==> IsAbs(b.path)
    requires OwnerPaths(from)
    ensures Expandable(table, from, identityOf)
    ensures Expands(table, from, to, identityOf) <==> to == from
  {
    if from.workingDir != "" {
      CleanAbsHasNoScheme(from.workingDir);
    }
    forall k | 0 <= k < |from.declaredOutputs|
      ensures ExpandPath(table, from.declaredOutputs[k], identityOf) == Some(from.declaredOutputs[k])
    {
      assert from.declaredOutputs[k] in from.declaredOutputs;
      CleanAbsHasNoScheme(from.declaredOutputs[k]);
    }
    if Expands(table, from, to, identityOf) {
      assert to.declaredOutputs == from.declaredOutputs;
    }
  }

  ghost predicate AllowedPaths(allowed: seq<string>, s: Summary) {
    && (s.workingDir != "" ==> SafeAlias(s.workingDir) && AllowedAlias(allowed, s.workingDir))
    && forall output :: output in s.declaredOutputs ==> SafeAlias(output) && AllowedAlias(allowed, output)
  }

  /** The directory of one of the allowed roots contains the path. */
  ghost predicate ConfinedTo(table: Table, allowed: seq<string>, path: string, identityOf: Identities)
    requires Bound(table, identityOf)
  {
    exists root :: root in allowed &&
                   var directory := Resolve(table, AllowedPrefix(root), identityOf);
                   directory.Some? && IsAbs(directory.value) && PathWithin(directory.value, path)
  }

  /** The roots that allow an alias, as far as they resolve, all contain what it resolves to; and so does
      the bound root whose alias it carries. */
  ghost predicate Confined(table: Table, allowed: seq<string>, alias: string, path: string, identityOf: Identities)
    requires Bound(table, identityOf)
  {
    && (exists root :: root in allowed && AllowedBy(root, alias))
    && (forall root ::
          root in allowed && AllowedBy(root, alias) && Resolve(table, AllowedPrefix(root), identityOf).Some? ==>
          var directory := Resolve(table, AllowedPrefix(root), identityOf).value;
          IsAbs(directory) && PathWithin(directory, path))
    && (exists i :: 0 <= i < |table| && PathWithin(table[i].path, path))
  }

  lemma ConfinedToOne(table: Table, allowed: seq<string>, alias: string, path: string, identityOf: Identities)
    requires Bound(table, identityOf) && Confined(table, allowed, alias, path, identityOf)
    requires forall root :: root in allowed ==> Resolve(table, AllowedPrefix(root), identityOf).Some?
    ensures ConfinedTo(table, allowed, path, identityOf)
  {
    var root :| root in allowed && AllowedBy(root, alias);
  }

  lemma ExpandedPathConfined(table: Table, allowed: seq<string>, alias: string, identityOf: Identities)
    requires Bound(table, identityOf)
    requires SafeAlias(alias) && AllowedAlias(allowed, alias) && ExpandPath(table, alias, identityOf).Some?
    ensures Confined(table, allowed, alias, ExpandPath(table, alias, identityOf).value, identityOf)
  {
    forall root | root in allowed && AllowedBy(root, alias) && Resolve(table, AllowedPrefix(root), identityOf).Some?
      ensures var directory := Resolve(table, AllowedPrefix(root), identityOf).value;
              IsAbs(directory) && PathWithin(directory, ExpandPath(table, alias, identityOf).value)
    {
      AllowedPathConfined(table, root, alias, identityOf);
    }
    var i := ResolveStaysInside(table, alias, identityOf);
  }

  /** Every path of an accepted executor event ends up inside every resolving root that allows it, and
      inside a bound root in any case; if all allowed roots resolve, inside an allowed root's directory. */
  lemma ExecutorEventsConfined(table: Table, allowed: seq<string>, from: Summary, to: Summary, identityOf: Identities)
    requires Bound(table, identityOf)
    requires AllowedPaths(allowed, from) && Expands(table, from, to, identityOf)
    ensures from.workingDir != "" ==> Confined(table, allowed, from.workingDir, to.workingDir, identityOf)
    ensures forall k :: 0 <= k < |to.declaredOutputs| ==>
                          Confined(table, allowed, from.declaredOutputs[k], to.declaredOutputs[k], identityOf)
    ensures (forall root :: root in allowed ==> Resolve(table, AllowedPrefix(root), identityOf).Some?) ==>
              && (from.workingDir != "" ==> ConfinedTo(table, allowed, to.workingDir, identityOf))
              && forall output :: output in to.declaredOutputs ==> ConfinedTo(table, allowed, output, identityOf)
  {
    if from.workingDir != "" {
      ExpandedPathConfined(table, allowed, from.workingDir, identityOf);
    }
    forall k | 0 <= k < |to.declaredOutputs|
      ensures Confined(table, allowed, from.declaredOutputs[k], to.declaredOutputs[k], identityOf)
    {
      assert from.declaredOutputs[k] in from.declaredOutputs;
      ExpandedPathConfined(table, allowed, from.declaredOutputs[k], identityOf);
    }
    if forall root :: root in allowed ==> Resolve(table, AllowedPrefix(root), identityOf).Some? {
      if from.workingDir != "" {
        ConfinedToOne(table, allowed, from.workingDir, to.workingDir, identityOf);
      }
      forall output | output in to.declaredOutputs ensures ConfinedTo(table, allowed, output, identityOf) {
        var k :| 0 <= k < |to.declaredOutputs| && to.declaredOutputs[k] == output;
        ConfinedToOne(table, allowed, from.declaredOutputs[k], output, identityOf);
      }
    }
  }

  // ---- Accepted paths that never resolve ----

  lemma SafeTail(i: nat, alias: string)
    requires !HasTraversal(alias) && Matches(AliasOf(i), alias)
    ensures !HasTraversal(Tail(AliasOf(i), alias)) || Tail(AliasOf(i), alias) == ""
  {
    if AliasPrefix(i) + "/" <= alias {
      TailOfMatch(i, alias);
      TraversalConcat(AliasPrefix(i), Tail(AliasOf(i), alias));
    } else {
      AliasTextReads(i, []);
    }
  }

  /** A safe alias resolves over a bound table if and only if it carries the alias of one of its roots and
      does not go on with an absolute path. */
  lemma SafeAliasResolvesExactly(table: Table, alias: string, identityOf: Identities)
    requires Bound(table, identityOf) && SafeAlias(alias)
    ensures Resolve(table, alias, identityOf).Some?
            <==> exists i :: 0 <= i < |table| && Matches(AliasOf(i), alias) && !IsAbs(Tail(AliasOf(i), alias))
  {
    if i :| 0 <= i < |table| && Matches(AliasOf(i), alias) {
      assert table[i] in table;
      ResolveUsesMatch(table, 0, i, alias, identityOf);
      SafeTail(i, alias);
      ResolveTailExactly(table[i].path, Tail(AliasOf(i), alias));
      assert forall j :: 0 <= j < |table| && Matches(AliasOf(j), alias) ==> j == i by {
        forall j | 0 <= j < |table| && Matches(AliasOf(j), alias) ensures j == i {
          AliasDeterminesRoot(i, j, alias);
        }
      }
    }
    if Resolve(table, alias, identityOf).Some? {
      var i := ResolveStaysInside(table, alias, identityOf);
    }
  }

  /** The workspace alias, continued with another path. */
  function Continued(prefix: string, tail: string): string {
    prefix + "/" + tail
  }

  lemma ContinuedHasScheme(prefix: string, tail: string)
    requires prefix == AliasPrefix(0)
    ensures Contains(Continued(prefix, tail), "://")
  {
    AliasShape(0);
    var alias := Continued(prefix, tail);
    var rest := alias[9..];
    assert rest[0] == ':' && rest[1] == '/' && rest[2] == '/';
    assert rest[..3] == "://";
  }

  lemma ContinuedIsSafe(prefix: string, tail: string)
    requires '.' !in prefix && !HasTraversal(tail)
    ensures !HasTraversal(Continued(prefix, tail))
  {
    TraversalNeedsDot(prefix);
    TraversalConcat(prefix, tail);
  }

  lemma ContinuedIsAllowed(allowed: seq<string>, tail: string)
    requires "workspace" in allowed
    ensures AllowedAlias(allowed, Continued(AliasPrefix(0), tail))
  {
    assert AllowedBy("workspace", Continued(AliasPrefix(0), tail));
  }

  lemma ContinuedIsAccepted(prefix: string, tail: string, allowed: seq<string>)
    requires prefix == AliasPrefix(0) && !HasTraversal(tail) && "workspace" in allowed
    ensures SafeAlias(Continued(prefix, tail)) && AllowedAlias(allowed, Continued(prefix, tail))
  {
    AliasShape(0);
    ContinuedHasScheme(prefix, tail);
    ContinuedIsSafe(prefix, tail);
    ContinuedIsAllowed(allowed, tail);
  }

  lemma ContinuedNeverResolves(table: Table, tail: string, identityOf: Identities)
    requires Aliased(table) && IsAbs(tail)
    ensures Resolve(table, Continued(AliasPrefix(0), tail), identityOf) == None
  {
    var alias := Continued(AliasPrefix(0), tail);
    TailOfMatch(0, alias);
    TailAfter(AliasPrefix(0), tail);
    if table != [] {
      assert table[0] in table && Matches(table[0].alias, alias);
      assert Tail(table[0].alias, alias) == tail;
    }
  }

  /** Accepted executor paths that no table resolves, whether its roots are unchanged or not: "workspace://"
      and then an absolute path. An event that carries one can never be expanded. */
  lemma AcceptedPathNeverResolves(table: Table, tail: string, s: Summary, allowed: seq<string>, identityOf: Identities)
    requires Aliased(table) && IsAbs(tail) && !HasTraversal(tail) && "workspace" in allowed
    requires s.workingDir == Continued(AliasPrefix(0), tail)
    ensures SafeAlias(s.workingDir) && AllowedAlias(allowed, s.workingDir)
    ensures Resolve(table, s.workingDir, identityOf).None? && !Expandable(table, s, identityOf)
  {
    ContinuedIsAccepted(AliasPrefix(0), tail, allowed);
    ContinuedNeverResolves(table, tail, identityOf);
  }

  /** After a root has been replaced, no event with a safe alias under it can be expanded. */
  lemma ReplacedRootBlocksExpansion(table: Table, i: nat, s: Summary, alias: string, tail: string,
                                    identityOf: Identities)
    requires Aliased(table) && i < |table| && Spells(i, alias, tail) && !Unchanged(table[i], identityOf)
    requires SafeAlias(alias) && (s.workingDir == alias || alias in s.declaredOutputs)
    ensures !Expandable(table, s, identityOf)
  {
    ReplacedRootRefuses(table, i, alias, tail, identityOf);
    if s.workingDir != alias {
      var k :| 0 <= k < |s.declaredOutputs| && s.declaredOutputs[k] == alias;
      assert ExpandPath(table, s.declaredOutputs[k], identityOf).None?;
    }
  }

  /** The path "workspace:///x" is one of them. */
  lemma StuckPath(path: string, tail: string)
    requires path == "workspace:///x" && tail == "/x"
    ensures path == Continued(AliasPrefix(0), tail) && IsAbs(tail) && !HasTraversal(tail)
  {
    AliasShape(0);
    assert "workspace:/" + "/" + "/x" == "workspace:///x";
    TraversalNeedsDot(tail);
  }

  lemma {:induction false} TraversalNeedsDot(s: string)
    requires '.' !in s
    ensures !HasTraversal(s)
  {
    SlashedNeedsDot(s);
    SplitNeedsLetter(Slashed(s));
  }

  lemma {:induction false} SlashedNeedsDot(s: string)
    requires '.' !in s
    ensures '.' !in Slashed(s)
  {
    if s != "" {
      SlashedNeedsDot(s[1..]);
    }
  }

  lemma {:induction false} SplitNeedsLetter(s: string)
    requires '.' !in s
    ensures forall part :: part in Split(s, '/') ==> '.' !in part
  {
    if s != "" {
      SplitNeedsLetter(s[1..]);
      var rest := Split(s[1..], '/');
      assert rest[0] in rest && forall part :: part in rest[1..] ==> part in rest;
    }
  }
}
