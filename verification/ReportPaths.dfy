/** internal/app: report paths become aliases, and one candidate's exact path can be asked back. */
module ReportPaths {
  import opened Text
  import opened Contract
  import opened Paths
  import opened PathAlias

  /** The two operations of an alias table, during one call. */
  datatype Aliases = Aliases(project: string -> Option<string>, resolve: string -> Option<string>)

  function AliasesOf(table: Table, identityOf: Identities): Aliases
    requires forall b :: b in table ==> IsAbs(b.path)
  {
    Aliases(exact => Project(table, exact), alias => Resolve(table, alias, identityOf))
  }

  /** The exact target recorded per ID: the last candidate with a path wins. */
  ghost function Targets(candidates: seq<Candidate>): map<string, string> {
    if candidates == [] then map[]
    else
      var last := candidates[|candidates| - 1];
      var before := Targets(candidates[..|candidates| - 1]);
      if last.path == "" then before else before[last.id := last.path]
  }

  /** Same candidates in the same order; a path became its alias and nothing else changed. */
  ghost predicate Projected(from: seq<Candidate>, to: seq<Candidate>, aliases: Aliases) {
    |to| == |from| && forall i :: 0 <= i < |from| ==> ProjectedOne(from[i], to[i], aliases)
  }

  ghost predicate ProjectedOne(from: Candidate, to: Candidate, aliases: Aliases) {
    && to == from.(path := to.path)
    && (if from.path == "" then to.path == "" else aliases.project(from.path) == Some(to.path))
  }

  /** projectReportPaths: it fails exactly when some path is outside the bound roots. */
  method ProjectReportPaths(candidates: seq<Candidate>, aliases: Aliases)
    returns (r: Option<(seq<Candidate>, map<string, string>)>)
    ensures r.Some? <==> forall c :: c in candidates && c.path != "" ==> aliases.project(c.path).Some?
    ensures r.Some? ==> Projected(candidates, r.value.0, aliases) && r.value.1 == Targets(candidates)
  {
    var report, targets := candidates, map[];
    for index := 0 to |candidates|
      invariant |report| == |candidates|
      invariant forall i :: 0 <= i < index ==> ProjectedOne(candidates[i], report[i], aliases)
      invariant forall i :: index <= i < |candidates| ==> report[i] == candidates[i]
      invariant targets == Targets(candidates[..index])
    {
      assert candidates[..index + 1][..index] == candidates[..index];
      if report[index].path == "" {
        continue;
      }
      var exact := report[index].path;
      var alias := aliases.project(exact);
      if alias.None? {
        assert candidates[index] in candidates;
        return None;
      }
      targets := targets[report[index].id := exact];
      report := report[index := report[index].(path := alias.value)];
    }
    assert candidates[..|candidates|] == candidates;
    r := Some((report, targets));
  }

  /** ResolveCandidate on a stored report: the first candidate with the ID and a path decides. */
  function ResolveCandidate(candidates: seq<Candidate>, targets: map<string, string>, aliases: Aliases,
                            id: string): Option<string> {
    if id !in targets then None else FindTarget(candidates, targets[id], aliases, id)
  }

  function FindTarget(candidates: seq<Candidate>, exact: string, aliases: Aliases, id: string): Option<string> {
    if candidates == [] then None
    else if candidates[0].id != id || candidates[0].path == "" then FindTarget(candidates[1..], exact, aliases, id)
    else if aliases.resolve(candidates[0].path) == Some(exact) then Some(exact)
    else None
  }

  ghost predicate DistinctIDs(candidates: seq<Candidate>) {
    forall i, j :: 0 <= i < j < |candidates| ==> candidates[i].id != candidates[j].id
  }

  lemma {:induction false} TargetHolds(candidates: seq<Candidate>, k: nat)
    requires DistinctIDs(candidates) && k < |candidates| && candidates[k].path != ""
    ensures candidates[k].id in Targets(candidates) && Targets(candidates)[candidates[k].id] == candidates[k].path
  {
    var n := |candidates| - 1;
    if k < n {
      TargetHolds(candidates[..n], k);
      assert candidates[k].id != candidates[n].id;
    }
  }

  lemma {:induction false} TargetsOnlyForPaths(candidates: seq<Candidate>, id: string)
    requires forall c :: c in candidates && c.id == id ==> c.path == ""
    ensures id !in Targets(candidates)
  {
    if candidates != [] {
      var n := |candidates| - 1;
      assert candidates[n] in candidates;
      assert forall c :: c in candidates[..n] ==> c in candidates;
      TargetsOnlyForPaths(candidates[..n], id);
    }
  }

  lemma {:induction false} FindTargetAt(candidates: seq<Candidate>, k: nat, exact: string, aliases: Aliases)
    requires DistinctIDs(candidates) && k < |candidates| && candidates[k].path != ""
    ensures FindTarget(candidates, exact, aliases, candidates[k].id)
         == if aliases.resolve(candidates[k].path) == Some(exact) then Some(exact) else None
  {
    if k > 0 {
      assert candidates[0].id != candidates[k].id;
      assert candidates[1..][k - 1] == candidates[k];
      FindTargetAt(candidates[1..], k - 1, exact, aliases);
    }
  }

  /** The answer for one candidate is decided by its own round trip. */
  lemma AnswerIsRoundTrip(from: seq<Candidate>, to: seq<Candidate>, aliases: Aliases, k: nat)
    requires DistinctIDs(from) && Projected(from, to, aliases)
    requires k < |from| && from[k].path != "" && to[k].path != ""
    ensures ResolveCandidate(to, Targets(from), aliases, from[k].id)
         == if aliases.resolve(to[k].path) == Some(from[k].path) then Some(from[k].path) else None
  {
    TargetHolds(from, k);
    forall i, j | 0 <= i < j < |to| ensures to[i].id != to[j].id {
      assert ProjectedOne(from[i], to[i], aliases) && ProjectedOne(from[j], to[j], aliases);
    }
    assert ProjectedOne(from[k], to[k], aliases);
    FindTargetAt(to, k, from[k].path, aliases);
  }

  /** After a report has been projected, asking for a candidate's exact path gives the recorded path
      if and only if that path was clean and has no ".." part below its root; otherwise nothing. */
  lemma ResolveCandidateExactly(from: seq<Candidate>, to: seq<Candidate>, table: Table, k: nat, identityOf: Identities)
    requires Bound(table, identityOf) && DistinctIDs(from)
    requires Projected(from, to, AliasesOf(table, identityOf))
    requires k < |from| && IsAbs(from[k].path)
    ensures ResolveCandidate(to, Targets(from), AliasesOf(table, identityOf), from[k].id)
         == if Clean(from[k].path) == from[k].path && !HasTraversal(Remainder(table, from[k].path))
            then Some(from[k].path) else None
  {
    var aliases := AliasesOf(table, identityOf);
    assert ProjectedOne(from[k], to[k], aliases);
    RoundTripAny(table, from[k].path, to[k].path, identityOf);
    AnswerIsRoundTrip(from, to, aliases, k);
  }

  /** Once its root has been replaced, a candidate is refused, whatever its path. */
  lemma ReplacedRootRefusesCandidate(from: seq<Candidate>, to: seq<Candidate>, table: Table, i: nat, k: nat,
                                     identityOf: Identities)
    requires Aliased(table) && DistinctIDs(from) && Projected(from, to, AliasesOf(table, identityOf))
    requires k < |from| && IsAbs(from[k].path) && i < |table| && Elements(table[i].path) <= Elements(from[k].path)
    requires forall j :: 0 <= j < i ==> !(Elements(table[j].path) <= Elements(from[k].path))
    requires !Unchanged(table[i], identityOf)
    ensures ResolveCandidate(to, Targets(from), AliasesOf(table, identityOf), from[k].id) == None
  {
    var aliases := AliasesOf(table, identityOf);
    assert ProjectedOne(from[k], to[k], aliases);
    var tail := ProjectsUnder(table, i, from[k].path, to[k].path);
    ReplacedRootRefuses(table, i, to[k].path, tail, identityOf);
    AnswerIsRoundTrip(from, to, aliases, k);
  }

  /** The alias of a path spells the alias of the first root that contains it. */
  lemma ProjectsUnder(table: Table, i: nat, exact: string, alias: string) returns (tail: string)
    requires Aliased(table) && IsAbs(exact) && Project(table, exact) == Some(alias)
    requires i < |table| && Elements(table[i].path) <= Elements(exact)
    requires forall j :: 0 <= j < i ==> !(Elements(table[j].path) <= Elements(exact))
    ensures Spells(i, alias, tail) && alias != ""
  {
    CleanAbs(exact);
    FirstRootProjects(table, 0, i, Clean(exact));
    AliasShape(i);
    tail := if Below(table[i].path, Clean(exact)) == [] then "" else Join(Below(table[i].path, Clean(exact)), '/');
  }

  lemma {:induction false} FirstRootProjects(table: Table, from: nat, i: nat, exact: string)
    requires Aliased(table) && IsAbs(exact) && from <= i < |table| && Elements(table[i].path) <= Elements(exact)
    requires forall j :: from <= j < i ==> !(Elements(table[j].path) <= Elements(exact))
    ensures ProjectFrom(table, from, exact) == Some(AliasText(i, Below(table[i].path, exact)))
    decreases i - from
  {
    assert table[from] in table;
    InsideExactly(table[from].path, exact);
    if from < i {
      FirstRootProjects(table, from + 1, i, exact);
    } else {
      TextBelow(i, table[i].path, exact);
    }
  }

  lemma RoundTripAny(table: Table, exact: string, alias: string, identityOf: Identities)
    requires Bound(table, identityOf) && IsAbs(exact) && Project(table, exact) == Some(alias)
    ensures alias != ""
    ensures Resolve(table, alias, identityOf) == Some(exact)
            <==> Clean(exact) == exact && !HasTraversal(Remainder(table, exact))
  {
    ProjectAbs(table, exact, identityOf);
    RootIndexBounds(table, 0, exact);
    AliasShape(RootIndex(table, 0, exact).value);
    if Clean(exact) == exact {
      ResolveProject(table, exact, identityOf);
    } else if Resolve(table, alias, identityOf).Some? {
      var i := ResolveStaysInside(table, alias, identityOf);
    }
  }

  /** An ID that no path candidate of the report carries is refused. */
  lemma UnknownCandidateRefused(from: seq<Candidate>, to: seq<Candidate>, aliases: Aliases, id: string)
    requires forall c :: c in from && c.id == id ==> c.path == ""
    ensures ResolveCandidate(to, Targets(from), aliases, id) == None
  {
    TargetsOnlyForPaths(from, id);
  }
}
