/** Every executor event in a run goes back to a delegation that allowed it. */
module ExecutorRuns {
  import opened Text
  import opened Contract
  import opened Capability
  import opened Disk
  import opened Protocol
  import opened Invariant
  import opened Runs
  import opened EventRuns
  import opened Outcomes
  import Base64Url

  /** Step d is a successful delegation that issued this signature. */
  ghost predicate Issues(cfg: Config, run: Run, d: nat, sig: Signature) {
    && Succeeds(run, d) && d + 1 < |run.states| && run.actions[d].DelegateExecutor?
    && HoldsTask(cfg, run.states[d], run.actions[d].handle, run.actions[d].now)
    && ClaimsOf(run.actions[d], sig.claims)
    && sig.publicKey == cfg.publicKeyOf(run.actions[d].handle.owner.signingSeed)
  }

  lemma OnlyDelegationIssues(cfg: Config, s: System, a: Action)
    requires !(a.DelegateExecutor? && Apply(cfg, s, a).ok)
    ensures Apply(cfg, s, a).state.issued == s.issued
  {
  }

  lemma {:induction false} IssuedByDelegation(cfg: Config, run: Run, n: nat, sig: Signature) returns (d: nat)
    requires ValidConfig(cfg) && ValidRun(cfg, run) && n < |run.states| && sig in run.states[n].issued
    ensures d < n && Issues(cfg, run, d, sig)
  {
    assert n > 0;
    RunKeepsInvariant(cfg, run, n - 1);
    assert StepAt(cfg, run, n - 1);
    var s, a := run.states[n - 1], run.actions[n - 1];
    if sig in s.issued {
      d := IssuedByDelegation(cfg, run, n - 1, sig);
    } else {
      OnlyDelegationIssuesHere(cfg, s, a, run.states[n], run.results[n - 1], sig);
      var claims := DelegationLeaves(cfg, s, a);
      d := n - 1;
    }
  }

  lemma OnlyDelegationIssuesHere(cfg: Config, s: System, a: Action, t: System, ok: bool, sig: Signature)
    requires Apply(cfg, s, a) == Step(t, ok) && sig in t.issued && sig !in s.issued
    ensures a.DelegateExecutor? && ok
  {
    if !(a.DelegateExecutor? && ok) {
      OnlyDelegationIssues(cfg, s, a);
    }
  }

  /** Step k is the append that accepted the event. */
  lemma {:induction false} AcceptedByAppend(run: Run, x: string, n: nat, s: Summary) returns (k: nat)
    requires n <= |run.actions| && n <= |run.results| && n <= |run.states| && s in ExecutorEvents(run, x, n)
    ensures k < n && Succeeds(run, k) && run.actions[k].AppendExecutor? && run.actions[k].handle.ExecutorHandle?
    ensures run.actions[k].handle.executor.claims.opaqueID == x && s in run.actions[k].summaries
  {
    if s in ExecutorEvents(run, x, n - 1) {
      k := AcceptedByAppend(run, x, n - 1, s);
    } else {
      k := n - 1;
      assert s in ByExecutor(run.actions[k], run.results[k], x);
    }
  }

  /** The event was appended at step k, before the whole second at which a delegation of step d expires, and
      that delegation names its type, or no type at all. */
  ghost predicate Authorised(cfg: Config, run: Run, d: nat, k: nat, x: string, s: Summary) {
    && d < k && Succeeds(run, d) && run.actions[d].DelegateExecutor? && run.actions[d].handle.OwnerHandle?
    && run.actions[d].handle.owner.opaqueID == x
    && HoldsTask(cfg, run.states[d], run.actions[d].handle, run.actions[d].now)
    && Succeeds(run, k) && run.actions[k].AppendExecutor? && s in run.actions[k].summaries
    && ((forall v :: v in run.actions[d].allowedTypes ==> v == "")
        || TypeText(s.eventType) in run.actions[d].allowedTypes)
    && exists second :: WholeSecond(run.actions[d].expiresAt, second) && run.actions[k].now < second
  }

  /** Every executor event that End can load was allowed by a delegation of its task's owner. */
  lemma ExecutorEventAuthorised(cfg: Config, run: Run, n: nat, x: string, s: Summary) returns (d: nat, k: nat)
    requires ValidConfig(cfg) && ValidRun(cfg, run) && n < |run.states| && s in ExecutorEvents(run, x, n)
    ensures k < n && Authorised(cfg, run, d, k, x, s)
  {
    k := AcceptedByAppend(run, x, n, s);
    RunKeepsInvariant(cfg, run, k);
    assert StepAt(cfg, run, k);
    var a := run.actions[k];
    StepSucceedsExactly(cfg, run.states[k], a);
    ClaimsWereIssued(cfg, run.states[k], a);
    d := IssuedByDelegation(cfg, run, k, a.handle.executor.signature);
    TypeWasNamed(a.summaries, s, a.handle.executor.claims, run.actions[d]);
  }

  /** What End loads: the owner's events, and then only events that a delegation allowed. */
  lemma LoadedEventsAuthorised(cfg: Config, run: Run, n: nat, handle: Handle, now: Time)
    requires ValidConfig(cfg) && ValidRun(cfg, run) && n < |run.states|
    requires LoadTaskForEnd(cfg, run.states[n].files, handle, now).Ok? && handle.OwnerHandle?
    ensures var events := LoadTaskForEnd(cfg, run.states[n].files, handle, now).value.events;
            var own := OwnerEvents(run, handle.owner.opaqueID, n);
            && own <= events
            && forall s :: s in events[|own|..] ==>
                 exists d: nat, k: nat :: k < n && Authorised(cfg, run, d, k, handle.owner.opaqueID, s)
  {
    var x := handle.owner.opaqueID;
    LoadedByOwner(cfg, run.states[n], handle, now);
    EndReadsEveryAcceptedEvent(cfg, run, n, handle, x, now);
    var events := LoadTaskForEnd(cfg, run.states[n].files, handle, now).value.events;
    var rest := events[|OwnerEvents(run, x, n)|..];
    forall s | s in rest ensures exists d: nat, k: nat :: k < n && Authorised(cfg, run, d, k, x, s) {
      assert s in multiset(rest);
      var d, k := ExecutorEventAuthorised(cfg, run, n, x, s);
    }
  }

  lemma ClaimsWereIssued(cfg: Config, s: System, a: Action)
    requires a.AppendExecutor? && Admissible(cfg, s, a) && HoldsClaims(s, a.handle, a.summaries, a.now)
    ensures a.handle.executor.signature in s.issued
    ensures a.handle.executor.signature.claims == a.handle.executor.claims
  {
  }

  lemma TypeWasNamed(summaries: seq<Summary>, s: Summary, claims: Claims, delegation: Action)
    requires delegation.DelegateExecutor? && ClaimsOf(delegation, claims) && s in summaries
    requires claims.allowedTypes == []
             || forall k :: 0 <= k < |summaries| ==> TypeText(summaries[k].eventType) in claims.allowedTypes
    ensures (forall v :: v in delegation.allowedTypes ==> v == "") || TypeText(s.eventType) in delegation.allowedTypes
  {
    var k :| 0 <= k < |summaries| && summaries[k] == s;
    if claims.allowedTypes == [] {
      forall v | v in delegation.allowedTypes ensures v == "" {
        assert v !in claims.allowedTypes;
      }
    }
  }
}
