/** Exactly when each step of a run succeeds, and what a successful one leaves, read off the stored files and
    the caller's handle. */
module Outcomes {
  import opened Text
  import opened Contract
  import opened Crypto
  import opened Capability
  import opened Sorting
  import opened Disk
  import opened Verification
  import opened Protocol
  import opened Invariant
  import opened Steps
  import opened BatchMerge
  import Base64Url

  // ---- Who may do what ----

  ghost predicate Usable(owner: Owner) {
    owner.opaqueID != "" && owner.recordKey != 0 && owner.signingSeed != 0
  }

  /** The file was sealed for this owner: under its key, with its public key. */
  ghost predicate SealedFor<T>(cfg: Config, owner: Owner, e: Envelope<T>) {
    e.sealed.key == owner.recordKey && e.meta.publicKey == cfg.publicKeyOf(owner.signingSeed)
  }

  /** The owner of a task that has not expired. */
  ghost predicate HoldsTask(cfg: Config, s: System, handle: Handle, now: Time) {
    handle.OwnerHandle? && Usable(handle.owner) && handle.owner.opaqueID in s.files.tasks &&
    var e := s.files.tasks[handle.owner.opaqueID];
    SealedFor(cfg, handle.owner, e) && now < e.meta.expiresAt
  }

  ghost predicate HoldsGrant(cfg: Config, s: System, handle: Handle, now: Time) {
    handle.OwnerHandle? && Usable(handle.owner) && handle.owner.opaqueID in s.files.grants &&
    var e := s.files.grants[handle.owner.opaqueID];
    SealedFor(cfg, handle.owner, e) && now < e.meta.expiresAt
  }

  /** The owner of a report, expired or not. */
  ghost predicate HoldsReport(cfg: Config, s: System, handle: Handle) {
    handle.OwnerHandle? && Usable(handle.owner) && handle.owner.opaqueID in s.files.reports &&
    SealedFor(cfg, handle.owner, s.files.reports[handle.owner.opaqueID])
  }

  /** A holder of signed claims on a live task, for these types of events. */
  ghost predicate HoldsClaims(s: System, handle: Handle, summaries: seq<Summary>, now: Time) {
    handle.ExecutorHandle? &&
    var claims := handle.executor.claims;
    && claims.opaqueID != "" && claims.grantID != "" && claims.appendKey != 0 && now < claims.expiresUnix
    && (claims.allowedTypes == []
        || forall k :: 0 <= k < |summaries| ==> TypeText(summaries[k].eventType) in claims.allowedTypes)
    && claims.opaqueID in s.files.tasks
    && var task := s.files.tasks[claims.opaqueID].meta;
       now < task.expiresAt && handle.executor.signature == Signature(task.publicKey, claims)
  }

  function Sooner(a: Time, b: Time): Time { if a < b then a else b }

  // ---- When a step succeeds ----

  ghost predicate Permitted(cfg: Config, s: System, a: Action) {
    match a
    case Begin(owner, _, _, now) => Usable(owner) && now != ZERO_TIME && now + cfg.interruption != ZERO_TIME
    case AppendOwner(handle, _, now) => HoldsTask(cfg, s, handle, now) && now + cfg.interruption != ZERO_TIME
    case DelegateExecutor(handle, _, _, _, _, _, now) =>
      HoldsTask(cfg, s, handle, now) && now + cfg.interruption != ZERO_TIME
    case AppendExecutor(handle, summaries, _, now) =>
      && HoldsClaims(s, handle, summaries, now) && now != ZERO_TIME
      && Sooner(s.files.tasks[handle.executor.claims.opaqueID].meta.expiresAt,
                handle.executor.claims.expiresUnix) != ZERO_TIME
    case EndRead(_, handle, now) => HoldsTask(cfg, s, handle, now)
    case EndWrite(agent, report, _, now) =>
      && agent in s.ending && HoldsTask(cfg, s, s.ending[agent].handle, now)
      && report.taskID == s.files.tasks[s.ending[agent].handle.owner.opaqueID].sealed.plain.taskID
      && ValidReport(report)
      && now != ZERO_TIME && now + cfg.retention != ZERO_TIME
    case GrantRetrospective(owner, grant) =>
      Usable(owner) && grant.createdAt != ZERO_TIME && grant.expiresAt != ZERO_TIME && grant.createdAt < grant.expiresAt
    case InspectRead(_, handle, now) => HoldsGrant(cfg, s, handle, now)
    case InspectWrite(agent, report, _, now) =>
      && agent in s.inspecting && HoldsGrant(cfg, s, s.inspecting[agent].handle, now)
      && report.taskID == s.files.grants[s.inspecting[agent].handle.owner.opaqueID].sealed.plain.taskID
      && ValidReport(report)
      && now != ZERO_TIME && now + cfg.retention != ZERO_TIME
    case VerifyRead(_, handle, now) =>
      HoldsReport(cfg, s, handle) && now < s.files.reports[handle.owner.opaqueID].meta.expiresAt
    case VerifyWrite(agent, seen, now) =>
      && agent in s.verifying && HoldsReport(cfg, s, s.verifying[agent].handle)
      && s.verifying[agent].record.revisions
         == s.files.reports[s.verifying[agent].handle.owner.opaqueID].sealed.plain.revisions
      && now != ZERO_TIME && MakeRevision(cfg, s.verifying[agent].record, seen, now).digest != ""
    case RetainReport(handle) =>
      HoldsReport(cfg, s, handle) && s.files.reports[handle.owner.opaqueID].meta.expiresAt + cfg.retention != ZERO_TIME
    case ForgetReport(handle) => HoldsReport(cfg, s, handle)
    case SweepStore(_, _) => true
  }

  // ---- Parsing and opening ----

  lemma ParsesExactly(handle: Handle)
    ensures ParseOwner(handle) == if handle.OwnerHandle? && Usable(handle.owner) then Some(handle.owner) else None
  {
  }

  lemma LoadsExactly(cfg: Config, s: System, handle: Handle, now: Time)
    requires Tasks(s)
    ensures HoldsTask(cfg, s, handle, now)
            <==> ParseOwner(handle).Some? && LoadTask(cfg, s.files, ParseOwner(handle).value, now).Ok?
    ensures HoldsTask(cfg, s, handle, now) ==>
              LoadTask(cfg, s.files, handle.owner, now) == Ok(s.files.tasks[handle.owner.opaqueID].sealed.plain)
  {
    ParsesExactly(handle);
    if handle.OwnerHandle? && handle.owner.opaqueID in s.files.tasks {
      assert TaskOK(handle.owner.opaqueID, s.files.tasks[handle.owner.opaqueID]);
    }
  }

  lemma LoadsForEndExactly(cfg: Config, s: System, handle: Handle, now: Time)
    requires FilesOK(cfg, s)
    ensures HoldsTask(cfg, s, handle, now) <==> LoadTaskForEnd(cfg, s.files, handle, now).Ok?
    ensures HoldsTask(cfg, s, handle, now) ==>
              LoadTaskForEnd(cfg, s.files, handle, now).value.taskID
              == s.files.tasks[handle.owner.opaqueID].sealed.plain.taskID
  {
    LoadsExactly(cfg, s, handle, now);
    if HoldsTask(cfg, s, handle, now) {
      var x := handle.owner.opaqueID;
      ParsesExactly(handle);
      assert TaskOK(x, s.files.tasks[x]) && DirectoryOK(x, s.files.tasks[x], Batches(s.files, x));
      MergeExactly(cfg, s.files, handle.owner);
    }
  }

  lemma OpensExactly(cfg: Config, s: System, handle: Handle)
    requires Reports(cfg, s)
    ensures HoldsReport(cfg, s, handle) <==> OpenReport(cfg, s.files, handle).Some?
    ensures HoldsReport(cfg, s, handle) ==>
              OpenReport(cfg, s.files, handle) == Some(s.files.reports[handle.owner.opaqueID].sealed.plain)
  {
    ParsesExactly(handle);
    if handle.OwnerHandle? && handle.owner.opaqueID in s.files.reports {
      assert ReportOK(cfg, handle.owner.opaqueID, s.files.reports[handle.owner.opaqueID]);
    }
  }

  lemma GrantsExactly(cfg: Config, s: System, handle: Handle, now: Time)
    requires Grants(s)
    ensures HoldsGrant(cfg, s, handle, now) <==> LoadGrant(cfg, s.files, handle, now).Ok?
    ensures HoldsGrant(cfg, s, handle, now) ==>
              LoadGrant(cfg, s.files, handle, now).value == s.files.grants[handle.owner.opaqueID].sealed.plain
  {
    ParsesExactly(handle);
    if handle.OwnerHandle? && handle.owner.opaqueID in s.files.grants {
      assert GrantOK(handle.owner.opaqueID, s.files.grants[handle.owner.opaqueID]);
    }
  }

  // ---- Step by step ----

  lemma BeginSucceeds(cfg: Config, s: System, a: Action)
    requires Inv(cfg, s) && Admissible(cfg, s, a) && a.Begin?
    ensures Apply(cfg, s, a).ok <==> Permitted(cfg, s, a)
  {
    ParsesExactly(OwnerHandle(a.owner));
  }

  lemma GrantSucceeds(cfg: Config, s: System, a: Action)
    requires Inv(cfg, s) && Admissible(cfg, s, a) && a.GrantRetrospective?
    ensures Apply(cfg, s, a).ok <==> Permitted(cfg, s, a)
  {
    ParsesExactly(OwnerHandle(a.owner));
  }

  lemma TaskWriteSucceeds(cfg: Config, s: System, a: Action)
    requires Inv(cfg, s) && (a.AppendOwner? || a.DelegateExecutor?)
    ensures Apply(cfg, s, a).ok <==> Permitted(cfg, s, a)
  {
    LoadsExactly(cfg, s, a.handle, a.now);
    if HoldsTask(cfg, s, a.handle, a.now) {
      ParsesExactly(a.handle);
      assert TaskOK(a.handle.owner.opaqueID, s.files.tasks[a.handle.owner.opaqueID]);
    }
  }

  lemma TypesExactly(allowed: seq<string>, summaries: seq<Summary>)
    ensures ExecutorAllows(allowed, TypesOf(summaries))
            <==> allowed == [] || forall k :: 0 <= k < |summaries| ==> TypeText(summaries[k].eventType) in allowed
  {
    var types := TypesOf(summaries);
    if forall t :: t in types ==> TypeText(t) in allowed {
      forall k | 0 <= k < |summaries| ensures TypeText(summaries[k].eventType) in allowed {
        assert types[k] in types;
      }
    }
  }

  lemma ExecutorAppendExactly(cfg: Config, s: System, handle: Handle, summaries: seq<Summary>,
                              random: seq<Base64Url.Byte>, now: Time)
    requires Tasks(s)
    ensures AppendExecutorEvents(cfg, s.files, handle, summaries, random, now).result.Ok? <==>
            && HoldsClaims(s, handle, summaries, now) && now != ZERO_TIME
            && Sooner(s.files.tasks[handle.executor.claims.opaqueID].meta.expiresAt,
                      handle.executor.claims.expiresUnix) != ZERO_TIME
  {
    if handle.ExecutorHandle? {
      TypesExactly(handle.executor.claims.allowedTypes, summaries);
      if handle.executor.claims.opaqueID in s.files.tasks {
        assert TaskOK(handle.executor.claims.opaqueID, s.files.tasks[handle.executor.claims.opaqueID]);
      }
    }
  }

  lemma ExecutorAppendSucceeds(cfg: Config, s: System, a: Action)
    requires Inv(cfg, s) && a.AppendExecutor?
    ensures Apply(cfg, s, a).ok <==> Permitted(cfg, s, a)
  {
    ExecutorAppendExactly(cfg, s, a.handle, a.summaries, a.random, a.now);
  }

  lemma EndReadSucceeds(cfg: Config, s: System, a: Action)
    requires Inv(cfg, s) && a.EndRead?
    ensures Apply(cfg, s, a).ok <==> Permitted(cfg, s, a)
  {
    LoadsForEndExactly(cfg, s, a.handle, a.now);
  }

  lemma EndWriteSucceeds(cfg: Config, s: System, a: Action)
    requires Inv(cfg, s) && a.EndWrite?
    ensures FinishEnd(cfg, s, a.agent, a.report, a.evidence, a.now).ok <==> Permitted(cfg, s, a)
  {
    if a.agent in s.ending {
      var handle := s.ending[a.agent].handle;
      LoadsForEndExactly(cfg, s, handle, a.now);
      CompletesExactly(cfg, s, handle, LoadTaskForEnd(cfg, s.files, handle, a.now), a.report, a.evidence, a.now);
    }
  }

  lemma CompletesExactly(cfg: Config, s: System, handle: Handle, loaded: Result<TaskRecord, StoreError>, report: Report,
                         evidence: OwnedEvidence, now: Time)
    requires loaded.Ok? <==> HoldsTask(cfg, s, handle, now)
    requires loaded.Ok? ==> loaded.value.taskID == s.files.tasks[handle.owner.opaqueID].sealed.plain.taskID
    ensures Complete(cfg, s.files, handle, loaded, report, evidence, now).result.Ok? <==>
            && HoldsTask(cfg, s, handle, now)
            && report.taskID == s.files.tasks[handle.owner.opaqueID].sealed.plain.taskID && ValidReport(report)
            && now != ZERO_TIME && now + cfg.retention != ZERO_TIME
  {
    ParsesExactly(handle);
  }

  lemma InspectSucceeds(cfg: Config, s: System, a: Action)
    requires Inv(cfg, s) && (a.InspectRead? || a.InspectWrite?)
    ensures Apply(cfg, s, a).ok <==> Permitted(cfg, s, a)
  {
    if a.InspectRead? {
      GrantsExactly(cfg, s, a.handle, a.now);
    } else if a.agent in s.inspecting {
      GrantsExactly(cfg, s, s.inspecting[a.agent].handle, a.now);
      ParsesExactly(s.inspecting[a.agent].handle);
    }
  }

  lemma ReadSucceedsExactly(cfg: Config, s: System, a: Action)
    requires Inv(cfg, s) && a.VerifyRead?
    ensures Apply(cfg, s, a).ok <==> Permitted(cfg, s, a)
  {
    OpensExactly(cfg, s, a.handle);
    if HoldsReport(cfg, s, a.handle) {
      ParsesExactly(a.handle);
      assert ReportOK(cfg, a.handle.owner.opaqueID, s.files.reports[a.handle.owner.opaqueID]);
    }
  }

  lemma ReportStepSucceeds(cfg: Config, s: System, a: Action)
    requires Inv(cfg, s) && (a.RetainReport? || a.ForgetReport?)
    ensures Apply(cfg, s, a).ok <==> Permitted(cfg, s, a)
  {
    OpensExactly(cfg, s, a.handle);
    if HoldsReport(cfg, s, a.handle) {
      ParsesExactly(a.handle);
      assert ReportOK(cfg, a.handle.owner.opaqueID, s.files.reports[a.handle.owner.opaqueID]);
    }
  }

  lemma VerifyWriteSucceedsExactly(cfg: Config, s: System, a: Action)
    requires Inv(cfg, s) && a.VerifyWrite?
    ensures FinishVerify(cfg, s, a.agent, a.seen, a.now).ok <==> Permitted(cfg, s, a)
  {
    if a.agent in s.verifying {
      var p := s.verifying[a.agent];
      assert PendingOK(cfg, s, p);
      OpensExactly(cfg, s, p.handle);
      if HoldsReport(cfg, s, p.handle) {
        ParsesExactly(p.handle);
        assert ReportOK(cfg, p.handle.owner.opaqueID, s.files.reports[p.handle.owner.opaqueID]);
      }
    }
  }

  /** In every state of a run a step succeeds if and only if its caller holds what it needs: the keys of a live
      task, of a live grant or of a report; signed claims that allow the events; for a completion the right
      task and a valid report; and for a revision the chain it was made from. */
  lemma StepSucceedsExactly(cfg: Config, s: System, a: Action)
    requires Inv(cfg, s) && Admissible(cfg, s, a)
    ensures Apply(cfg, s, a).ok <==> Permitted(cfg, s, a)
  {
    match a
    case Begin(_, _, _, _) => BeginSucceeds(cfg, s, a);
    case AppendOwner(_, _, _) => TaskWriteSucceeds(cfg, s, a);
    case DelegateExecutor(_, _, _, _, _, _, _) => TaskWriteSucceeds(cfg, s, a);
    case AppendExecutor(_, _, _, _) => ExecutorAppendSucceeds(cfg, s, a);
    case EndRead(_, _, _) => EndReadSucceeds(cfg, s, a);
    case EndWrite(_, _, _, _) => EndWriteSucceeds(cfg, s, a);
    case GrantRetrospective(_, _) => GrantSucceeds(cfg, s, a);
    case InspectRead(_, _, _) => InspectSucceeds(cfg, s, a);
    case InspectWrite(_, _, _, _) => InspectSucceeds(cfg, s, a);
    case VerifyRead(_, _, _) => ReadSucceedsExactly(cfg, s, a);
    case VerifyWrite(_, _, _) => VerifyWriteSucceedsExactly(cfg, s, a);
    case RetainReport(_) => ReportStepSucceeds(cfg, s, a);
    case ForgetReport(_) => ReportStepSucceeds(cfg, s, a);
    case SweepStore(_, _) =>
  }

  // ---- What a successful step on a task leaves ----

  /** The task of `x` now reads `record`, for the same owner, until `expires`; nothing else in the store
      changed. */
  ghost predicate TaskBecomes(cfg: Config, s: System, t: System, owner: Owner, record: TaskRecord, expires: Time) {
    var x := owner.opaqueID;
    && x in t.files.tasks && t.files == s.files.(tasks := s.files.tasks[x := t.files.tasks[x]])
    && t.files.tasks[x].sealed.plain == record && SealedFor(cfg, owner, t.files.tasks[x])
    && t.files.tasks[x].meta.expiresAt == expires
  }

  lemma TaskReadsUntil(cfg: Config, s: System, t: System, owner: Owner, record: TaskRecord, expires: Time, later: Time)
    requires Usable(owner) && TaskBecomes(cfg, s, t, owner, record, expires)
    ensures HoldsTask(cfg, t, OwnerHandle(owner), later) <==> later < expires
  {
  }

  lemma BeginLeaves(cfg: Config, s: System, a: Action)
    requires a.Begin? && Apply(cfg, s, a).ok
    ensures TaskBecomes(cfg, s, Apply(cfg, s, a).state, a.owner,
                        TaskRecord(a.taskID, true, a.now, a.now, a.context, [], map[]), a.now + cfg.interruption)
  {
  }

  /** The owner's events go to the end, the heartbeat is now, and the task lives one interruption longer. */
  lemma AppendLeaves(cfg: Config, s: System, a: Action)
    requires Inv(cfg, s) && a.AppendOwner? && Apply(cfg, s, a).ok
    ensures HoldsTask(cfg, s, a.handle, a.now)
    ensures var record := s.files.tasks[a.handle.owner.opaqueID].sealed.plain;
            TaskBecomes(cfg, s, Apply(cfg, s, a).state, a.handle.owner,
                        record.(events := record.events + a.summaries, heartbeatAt := a.now), a.now + cfg.interruption)
  {
    LoadsExactly(cfg, s, a.handle, a.now);
    ParsesExactly(a.handle);
  }

  /** The distinct non-empty values, ascending. */
  ghost predicate DistinctAscending(values: seq<string>, result: seq<string>) {
    && (forall v :: v in result <==> v in values && v != "")
    && forall i, j :: 0 <= i < j < |result| ==> result[i] != result[j] && LexLe(result[i], result[j])
  }

  lemma SortedUniqueExactly(values: seq<string>)
    ensures DistinctAscending(values, SortedUnique(values))
  {
    var named := set v | v in values && v != "";
    var result := SortedUnique(values);
    ListingMembers(named, result);
    forall i, j | 0 <= i < j < |result| ensures result[i] != result[j] && LexLe(result[i], result[j]) {
      assert Ordered(result, LexLe);
      if result[i] == result[j] {
        RepeatedElement(result, i, j);
      }
    }
  }

  /** The last whole second not after a time. */
  ghost predicate WholeSecond(t: Time, second: Time) {
    second % SECOND == 0 && second <= t < second + SECOND
  }

  lemma WholeSecondExactly(t: Time)
    ensures WholeSecond(t, WholeSeconds(t))
  {
  }

  /** Claims of a delegation: the task's ID, the grant's ID and key, the expiry cut to whole seconds, and the
      types and roots without repetition. */
  ghost predicate ClaimsOf(a: Action, claims: Claims)
    requires a.DelegateExecutor?
  {
    && a.handle.OwnerHandle? && claims.opaqueID == a.handle.owner.opaqueID
    && claims.grantID == Base64Url.Encode(a.grantBytes) && claims.appendKey == a.appendKey
    && WholeSecond(a.expiresAt, claims.expiresUnix)
    && DistinctAscending(a.allowedTypes, claims.allowedTypes) && DistinctAscending(a.allowedRoots, claims.allowedRoots)
  }

  /** A delegation records the grant with the claims that it signs, and lets the task live on. */
  ghost predicate Delegated(cfg: Config, s: System, a: Action, t: System, claims: Claims)
    requires a.DelegateExecutor? && HoldsTask(cfg, s, a.handle, a.now)
  {
    var record := s.files.tasks[a.handle.owner.opaqueID].sealed.plain;
    var grant := ExecutorGrant(claims.appendKey, claims.expiresUnix, claims.allowedTypes, claims.allowedRoots);
    && ClaimsOf(a, claims) && t.issued == s.issued + {Signature(cfg.publicKeyOf(a.handle.owner.signingSeed), claims)}
    && TaskBecomes(cfg, s, t, a.handle.owner, record.(executorGrants := record.executorGrants[claims.grantID := grant]),
                   a.now + cfg.interruption)
  }

  lemma DelegationLeaves(cfg: Config, s: System, a: Action) returns (claims: Claims)
    requires Inv(cfg, s) && a.DelegateExecutor? && Apply(cfg, s, a).ok
    ensures HoldsTask(cfg, s, a.handle, a.now) && Delegated(cfg, s, a, Apply(cfg, s, a).state, claims)
  {
    LoadsExactly(cfg, s, a.handle, a.now);
    ParsesExactly(a.handle);
    claims := Claims(a.handle.owner.opaqueID, Base64Url.Encode(a.grantBytes), a.appendKey, WholeSeconds(a.expiresAt),
                     SortedUnique(a.allowedTypes), SortedUnique(a.allowedRoots));
    WholeSecondExactly(a.expiresAt);
    SortedUniqueExactly(a.allowedTypes);
    SortedUniqueExactly(a.allowedRoots);
  }

  // ---- What a completion and a revision leave ----

  /** A first report: this report and evidence, completed now, not retained, with its digest and no revision. */
  ghost predicate FirstReport(cfg: Config, report: Report, evidence: OwnedEvidence, now: Time, record: ReportRecord) {
    && record.report == report && record.completedAt == now && !record.retained && record.revisions == []
    && record.originalDigest == cfg.reportDigest(report)
    && record.exactTargets == evidence.exactTargets && record.aliases == evidence.aliases
  }

  lemma CompletionStores(cfg: Config, report: Report, evidence: OwnedEvidence, now: Time)
    ensures FirstReport(cfg, report, evidence, now, FirstRecord(cfg, report, evidence, now))
  {
  }

  /** The revision that a Verify call appends: next in number, made now, naming the last digest, with the
      re-checked candidates, the limitations of that observation, and the digest of all this. */
  ghost predicate NextRevision(cfg: Config, record: ReportRecord, seen: Observation, now: Time, r: Revision) {
    && r.revision == |record.revisions| + 1 && r.createdAt == now && r.limitations == seen.limitations
    && r.previousDigest == (if record.revisions == [] then record.originalDigest
                            else record.revisions[|record.revisions| - 1].digest)
    && r.candidates == VerifyAll(if record.revisions == [] then record.report.candidates
                                 else record.revisions[|record.revisions| - 1].candidates, record.exactTargets, seen)
    && r.digest == cfg.revisionDigest(Revision(r.revision, r.createdAt, r.previousDigest, "", r.candidates,
                                               r.limitations))
  }

  lemma RevisionMade(cfg: Config, record: ReportRecord, seen: Observation, now: Time)
    ensures NextRevision(cfg, record, seen, now, MakeRevision(cfg, record, seen, now))
  {
  }

  /** A retain marks and protects the report, adds one retention to its expiry, and changes nothing else. */
  lemma RetainLeaves(cfg: Config, s: System, a: Action)
    requires Inv(cfg, s) && a.RetainReport? && Apply(cfg, s, a).ok
    ensures HoldsReport(cfg, s, a.handle)
    ensures var x := a.handle.owner.opaqueID;
            var before, t := s.files.reports[x], Apply(cfg, s, a).state;
            && x in t.files.reports && t == s.(files := s.files.(reports := s.files.reports[x := t.files.reports[x]]))
            && t.files.reports[x].sealed.plain == before.sealed.plain.(retained := true)
            && t.files.reports[x].meta == before.meta.(protected := true,
                                                       expiresAt := before.meta.expiresAt + cfg.retention)
            && SealedFor(cfg, a.handle.owner, t.files.reports[x])
  {
    OpensExactly(cfg, s, a.handle);
    ParsesExactly(a.handle);
    assert ReportOK(cfg, a.handle.owner.opaqueID, s.files.reports[a.handle.owner.opaqueID]);
  }

  // ---- Any files at all ----

  /** A file of this kind that holds the value, sealed under the owner's key with the metadata that it shows. */
  ghost predicate Genuine<T>(cfg: Config, owner: Owner, kind: string, e: Envelope<T>, value: T) {
    && e.meta.formatVersion == "are-encrypted-record/2.0" && e.meta.recordKind == kind && e.meta.revision >= 0
    && e.meta.opaqueID != "" && e.meta.publicKey == cfg.publicKeyOf(owner.signingSeed)
    && e.sealed == Ciphertext(owner.recordKey, e.meta, value)
  }

  /** Whatever lies in the directories: a task is read iff it is genuine, names its owner's ID, has not expired and is
      active; a report iff it is genuine, names the ID and has not expired. A report to be extended, retained or
      forgotten is opened iff it is genuine, and a grant is read iff it is so and has not expired: neither looks at
      the ID inside the file. */
  lemma ReadsAnyFiles(cfg: Config, files: Files, owner: Owner, now: Time)
    requires Usable(owner)
    ensures var x := owner.opaqueID;
            forall record :: LoadTask(cfg, files, owner, now) == Ok(record) <==>
                             && x in files.tasks && Genuine(cfg, owner, "task", files.tasks[x], record)
                             && files.tasks[x].meta.opaqueID == x && now < files.tasks[x].meta.expiresAt
                             && record.active
    ensures var x := owner.opaqueID;
            forall record :: GetReport(cfg, files, OwnerHandle(owner), now) == Ok(record) <==>
                             && x in files.reports && Genuine(cfg, owner, "report", files.reports[x], record)
                             && files.reports[x].meta.opaqueID == x && now < files.reports[x].meta.expiresAt
    ensures var x := owner.opaqueID;
            forall record :: OpenReport(cfg, files, OwnerHandle(owner)) == Some(record) <==>
                             x in files.reports && Genuine(cfg, owner, "report", files.reports[x], record)
    ensures var x := owner.opaqueID;
            forall grant :: LoadGrant(cfg, files, OwnerHandle(owner), now) == Ok(grant) <==>
                            && x in files.grants && Genuine(cfg, owner, "retrospective-grant", files.grants[x], grant)
                            && now < files.grants[x].meta.expiresAt
  {
  }
}
