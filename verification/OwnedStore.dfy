/** internal/store: the store object. Each method runs under the store's mutex, changes the directories in
    place, and is proved to do what the function of the same step in Disk and Retention says. */
module OwnedStore {
  import opened Text
  import opened Contract
  import opened Crypto
  import opened Capability
  import opened Sorting
  import opened Disk
  import opened Retention
  import opened Invariant
  import opened BatchMerge
  import Eviction
  import Sums
  import Base64Url

  class Store {
    const config: Config
    var tasks: map<string, Envelope<TaskRecord>>
    var reports: map<string, Envelope<ReportRecord>>
    var grants: map<string, Envelope<RetrospectiveGrant>>
    var events: map<string, map<string, Envelope<Batch>>>

    /** What is on disk. */
    ghost function Contents(): Files
      reads this
    {
      Files(tasks, reports, grants, events)
    }

    /** Recorded grant IDs are base64url text: not empty and free of dots. */
    ghost predicate Valid()
      reads this
    {
      forall x :: x in tasks ==> forall g :: g in tasks[x].sealed.plain.executorGrants ==> GrantName(g)
    }

    constructor (config: Config)
      ensures this.config == config && Contents() == EMPTY && Valid()
    {
      this.config := config;
      tasks, reports, grants, events := map[], map[], map[], map[];
    }

    /** A new task can be loaded by its owner until it expires, and is all that appears. */
    method CreateOwnedTask(handle: Handle, taskID: string, context: TaskContext, now: Time)
      returns (r: Result<(), StoreError>)
      requires Valid()
      modifies this
      ensures Valid()
      ensures r == Err(AccessDenied) <==> ParseOwner(handle).None?
      ensures r == Err(AlreadyExists) <==> ParseOwner(handle).Some? && ParseOwner(handle).value.opaqueID in old(tasks)
      ensures r.Err? ==> Contents() == old(Contents())
      ensures r.Ok? ==>
                var owner := ParseOwner(handle).value;
                && Contents().(tasks := Contents().tasks - {owner.opaqueID}) == old(Contents())
                && forall later :: LoadTask(config, Contents(), owner, later)
                                == if later < now + config.interruption
                                   then Ok(TaskRecord(taskID, true, now, now, context, [],
                                                      map[])) else Err(AccessDenied)
      ensures Outcome(Contents(), r) == CreateTask(config, old(Contents()), handle, taskID, context, now)
    {
      var parsed := ParseOwner(handle);
      if parsed.None? {
        return Err(AccessDenied);
      }
      var owner := parsed.value;
      if owner.opaqueID in tasks {
        return Err(AlreadyExists);
      }
      var record := TaskRecord(taskID, true, now, now, context, [], map[]);
      var envelope := SealOwned(config, TASK, owner, 0, now, now + config.interruption, false, record);
      if envelope.None? {
        return Err(WriteFailed);
      }
      tasks := tasks[owner.opaqueID := envelope.value];
      return Ok(());
    }

    method AppendOwnedEvents(handle: Handle, summaries: seq<Summary>, now: Time) returns (r: Result<(), StoreError>)
      requires Valid()
      modifies this
      ensures Valid()
      ensures Outcome(Contents(), r) == AppendEvents(config, old(Contents()), handle, summaries, now)
    {
      var parsed := ParseOwner(handle);
      if parsed.None? {
        return Err(AccessDenied);
      }
      var owner := parsed.value;
      var loaded := LoadTask(config, Files(tasks, reports, grants, events), owner, now);
      if loaded.Err? {
        return Err(AccessDenied);
      }
      var record := loaded.value.(events := loaded.value.events + summaries, heartbeatAt := now);
      var envelope := SealOwned(config, TASK, owner, 0, record.createdAt, now + config.interruption, false, record);
      if envelope.None? {
        return Err(WriteFailed);
      }
      tasks := tasks[owner.opaqueID := envelope.value];
      return Ok(());
    }

    method DelegateOwnedExecutor(handle: Handle, expiresAt: Time, allowedTypes: seq<string>, allowedRoots: seq<string>,
                                 grantBytes: seq<Base64Url.Byte>, appendKey: Key, now: Time)
      returns (r: Result<Executor, StoreError>)
      requires Valid() && |grantBytes| == 18
      modifies this
      ensures Valid()
      ensures Outcome(Contents(), r)
           == Delegate(config, old(Contents()), handle, expiresAt, allowedTypes, allowedRoots, grantBytes, appendKey,
                       now)
    {
      var parsed := ParseOwner(handle);
      if parsed.None? {
        return Err(AccessDenied);
      }
      var owner := parsed.value;
      var loaded := LoadTask(config, Files(tasks, reports, grants, events), owner, now);
      if loaded.Err? {
        return Err(AccessDenied);
      }
      var grantID := Base64Url.Encode(grantBytes);
      Base64Url.EncodedLetters(grantBytes);
      var types := SortDistinct(allowedTypes);
      var roots := SortDistinct(allowedRoots);
      var claims := Claims(owner.opaqueID, grantID, appendKey, WholeSeconds(expiresAt), types, roots);
      var record := loaded.value;
      record := record.(executorGrants := record.executorGrants[grantID := GrantOf(claims)]);
      var envelope := SealOwned(config, TASK, owner, 0, record.createdAt, now + config.interruption, false, record);
      if envelope.None? {
        return Err(WriteFailed);
      }
      tasks := tasks[owner.opaqueID := envelope.value];
      return Ok(Executor(claims, Signature(OwnerPublicKey(config, owner), claims)));
    }

    method AppendOwnedExecutorEvents(handle: Handle, summaries: seq<Summary>, random: seq<Base64Url.Byte>, now: Time)
      returns (r: Result<(), StoreError>)
      requires Valid()
      modifies this
      ensures Valid()
      ensures Outcome(Contents(), r) == AppendExecutorEvents(config, old(Contents()), handle, summaries, random, now)
    {
      var parsed := ParseExecutor(handle, now);
      if parsed.None? || !ExecutorAllows(parsed.value.claims.allowedTypes, TypesOf(summaries)) {
        return Err(AccessDenied);
      }
      var executor := parsed.value;
      var claims := executor.claims;
      if claims.opaqueID !in tasks {
        return Err(AccessDenied);
      }
      var task := tasks[claims.opaqueID].meta;
      if task.recordKind != TASK || !(now < task.expiresAt) || !VerifySignature(executor, task.publicKey) {
        return Err(AccessDenied);
      }
      var expires := claims.expiresUnix;
      if task.expiresAt < expires {
        expires := task.expiresAt;
      }
      var envelope := SealRecord(BATCH, claims.opaqueID + "." + claims.grantID, 0, now, expires, task.publicKey, false,
                                 claims.appendKey, Batch(claims.grantID, summaries));
      if envelope.None? {
        return Err(WriteFailed);
      }
      var directory := if claims.opaqueID in events then events[claims.opaqueID] else map[];
      events := events[claims.opaqueID := directory[BatchName(claims.grantID, random) := envelope.value]];
      return Ok(());
    }

    /** The inner loop of mergeExecutorEvents over the grants, which come in any order. */
    method FindGrant(recorded: map<string, ExecutorGrant>, name: string) returns (found: Option<string>)
      requires forall g :: g in recorded ==> GrantName(g)
      ensures found == GrantFor(recorded, name)
    {
      var rest := recorded.Keys;
      while rest != {}
        invariant rest <= recorded.Keys
        invariant forall g :: g in recorded && g !in rest ==> !NamesGrant(name, g)
        decreases rest
      {
        var candidate :| candidate in rest;
        if NamesGrant(name, candidate) {
          GrantForIs(recorded, name, candidate);
          return Some(candidate);
        }
        rest := rest - {candidate};
      }
      return None;
    }

    /** The loop of mergeExecutorEvents over the directory entries. */
    method MergeEntries(publicKey: string, opaqueID: string, recorded: map<string, ExecutorGrant>,
                        directory: map<string, Envelope<Batch>>, entries: seq<string>) returns (r: Option<seq<Summary>>)
      requires forall g :: g in recorded ==> GrantName(g)
      requires forall name :: name in entries ==> name in directory
      ensures r == MergeFiles(publicKey, opaqueID, recorded, directory, entries)
    {
      var merged: seq<Summary> := [];
      for n := 0 to |entries|
        invariant MergeFiles(publicKey, opaqueID, recorded, directory, entries[..n]) == Some(merged)
      {
        var name := entries[n];
        assert entries[..n + 1][..n] == entries[..n];
        MergeStops(publicKey, opaqueID, recorded, directory, entries, n + 1);
        if Ext(name) != ".are" {
          continue;
        }
        var grantID := FindGrant(recorded, name);
        if grantID.None? || grantID.value == "" {
          return None;
        }
        var batch := OpenBatch(publicKey, opaqueID, grantID.value, recorded[grantID.value], directory[name]);
        if batch.None? {
          return None;
        }
        merged := merged + batch.value;
      }
      assert entries[..|entries|] == entries;
      return Some(merged);
    }

    method MergeExecutorEvents(owner: Owner, record: TaskRecord) returns (r: Result<TaskRecord, StoreError>)
      requires forall g :: g in record.executorGrants ==> GrantName(g)
      ensures r == MergeEvents(config, Contents(), owner, record)
    {
      var directory := if owner.opaqueID in events then events[owner.opaqueID] else map[];
      var entries := ReadListing(directory.Keys);
      ListingMembers(directory.Keys, entries);
      var merged := MergeEntries(OwnerPublicKey(config, owner), owner.opaqueID, record.executorGrants, directory,
                                 entries);
      if merged.None? {
        return Err(AccessDenied);
      }
      return Ok(record.(events := record.events + merged.value));
    }

    method LoadOwnedTaskForEnd(handle: Handle, now: Time) returns (r: Result<TaskRecord, StoreError>)
      requires Valid()
      ensures r == LoadTaskForEnd(config, Contents(), handle, now)
    {
      var parsed := ParseOwner(handle);
      if parsed.None? {
        return Err(AccessDenied);
      }
      var loaded := LoadTask(config, Files(tasks, reports, grants, events), parsed.value, now);
      if loaded.Err? {
        return Err(loaded.error);
      }
      r := MergeExecutorEvents(parsed.value, loaded.value);
    }

    method CompleteOwnedTask(handle: Handle, report: Report, evidence: OwnedEvidence, now: Time)
      returns (r: Result<(), StoreError>)
      requires Valid()
      modifies this
      ensures Valid()
      ensures Outcome(Contents(), r) == CompleteTask(config, old(Contents()), handle, report, evidence, now)
    {
      var loaded := LoadOwnedTaskForEnd(handle, now);
      r := FinishTask(handle, loaded, report, evidence, now);
    }

    /** CompleteOwnedTask after it has loaded and merged the task. */
    method FinishTask(handle: Handle, loaded: Result<TaskRecord, StoreError>, report: Report, evidence: OwnedEvidence,
                      now: Time)
      returns (r: Result<(), StoreError>)
      requires Valid()
      modifies this
      ensures Valid()
      ensures Outcome(Contents(), r) == Complete(config, old(Contents()), handle, loaded, report, evidence, now)
    {
      var parsed := ParseOwner(handle);
      if parsed.None? || loaded.Err? || report.taskID != loaded.value.taskID || !ValidReport(report) {
        return Err(AccessDenied);
      }
      var owner := parsed.value;
      var envelope := SealOwned(config, REPORT, owner, 0, now, now + config.retention, false,
                                FirstRecord(config, report, evidence, now));
      if envelope.None? {
        return Err(WriteFailed);
      }
      reports := reports[owner.opaqueID := envelope.value];
      tasks := tasks - {owner.opaqueID};
      events := events - {owner.opaqueID};
      return Ok(());
    }

    method AppendOwnedRevision(handle: Handle, revision: Revision) returns (r: Result<(), StoreError>)
      requires Valid()
      modifies `reports
      ensures Valid()
      ensures Outcome(Contents(), r) == AppendRevision(config, old(Contents()), handle, revision)
    {
      var read := OpenReport(config, Files(tasks, reports, grants, events), handle);
      if read.None? {
        return Err(AccessDenied);
      }
      var record := read.value;
      var owner := ParseOwner(handle).value;
      var envelope := reports[owner.opaqueID];
      var wantRevision := |record.revisions| + 1;
      var previous := record.originalDigest;
      if |record.revisions| > 0 {
        previous := record.revisions[|record.revisions| - 1].digest;
      }
      if revision.revision != wantRevision || revision.createdAt == ZERO_TIME || revision.previousDigest != previous
         || revision.digest == "" {
        return Err(ChainMismatch);
      }
      record := record.(revisions := record.revisions + [revision]);
      var next := SealOwned(config, REPORT, owner, envelope.meta.revision + 1, envelope.meta.createdAt,
                            envelope.meta.expiresAt, envelope.meta.protected, record);
      if next.None? {
        return Err(WriteFailed);
      }
      reports := reports[owner.opaqueID := next.value];
      return Ok(());
    }

    method GetOwnedReport(handle: Handle, now: Time) returns (r: Result<ReportRecord, StoreError>)
      ensures r == GetReport(config, Contents(), handle, now)
    {
      var read := OpenReport(config, Files(tasks, reports, grants, events), handle);
      if read.None? {
        return Err(AccessDenied);
      }
      var owner := ParseOwner(handle).value;
      var meta := reports[owner.opaqueID].meta;
      if meta.opaqueID != owner.opaqueID || !(now < meta.expiresAt) {
        return Err(AccessDenied);
      }
      return Ok(read.value);
    }

    method RetainOwnedReport(handle: Handle) returns (r: Result<(), StoreError>)
      requires Valid()
      modifies `reports
      ensures Valid()
      ensures Outcome(Contents(), r) == Retain(config, old(Contents()), handle)
    {
      var read := OpenReport(config, Files(tasks, reports, grants, events), handle);
      if read.None? {
        return Err(AccessDenied);
      }
      var owner := ParseOwner(handle).value;
      var meta := reports[owner.opaqueID].meta;
      var next := SealOwned(config, REPORT, owner, meta.revision, meta.createdAt, meta.expiresAt + config.retention,
                            true, read.value.(retained := true));
      if next.None? {
        return Err(WriteFailed);
      }
      reports := reports[owner.opaqueID := next.value];
      return Ok(());
    }

    /** Whoever can read a report can remove it; then it is gone at all times, and it alone. */
    method ForgetOwnedReport(handle: Handle) returns (r: Result<(), StoreError>)
      requires Valid()
      modifies `reports
      ensures Valid()
      ensures r.Err? ==> Contents() == old(Contents()) && forall now :: GetReport(config, Contents(), handle, now).Err?
      ensures r.Ok? ==> ParseOwner(handle).Some?
      ensures r.Ok? ==>
                var x := ParseOwner(handle).value.opaqueID;
                && x in old(reports) && reports == old(reports) - {x}
                && forall now :: GetReport(config, Contents(), handle, now).Err?
      ensures Outcome(Contents(), r) == Forget(config, old(Contents()), handle)
    {
      var read := OpenReport(config, Files(tasks, reports, grants, events), handle);
      if read.None? {
        return Err(AccessDenied);
      }
      reports := reports - {ParseOwner(handle).value.opaqueID};
      return Ok(());
    }

    /** A new grant can be loaded by its owner until it expires, and is all that appears. */
    method CreateRetrospectiveGrant(handle: Handle, grant: RetrospectiveGrant) returns (r: Result<(), StoreError>)
      requires Valid()
      modifies `grants
      ensures Valid()
      ensures r == Err(AccessDenied) <==> ParseOwner(handle).None? || !ProperTimes(grant)
      ensures r == Err(AlreadyExists) <==>
                ParseOwner(handle).Some? && ProperTimes(grant) && ParseOwner(handle).value.opaqueID in old(grants)
      ensures r.Err? ==> Contents() == old(Contents())
      ensures r.Ok? ==>
                && grants - {ParseOwner(handle).value.opaqueID} == old(grants)
                && forall later :: LoadGrant(config, Contents(), handle, later)
                                == if later < grant.expiresAt then Ok(grant) else Err(AccessDenied)
      ensures Outcome(Contents(), r) == CreateGrant(config, old(Contents()), handle, grant)
    {
      var parsed := ParseOwner(handle);
      if parsed.None? || !ProperTimes(grant) {
        return Err(AccessDenied);
      }
      var owner := parsed.value;
      if owner.opaqueID in grants {
        return Err(AlreadyExists);
      }
      var envelope := SealOwned(config, GRANT, owner, 0, grant.createdAt, grant.expiresAt, false, grant);
      if envelope.None? {
        return Err(WriteFailed);
      }
      grants := grants[owner.opaqueID := envelope.value];
      return Ok(());
    }

    method CompleteRetrospectiveGrant(handle: Handle, report: Report, evidence: OwnedEvidence, now: Time)
      returns (r: Result<(), StoreError>)
      requires Valid()
      modifies `grants, `reports
      ensures Valid()
      ensures Outcome(Contents(), r) == CompleteGrant(config, old(Contents()), handle, report, evidence, now)
    {
      var loaded := LoadGrant(config, Files(tasks, reports, grants, events), handle, now);
      if loaded.Err? || report.taskID != loaded.value.taskID || !ValidReport(report) {
        return Err(AccessDenied);
      }
      var owner := ParseOwner(handle).value;
      var envelope := SealOwned(config, REPORT, owner, 0, now, now + config.retention, false,
                                FirstRecord(config, report, evidence, now));
      if envelope.None? {
        return Err(WriteFailed);
      }
      reports := reports[owner.opaqueID := envelope.value];
      grants := grants - {owner.opaqueID};
      return Ok(());
    }

    /** Sweep: expired tasks go with their event directories, then expired and excess reports, then
        expired grants. `order` is the order in which the sort put the kept reports. */
    method Sweep(now: Time) returns (ghost order: seq<Eviction.OwnedFile>)
      requires Valid()
      modifies this
      ensures Valid()
      ensures SweepOrder(config, Live(old(reports), now), order)
      ensures Contents() == Retention.Sweep(config, old(Contents()), now, order)
    {
      SweepTasks(now);
      order := SweepReports(now);
      SweepGrants(now);
    }

    method SweepTasks(now: Time)
      requires Valid()
      modifies `tasks, `events
      ensures Valid()
      ensures tasks == Live(old(tasks), now)
      ensures events == old(events) - ExpiredEvents(old(Contents()), now)
    {
      var entries := ReadNames(tasks.Keys);
      ghost var before := tasks;
      for n := 0 to |entries|
        invariant tasks == Remaining(before, entries[..n], now)
        invariant events == old(events) - ExpiredAmong(before, entries[..n], now)
      {
        var x := entries[n];
        RemainingNext(before, entries, n, now);
        ExpiredNext(before, entries, n, now);
        if x in tasks && !Unexpired(tasks[x], now) {
          events := events - {tasks[x].meta.opaqueID};
          tasks := tasks - {x};
        }
      }
      assert entries[..|entries|] == entries;
      RemainingAll(before, entries, now);
      assert ExpiredAmong(before, entries, now) == ExpiredEvents(old(Contents()), now);
    }

    method SweepGrants(now: Time)
      modifies `grants
      ensures grants == Live(old(grants), now)
    {
      var entries := ReadNames(grants.Keys);
      ghost var before := grants;
      for n := 0 to |entries|
        invariant grants == Remaining(before, entries[..n], now)
      {
        var x := entries[n];
        RemainingNext(before, entries, n, now);
        if x in grants && !Unexpired(grants[x], now) {
          grants := grants - {x};
        }
      }
      assert entries[..|entries|] == entries;
      RemainingAll(before, entries, now);
    }

    method SweepReports(now: Time) returns (ghost order: seq<Eviction.OwnedFile>)
      modifies `reports
      ensures SweepOrder(config, Live(old(reports), now), order)
      ensures reports == SweptReports(config, Live(old(reports), now), order)
    {
      var kept, total := ExpireReports(now);
      if total > config.capacity {
        var sorted := SortKept(kept);
        Sums.SumSeqPermuted(Eviction.SizeOf, kept, sorted);
        kept, order := sorted, sorted;
        EvictReports(kept, total);
      } else {
        order := SomeSweepOrder(config, reports);
        FittingStays(config, reports, order, kept);
      }
    }

    method ExpireReports(now: Time) returns (kept: seq<Eviction.OwnedFile>, total: nat)
      modifies `reports
      ensures reports == Live(old(reports), now)
      ensures Eviction.Enumerates(KeptFiles(config, reports), kept) && total == Eviction.Bytes(kept)
    {
      var entries := ReadNames(reports.Keys);
      ghost var before := reports;
      kept, total := [], 0;
      assert KeptFiles(config, Among(before, [], now)) == {};
      for n := 0 to |entries|
        invariant reports == Remaining(before, entries[..n], now)
        invariant Eviction.Enumerates(KeptFiles(config, Among(before, entries[..n], now)), kept)
        invariant total == Eviction.Bytes(kept)
      {
        var x := entries[n];
        EntriesDiffer(before.Keys, entries, n);
        RemainingNext(before, entries, n, now);
        AmongNext(config, before, entries, n, now, kept);
        if x in reports {
          if !Unexpired(reports[x], now) {
            reports := reports - {x};
          } else {
            var file := FileOf(config, x, reports[x]);
            kept, total := kept + [file], total + file.size;
          }
        }
      }
      assert entries[..|entries|] == entries;
      RemainingAll(before, entries, now);
      assert Among(before, entries, now) == Live(before, now);
    }

    /** The eviction loop. */
    method EvictReports(kept: seq<Eviction.OwnedFile>, size: int)
      modifies `reports
      ensures reports == old(reports) - Names(Eviction.Evict(config.capacity, kept, size).removed)
    {
      var total := size;
      ghost var removed: seq<Eviction.OwnedFile> := [];
      var n := 0;
      while n < |kept|
        invariant 0 <= n <= |kept|
        invariant reports == old(reports) - Names(removed)
        invariant Eviction.Evict(config.capacity, kept, size).removed
               == removed + Eviction.Evict(config.capacity, kept[n..], total).removed
      {
        if total <= config.capacity {
          break;
        }
        var record := kept[n];
        EvictNext(config.capacity, kept, n, total, removed);
        if !record.protected {
          reports := reports - {record.id};
          total := total - record.size;
          NamesGrow(removed, record);
          removed := removed + [record];
        }
        n := n + 1;
      }
      EvictDone(config.capacity, kept, n, total, removed);
    }
  }

  lemma EvictNext(capacity: int, kept: seq<Eviction.OwnedFile>, n: nat, total: int, removed: seq<Eviction.OwnedFile>)
    requires n < |kept| && total > capacity
    ensures removed + Eviction.Evict(capacity, kept[n..], total).removed
         == if kept[n].protected then removed + Eviction.Evict(capacity, kept[n + 1..], total).removed
            else (removed + [kept[n]]) + Eviction.Evict(capacity, kept[n + 1..], total - kept[n].size).removed
  {
    assert kept[n..][1..] == kept[n + 1..];
  }

  lemma EvictDone(capacity: int, kept: seq<Eviction.OwnedFile>, n: nat, total: int, removed: seq<Eviction.OwnedFile>)
    requires n <= |kept| && (n == |kept| || total <= capacity)
    ensures removed + Eviction.Evict(capacity, kept[n..], total).removed == removed
  {
  }

  lemma NamesGrow(removed: seq<Eviction.OwnedFile>, record: Eviction.OwnedFile)
    ensures Names(removed + [record]) == Names(removed) + {record.id}
  {
  }

  /** Open, on a home that is empty so far: refused without a home or with a capacity, retention or
      interruption that is not positive. */
  method Open(home: string, config: Config) returns (r: Option<Store>)
    ensures r.Some? <==> home != "" && ValidConfig(config)
    ensures r.Some? ==> fresh(r.value) && r.value.config == config && r.value.Contents() == EMPTY && r.value.Valid()
  {
    if home == "" || !ValidConfig(config) {
      return None;
    }
    var store := new Store(config);
    r := Some(store);
  }

  /** Both times are set, in order. */
  predicate ProperTimes(grant: RetrospectiveGrant) {
    grant.createdAt != ZERO_TIME && grant.expiresAt != ZERO_TIME && grant.createdAt < grant.expiresAt
  }

  method SortKept(kept: seq<Eviction.OwnedFile>) returns (sorted: seq<Eviction.OwnedFile>)
    ensures SortOf(kept, sorted, Eviction.Older)
  {
    OlderPreorder();
    sorted := SortSlice(kept, Eviction.Older);
  }

  ghost function SomeSweepOrder(cfg: Config,
                                reports: map<string, Envelope<ReportRecord>>): (order: seq<Eviction.OwnedFile>)
    ensures SweepOrder(cfg, reports, order)
  {
    OlderPreorder();
    Enumerate(KeptFiles(cfg, reports), Eviction.Older)
  }

  lemma OlderPreorder()
    ensures TotalPreorder(Eviction.Older)
  {
  }

  /** A directory whose total fits is what the loop leaves, in any order. */
  lemma FittingStays(cfg: Config, reports: map<string, Envelope<ReportRecord>>, order: seq<Eviction.OwnedFile>,
                     kept: seq<Eviction.OwnedFile>)
    requires Eviction.Enumerates(KeptFiles(cfg, reports), kept) && Eviction.Enumerates(KeptFiles(cfg, reports), order)
    requires Eviction.Bytes(kept) <= cfg.capacity
    ensures SweptReports(cfg, reports, order) == reports
  {
    Sums.SumSeqPermuted(Eviction.SizeOf, kept, order);
    Eviction.FittingEvictsNothing(cfg.capacity, order, Eviction.Bytes(order));
  }

  /** The unexpired records among the listed names. */
  ghost function Among(records: map<string, Envelope<ReportRecord>>, names: seq<string>,
                       now: Time): map<string, Envelope<ReportRecord>> {
    map x | x in records && x in names && Unexpired(records[x], now) :: records[x]
  }

  lemma AmongGrows(cfg: Config, records: map<string, Envelope<ReportRecord>>, names: seq<string>, x: string, now: Time,
                   kept: seq<Eviction.OwnedFile>)
    requires x in records && x !in names && Unexpired(records[x], now)
    requires Eviction.Enumerates(KeptFiles(cfg, Among(records, names, now)), kept)
    ensures Eviction.Enumerates(KeptFiles(cfg, Among(records, names + [x], now)), kept + [FileOf(cfg, x, records[x])])
  {
    var before := Among(records, names, now);
    assert Among(records, names + [x], now) == before[x := records[x]];
    OneFileMore(cfg, before, x, records[x]);
    EnumeratesMore(KeptFiles(cfg, before), kept, FileOf(cfg, x, records[x]));
  }

  lemma OneFileMore(cfg: Config, before: map<string, Envelope<ReportRecord>>, x: string, e: Envelope<ReportRecord>)
    requires x !in before
    ensures KeptFiles(cfg, before[x := e]) == KeptFiles(cfg, before) + {FileOf(cfg, x, e)}
    ensures FileOf(cfg, x, e) !in KeptFiles(cfg, before)
  {
    forall f ensures f in KeptFiles(cfg, before[x := e]) <==> f in KeptFiles(cfg, before) + {FileOf(cfg, x, e)} {
      NamedFile(cfg, before[x := e], f);
      NamedFile(cfg, before, f);
    }
    NamedFile(cfg, before, FileOf(cfg, x, e));
  }

  lemma EnumeratesMore(files: set<Eviction.OwnedFile>, kept: seq<Eviction.OwnedFile>, f: Eviction.OwnedFile)
    requires Eviction.Enumerates(files, kept) && f !in files
    ensures Eviction.Enumerates(files + {f}, kept + [f])
  {
    assert multiset(kept + [f]) == multiset(kept) + multiset{f};
    assert multiset(files + {f}) == multiset(files) + multiset{f};
  }

  lemma AmongNext(cfg: Config, records: map<string, Envelope<ReportRecord>>, entries: seq<string>, n: nat, now: Time,
                  kept: seq<Eviction.OwnedFile>)
    requires n < |entries| && entries[n] !in entries[..n]
    requires Eviction.Enumerates(KeptFiles(cfg, Among(records, entries[..n], now)), kept)
    ensures var x := entries[n];
            if x in records && Unexpired(records[x], now) then
              && Eviction.Enumerates(KeptFiles(cfg, Among(records, entries[..n + 1], now)),
                                     kept + [FileOf(cfg, x, records[x])])
              && Eviction.Bytes(kept + [FileOf(cfg, x, records[x])])
                 == Eviction.Bytes(kept) + FileOf(cfg, x, records[x]).size
            else Eviction.Enumerates(KeptFiles(cfg, Among(records, entries[..n + 1], now)), kept)
  {
    var x := entries[n];
    assert entries[..n + 1] == entries[..n] + [x];
    if x in records && Unexpired(records[x], now) {
      AmongGrows(cfg, records, entries[..n], x, now, kept);
      Sums.SumSeqConcat(Eviction.SizeOf, kept, [FileOf(cfg, x, records[x])]);
    } else {
      assert Among(records, entries[..n + 1], now) == Among(records, entries[..n], now);
    }
  }

  /** What is left when the listed names have been looked at. */
  ghost function Remaining<T>(records: map<string, Envelope<T>>, names: seq<string>,
                              now: Time): map<string, Envelope<T>> {
    map x | x in records && (x in names ==> Unexpired(records[x], now)) :: records[x]
  }

  lemma RemainingNext<T>(records: map<string, Envelope<T>>, names: seq<string>, n: nat, now: Time)
    requires n < |names|
    ensures var left := Remaining(records, names[..n], now);
            Remaining(records, names[..n + 1], now)
            == if names[n] in left && !Unexpired(left[names[n]], now) then left - {names[n]} else left
  {
    assert names[..n + 1] == names[..n] + [names[n]];
  }

  lemma RemainingAll<T>(records: map<string, Envelope<T>>, names: seq<string>, now: Time)
    requires forall x :: x in records ==> x in names
    ensures Remaining(records, names, now) == Live(records, now)
  {
  }

  ghost function ExpiredAmong(tasks: map<string, Envelope<TaskRecord>>, names: seq<string>, now: Time): set<string> {
    set x | x in names && x in tasks && !Unexpired(tasks[x], now) :: tasks[x].meta.opaqueID
  }

  lemma ExpiredNext(tasks: map<string, Envelope<TaskRecord>>, names: seq<string>, n: nat, now: Time)
    requires n < |names|
    ensures ExpiredAmong(tasks, names[..n + 1], now)
         == ExpiredAmong(tasks, names[..n], now)
            + if names[n] in tasks && !Unexpired(tasks[names[n]], now) then {tasks[names[n]].meta.opaqueID} else {}
  {
    assert names[..n + 1] == names[..n] + [names[n]];
  }

  /** A listing names every file once. */
  lemma EntriesDiffer(dir: set<string>, entries: seq<string>, n: nat)
    requires multiset(entries) == multiset(dir) && n < |entries|
    ensures entries[n] !in entries[..n]
  {
    if entries[n] in entries[..n] {
      var i :| 0 <= i < n && entries[i] == entries[n];
      RepeatedElement(entries, i, n);
    }
  }

  /** Once the merge has failed at a file it has failed for good. */
  lemma {:induction false} MergeStops(publicKey: string, opaqueID: string, grants: map<string, ExecutorGrant>,
                                      directory: map<string, Envelope<Batch>>, names: seq<string>, n: nat)
    requires n <= |names| && forall name :: name in names ==> name in directory
    ensures MergeFiles(publicKey, opaqueID, grants, directory, names[..n]).None?
            ==> MergeFiles(publicKey, opaqueID, grants, directory, names).None?
    decreases |names|
  {
    if n < |names| {
      var m := |names| - 1;
      assert names[..m][..n] == names[..n];
      MergeStops(publicKey, opaqueID, grants, directory, names[..m], n);
    } else {
      assert names[..n] == names;
    }
  }
}
