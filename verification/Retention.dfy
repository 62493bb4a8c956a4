/** internal/store/retention.go: what a sweep removes from the store. */
module Retention {
  import opened Text
  import opened Contract
  import opened Crypto
  import opened Disk
  import opened Sorting
  import opened Eviction

  predicate Unexpired<T>(envelope: Envelope<T>, now: Time) {
    now < envelope.meta.expiresAt
  }

  function Live<T>(records: map<string, Envelope<T>>, now: Time): map<string, Envelope<T>> {
    map x | x in records && Unexpired(records[x], now) :: records[x]
  }

  /** The event directories that go with expired tasks. */
  function ExpiredEvents(files: Files, now: Time): set<string> {
    set x | x in files.tasks && !Unexpired(files.tasks[x], now) :: files.tasks[x].meta.opaqueID
  }

  function FileOf(cfg: Config, x: string, envelope: Envelope<ReportRecord>): OwnedFile {
    OwnedFile(x, cfg.fileSize(envelope), envelope.meta.createdAt, envelope.meta.protected)
  }

  function KeptFiles(cfg: Config, reports: map<string, Envelope<ReportRecord>>): set<OwnedFile> {
    set x | x in reports :: FileOf(cfg, x, reports[x])
  }

  /** A possible result of sorting the kept reports by creation time; ties in any order. */
  ghost predicate SweepOrder(cfg: Config, reports: map<string, Envelope<ReportRecord>>, order: seq<OwnedFile>) {
    Enumerates(KeptFiles(cfg, reports), order) && Ordered(order, Older)
  }

  function Names(files: seq<OwnedFile>): set<string> {
    set f | f in files :: f.id
  }

  /** The reports directory after expiry and eviction. */
  function SweptReports(cfg: Config, reports: map<string, Envelope<ReportRecord>>,
                        order: seq<OwnedFile>): map<string, Envelope<ReportRecord>> {
    reports - Names(Evict(cfg.capacity, order, Bytes(order)).removed)
  }

  /** sweepOwned at time `now`, with the order the sort happened to produce. */
  function Sweep(cfg: Config, files: Files, now: Time, order: seq<OwnedFile>): Files {
    Files(Live(files.tasks, now), SweptReports(cfg, Live(files.reports, now), order), Live(files.grants, now),
          files.events - ExpiredEvents(files, now))
  }

  lemma NamedFile(cfg: Config, reports: map<string, Envelope<ReportRecord>>, f: OwnedFile)
    ensures f in KeptFiles(cfg, reports) <==> f.id in reports && f == FileOf(cfg, f.id, reports[f.id])
  {
  }

  lemma MinusNames(cfg: Config, reports: map<string, Envelope<ReportRecord>>, removed: seq<OwnedFile>)
    requires forall f :: f in removed ==> f in KeptFiles(cfg, reports)
    ensures KeptFiles(cfg, reports - Names(removed)) == KeptFiles(cfg, reports) - SetOf(removed)
  {
    var fewer := reports - Names(removed);
    forall f ensures f in KeptFiles(cfg, fewer) <==> f in KeptFiles(cfg, reports) - SetOf(removed) {
      NamedFile(cfg, fewer, f);
      NamedFile(cfg, reports, f);
      if f in KeptFiles(cfg, reports) && f.id in Names(removed) {
        var g :| g in removed && g.id == f.id;
        NamedFile(cfg, reports, g);
        assert g == f;
      }
    }
  }

  /** Evicting names is evicting files. */
  lemma SweptFiles(cfg: Config, reports: map<string, Envelope<ReportRecord>>, order: seq<OwnedFile>)
    requires SweepOrder(cfg, reports, order)
    ensures KeptFiles(cfg, SweptReports(cfg, reports, order)) == After(cfg.capacity, KeptFiles(cfg, reports), order)
  {
    EvictMembers(cfg.capacity, order, Bytes(order));
    EnumerationMembers(KeptFiles(cfg, reports), order);
    MinusNames(cfg, reports, Evict(cfg.capacity, order, Bytes(order)).removed);
  }

  lemma FileInAfter(cfg: Config, reports: map<string, Envelope<ReportRecord>>, order: seq<OwnedFile>, x: string)
    requires SweepOrder(cfg, reports, order) && x in reports
    ensures x in SweptReports(cfg, reports, order)
            <==> FileOf(cfg, x, reports[x]) in After(cfg.capacity, KeptFiles(cfg, reports), order)
  {
    SweptFiles(cfg, reports, order);
    var after := SweptReports(cfg, reports, order);
    if FileOf(cfg, x, reports[x]) in KeptFiles(cfg, after) {
      var y :| y in after && FileOf(cfg, y, after[y]) == FileOf(cfg, x, reports[x]);
      assert y == x;
    }
  }

  ghost function ReportBytes(cfg: Config, reports: map<string, Envelope<ReportRecord>>): nat {
    BytesOf(KeptFiles(cfg, reports))
  }

  // ---- Theorems ----

  ghost predicate OnlyExpiredGone<T(!new)>(before: map<string, Envelope<T>>, after: map<string, Envelope<T>>,
                                           now: Time) {
    && (forall x :: x in after <==> x in before && Unexpired(before[x], now))
    && (forall x :: x in after ==> after[x] == before[x])
  }

  ghost predicate NamedByExpiredTask(files: Files, now: Time, x: string) {
    exists y :: y in files.tasks && !Unexpired(files.tasks[y], now) && files.tasks[y].meta.opaqueID == x
  }

  /** A sweep removes every expired task, grant and report, no unexpired task or grant, and no unexpired protected
      report; what stays is unchanged. Exactly the event directories that expired tasks name go; the batch
      files of a task that lives on stay, even with an expired envelope. */
  lemma SweepRemovesExpired(cfg: Config, files: Files, now: Time, order: seq<OwnedFile>)
    requires SweepOrder(cfg, Live(files.reports, now), order)
    ensures var after := Sweep(cfg, files, now, order);
            && OnlyExpiredGone(files.tasks, after.tasks, now)
            && OnlyExpiredGone(files.grants, after.grants, now)
            && (forall x :: x in after.reports ==>
                  x in files.reports && Unexpired(files.reports[x], now) && after.reports[x] == files.reports[x])
            && (forall x ::
                  x in files.reports && Unexpired(files.reports[x], now) && files.reports[x].meta.protected ==>
                  x in after.reports)
            && (forall x :: x in after.events <==> x in files.events && !NamedByExpiredTask(files, now, x))
            && (forall x :: x in after.events ==> after.events[x] == files.events[x])
  {
    var live := Live(files.reports, now);
    EvictionTheorem(cfg.capacity, KeptFiles(cfg, live), order);
    forall x | x in live && live[x].meta.protected ensures x in SweptReports(cfg, live, order) {
      FileInAfter(cfg, live, order, x);
    }
  }

  ghost predicate FitsCapacity(cfg: Config, reports: map<string, Envelope<ReportRecord>>) {
    ReportBytes(cfg, reports) <= cfg.capacity || forall x :: x in reports ==> reports[x].meta.protected
  }

  /** Afterwards the reports fit the capacity, or only protected ones are left; what was evicted is no
      younger than any unprotected survivor; and putting back the report evicted last, the youngest of
      those evicted, would exceed the capacity. */
  lemma SweepEvictsOldestAndLittle(cfg: Config, files: Files, now: Time, order: seq<OwnedFile>)
    requires SweepOrder(cfg, Live(files.reports, now), order)
    ensures var live := Live(files.reports, now);
            var after := Sweep(cfg, files, now, order).reports;
            && FitsCapacity(cfg, after)
            && (forall a, b :: a in live && a !in after && b in after && !after[b].meta.protected ==>
                  live[a].meta.createdAt <= after[b].meta.createdAt)
            && (after != live ==> LastEvictionNeeded(cfg, live, after, order))
  {
    var live := Live(files.reports, now);
    WhatIsLeftFits(cfg, live, order);
    EvictedAreOldest(cfg, live, order);
    if SweptReports(cfg, live, order) != live {
      SomethingWent(cfg, live, order);
    }
  }

  lemma WhatIsLeftFits(cfg: Config, live: map<string, Envelope<ReportRecord>>, order: seq<OwnedFile>)
    requires SweepOrder(cfg, live, order)
    ensures FitsCapacity(cfg, SweptReports(cfg, live, order))
  {
    var after := SweptReports(cfg, live, order);
    EvictionTheorem(cfg.capacity, KeptFiles(cfg, live), order);
    SweptFiles(cfg, live, order);
    forall x | x in after ensures FileOf(cfg, x, after[x]) in After(cfg.capacity, KeptFiles(cfg, live), order) {
      FileInAfter(cfg, live, order, x);
    }
  }

  lemma EvictedAreOldest(cfg: Config, live: map<string, Envelope<ReportRecord>>, order: seq<OwnedFile>)
    requires SweepOrder(cfg, live, order)
    ensures var after := SweptReports(cfg, live, order);
            forall a, b :: a in live && a !in after && b in after && !after[b].meta.protected ==>
                             live[a].meta.createdAt <= after[b].meta.createdAt
  {
    var after := SweptReports(cfg, live, order);
    forall a, b | a in live && a !in after && b in after && !after[b].meta.protected
      ensures live[a].meta.createdAt <= after[b].meta.createdAt
    {
      EvictedIsOlder(cfg, live, order, a, b);
    }
  }

  lemma EvictedIsOlder(cfg: Config, live: map<string, Envelope<ReportRecord>>, order: seq<OwnedFile>, a: string,
                       b: string)
    requires SweepOrder(cfg, live, order) && a in live && b in live && !live[b].meta.protected
    requires a !in SweptReports(cfg, live, order) && b in SweptReports(cfg, live, order)
    ensures live[a].meta.createdAt <= live[b].meta.createdAt
  {
    EvictionTheorem(cfg.capacity, KeptFiles(cfg, live), order);
    FileInAfter(cfg, live, order, a);
    FileInAfter(cfg, live, order, b);
    assert FileOf(cfg, a, live[a]) in KeptFiles(cfg, live);
    assert Older(FileOf(cfg, a, live[a]), FileOf(cfg, b, live[b]));
  }

  /** With the report that the loop removed last put back, the capacity would be exceeded; it is the
      youngest of the removed ones. */
  ghost predicate LastEvictionNeeded(cfg: Config, live: map<string, Envelope<ReportRecord>>,
                                     after: map<string, Envelope<ReportRecord>>, order: seq<OwnedFile>) {
    Evict(cfg.capacity, order, Bytes(order)).removed != [] &&
    var last := LastRemoved(cfg.capacity, order).id;
    && last in live && last !in after
    && ReportBytes(cfg, after) + cfg.fileSize(live[last]) > cfg.capacity
    && forall a :: a in live && a !in after ==> live[a].meta.createdAt <= live[last].meta.createdAt
  }

  lemma SomethingWent(cfg: Config, live: map<string, Envelope<ReportRecord>>, order: seq<OwnedFile>)
    requires SweepOrder(cfg, live, order) && SweptReports(cfg, live, order) != live
    ensures LastEvictionNeeded(cfg, live, SweptReports(cfg, live, order), order)
  {
    var kept := KeptFiles(cfg, live);
    var after := SweptReports(cfg, live, order);
    SweptFiles(cfg, live, order);
    EvictionTheorem(cfg.capacity, kept, order);
    assert After(cfg.capacity, kept, order) != kept by {
      var gone :| gone in live && gone !in after;
      FileInAfter(cfg, live, order, gone);
      assert FileOf(cfg, gone, live[gone]) in kept;
    }
    var last := LastRemoved(cfg.capacity, order);
    NamedFile(cfg, live, last);
    FileInAfter(cfg, live, order, last.id);
    forall a | a in live && a !in after ensures live[a].meta.createdAt <= live[last.id].meta.createdAt {
      FileInAfter(cfg, live, order, a);
      assert FileOf(cfg, a, live[a]) in kept;
    }
  }

  lemma FittingReportsStay(cfg: Config, reports: map<string, Envelope<ReportRecord>>, again: seq<OwnedFile>)
    requires SweepOrder(cfg, reports, again) && FitsCapacity(cfg, reports)
    ensures SweptReports(cfg, reports, again) == reports
  {
    forall f | f in KeptFiles(cfg, reports) ensures f.id in reports && f.protected == reports[f.id].meta.protected {
      NamedFile(cfg, reports, f);
    }
    FittingDirectoryUntouched(cfg.capacity, KeptFiles(cfg, reports), again);
    forall x | x in reports ensures x in SweptReports(cfg, reports, again) {
      assert FileOf(cfg, x, reports[x]) in KeptFiles(cfg, reports);
      FileInAfter(cfg, reports, again, x);
    }
  }

  /** A second sweep at the same time removes nothing, whatever order its sort produces. */
  lemma SweepIdempotent(cfg: Config, files: Files, now: Time, order: seq<OwnedFile>, again: seq<OwnedFile>)
    requires SweepOrder(cfg, Live(files.reports, now), order)
    requires SweepOrder(cfg, Live(Sweep(cfg, files, now, order).reports, now), again)
    ensures Sweep(cfg, Sweep(cfg, files, now, order), now, again) == Sweep(cfg, files, now, order)
  {
    var after := Sweep(cfg, files, now, order);
    WhatIsLeftFits(cfg, Live(files.reports, now), order);
    LiveIsLive(files.tasks, now);
    LiveIsLive(files.grants, now);
    assert Live(after.reports, now) == after.reports;
    NothingExpiredLeft(after, now);
    FittingReportsStay(cfg, after.reports, again);
  }

  lemma LiveIsLive<T>(records: map<string, Envelope<T>>, now: Time)
    ensures Live(Live(records, now), now) == Live(records, now)
  {
  }

  lemma NothingExpiredLeft(files: Files, now: Time)
    requires Live(files.tasks, now) == files.tasks
    ensures files.events - ExpiredEvents(files, now) == files.events
  {
    forall x | x in files.tasks ensures Unexpired(files.tasks[x], now) {
      assert x in Live(files.tasks, now);
    }
    assert ExpiredEvents(files, now) == {};
  }
}
