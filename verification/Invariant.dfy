/** What every step of every interleaving keeps. */
module Invariant {
  import opened Text
  import opened Contract
  import opened Crypto
  import opened Capability
  import opened Disk
  import opened Retention
  import opened Verification
  import opened Protocol

  // ---- Phases of an ID ----

  /** An ID has at most one of task, grant and report; event batches exist only beside a task. */
  ghost predicate Phases(s: System) {
    && (forall x :: x in s.files.tasks ==> x in s.used && x !in s.files.reports && x !in s.files.grants)
    && (forall x :: x in s.files.reports ==> x in s.used && x !in s.files.grants)
    && (forall x :: x in s.files.grants ==> x in s.used)
    && (forall x :: x in s.files.events ==> x in s.files.tasks)
  }

  // ---- Tasks, signatures and batches ----

  ghost predicate GrantName(g: string) { '.' !in g && g != "" }

  ghost predicate TaskOK(x: string, e: Envelope<TaskRecord>) {
    && e.meta.formatVersion == FORMAT_VERSION && e.meta.recordKind == TASK && e.meta.opaqueID == x && x != ""
    && e.meta.revision == 0 && e.sealed.bound == e.meta && e.meta.createdAt != ZERO_TIME
    && e.sealed.plain.active && e.sealed.plain.createdAt == e.meta.createdAt
    && forall g :: g in e.sealed.plain.executorGrants ==> GrantName(g)
  }

  ghost predicate Tasks(s: System) {
    forall x :: x in s.files.tasks ==> TaskOK(x, s.files.tasks[x])
  }

  /** An issued signature names a grant that the live task records, with the same append key. */
  ghost predicate SignatureOK(s: System, sig: Signature) {
    var x := sig.claims.opaqueID;
    && x in s.used
    && (x in s.files.tasks && s.files.tasks[x].meta.publicKey == sig.publicKey ==>
          var grants := s.files.tasks[x].sealed.plain.executorGrants;
          sig.claims.grantID in grants && grants[sig.claims.grantID].appendKey == sig.claims.appendKey)
  }

  ghost predicate Issued(s: System) {
    forall sig :: sig in s.issued ==> SignatureOK(s, sig)
  }

  /** A batch file belongs to grant `g`: its name says so, and it opens under that grant's key. */
  ghost predicate BatchOf(x: string, task: Envelope<TaskRecord>, g: string, name: string, e: Envelope<Batch>) {
    var grants := task.sealed.plain.executorGrants;
    && g in grants && NamesGrant(name, g) && Ext(name) == ".are"
    && OpenBatch(task.meta.publicKey, x, g, grants[g], e) == Some(e.sealed.plain.events)
  }

  ghost predicate BatchKnown(x: string, task: Envelope<TaskRecord>, name: string, e: Envelope<Batch>) {
    exists g :: BatchOf(x, task, g, name, e)
  }

  ghost predicate DirectoryOK(x: string, task: Envelope<TaskRecord>, directory: map<string, Envelope<Batch>>) {
    forall name :: name in directory ==> BatchKnown(x, task, name, directory[name])
  }

  ghost predicate BatchFiles(s: System) {
    forall x :: x in s.files.events && x in s.files.tasks ==> DirectoryOK(x, s.files.tasks[x], s.files.events[x])
  }

  // ---- Reports ----

  /** Revisions are numbered 1..n, each names the digest before it, carries its own digest, and keeps
      the original candidates. */
  ghost predicate LinkOK(cfg: Config, record: ReportRecord, i: nat)
    requires i < |record.revisions|
  {
    var r := record.revisions[i];
    && r.revision == i + 1
    && r.previousDigest == (if i == 0 then record.originalDigest else record.revisions[i - 1].digest)
    && r.digest == cfg.revisionDigest(r.(digest := ""))
    && SameCandidates(record.report.candidates, r.candidates)
  }

  ghost predicate ChainOK(cfg: Config, record: ReportRecord) {
    forall i :: 0 <= i < |record.revisions| ==> LinkOK(cfg, record, i)
  }

  ghost predicate ReportOK(cfg: Config, x: string, e: Envelope<ReportRecord>) {
    var record := e.sealed.plain;
    && e.meta.formatVersion == FORMAT_VERSION && e.meta.recordKind == REPORT && e.meta.opaqueID == x && x != ""
    && e.sealed.bound == e.meta && e.meta.createdAt != ZERO_TIME && e.meta.expiresAt != ZERO_TIME
    && e.meta.revision == |record.revisions|
    && e.meta.protected == record.retained
    && e.meta.createdAt == record.completedAt
    && record.originalDigest == cfg.reportDigest(record.report)
    && ChainOK(cfg, record)
  }

  ghost predicate Reports(cfg: Config, s: System) {
    forall x :: x in s.files.reports ==> ReportOK(cfg, x, s.files.reports[x])
  }

  // ---- Grants ----

  ghost predicate GrantOK(x: string, e: Envelope<RetrospectiveGrant>) {
    && e.meta.formatVersion == FORMAT_VERSION && e.meta.recordKind == GRANT && e.meta.opaqueID == x && x != ""
    && e.meta.revision == 0 && e.sealed.bound == e.meta
  }

  ghost predicate Grants(s: System) {
    forall x :: x in s.files.grants ==> GrantOK(x, s.files.grants[x])
  }

  ghost predicate FilesOK(cfg: Config, s: System) {
    Phases(s) && Tasks(s) && Issued(s) && BatchFiles(s) && Reports(cfg, s) && Grants(s)
  }

  // ---- How reports evolve ----

  /** `b` is the same completed report as `a`, with revisions appended and perhaps retained since. */
  ghost predicate Grown(a: ReportRecord, b: ReportRecord) {
    && a.report == b.report && a.originalDigest == b.originalDigest && a.completedAt == b.completedAt
    && a.exactTargets == b.exactTargets && a.aliases == b.aliases
    && a.revisions <= b.revisions && (a.retained ==> b.retained)
  }

  ghost predicate SameReport(a: Envelope<ReportRecord>, b: Envelope<ReportRecord>) {
    && Grown(a.sealed.plain, b.sealed.plain)
    && a.meta.createdAt == b.meta.createdAt && a.meta.publicKey == b.meta.publicKey && a.sealed.key == b.sealed.key
    && a.meta.expiresAt <= b.meta.expiresAt
  }

  ghost predicate Finished(s: System, x: string) {
    x in s.used && x !in s.files.tasks && x !in s.files.grants
  }

  ghost predicate Gone(s: System, x: string) {
    Finished(s, x) && x !in s.files.reports
  }

  /** A finished ID never gets a task or a grant again, a deleted one never a report, and a report that
      stays is the same report, grown. */
  ghost predicate Evolves(s: System, t: System) {
    && s.used <= t.used
    && (forall x :: Finished(s, x) ==> Finished(t, x))
    && (forall x :: Gone(s, x) ==> Gone(t, x))
    && (forall x :: x in s.files.reports && x in t.files.reports ==> SameReport(s.files.reports[x], t.files.reports[x]))
  }

  lemma EvolvesTransitive(s: System, t: System, u: System)
    requires Phases(s) && Evolves(s, t) && Evolves(t, u)
    ensures Evolves(s, u)
  {
    forall x | x in s.files.reports && x in u.files.reports ensures SameReport(s.files.reports[x], u.files.reports[x]) {
      assert Finished(s, x) && Finished(t, x);
      assert x in t.files.reports by {
        if x !in t.files.reports {
          assert Gone(t, x);
        }
      }
    }
  }

  // ---- Calls under way ----

  /** What a Verify call has read is an earlier form of the stored report, if that is still there. */
  ghost predicate PendingOK(cfg: Config, s: System, p: PendingVerify) {
    ParseOwner(p.handle).Some? &&
    var x := ParseOwner(p.handle).value.opaqueID;
    && Finished(s, x)
    && ChainOK(cfg, p.record)
    && (x in s.files.reports ==> Grown(p.record, s.files.reports[x].sealed.plain))
  }

  ghost predicate Pending(cfg: Config, s: System) {
    forall agent :: agent in s.verifying ==> PendingOK(cfg, s, s.verifying[agent])
  }

  ghost predicate Inv(cfg: Config, s: System) {
    FilesOK(cfg, s) && Pending(cfg, s)
  }

  lemma PendingStable(cfg: Config, s: System, t: System, p: PendingVerify)
    requires Phases(s) && Evolves(s, t) && PendingOK(cfg, s, p)
    ensures PendingOK(cfg, t, p)
  {
    var x := ParseOwner(p.handle).value.opaqueID;
    assert x !in s.files.reports ==> Gone(s, x);
  }

  // ---- Kinds of change to the files ----

  /** Nothing but calls under way and freshly drawn IDs changed. */
  lemma FilesUnchanged(cfg: Config, s: System, t: System)
    requires FilesOK(cfg, s) && t.files == s.files && t.issued == s.issued && s.used <= t.used
    ensures FilesOK(cfg, t) && Evolves(s, t)
  {
    assert forall sig :: sig in s.issued ==> SignatureOK(s, sig);
  }

  lemma TaskAdded(cfg: Config, s: System, t: System, x: string, e: Envelope<TaskRecord>)
    requires FilesOK(cfg, s) && x !in s.used && TaskOK(x, e)
    requires t.files == s.files.(tasks := s.files.tasks[x := e]) && t.used == s.used + {x} && t.issued == s.issued
    ensures FilesOK(cfg, t) && Evolves(s, t)
  {
    forall sig | sig in t.issued ensures SignatureOK(t, sig) {
      assert SignatureOK(s, sig);
    }
  }

  lemma GrantAdded(cfg: Config, s: System, t: System, x: string, e: Envelope<RetrospectiveGrant>)
    requires FilesOK(cfg, s) && x !in s.used && GrantOK(x, e)
    requires t.files == s.files.(grants := s.files.grants[x := e]) && t.used == s.used + {x} && t.issued == s.issued
    ensures FilesOK(cfg, t) && Evolves(s, t)
  {
    forall sig | sig in t.issued ensures SignatureOK(t, sig) {
      assert SignatureOK(s, sig);
    }
  }

  /** Grants are kept with their keys. */
  ghost predicate GrantsKept(a: map<string, ExecutorGrant>, b: map<string, ExecutorGrant>) {
    forall g :: g in a ==> g in b && b[g] == a[g]
  }

  lemma TaskRewritten(cfg: Config, s: System, t: System, x: string, e: Envelope<TaskRecord>)
    requires FilesOK(cfg, s) && x in s.files.tasks && TaskOK(x, e)
    requires e.meta.publicKey == s.files.tasks[x].meta.publicKey
    requires GrantsKept(s.files.tasks[x].sealed.plain.executorGrants, e.sealed.plain.executorGrants)
    requires t.files == s.files.(tasks := s.files.tasks[x := e]) && t.used == s.used
    requires s.issued <= t.issued && forall sig :: sig in t.issued && sig !in s.issued ==> SignatureOK(t, sig)
    ensures FilesOK(cfg, t) && Evolves(s, t)
  {
    RewrittenTaskSignatures(s, t, x, e);
    if x in s.files.events {
      RewrittenDirectory(x, s.files.tasks[x], e, s.files.events[x]);
    }
  }

  lemma RewrittenTaskSignatures(s: System, t: System, x: string, e: Envelope<TaskRecord>)
    requires Issued(s) && x in s.files.tasks && t.files.tasks == s.files.tasks[x := e] && t.used == s.used
    requires e.meta.publicKey == s.files.tasks[x].meta.publicKey
    requires GrantsKept(s.files.tasks[x].sealed.plain.executorGrants, e.sealed.plain.executorGrants)
    requires s.issued <= t.issued && forall sig :: sig in t.issued && sig !in s.issued ==> SignatureOK(t, sig)
    ensures Issued(t)
  {
    forall sig | sig in t.issued ensures SignatureOK(t, sig) {
      assert sig in s.issued ==> SignatureOK(s, sig);
    }
  }

  lemma RewrittenDirectory(x: string, a: Envelope<TaskRecord>, b: Envelope<TaskRecord>,
                           directory: map<string, Envelope<Batch>>)
    requires DirectoryOK(x, a, directory) && a.meta.publicKey == b.meta.publicKey
    requires GrantsKept(a.sealed.plain.executorGrants, b.sealed.plain.executorGrants)
    ensures DirectoryOK(x, b, directory)
  {
    forall name | name in directory ensures BatchKnown(x, b, name, directory[name]) {
      var g :| BatchOf(x, a, g, name, directory[name]);
      assert BatchOf(x, b, g, name, directory[name]);
    }
  }

  lemma BatchAdded(cfg: Config, s: System, t: System, x: string, name: string, e: Envelope<Batch>)
    requires FilesOK(cfg, s) && x in s.files.tasks && BatchKnown(x, s.files.tasks[x], name, e)
    requires t.files == s.files.(events := s.files.events[x := Batches(s.files, x)[name := e]])
    requires t.used == s.used && t.issued == s.issued
    ensures FilesOK(cfg, t) && Evolves(s, t)
  {
    assert forall sig :: sig in s.issued ==> SignatureOK(s, sig);
    assert DirectoryOK(x, t.files.tasks[x], t.files.events[x]);
  }

  ghost predicate Fewer<T(!new)>(a: map<string, T>, b: map<string, T>) {
    forall x :: x in b ==> x in a && b[x] == a[x]
  }

  /** With fewer tasks and fewer event directories, tasks, signatures and batches are still in order. */
  lemma TaskSideFewer(s: System, t: System)
    requires Tasks(s) && Issued(s) && BatchFiles(s) && t.used == s.used && t.issued == s.issued
    requires Fewer(s.files.tasks, t.files.tasks) && Fewer(s.files.events, t.files.events)
    ensures Tasks(t) && Issued(t) && BatchFiles(t)
  {
    forall sig | sig in t.issued ensures SignatureOK(t, sig) {
      assert SignatureOK(s, sig);
    }
  }

  /** A task or grant turned into a report. */
  lemma Completed(cfg: Config, s: System, t: System, x: string, e: Envelope<ReportRecord>)
    requires FilesOK(cfg, s) && (x in s.files.tasks || x in s.files.grants) && ReportOK(cfg, x, e)
    requires t.files == Files(s.files.tasks - {x}, s.files.reports[x := e], s.files.grants - {x}, s.files.events - {x})
    requires t.used == s.used && t.issued == s.issued
    ensures FilesOK(cfg, t) && Evolves(s, t)
  {
    TaskSideFewer(s, t);
    CompletedEvolves(s, t, x, e);
    ReportPut(cfg, s, t, x, e);
  }

  lemma CompletedEvolves(s: System, t: System, x: string, e: Envelope<ReportRecord>)
    requires Phases(s) && (x in s.files.tasks || x in s.files.grants)
    requires t.files == Files(s.files.tasks - {x}, s.files.reports[x := e], s.files.grants - {x}, s.files.events - {x})
    requires t.used == s.used
    ensures Phases(t) && Evolves(s, t)
  {
    assert x !in s.files.reports;
  }

  lemma ReportPut(cfg: Config, s: System, t: System, x: string, e: Envelope<ReportRecord>)
    requires Reports(cfg, s) && ReportOK(cfg, x, e) && t.files.reports == s.files.reports[x := e]
    ensures Reports(cfg, t)
  {
  }

  lemma ReportRewritten(cfg: Config, s: System, t: System, x: string, e: Envelope<ReportRecord>)
    requires FilesOK(cfg, s) && x in s.files.reports && ReportOK(cfg, x, e) && SameReport(s.files.reports[x], e)
    requires t.files == s.files.(reports := s.files.reports[x := e]) && t.used == s.used && t.issued == s.issued
    ensures FilesOK(cfg, t) && Evolves(s, t)
  {
    TaskSideFewer(s, t);
    ReportPut(cfg, s, t, x, e);
    RewrittenEvolves(s, t, x, e);
  }

  lemma RewrittenEvolves(s: System, t: System, x: string, e: Envelope<ReportRecord>)
    requires Phases(s) && x in s.files.reports && SameReport(s.files.reports[x], e)
    requires t.files == s.files.(reports := s.files.reports[x := e]) && t.used == s.used
    ensures Phases(t) && Evolves(s, t)
  {
  }

  /** Records were removed, and event directories with their tasks. */
  lemma Removed(cfg: Config, s: System, t: System)
    requires FilesOK(cfg, s) && t.used == s.used && t.issued == s.issued
    requires Fewer(s.files.tasks, t.files.tasks) && Fewer(s.files.reports, t.files.reports)
    requires Fewer(s.files.grants, t.files.grants) && Fewer(s.files.events, t.files.events)
    requires forall x :: x in t.files.events ==> x in t.files.tasks
    ensures FilesOK(cfg, t) && Evolves(s, t)
  {
    TaskSideFewer(s, t);
    RemovedEvolves(s, t);
  }

  lemma RemovedEvolves(s: System, t: System)
    requires Phases(s) && t.used == s.used
    requires Fewer(s.files.tasks, t.files.tasks) && Fewer(s.files.reports, t.files.reports)
    requires Fewer(s.files.grants, t.files.grants)
    requires forall x :: x in t.files.events ==> x in t.files.tasks
    ensures Phases(t) && Evolves(s, t)
  {
  }
}
