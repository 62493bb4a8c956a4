/** internal/store/owned.go as functions of the stored files: one function per locked store method,
    from the files before to the files after and the method's result. */
module Disk {
  import opened Text
  import opened Contract
  import opened Crypto
  import opened Capability
  import opened Sorting
  import Base64Url
  import PathAlias

  datatype ExecutorGrant = ExecutorGrant(appendKey: Key, expiresAt: Time, allowedTypes: seq<string>,
                                         allowedRoots: seq<string>)

  /** What Begin captures and every later step carries along unchanged. */
  datatype TaskContext = TaskContext(rootPaths: seq<string>, aliases: PathAlias.Table, observationMode: ObservationMode)

  datatype TaskRecord = TaskRecord(
    taskID: string,
    active: bool,
    createdAt: Time,
    heartbeatAt: Time,
    context: TaskContext,
    events: seq<Summary>,
    executorGrants: map<string, ExecutorGrant>)

  datatype Batch = Batch(grantID: string, events: seq<Summary>)

  datatype OwnedEvidence = OwnedEvidence(exactTargets: map<string, string>, aliases: PathAlias.Table)

  datatype ReportRecord = ReportRecord(
    report: Report,
    completedAt: Time,
    retained: bool,
    originalDigest: string,
    exactTargets: map<string, string>,
    aliases: PathAlias.Table,
    revisions: seq<Revision>)

  datatype RetrospectiveGrant = RetrospectiveGrant(taskID: string, startedAt: Time, endedAt: Time, createdAt: Time,
                                                   expiresAt: Time)

  /** Store configuration; digests, key derivation and file sizes are arbitrary functions. */
  datatype Config = Config(
    capacity: int,
    retention: int,
    interruption: int,
    reportDigest: Report -> string,
    revisionDigest: Revision -> string,
    publicKeyOf: Key -> string,
    fileSize: Envelope<ReportRecord> -> nat)

  predicate ValidConfig(cfg: Config) {
    cfg.capacity > 0 && cfg.retention > 0 && cfg.interruption > 0
  }

  /** The directories of the store, by opaque ID; event batches by opaque ID and file name. */
  datatype Files = Files(
    tasks: map<string, Envelope<TaskRecord>>,
    reports: map<string, Envelope<ReportRecord>>,
    grants: map<string, Envelope<RetrospectiveGrant>>,
    events: map<string, map<string, Envelope<Batch>>>)

  datatype StoreError = AccessDenied | AlreadyExists | ChainMismatch | WriteFailed

  datatype Outcome<T> = Outcome(files: Files, result: Result<T, StoreError>)

  const EMPTY := Files(map[], map[], map[], map[])

  const TASK := "task"
  const REPORT := "report"
  const GRANT := "retrospective-grant"
  const BATCH := "executor-events"

  function OwnerPublicKey(cfg: Config, owner: Owner): string {
    cfg.publicKeyOf(owner.signingSeed)
  }

  /** writeOwned and writeOwnedProtected, up to the file write. */
  function SealOwned<T>(cfg: Config, kind: string, owner: Owner, revision: int, createdAt: Time, expiresAt: Time,
                        protected: bool, value: T): Option<Envelope<T>> {
    SealRecord(kind, owner.opaqueID, revision, createdAt, expiresAt, OwnerPublicKey(cfg, owner), protected,
               owner.recordKey, value)
  }

  // ---- Tasks ----

  function WriteTask(cfg: Config, files: Files, owner: Owner, createdAt: Time, expiresAt: Time,
                     record: TaskRecord): Option<Files> {
    match SealOwned(cfg, TASK, owner, 0, createdAt, expiresAt, false, record)
    case None => None
    case Some(envelope) => Some(files.(tasks := files.tasks[owner.opaqueID := envelope]))
  }

  /** CreateOwnedTaskWithMetadata. */
  function CreateTask(cfg: Config, files: Files, handle: Handle, taskID: string, context: TaskContext,
                      now: Time): Outcome<()> {
    match ParseOwner(handle)
    case None => Outcome(files, Err(AccessDenied))
    case Some(owner) =>
      if owner.opaqueID in files.tasks then Outcome(files, Err(AlreadyExists))
      else
        match WriteTask(cfg, files, owner, now, now + cfg.interruption,
                        TaskRecord(taskID, true, now, now, context, [], map[]))
        case None => Outcome(files, Err(WriteFailed))
        case Some(written) => Outcome(written, Ok(()))
  }

  /** loadOwnedTaskUnlocked. */
  function LoadTask(cfg: Config, files: Files, owner: Owner, now: Time): Result<TaskRecord, StoreError> {
    if owner.opaqueID !in files.tasks then Err(AccessDenied)
    else
      var envelope := files.tasks[owner.opaqueID];
      if envelope.meta.recordKind != TASK || envelope.meta.opaqueID != owner.opaqueID
         || !(now < envelope.meta.expiresAt)
         || envelope.meta.publicKey != OwnerPublicKey(cfg, owner) then Err(AccessDenied)
      else
        match OpenRecord(envelope, owner.recordKey)
        case None => Err(AccessDenied)
        case Some(record) => if record.active then Ok(record) else Err(AccessDenied)
  }

  /** AppendOwnedEvents. */
  function AppendEvents(cfg: Config, files: Files, handle: Handle, summaries: seq<Summary>, now: Time): Outcome<()> {
    match ParseOwner(handle)
    case None => Outcome(files, Err(AccessDenied))
    case Some(owner) =>
      match LoadTask(cfg, files, owner, now)
      case Err(error) => Outcome(files, Err(AccessDenied))
      case Ok(record) =>
        match WriteTask(cfg, files, owner, record.createdAt, now + cfg.interruption,
                        record.(events := record.events + summaries, heartbeatAt := now))
        case None => Outcome(files, Err(WriteFailed))
        case Some(written) => Outcome(written, Ok(()))
  }

  /** DelegateOwnedExecutor; the random grant ID and append key are arguments. */
  ghost function Delegate(cfg: Config, files: Files, handle: Handle, expiresAt: Time, allowedTypes: seq<string>,
                          allowedRoots: seq<string>, grantBytes: seq<Base64Url.Byte>,
                          appendKey: Key, now: Time): Outcome<Executor> {
    match ParseOwner(handle)
    case None => Outcome(files, Err(AccessDenied))
    case Some(owner) =>
      match LoadTask(cfg, files, owner, now)
      case Err(error) => Outcome(files, Err(AccessDenied))
      case Ok(record) =>
        var grantID := Base64Url.Encode(grantBytes);
        var claims := Claims(owner.opaqueID, grantID, appendKey, WholeSeconds(expiresAt), SortedUnique(allowedTypes),
                             SortedUnique(allowedRoots));
        var grants := record.executorGrants[grantID := GrantOf(claims)];
        match WriteTask(cfg, files, owner, record.createdAt, now + cfg.interruption, record.(executorGrants := grants))
        case None => Outcome(files, Err(WriteFailed))
        case Some(written) => Outcome(written, Ok(Executor(claims, Signature(OwnerPublicKey(cfg, owner), claims))))
  }

  function GrantOf(claims: Claims): ExecutorGrant {
    ExecutorGrant(claims.appendKey, claims.expiresUnix, claims.allowedTypes, claims.allowedRoots)
  }

  function TypesOf(summaries: seq<Summary>): seq<EventType> {
    MapSeq((s: Summary) => s.eventType, summaries)
  }

  function BatchName(grantID: string, random: seq<Base64Url.Byte>): string {
    grantID + "." + Base64Url.Encode(random) + ".are"
  }

  function Batches(files: Files, opaqueID: string): map<string, Envelope<Batch>> {
    if opaqueID in files.events then files.events[opaqueID] else map[]
  }

  /** AppendOwnedExecutorEvents; the random part of the file name is an argument. */
  function AppendExecutorEvents(cfg: Config, files: Files, handle: Handle, summaries: seq<Summary>,
                                random: seq<Base64Url.Byte>, now: Time): Outcome<()> {
    match ParseExecutor(handle, now)
    case None => Outcome(files, Err(AccessDenied))
    case Some(executor) =>
      var claims := executor.claims;
      if !ExecutorAllows(claims.allowedTypes, TypesOf(summaries)) || claims.opaqueID !in files.tasks
      then Outcome(files, Err(AccessDenied))
      else
        var task := files.tasks[claims.opaqueID].meta;
        if task.recordKind != TASK || !(now < task.expiresAt) || !VerifySignature(executor, task.publicKey) then
          Outcome(files, Err(AccessDenied))
        else
          var expires := if task.expiresAt < claims.expiresUnix then task.expiresAt else claims.expiresUnix;
          match SealRecord(BATCH, claims.opaqueID + "." + claims.grantID, 0, now, expires, task.publicKey, false,
                           claims.appendKey, Batch(claims.grantID, summaries))
          case None => Outcome(files, Err(WriteFailed))
          case Some(envelope) =>
            var directory := Batches(files, claims.opaqueID)[BatchName(claims.grantID, random) := envelope];
            Outcome(files.(events := files.events[claims.opaqueID := directory]), Ok(()))
  }

  // ---- Merging executor batches ----

  /** filepath.Ext: from the last dot of the name. */
  function Ext(name: string): string {
    if name == "" then ""
    else if name[|name| - 1] == '.' then "."
    else
      var before := Ext(name[..|name| - 1]);
      if before == "" then "" else before + [name[|name| - 1]]
  }

  predicate NamesGrant(name: string, grantID: string) {
    grantID + "." <= name
  }

  /** The grant a file belongs to, if any: the code takes the first match in map order. */
  ghost function GrantFor(grants: map<string, ExecutorGrant>, name: string): Option<string> {
    if g :| g in grants && NamesGrant(name, g) then Some(g) else None
  }

  function OpenBatch(publicKey: string, opaqueID: string, grantID: string, grant: ExecutorGrant,
                     envelope: Envelope<Batch>): Option<seq<Summary>> {
    if envelope.meta.recordKind != BATCH || envelope.meta.opaqueID != opaqueID + "." + grantID
       || envelope.meta.publicKey != publicKey then None
    else
      match OpenRecord(envelope, grant.appendKey)
      case None => None
      case Some(batch) => if batch.grantID != grantID then None else Some(batch.events)
  }

  /** The loop of mergeExecutorEvents over directory entries, in name order. */
  ghost function MergeFiles(publicKey: string, opaqueID: string, grants: map<string, ExecutorGrant>,
                            directory: map<string, Envelope<Batch>>, names: seq<string>): Option<seq<Summary>>
    requires forall name :: name in names ==> name in directory
  {
    if names == [] then Some([])
    else
      var n := |names| - 1;
      match MergeFiles(publicKey, opaqueID, grants, directory, names[..n])
      case None => None
      case Some(events) =>
        if Ext(names[n]) != ".are" then Some(events)
        else
          match GrantFor(grants, names[n])
          case None => None
          case Some(g) =>
            if g == "" then None
            else
              match OpenBatch(publicKey, opaqueID, g, grants[g], directory[names[n]])
              case None => None
              case Some(more) => Some(events + more)
  }

  /** mergeExecutorEvents. */
  ghost function MergeEvents(cfg: Config, files: Files, owner: Owner,
                             record: TaskRecord): Result<TaskRecord, StoreError> {
    var directory := Batches(files, owner.opaqueID);
    ListingMembers(directory.Keys, Listing(directory.Keys));
    match MergeFiles(OwnerPublicKey(cfg, owner), owner.opaqueID, record.executorGrants, directory,
                     Listing(directory.Keys))
    case None => Err(AccessDenied)
    case Some(events) => Ok(record.(events := record.events + events))
  }

  /** LoadOwnedTaskForEnd. */
  ghost function LoadTaskForEnd(cfg: Config, files: Files, handle: Handle, now: Time): Result<TaskRecord, StoreError> {
    match ParseOwner(handle)
    case None => Err(AccessDenied)
    case Some(owner) =>
      match LoadTask(cfg, files, owner, now)
      case Err(error) => Err(error)
      case Ok(record) => MergeEvents(cfg, files, owner, record)
  }

  // ---- Reports ----

  function WriteReport(cfg: Config, files: Files, owner: Owner, revision: int, createdAt: Time, expiresAt: Time,
                       protected: bool, record: ReportRecord): Option<Files> {
    match SealOwned(cfg, REPORT, owner, revision, createdAt, expiresAt, protected, record)
    case None => None
    case Some(envelope) => Some(files.(reports := files.reports[owner.opaqueID := envelope]))
  }

  function FirstRecord(cfg: Config, report: Report, evidence: OwnedEvidence, now: Time): ReportRecord {
    ReportRecord(report, now, false, cfg.reportDigest(report), evidence.exactTargets, evidence.aliases, [])
  }

  /** CompleteOwnedTask after it has loaded and merged the task. */
  function Complete(cfg: Config, files: Files, handle: Handle, loaded: Result<TaskRecord, StoreError>, report: Report,
                    evidence: OwnedEvidence, now: Time): Outcome<()> {
    match ParseOwner(handle)
    case None => Outcome(files, Err(AccessDenied))
    case Some(owner) =>
      if loaded.Err? || report.taskID != loaded.value.taskID || !ValidReport(report)
      then Outcome(files, Err(AccessDenied))
      else
        match WriteReport(cfg, files, owner, 0, now, now + cfg.retention, false,
                          FirstRecord(cfg, report, evidence, now))
        case None => Outcome(files, Err(WriteFailed))
        case Some(written) =>
          Outcome(written.(tasks := written.tasks - {owner.opaqueID}, events := written.events - {owner.opaqueID}),
                  Ok(()))
  }

  /** CompleteOwnedTask. */
  ghost function CompleteTask(cfg: Config, files: Files, handle: Handle, report: Report, evidence: OwnedEvidence,
                              now: Time): Outcome<()> {
    Complete(cfg, files, handle, LoadTaskForEnd(cfg, files, handle, now), report, evidence, now)
  }

  /** The checks shared by AppendOwnedRevision, RetainOwnedReport and ForgetOwnedReport: no expiry test. */
  function OpenReport(cfg: Config, files: Files, handle: Handle): Option<ReportRecord> {
    match ParseOwner(handle)
    case None => None
    case Some(owner) =>
      if owner.opaqueID !in files.reports then None
      else
        var envelope := files.reports[owner.opaqueID];
        if envelope.meta.recordKind != REPORT || envelope.meta.publicKey != OwnerPublicKey(cfg, owner) then None
        else OpenRecord(envelope, owner.recordKey)
  }

  /** The digest that the next revision has to name as its predecessor. */
  function LastDigest(record: ReportRecord): string {
    if record.revisions == [] then record.originalDigest else record.revisions[|record.revisions| - 1].digest
  }

  /** AppendOwnedRevision. */
  function AppendRevision(cfg: Config, files: Files, handle: Handle, revision: Revision): Outcome<()> {
    match OpenReport(cfg, files, handle)
    case None => Outcome(files, Err(AccessDenied))
    case Some(record) =>
      if revision.revision != |record.revisions| + 1 || revision.createdAt == ZERO_TIME
         || revision.previousDigest != LastDigest(record) || revision.digest == ""
      then Outcome(files, Err(ChainMismatch))
      else
        var owner := ParseOwner(handle).value;
        var meta := files.reports[owner.opaqueID].meta;
        match WriteReport(cfg, files, owner, meta.revision + 1, meta.createdAt, meta.expiresAt, meta.protected,
                          record.(revisions := record.revisions + [revision]))
        case None => Outcome(files, Err(WriteFailed))
        case Some(written) => Outcome(written, Ok(()))
  }

  /** GetOwnedReport. */
  function GetReport(cfg: Config, files: Files, handle: Handle, now: Time): Result<ReportRecord, StoreError> {
    match OpenReport(cfg, files, handle)
    case None => Err(AccessDenied)
    case Some(record) =>
      var owner := ParseOwner(handle).value;
      var meta := files.reports[owner.opaqueID].meta;
      if meta.opaqueID != owner.opaqueID || !(now < meta.expiresAt) then Err(AccessDenied) else Ok(record)
  }

  /** RetainOwnedReport. */
  function Retain(cfg: Config, files: Files, handle: Handle): Outcome<()> {
    match OpenReport(cfg, files, handle)
    case None => Outcome(files, Err(AccessDenied))
    case Some(record) =>
      var owner := ParseOwner(handle).value;
      var meta := files.reports[owner.opaqueID].meta;
      match WriteReport(cfg, files, owner, meta.revision, meta.createdAt, meta.expiresAt + cfg.retention, true,
                        record.(retained := true))
      case None => Outcome(files, Err(WriteFailed))
      case Some(written) => Outcome(written, Ok(()))
  }

  /** ForgetOwnedReport. */
  function Forget(cfg: Config, files: Files, handle: Handle): Outcome<()> {
    match OpenReport(cfg, files, handle)
    case None => Outcome(files, Err(AccessDenied))
    case Some(record) => Outcome(files.(reports := files.reports - {ParseOwner(handle).value.opaqueID}), Ok(()))
  }

  // ---- Retrospective grants ----

  /** CreateRetrospectiveGrant. */
  function CreateGrant(cfg: Config, files: Files, handle: Handle, grant: RetrospectiveGrant): Outcome<()> {
    match ParseOwner(handle)
    case None => Outcome(files, Err(AccessDenied))
    case Some(owner) =>
      if grant.createdAt == ZERO_TIME || grant.expiresAt == ZERO_TIME || !(grant.createdAt < grant.expiresAt) then
        Outcome(files, Err(AccessDenied))
      else if owner.opaqueID in files.grants then Outcome(files, Err(AlreadyExists))
      else
        match SealOwned(cfg, GRANT, owner, 0, grant.createdAt, grant.expiresAt, false, grant)
        case None => Outcome(files, Err(WriteFailed))
        case Some(envelope) => Outcome(files.(grants := files.grants[owner.opaqueID := envelope]), Ok(()))
  }

  /** LoadRetrospectiveGrant. */
  function LoadGrant(cfg: Config, files: Files, handle: Handle, now: Time): Result<RetrospectiveGrant, StoreError> {
    match ParseOwner(handle)
    case None => Err(AccessDenied)
    case Some(owner) =>
      if owner.opaqueID !in files.grants then Err(AccessDenied)
      else
        var envelope := files.grants[owner.opaqueID];
        if envelope.meta.recordKind != GRANT || envelope.meta.publicKey != OwnerPublicKey(cfg, owner)
           || !(now < envelope.meta.expiresAt) then Err(AccessDenied)
        else
          match OpenRecord(envelope, owner.recordKey)
          case None => Err(AccessDenied)
          case Some(grant) => Ok(grant)
  }

  /** CompleteRetrospectiveGrant. */
  function CompleteGrant(cfg: Config, files: Files, handle: Handle, report: Report, evidence: OwnedEvidence,
                         now: Time): Outcome<()> {
    match LoadGrant(cfg, files, handle, now)
    case Err(error) => Outcome(files, Err(AccessDenied))
    case Ok(grant) =>
      if report.taskID != grant.taskID || !ValidReport(report) then Outcome(files, Err(AccessDenied))
      else
        var owner := ParseOwner(handle).value;
        match WriteReport(cfg, files, owner, 0, now, now + cfg.retention, false,
                          FirstRecord(cfg, report, evidence, now))
        case None => Outcome(files, Err(WriteFailed))
        case Some(written) => Outcome(written.(grants := written.grants - {owner.opaqueID}), Ok(()))
  }
}
