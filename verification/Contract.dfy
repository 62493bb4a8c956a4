/** The records that the evidence core exchanges and stores (internal/contract, internal/event),
    with their validation. Times are integers, sizes are natural numbers. */
module Contract {
  import opened Text

  type Time = int // nanoseconds
  const ZERO_TIME: Time := 0

  const EVENT_SCHEMA_VERSION := "agent-task-event/2.0"
  const REPORT_SCHEMA_VERSION := "agent-residue-report/2.0"

  datatype ObservationMode = Managed | Guided | Retrospective

  datatype CandidateKind = FileKind | DirectoryKind | ProcessKind | PortKind

  datatype EvidenceLevel = Unattributed | Inferred | EventBound | ReceiptBound | BaselineObserved

  datatype CurrentStatus = Present | ActiveReference | NoLongerPresent | ChangedSinceReport | UnknownStatus

  datatype ReportStatus = NoCandidates | ReviewRequired | PartialEvidence | InterruptedTask | ObservationFailed

  datatype EventType =
    | CommandStarted | CommandCompleted | ProcessStarted | ProcessExited
    | ArtifactDeclared | TestPhaseStarted | TestPhaseCompleted | CleanupAttempted

  function TypeText(t: EventType): string {
    match t
    case CommandStarted => "command_started"
    case CommandCompleted => "command_completed"
    case ProcessStarted => "process_started"
    case ProcessExited => "process_exited"
    case ArtifactDeclared => "artifact_declared"
    case TestPhaseStarted => "test_phase_started"
    case TestPhaseCompleted => "test_phase_completed"
    case CleanupAttempted => "cleanup_attempted"
  }

  datatype ProcessIdentity = ProcessIdentity(pid: int, createdAt: Time)

  datatype PortIdentity = PortIdentity(protocol: string, address: string, number: int)

  datatype Candidate = Candidate(
    id: string,
    kind: CandidateKind,
    path: string,
    objectIdentity: string,
    process: Option<ProcessIdentity>,
    parentPID: int,
    port: Option<PortIdentity>,
    sizeBytes: nat,
    evidenceLevel: EvidenceLevel,
    currentStatus: CurrentStatus,
    reason: string,
    recommendation: string,
    eventIDs: seq<string>,
    receiptIDs: seq<string>,
    limitations: seq<string>,
    conflicts: seq<string>)

  datatype Report = Report(
    schemaVersion: string,
    reportID: string,
    taskID: string,
    observationMode: Option<ObservationMode>,
    status: ReportStatus,
    createdAt: Time,
    candidates: seq<Candidate>,
    limitations: seq<string>)

  datatype Revision = Revision(
    revision: int,
    createdAt: Time,
    previousDigest: string,
    digest: string,
    candidates: seq<Candidate>,
    limitations: seq<string>)

  datatype CandidateGroup = CandidateGroup(
    id: string,
    kind: CandidateKind,
    path: string,
    evidenceLevel: EvidenceLevel,
    currentStatus: CurrentStatus,
    descendantCount: nat,
    aggregateSizeBytes: nat,
    samplePaths: seq<string>)

  datatype CandidatePage = CandidatePage(items: seq<CandidateGroup>, total: nat, nextCursor: string)

  datatype TaskEvent = TaskEvent(
    schemaVersion: string,
    taskID: string,
    eventID: string,
    eventType: EventType,
    timestamp: Time,
    workingDir: string,
    commandFingerprint: string,
    exitCode: Option<int>,
    process: Option<ProcessIdentity>,
    declaredOutputs: seq<string>,
    receiptID: string)

  datatype Summary = Summary(
    eventID: string,
    eventType: EventType,
    timestamp: Time,
    workingDir: string,
    commandFingerprint: string,
    exitCode: Option<int>,
    process: Option<ProcessIdentity>,
    declaredOutputs: seq<string>,
    receiptID: string)

  predicate ValidID(value: string) { value != "" && |value| <= 256 }

  predicate LowerHex(c: char) { '0' <= c <= '9' || 'a' <= c <= 'f' }

  predicate ValidFingerprint(value: string) {
    "sha256:" <= value && |value| == 71 && forall c :: c in value[7..] ==> LowerHex(c)
  }

  predicate ValidProcess(process: Option<ProcessIdentity>) {
    process.Some? ==> process.value.pid > 0 && process.value.createdAt != ZERO_TIME
  }

  predicate ValidEvent(e: TaskEvent) {
    && e.schemaVersion == EVENT_SCHEMA_VERSION
    && ValidID(e.taskID) && ValidID(e.eventID)
    && e.timestamp != ZERO_TIME
    && |e.workingDir| <= 4096 && |e.receiptID| <= 256
    && (e.commandFingerprint != "" ==> ValidFingerprint(e.commandFingerprint))
    && ValidProcess(e.process)
    && |e.declaredOutputs| <= 128
    && forall output :: output in e.declaredOutputs ==> output != "" && |output| <= 4096
  }

  predicate ValidCandidate(c: Candidate) {
    && ValidID(c.id)
    && (c.recommendation == "" || c.recommendation == "review")
    && ValidProcess(c.process)
    && c.parentPID >= 0
    && (c.port.Some? ==>
          c.port.value.protocol == "tcp" && c.port.value.address != "" && 0 < c.port.value.number <= 65535)
    && (c.kind.ProcessKind? ==> c.process.Some?)
    && (c.kind.PortKind? ==> c.process.Some? && c.port.Some?)
    && |c.eventIDs| <= 128 && |c.receiptIDs| <= 128
    && forall id :: id in c.eventIDs + c.receiptIDs ==> ValidID(id)
  }

  predicate ValidReport(r: Report) {
    && r.schemaVersion == REPORT_SCHEMA_VERSION
    && ValidID(r.reportID) && ValidID(r.taskID)
    && r.createdAt != ZERO_TIME
    && forall c :: c in r.candidates ==> ValidCandidate(c)
  }
}
