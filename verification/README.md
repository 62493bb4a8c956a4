# A verified model of ARE's local evidence core

ARE watches an agent's task. It records a baseline of the task's roots, collects events from the task's owner
and from delegated executors, and at the end writes a report of what the task left behind: files, directories,
processes and listening ports. Reports live in an encrypted store on disk, are re-verified into a chain of
revisions, can be retained or forgotten, and are swept by age and by capacity. Readers see grouped, paged
candidates under path aliases.

This project models that core in Dafny and proves what it promises:

* `Disk`, `Retention` and `Eviction` say what each locked store method does to the files. `OwnedStore.Store` is
  the store object, whose methods and loops are proved to do exactly that. `Protocol` interleaves the calls of
  any number of agents, where End, inspection and Verify each read and write in two separate steps.
  `Invariant`, `Steps`, `Runs`, `BatchMerge` and `EventRuns` prove what holds in every state of every run,
  `Outcomes` exactly when each step succeeds and what it leaves, and `ExecutorRuns` that every executor event goes
  back to a delegation that allowed it.
  `Witnesses` builds runs in which the steps that the theorems speak about really happen.
* `ProcessObserver` and `ProcessEvidence` attribute processes by ranked seeds and a fixpoint over parents.
  `Verification` and `ReportEvidence` say what a verified status means. `ReportMaking` follows End and the
  retrospective inspection from what they observe to the report they store, and `StoredReports` carries that on to
  every revision in every run. `Summaries` is the two-step read of one revision.
* `Grouping`, `GroupingTheorems` and `Paging` are the greedy grouping scan and the cursor walk.
* `Paths`, `Scope`, `PathAlias`, `ExecutorPaths` and `ReportPaths` are path cleaning, root validation, alias
  printing and parsing, and the confinement of executor paths.
* `FsObserve`, `FsDiff`, `ScopedPaths`, `EventBatches`, `Correlate` and `Reporting` are the snapshot, its exact
  difference, event normalisation and correlation into a report.
* `Crypto`, `Base64Url` and `Decimal` are the encodings on which bindings, grant names and cursors rest. `Text`,
  `Sorting` and `Sums` hold shared lemmas.

Times are integers and sizes are natural numbers; paths follow Unix rules. Clocks, random bytes, the file system,
the process table and digests are parameters, and nothing is assumed about them except where a contract says so.
`Protocol.Admissible` collects the assumptions about runs: newly drawn owner IDs and grant IDs have not occurred
before, a new batch file name is not in use, and a signature that verifies was issued. Handles, clocks, reports and
observations in a run are otherwise arbitrary.

## Findings

Nine plain statements are not true of the code. Each has an input at which it fails and its exact condition.

* Grouping can count a candidate twice: a directory with conflicts stays a head and counts again the children its
  parent took (`GroupingTheorems.ConflictingDirectoryCountsTwice`, for every size of the shared child). The count
  is exact if and only if no candidate of the input lies below two directories that both absorb it and of which the
  deeper one has conflicts, or which share a path while nothing absorbs the second; the size total is exact if and
  only if this holds for the candidates of non-zero size (`GroupingTheorems.CountedTwiceExactly`). Neither total is
  ever too low (`GroupingTheorems.Conservation`).
* A status can be wrong about a process. `Verification.World` is what really runs and listens, and agrees with every
  query of the native adapter that succeeds. A process status is right if and only if the snapshot succeeded and the
  PID has not been taken over by a process that another candidate names, or the snapshot failed and the process is
  gone (`Verification.ProcessStatusExactly`). It is wrong in `Verification.LiveProcessReadsAbsent` and
  `Verification.ReusedPIDReadsActive`; a failed snapshot makes every process and port read NO_LONGER_PRESENT
  (`Verification.FailedSnapshotReadsAbsent`).
* A port status is right if and only if the snapshot succeeded, the PID has not been taken over by a process that
  another candidate names and that listens on the same port, and the ports of the process could be queried in case
  the port is there; or the snapshot failed and the port is gone (`Verification.PortStatusExactly`). A failed port
  query makes a port that is there read NO_LONGER_PRESENT (`Verification.FailedPortQueryReadsAbsent`). Reports that
  End or an inspection stores never name two processes with one PID, so their revisions are right exactly as far as
  the queries succeed (`StoredReports.StoredRevisionTellsTruth`).
* Events accepted between End's load and its completion are not in the report: `Witnesses.LateEventRun` is such a
  run, exactly those events are missing from what End worked on (`EventRuns.EndMissesExactlyLaterEvents`), and the
  stored report mentions no event that was not accepted before the load
  (`StoredReports.StoredReportOmitsLaterEvents`).
* An alias resolves back to its path if and only if the path below its root has no `..` part when it is split at
  slashes and at backslashes (`PathAlias.ResolveProject`); the file `/r/..\x` in the workspace `/r` does not come
  back (`PathAlias.LostPath`).
* Retaining does not look at the clock, so an expired report that has not been swept becomes readable again: exactly
  until one more retention has passed (`Runs.RetainRevives`), as in `Witnesses.RevivalRun`.
* An executor path can be accepted and never resolve. A safe alias resolves if and only if it carries the alias of a
  bound root and does not go on with an absolute path (`ExecutorPaths.SafeAliasResolvesExactly`). In
  `Witnesses.StuckRun` the path `workspace:///x` is accepted; from then on every End of that task fails to expand its
  events (`StoredReports.AcceptedEventBlocksEnd`).
* A candidate is valid after correlation if and only if it was valid and at most 128 different event IDs and 128
  different receipt IDs match it (`Correlate.CorrelatedValidExactly`). More events than that on one changed path and
  End makes no report (`ReportMaking.TooManyEventsBlockReport`).
* A summary reads the report twice. Its index is out of range if and only if the asked revision was appended between
  the two reads and its page is served (`Summaries.SummaryExactly`), as in `Witnesses.SummaryRun`.

## Model

| member | source | states |
|---|---|---|
| `Runs.RunKeepsInvariant` | internal/store/owned.go:30-370 | every state of every interleaving satisfies the store invariant: phases, sealed tasks, issued signatures, owned batches, sound reports, pending reads that are earlier forms |
| `Steps.StepKeepsInvariant` | internal/app/service.go:74-400 | each admissible step, whoever makes it, keeps the invariant and lets finished IDs stay finished and reports only grow |
| `Runs.RunEvolves` | internal/store/owned.go:184-306 | between any two moments of a run finished IDs never get a task or grant again, deleted reports never return, remaining reports are the same reports grown |
| `Runs.ChainsInEveryRun` | internal/store/owned.go:220-246 | revisions are numbered 1..n, each names its predecessor's digest (the original digest first), carries its own digest and keeps the original candidates; envelope revision, protection, digest and times agree with the record |
| `Steps.AppendExtendsWhatWasRead` | internal/store/owned.go:220-246 | a Verify append that succeeds finds exactly the chain its caller read and adds exactly that caller's revision, leaving everything else in the report and all other reports alone |
| `Runs.LaterVerifyReadEarlier` | internal/app/service.go:340-400 | of two successful Verify calls the later one read strictly more than the earlier, so callers that read the same length cannot both succeed |
| `Runs.CompletedReportNeverChanges` | internal/store/owned.go:184-284 | report, original digest, exact targets, completion time, creation time and keys never change while the report exists, and once gone it stays gone |
| `Runs.OneCompletionWins` | internal/store/owned.go:184-218 | however End and inspection calls interleave, an ID is completed at most once and the stored report is the winner's |
| `Outcomes.StepSucceedsExactly` | internal/store/owned.go:30-370 | in every reachable state each of the steps succeeds iff its caller holds what it needs: the keys of a live task, of a live grant or of a report; for an executor, signed and unexpired claims that allow every type of event; for a completion the right task and a valid report; for a revision the chain it was made from |
| `Outcomes.BeginLeaves` | internal/store/owned.go:30-46 | a new task is an empty record of this context, for its owner, until one interruption later |
| `Outcomes.AppendLeaves` | internal/store/owned.go:97-112 | an append that succeeds puts the events at the end, sets the heartbeat and lets the task live one interruption from now; nothing else changes |
| `Outcomes.TaskReadsUntil` | internal/store/owned.go:82-95 | a task that a step wrote is the owner's to load exactly until the new expiry |
| `Outcomes.DelegationLeaves` | internal/store/owned.go:114-138 | a delegation signs claims with the expiry cut to whole seconds and the distinct types and roots, records exactly these as a grant, and lets the task live on |
| `Outcomes.ReadsAnyFiles` | internal/store/owned.go:82-370 | whatever lies in the directories, tasks, reports and grants are read iff they are genuine files of their kind, sealed under the owner's key with the metadata they show, and in time; tasks and readable reports also name their owner's ID |
| `Outcomes.RetainLeaves` | internal/store/owned.go:266-284 | a retain marks and protects the report and adds one retention to its expiry; nothing else changes |
| `ExecutorRuns.ExecutorEventAuthorised` | internal/store/owned.go:114-182 | in every run an accepted executor event was allowed by an earlier delegation of the task's owner that names its type or no type, and was accepted before that delegation's expiry in whole seconds |
| `ExecutorRuns.LoadedEventsAuthorised` | internal/store/owned.go:68-182 | what End loads is the owner's events and after them only events allowed in that way |
| `Steps.EndWriteEffect` | internal/store/owned.go:184-218 | End's write either changes no file or turns the live task with all its batches into one sound first report expiring one retention later |
| `Steps.InspectWriteEffect` | internal/store/owned.go:342-370 | the write of an inspection either changes no file or turns the live grant into one sound first report |
| `Runs.OnePhaseAtATime` | internal/store/owned.go:30-46 | an ID never has two of task, grant and report; event batches exist only beside their task |
| `Runs.ExpiryCountsRetains` | internal/store/owned.go:266-284 | after k successful retains a report expires exactly 1+k retention periods after its creation |
| `Runs.RetainRevives` | internal/store/owned.go:248-284 | a report is readable exactly before its expiry; retaining, even after expiry, makes it readable exactly one retention period longer |
| `BatchMerge.GrantIsDetermined` | internal/store/owned.go:429-434 | a file name starts with at most one dot-free grant ID and a dot, so map order does not matter |
| `BatchMerge.MergeExactly` | internal/store/owned.go:414-449 | merging succeeds and yields the owner's events followed by exactly the events of all batch files as a multiset |
| `BatchMerge.MergeOfAnyDirectory` | internal/store/owned.go:414-449 | for any directory: files that do not end in `.are` are passed over, the others give their events in name order if each is a batch of the grant its name starts with, and one that is not makes the merge fail |
| `EventRuns.EventsAccounted` | internal/store/owned.go:97-182 | in every run a live task and its batch files hold exactly the accepted owner events in order and the accepted executor events, none lost, duplicated or foreign |
| `EventRuns.EndReadsEveryAcceptedEvent` | internal/store/owned.go:68-80 | in every reachable state the owner of a live task can load it, and reads all accepted events |
| `EventRuns.EndMissesExactlyLaterEvents` | internal/app/service.go:134-174 | an End call works on exactly the events accepted before its load; exactly those accepted in between are missing at its completion |
| `OwnedStore.Open` | internal/store/store.go:28-56 | refuses exactly a missing home and a capacity, retention or interruption that is not positive; otherwise a new store with empty directories and that configuration |
| `OwnedStore.Store.CreateOwnedTask` | internal/store/owned.go:30-46 | refuses exactly bad handles and existing tasks, changing nothing; otherwise the one new entry is a task that its owner can load until it expires and not after |
| `OwnedStore.Store.AppendOwnedEvents` | internal/store/owned.go:97-112 | only the owner of a live task appends; events go to the end, heartbeat and expiry move, all else stays |
| `OwnedStore.Store.DelegateOwnedExecutor` | internal/store/owned.go:114-138 | only the owner of a live task; grant and signed claims agree, with distinct sorted types and roots and the expiry in whole seconds |
| `Capability.SortDistinct` | internal/capability/capability.go:152-167 | the distinct non-empty values in order, whatever their order and repetitions |
| `Capability.DelegatedTypes` | internal/store/owned.go:398-412 | a delegated list allows everything if it names no type at all, and otherwise exactly what it names |
| `OwnedStore.Store.AppendOwnedExecutorEvents` | internal/store/owned.go:145-182 | the new state and answer are those of the append step, whose exact acceptance `Outcomes.StepSucceedsExactly` states: claims that allow every type, liveness of both and the signature, then one new batch file under the grant's key with the earlier of the two expiries |
| `OwnedStore.Store.FindGrant` | internal/store/owned.go:427-434 | trying the grants in any order finds the one grant that the file name belongs to |
| `OwnedStore.Store.MergeEntries` | internal/store/owned.go:423-447 | the loop over directory entries collects every batch in name order, or stops at the first that is unknown or does not open |
| `OwnedStore.Store.MergeExecutorEvents` | internal/store/owned.go:414-449 | the owner's events followed by the merged batches |
| `OwnedStore.Store.LoadOwnedTaskForEnd` | internal/store/owned.go:68-80 | the live task with its merged events, changing nothing |
| `OwnedStore.Store.CompleteOwnedTask` | internal/store/owned.go:184-218 | the new state is that of the completion step, on which the run theorems are proved |
| `OwnedStore.Store.FinishTask` | internal/store/owned.go:191-217 | report written first, then task and event directory removed; refused reports change nothing |
| `OwnedStore.Store.AppendOwnedRevision` | internal/store/owned.go:220-246 | appends only a revision that continues the stored chain; creation, expiry and protection stay |
| `OwnedStore.Store.GetOwnedReport` | internal/store/owned.go:248-264 | the record, for its owner, before its expiry |
| `OwnedStore.Store.RetainOwnedReport` | internal/store/owned.go:266-284 | marks, protects and prolongs the report without touching its content |
| `OwnedStore.Store.ForgetOwnedReport` | internal/store/owned.go:286-306 | whoever can read a report at any time can remove it; then exactly that report is gone and its owner cannot read it at any time; a refusal changes nothing |
| `Runs.ForgottenForGood` | internal/store/owned.go:286-306 | in every later state of a run a forgotten report is gone, for every handle and time |
| `OwnedStore.Store.CreateRetrospectiveGrant` | internal/store/owned.go:308-340 | refuses exactly bad handles, unset or reversed times and existing grants; otherwise the one new entry is a grant that its owner can load until it expires and not after |
| `OwnedStore.Store.CompleteRetrospectiveGrant` | internal/store/owned.go:342-370 | the live grant of this owner becomes a report for the granted task |
| `OwnedStore.Store.Sweep` | internal/store/retention.go:19-80 | the whole new state is the sweep of the old files for some order that the sort may produce |
| `OwnedStore.Store.SweepTasks` | internal/store/retention.go:19-56 | expired tasks go together with their event directories, nothing else |
| `OwnedStore.Store.ExpireReports` | internal/store/retention.go:19-59 | expired reports go; the kept list enumerates the rest once each, with the right byte total |
| `OwnedStore.Store.EvictReports` | internal/store/retention.go:62-73 | the eviction loop removes exactly what the eviction function says |
| `Retention.SweepRemovesExpired` | internal/store/retention.go:19-59 | no expired task, grant or report survives; no unexpired task, grant or protected report goes; exactly the event directories that expired tasks name go, so batch files stay while their task lives; survivors are unchanged |
| `Retention.SweepEvictsOldestAndLittle` | internal/store/retention.go:60-74 | afterwards the bytes fit or all survivors are protected; no unprotected survivor is older than an evicted report; the report evicted last is the youngest evicted, and putting it back would exceed the capacity |
| `Retention.SweepIdempotent` | internal/store/retention.go:19-80 | a second sweep at the same time, with any sort order, changes nothing |
| `Eviction.EvictionTheorem` | internal/store/retention.go:60-74 | the same for any set of files and any sorted order of it, with the last removed file named |
| `Eviction.FittingDirectoryUntouched` | internal/store/retention.go:60-66 | a directory that already fits loses nothing |
| `Crypto.AssociatedDataInjective` | internal/store/crypto.go:95-99 | envelopes whose text fields contain no NUL and whose associated data is equal agree in every bound field |
| `Crypto.NulShiftsBoundaries` | internal/store/crypto.go:95-99 | with a NUL in a text field two different envelopes can bind alike |
| `Crypto.OpensWhatWasSealed` | internal/store/crypto.go:29-85 | a file opens under a key iff sealing its content under that key with the metadata it shows gives this very file; no other key and no other metadata opens it |
| `Base64Url.DecodeEncode` | internal/group/group.go:56-71 | unpadded URL-safe base64 decodes to what was encoded, for all byte sequences |
| `Base64Url.EncodeInjective` | internal/capability/capability.go:77-96 | different bytes have different encodings |
| `Base64Url.EncodedLetters` | internal/capability/capability.go:77-96 | encoded text has only alphabet letters, so no dot, and is empty only for no bytes |
| `Base64Url.StandardExamples` | internal/capability/capability.go:77-96 | the encoding agrees with the examples of section 10 of RFC 4648, without padding |
| `Base64Url.CanonicalExactly` | internal/store/crypto.go:87-93 | the canonical decoder accepts exactly the image of the encoder |
| `Decimal.AtoiItoa` | internal/group/group.go:60-71 | parsing printed decimals gives the number back |
| `Decimal.AtoiExactly` | internal/group/group.go:56-65 | a text parses to a 64-bit number iff it is an optional sign, any number of zeros and the printed absolute value |
| `Decimal.ItoaDigits` | internal/group/group.go:67-71 | printing is positional notation with the digits 0 to 9 |
| `Grouping.Candidates` | internal/group/group.go:13-48 | the groups are those of the order-free specification over a sorted permutation of the input |
| `Grouping.Scan` | internal/group/group.go:21-47 | the greedy scan with its marks yields one group per unabsorbed candidate with everything that candidate absorbs |
| `Grouping.Absorb` | internal/group/group.go:28-44 | the inner loop marks and aggregates exactly what the directory absorbs anywhere in the list |
| `Grouping.TakeChild` | internal/group/group.go:29-43 | one child is taken exactly if absorbed; count, size and at most three samples follow |
| `Grouping.HeadAbsorbs` | internal/group/group.go:22-38 | whatever is absorbed at all is absorbed by an unabsorbed candidate earlier in the list |
| `Grouping.AbsorberSortsFirst` | internal/group/group.go:15-20 | a directory that absorbs a candidate sorts strictly before it |
| `Grouping.AbsorptionInherited` | internal/group/group.go:28-38 | an absorber of an absorber absorbs |
| `Grouping.MarkDecidesHead` | internal/group/group.go:22-25 | the mark at a candidate's turn says exactly whether some candidate of the whole input absorbs it |
| `GroupingTheorems.AbsorbedExactly` | internal/group/group.go:28-38 | a candidate is absorbed iff some directory in the input has a path that, up to one trailing slash, is a proper ancestor of its path, with equal level and status, and the candidate has no conflicts; empty paths never |
| `GroupingTheorems.GroupsExactly` | internal/group/group.go:21-47 | one group for each candidate that no directory of the input absorbs, as often as it occurs, by path and ID; each states ID, kind, path, level and status of its candidate, the number and size of all it absorbs, and the first three of their paths |
| `GroupingTheorems.OrderIndependent` | internal/group/group.go:13-48 | for distinct (path, ID) pairs every permutation of the input gives the same groups |
| `GroupingTheorems.Conservation` | internal/group/group.go:21-47 | counts and sizes are never below the input's; the count is exact iff no candidate is taken by two heads, the size iff none of non-zero size is |
| `GroupingTheorems.CountedTwiceExactly` | internal/group/group.go:28-38 | the same read off the input: exact iff no candidate (of non-zero size) is absorbed by two directories of which the deeper has conflicts, or which share a path and the second is not absorbed |
| `GroupingTheorems.SeparateDirectoriesConserve` | internal/group/group.go:21-47 | conflict-free directories with distinct slash-trimmed paths: each candidate is a head or under exactly one head, and counts and sizes add up to the input |
| `GroupingTheorems.ConflictingDirectoryCountsTwice` | internal/group/group.go:29-37 | inputs whose groups count more candidates than there are, and too many bytes exactly when the shared child has a size |
| `Paging.Page` | internal/group/group.go:50-74 | at most 100 items, and Total is the length of the list |
| `Paging.PageExactly` | internal/group/group.go:50-74 | limits outside 1..100 are refused, then cursors that denote no position; otherwise the page holds the items from the position on, at most the limit, and a cursor to the next position iff more follow |
| `Paging.CursorRoundTrip` | internal/group/group.go:55-71 | a cursor that Page hands out is accepted and means its position |
| `Paging.CursorsArePositions` | internal/group/group.go:50-74 | the walk over encoded cursors is the walk over positions |
| `Paging.WalkYieldsEverything` | internal/group/group.go:50-74 | following NextCursor with any limits in 1..100 never meets a rejected cursor, keeps Total constant, ends, and concatenates to exactly the list |
| `ProcessObserver.BindStableHints` | internal/process/observer.go:135-145 | a hint binds exactly the process that the table holds for its PID, if it is the same process; reasons given before stay |
| `ProcessObserver.SeedWorkingDirectories` | internal/process/observer.go:61-67 | adds exactly the PIDs without a reason for which some entry works within a root |
| `ProcessObserver.SeedOpenPaths` | internal/process/observer.go:69-84 | adds exactly the PIDs without a reason for which some entry holds a candidate path; one limitation for each message with which a query failed |
| `ProcessObserver.DescendRound` | internal/process/observer.go:87-95 | a round adds only children of attributed processes, and one without change leaves the relation closed |
| `ProcessObserver.ClosedIsComplete` | internal/process/observer.go:85-96 | once closed under children, every process with a parent chain to a seed is attributed |
| `ProcessObserver.Attribute` | internal/process/observer.go:54-96 | the fixpoint ends and attributes exactly the PIDs with a parent chain in the snapshot to a seed, each with its highest reason, repeated PIDs included; limitations exactly for the open-path queries that failed |
| `ProcessObserver.AttributionOfSameSnapshot` | internal/process/observer.go:54-96 | snapshots with the same entries and the same table of PIDs attribute alike, in any order |
| `ProcessObserver.ByPIDOfPermutation` | internal/process/observer.go:54-57 | permuting a snapshot with unique PIDs gives the same table |
| `ProcessEvidence.CollectEvidence` | internal/process/observer.go:98-118 | one item per attributed process by ascending PID, with its identity, parent, reason and sorted ports; a limitation exactly for each process whose ports could not be listed |
| `ProcessEvidence.PortsAscend` | internal/process/observer.go:98-118 | sorted ports are the listed ones, by protocol, then address, then number |
| `ProcessEvidence.Resolve` | internal/process/observer.go:49-119 | exact attribution and evidence; the limitations are exactly those of failed queries for open paths and of failed port queries of attributed processes; no evidence and one limitation for a failed snapshot |
| `ProcessEvidence.EvidenceOrderIndependent` | internal/process/observer.go:49-119 | evidence does not depend on the order of a snapshot with unique PIDs |
| `ProcessEvidence.Verify` | internal/process/observer.go:121-133 | keeps exactly the asked identities alive with the same PID and creation time, with their ports |
| `Verification.VerifyCandidates` | internal/app/service.go:355-385 | every candidate is re-checked in place, independently of the others |
| `Verification.VerifyKeepsCandidates` | internal/app/service.go:355-385 | verification neither adds, drops, reorders nor rewrites candidates: only status changes, and limitations grow |
| `Verification.UniqueProcessIdentities` | internal/app/service.go:636-651 | each process that some candidate names, exactly once |
| `Verification.ProcessStatusExactly` | internal/app/service.go:374-381 | ACTIVE_REFERENCE tells whether the process really is alive, iff the snapshot succeeded and no process that another candidate names took the PID over, or it failed and the process is gone |
| `Verification.PortStatusExactly` | internal/app/service.go:653-667 | ACTIVE_REFERENCE tells whether the process really is alive and listening, iff the snapshot succeeded, no named process that lists the port took the PID over and a port that is there could be queried, or the snapshot failed and the port is gone |
| `Verification.FailedPortQueryReadsAbsent` | internal/process/observer.go:100-104 | a live process listens, nothing was reused and the snapshot succeeded: with a failed port query the port reads NO_LONGER_PRESENT |
| `Verification.LiveProcessReadsAbsent` | internal/process/observer.go:50-53 | a live process reads NO_LONGER_PRESENT because the snapshot failed |
| `Verification.ReusedPIDReadsActive` | internal/app/service.go:374-381 | a report naming two processes with one PID: the dead one and its port read ACTIVE_REFERENCE, in a world that agrees with the snapshot |
| `Verification.FailedSnapshotReadsAbsent` | internal/process/observer.go:50-53 | after a failed snapshot every process and port of a report reads NO_LONGER_PRESENT, while files and directories read as with any other snapshot |
| `Verification.ObjectStatusExactly` | internal/fsobserve/diff.go:14-33 | a second verification says PRESENT iff the recorded target is still the reported object, CHANGED_SINCE_REPORT iff another object or size is there, NO_LONGER_PRESENT iff nothing is there, and UNKNOWN iff it adds a limitation, whatever the first said; unchanged objects keep their status |
| `ReportEvidence.ExcludeBaselineOnlyProcesses` | internal/app/service.go:589-612 | keeps exactly the evidence that an event or receipt names or that was not the process with this PID at the baseline, in ascending order |
| `ReportEvidence.BaselineOnlyExactly` | internal/app/service.go:589-612 | over a baseline with unique PIDs exactly the unnamed processes already running then are left out; a reused PID stays |
| `ReportEvidence.EvidenceSeen` | internal/app/service.go:152-155 | the evidence that Resolve collects, and any part of it, was seen in that one snapshot |
| `ReportEvidence.OneProcessPerPID` | internal/app/service.go:152-163 | a report built from one snapshot names at most one process per PID, and so does every form of it that keeps kinds, processes and ports |
| `ReportEvidence.VerifiedReportTellsTruth` | internal/app/service.go:340-400 | for such a report process statuses are right unless a live process meets a failed snapshot, and port statuses unless a port that is there meets a failed snapshot or port query |
| `ReportMaking.ProcessHints` | internal/app/service.go:563-587 | exactly the processes that events name, split by receipt, and exactly the non-empty candidate paths |
| `ReportMaking.EndReport` | internal/app/service.go:134-174 | nothing if an event does not expand; if the comparison fails, a report with just the error or the first changed root; otherwise a report iff the correlated candidates are valid and their paths project, dated now, made of the expanded events, the exact changes and the evidence of one snapshot for exactly the processes that the events name and the changed paths, less those of the baseline that no event names |
| `ReportMaking.EndReportsExactly` | internal/app/service.go:150-169 | End's report has a process candidate for an identity, and a port candidate for a port of it, iff the snapshot has it with a parent chain to a seed (and lists the port), and an event names it or it was not running at the baseline |
| `ReportMaking.InspectionReportsExactly` | internal/app/service.go:206-252 | an inspection's report has them iff the snapshot has it with such a chain |
| `ReportMaking.BuildAndProject` | internal/app/service.go:156-169 | a report iff identity, time and every correlated candidate are valid and every path projects |
| `ReportMaking.DiffIsBare` | internal/fsobserve/diff.go:72-90 | what a comparison reports has no process, port or provenance |
| `ReportMaking.TooManyEventsBlockReport` | internal/contract/validate.go:100-102 | more than 128 event IDs matching one change: no report can be made |
| `Correlate.CorrelatedValidExactly` | internal/contract/validate.go:75-109 | a candidate is valid after correlation iff it was valid and at most 128 distinct valid event IDs and as many receipt IDs match it |
| `ReportMaking.InspectReport` | internal/app/service.go:206-252 | the same from the objects in the granted window, with no process left out; the report is PARTIAL_EVIDENCE, retrospective, dated now and without a baseline level |
| `ReportMaking.MadeReportTellsTruth` | internal/app/service.go:340-400 | the same for a report as End or an inspection stores it, and for any revision of it |
| `ReportMaking.EndListsLoadedEvents` | internal/app/service.go:134-170 | every event and receipt ID in End's report belongs to an event that End had loaded |
| `StoredReports.StoredRevisionTellsTruth` | internal/app/service.go:340-400 | in any run, the revision that a Verify call appends to a report completed from an observation says of exactly the observed processes and ports whether they are really there, and is right exactly as far as that call's queries succeeded |
| `StoredReports.VerifiesWinnersReport` | internal/app/service.go:340-348 | what a successful Verify call works on is the report of the caller that completed the ID, in its original or a later form |
| `StoredReports.StoredProcessesExactly` | internal/app/service.go:134-174 | in any run the report that an End call stores has a process or port candidate for exactly the processes that concern the task and that an event accepted before its load names or that were not running at the baseline |
| `StoredReports.CompletionStored` | internal/store/owned.go:184-218 | after a completion the stored record is that report and evidence, completed now, not retained, with its digest and no revision |
| `StoredReports.RevisionStored` | internal/app/service.go:340-400 | after a successful Verify call the chain is what it read and one revision more: next in number, made now, naming the last digest, with the re-checked candidates, that observation's limitations and its own digest |
| `StoredReports.StoredReportOmitsLaterEvents` | internal/app/service.go:134-174 | the stored report of an End call mentions only events accepted before its load; a later event with an ID of its own appears in no candidate |
| `StoredReports.AcceptedEventBlocksEnd` | internal/app/service.go:134-142 | after an executor event with an absolute path behind the workspace alias was accepted, every load for End has an event that does not expand with the table of that task, whatever the identities of its roots |
| `EventRuns.ContextNeverChanges` | internal/store/owned.go:30-138 | a task carries the same context, its alias table included, for as long as it lives |
| `Witnesses.LateEventRun` | internal/app/service.go:134-174 | a run of Begin, End's load, an append and End's completion in which all succeed and the event is not in what End loaded |
| `Witnesses.RevivalRun` | internal/store/owned.go:248-284 | a run in which an expired report is refused, retained and then read at the same time |
| `Witnesses.RaceRun` | internal/app/service.go:340-400 | a run in which two Verify calls read the same report, the first to write succeeds and the other is refused |
| `Witnesses.ExecutorRun` | internal/store/owned.go:114-182 | a run of Begin, a delegation and an executor's event in which all succeed and the event is accepted |
| `Witnesses.StuckRun` | internal/app/service.go:467-544 | such a run with the path `workspace:///x`, which its grant allows: what End loads then does not expand |
| `Witnesses.SummaryRun` | internal/app/service.go:284-306 | a run in which a revision is appended between the two reads of a summary, whose index is then out of range |
| `Summaries.SummaryExactly` | internal/app/service.go:267-306 | over any run, the index is out of range iff the revision was appended between the two reads and its page is served; refused iff the second record has no such page; otherwise the answer shows time, limitations and page of that revision in the second record |
| `ReportEvidence.RetrospectiveCandidates` | internal/app/service.go:614-634 | one candidate per object modified within the window, stating it field by field, no others, sorted by ID |
| `ReportEvidence.RetrospectiveReport` | internal/app/service.go:206-252 | a report over such candidates is always PARTIAL_EVIDENCE and claims no baseline, whatever the events and processes |
| `Paths.CleanAbs` | internal/scope/guard.go:59-81 | cleaning an absolute path keeps its elements, is absolute and idempotent |
| `Paths.ElementsNext` | internal/scope/guard.go:59-81 | one element more on an absolute path: empty and `.` add nothing, `..` drops the last, anything else is added |
| `Paths.JoinBelow` | internal/pathalias/alias.go:73-79 | joining a root and a relative text without climbing appends the text's elements |
| `Paths.InsideExactly` | internal/event/normalize.go:138-141 | the relative-path test succeeds exactly if the root's elements are a prefix of the path's |
| `Paths.TraversalOfJoin` | internal/pathalias/alias.go:84-91 | joined elements contain a traversal iff one of them does under backslash splitting |
| `Paths.TraversalExactly` | internal/pathalias/alias.go:84-91 | a text has a traversal iff two dots stand in it between slashes, backslashes or the ends |
| `Paths.CleanAbsHasNoScheme` | internal/app/service.go:522-544 | a cleaned absolute path never contains `://` |
| `Scope.AcceptedRoot` | internal/scope/guard.go:59-81 | an accepted root is clean, absolute, neither the file system root nor the home directory |
| `Scope.RootAcceptedExactly` | internal/scope/guard.go:59-81 | a root is accepted iff it is non-empty, has no traversal, is neither the file system root nor the home directory when made absolute, and is a real directory |
| `Scope.OverlapExactly` | internal/scope/guard.go:92-103 | two roots overlap iff the elements of one are a prefix of the other's |
| `Scope.OverlapsAny` | internal/scope/guard.go:49-53 | finds a clash iff some accepted root is nested with the new one |
| `Scope.CollectRoots` | internal/scope/guard.go:44-55 | accepts iff every root is acceptable and no two are nested; the roots keep their order |
| `Scope.Validate` | internal/scope/guard.go:38-57 | success iff fields are present and roots acceptable, and then the roots are pairwise separated |
| `PathAlias.NewTable` | internal/pathalias/alias.go:22-39 | a binding per root in order, iff there are roots and all have an identity |
| `PathAlias.AliasDeterminesRoot` | internal/pathalias/alias.go:57-61 | one text matches the alias of at most one root |
| `PathAlias.ResolveProject` | internal/pathalias/alias.go:41-82 | a path projects iff it is under a root, and resolves back to itself iff its remainder has no traversal, otherwise to nothing |
| `PathAlias.BackslashNameIsLost` | internal/pathalias/alias.go:84-91 | an object directly in a root whose name has a `..` before a backslash projects to an alias that resolves to nothing |
| `PathAlias.LostPath` | internal/pathalias/alias.go:84-91 | the file `/r/..\x` in the workspace `/r` does not come back |
| `PathAlias.ProjectInjective` | internal/pathalias/alias.go:41-54 | different paths have different aliases |
| `PathAlias.ResolveStaysInside` | internal/pathalias/alias.go:56-82 | over a bound table, whatever resolves is a clean path at or below the root whose alias it carries, with the elements of its tail |
| `PathAlias.ResolveExactly` | internal/pathalias/alias.go:56-82 | over any table of aliases, an alias resolves to a path iff it spells a root whose identity is still the bound one and a tail that is empty or relative without traversal, and the path is that root with the tail's elements |
| `PathAlias.ReplacedRootRefuses` | internal/pathalias/alias.go:62-65 | over a root whose identity changed no alias resolves |
| `PathAlias.ResolveProjectResolve` | internal/pathalias/alias.go:41-82 | over separated roots an alias that resolves has a canonical spelling that resolves alike |
| `PathAlias.OnlyRoot` | internal/pathalias/alias.go:41-54 | separated roots: a path is under at most one root, so binding order does not matter |
| `PathAlias.BindScope` | internal/app/service.go:84-99 | validation and binding give a table iff the scope is acceptable and every root has an identity; then it is bound and separated, and every clean path under a root without traversal comes back from its alias |
| `ExecutorPaths.AllowedPathConfined` | internal/app/service.go:454-465 | a path allowed by a root that resolves lies at or below that root's directory whenever it resolves |
| `ExecutorPaths.SafeAliasExactly` | internal/app/service.go:510-520 | a safe alias is one with a scheme separator and no traversal by either kind of slash |
| `ExecutorPaths.AllowedAliasExactly` | internal/app/service.go:454-465 | an alias is allowed iff it is an allowed root or continues one behind a slash, where the workspace is named by its bare word |
| `ExecutorPaths.ExpandAliasedEvents` | internal/app/service.go:522-544 | succeeds iff every aliased path resolves, replaces exactly the aliased paths and nothing else |
| `ExecutorPaths.ExpandOutputs` | internal/app/service.go:532-541 | the same for the declared outputs of one event |
| `ExecutorPaths.OwnerEventsUntouched` | internal/app/service.go:522-544 | events with cleaned absolute paths expand to themselves |
| `ExecutorPaths.ExecutorEventsConfined` | internal/app/service.go:467-544 | every path of an accepted executor event ends up inside every resolving root that allows it, and inside a bound root in any case; if all allowed roots resolve, inside the directory of one of them |
| `ExecutorPaths.SafeAliasResolvesExactly` | internal/pathalias/alias.go:56-82 | a safe alias resolves iff it carries the alias of a bound root and does not go on with an absolute path |
| `ExecutorPaths.AcceptedPathNeverResolves` | internal/app/service.go:510-544 | the workspace alias followed by an absolute path is safe and allowed, and no table resolves it, whether its roots are unchanged or not |
| `ExecutorPaths.StuckPath` | internal/app/service.go:510-520 | `workspace:///x` is such a path |
| `ExecutorPaths.ReplacedRootBlocksExpansion` | internal/app/service.go:522-544 | an event with an alias under a replaced root does not expand, so End makes no report of it |
| `ReportPaths.ProjectReportPaths` | internal/app/service.go:406-422 | succeeds iff all paths project; paths become aliases and the targets hold the exact paths |
| `ReportPaths.ResolveCandidateExactly` | internal/app/service.go:318-338 | with distinct IDs the answer is the recorded exact path iff that path is clean and has no traversal below its root, else a refusal |
| `ReportPaths.AnswerIsRoundTrip` | internal/app/service.go:318-338 | the answer is exactly a checked round trip through the alias, for any aliases |
| `ReportPaths.UnknownCandidateRefused` | internal/app/service.go:323-337 | an unknown candidate or one without a path is refused |
| `ReportPaths.ReplacedRootRefusesCandidate` | internal/app/service.go:318-338 | every candidate under a replaced root is refused |
| `FsObserve.EntryKeyInjective` | internal/fsobserve/observer.go:121-123 | a key determines the root index and the cleaned relative path |
| `FsObserve.Snapshot` | internal/fsobserve/observer.go:46-119 | success holds every walked object under its key within both limits, with all root identities; refusal has a cause |
| `FsObserve.WalkRoot` | internal/fsobserve/observer.go:64-113 | the walk of one root adds exactly its objects and bytes or refuses for a cause |
| `FsObserve.OneEntryPerObject` | internal/fsobserve/observer.go:100-111 | when walked objects differ in root or cleaned path, the snapshot has exactly one entry for each |
| `FsObserve.SnapshotStatesWalk` | internal/fsobserve/observer.go:64-113 | then the entries are exactly the visited objects, field by field, each under its key |
| `FsDiff.Compare` | internal/fsobserve/diff.go:35-70 | refuses iff root identities differ, naming the first root that changed, else the sorted changes and removals for some visiting order of the maps |
| `FsDiff.CollectChanges` | internal/fsobserve/diff.go:50-59 | visits each current key once and reports its change |
| `FsDiff.CollectMissing` | internal/fsobserve/diff.go:60-64 | visits each baseline key once and reports it if it is missing |
| `FsDiff.DiffIsExact` | internal/fsobserve/diff.go:49-64 | PRESENT exactly for new keys, CHANGED exactly for shared keys differing in identity, size, mtime or mode, each candidate stating its entry field by field with the baseline level; removed exactly for missing keys, one report per key, in any visiting order |
| `FsDiff.EmptyDiffMeansUnchanged` | internal/fsobserve/diff.go:49-64 | the diff is empty iff both maps agree on keys and on those four fields |
| `ScopedPaths.ResolveExistingPrefix` | internal/event/normalize.go:143-167 | the probe ends and resolves the longest existing prefix with the remainder below it |
| `ScopedPaths.ResolvedExactly` | internal/event/normalize.go:143-167 | the resolved form is that of the longest existing prefix, found without an error on the way, with the missing elements put back behind it, or the path itself if nothing exists |
| `ScopedPaths.NormalizedPathInScope` | internal/event/normalize.go:103-136 | an accepted path is lexically under a root and its resolved form is under that root's resolved form |
| `ScopedPaths.ScopedPathExactly` | internal/event/normalize.go:103-141 | a path is accepted iff it is non-empty, free of NUL and, made absolute, lies in a first root whose resolved form contains its resolved form; the answer is the clean absolute path |
| `EventBatches.NormalizeBatch` | internal/event/normalize.go:30-101 | accepts iff the batch is small enough, each event is acceptable and IDs are distinct; the result is sorted by time then ID |
| `EventBatches.CollectSummaries` | internal/event/normalize.go:34-92 | the loop refuses exactly unacceptable events and repeated IDs and keeps the rest in order |
| `EventBatches.BatchOrderIndependent` | internal/event/normalize.go:30-101 | acceptance and result are the same for every permutation of the batch |
| `EventBatches.Normalize` | internal/event/normalize.go:30-101 | the batch is accepted iff it is small enough, IDs are distinct and each event is acceptable; the result holds each event with its own fields and exact paths, by time then ID; every returned path is absolute, clean and in scope |
| `EventBatches.NormalizedEventInScope` | internal/event/normalize.go:36-90 | one normalised event keeps ID and time, and all its paths are in scope |
| `EventBatches.NormalizedExactly` | internal/event/normalize.go:36-91 | an event is accepted iff it is valid, carries the task's ID and all its paths are accepted; all other fields are copied, the working directory is its clean path or empty, and a relative output is joined to the working directory, or to the workspace if there is none |
| `EventBatches.NormalizeOrderIndependent` | internal/event/normalize.go:30-101 | order independence for the owner's normalisation |
| `EventBatches.NormalizeExecutorEvents` | internal/app/service.go:467-508 | the same for executors: every field is copied, and every path is a safe alias under an allowed root |
| `EventBatches.ExecutorOrderIndependent` | internal/app/service.go:467-508 | order independence for executor batches |
| `Correlate.CorrelateOne` | internal/correlate/correlate.go:39-63 | the level is the maximum of the initial level and the bounds of all matching events; provenance is the sorted distinct matched IDs; a conflict is noted iff a matching cleanup left the object |
| `Correlate.CorrelationExactly` | internal/correlate/correlate.go:39-63 | by constructors: a baseline level stays, otherwise a matching event with a receipt raises to RECEIPT_BOUND and one without to EVENT_BOUND at least; the IDs are exactly those of matching events, ascending; a conflict iff a matching cleanup left the object |
| `Correlate.TieNext` | internal/correlate/correlate.go:44-58 | one matching event more keeps maximum, provenance and conflict right |
| `Correlate.CorrelationOrderIndependent` | internal/correlate/correlate.go:39-63 | without initial provenance the result depends on the events only as a set |
| `Reporting.BuildReport` | internal/correlate/correlate.go:26-95 | the candidates are a permutation of the correlated diff and process candidates, in order of kind and ID, with exactly one process candidate per evidence item and one port candidate per listed port; limitations in order and the status they give; refusal only for a missing task ID or an invalid report |
| `Reporting.CountedInReport` | internal/correlate/correlate.go:97-132 | for each process as many process candidates as evidence items name it with that parent, and for each port as many as its items list it; with one item per process exactly one each |
| `Reporting.ReportStatesEvidence` | internal/correlate/correlate.go:97-132 | there is no other process or port candidate, and each states its evidence: identity, parent, port, ID and texts, level by reason, ACTIVE_REFERENCE |
| `Reporting.CorrelateAll` | internal/correlate/correlate.go:39-63 | each candidate is correlated in its place |
| `Reporting.ReportOrderIndependent` | internal/correlate/correlate.go:26-95 | with distinct candidate IDs and no initial provenance, permuting the events changes nothing |
| `Reporting.LowerBaseline` | internal/app/service.go:234-238 | exactly the baseline levels are lowered, all else stays |
| `Reporting.RetrospectiveNeverBaseline` | internal/correlate/correlate.go:74-80 | unattributed input with a limitation gives PARTIAL_EVIDENCE and no baseline level |

## Left out

- AES-GCM, Ed25519, SHA-256 and JSON: sealing, signing and digests are ideal or arbitrary functions and record encoding is the identity; that associated data binds all metadata is proved separately.
- The text form of handles, and opaque IDs used as path fragments: a handle is a value, and directories are maps by opaque ID.
- Failing reads, writes, renames and removals, fsync and file permissions: each locked store method is one atomic step that fails only where its inputs are refused.
- The clock is read once per store method; within one locked method the source may read it twice.
- Windows path rules: volumes, case folding and separators.
- The native process, port and file-identity adapters: arbitrary answers, fixed during one call. Timeouts and cancelled contexts appear as failed visits only.
- Overflow of byte totals beyond 64 bits.
- The command line, the MCP server and its session map: thin layers without further state. The store's home is a name; an unusable path is not modelled.
- `projectReportPaths` on relative candidate paths: candidates come from the walk, whose paths are absolute.
- EventBatches.Normalize: assumes the roots that validation returns, that is at least one clean absolute root.
- OwnedStore.Store.DelegateOwnedExecutor: takes the random grant ID and key as arguments and assumes 18 random bytes, as the source draws.
- FsObserve.OneEntryPerObject: the assumption that a walk visits each relative path once is the file system's.
- Paging.WalkYieldsEverything: assumes that the list length fits a 64-bit integer, as a length in the source always does.
