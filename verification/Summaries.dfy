/** internal/app: reading one revision of a report by pages. Summarize takes the lock twice, once for the
    report and once for the page of candidates. */
module Summaries {
  import opened Text
  import opened Contract
  import opened Capability
  import opened Disk
  import opened Paging
  import opened Protocol
  import opened Invariant
  import opened Runs

  /** group.Candidates, in whatever order ties come out. */
  type Grouper = seq<Candidate> -> seq<CandidateGroup>

  datatype ReportSummary = ReportSummary(reportID: string, revision: int, createdAt: Time, limitations: seq<string>,
                                         page: CandidatePage)

  /** A summary, a refusal, or an index out of range. */
  datatype Answer = Shown(summary: ReportSummary) | Refused | OutOfRange

  /** The candidates of a revision; 0 is the report itself. */
  function Selected(record: ReportRecord, revision: int): Option<seq<Candidate>> {
    if revision < 0 || revision > |record.revisions| then None
    else if revision == 0 then Some(record.report.candidates)
    else Some(record.revisions[revision - 1].candidates)
  }

  /** GetCandidatePage on the record that it reads. */
  function PageOf(group: Grouper, record: ReportRecord, revision: int, cursor: string,
                  limit: int): Option<CandidatePage> {
    match Selected(record, revision)
    case None => None
    case Some(candidates) =>
      match Page(group(candidates), cursor, limit)
      case Err(_) => None
      case Ok(page) => Some(page)
  }

  /** Summarize, with what its first and its second read gave it. */
  function Summarize(group: Grouper, first: ReportRecord, second: ReportRecord, revision: int, cursor: string,
                     limit: int): Answer {
    match PageOf(group, second, revision, cursor, limit)
    case None => Refused
    case Some(page) =>
      if revision <= 0 then
        Shown(ReportSummary(first.report.reportID, revision, first.report.createdAt, first.report.limitations, page))
      else if revision > |first.revisions| then OutOfRange
      else
        var selected := first.revisions[revision - 1];
        Shown(ReportSummary(first.report.reportID, revision, selected.createdAt, selected.limitations, page))
  }

  /** One revision as a record has it: its time, its limitations and a page of its groups. */
  ghost predicate Shows(group: Grouper, record: ReportRecord, revision: int, cursor: string, limit: int,
                        summary: ReportSummary) {
    && summary.reportID == record.report.reportID && summary.revision == revision
    && (revision == 0 ==>
          && summary.createdAt == record.report.createdAt && summary.limitations == record.report.limitations
          && Page(group(record.report.candidates), cursor, limit) == Ok(summary.page))
    && (revision != 0 ==>
          && 0 < revision <= |record.revisions|
          && summary.createdAt == record.revisions[revision - 1].createdAt
          && summary.limitations == record.revisions[revision - 1].limitations
          && Page(group(record.revisions[revision - 1].candidates), cursor, limit) == Ok(summary.page))
  }

  /** A revision that the record has, and a page of it that can be served. */
  ghost predicate Served(group: Grouper, record: ReportRecord, revision: int, cursor: string, limit: int) {
    && 0 <= revision <= |record.revisions|
    && Page(group(if revision == 0 then record.report.candidates else record.revisions[revision - 1].candidates),
            cursor, limit).Ok?
  }

  /** Out of range exactly for a revision that the first record lacks and the second has, refused exactly if
      the second has no such page, and otherwise the revision as the second record has it. */
  ghost predicate Answers(group: Grouper, first: ReportRecord, second: ReportRecord, revision: int, cursor: string,
                          limit: int, answer: Answer) {
    && (answer == OutOfRange <==> |first.revisions| < revision && Served(group, second, revision, cursor, limit))
    && (answer == Refused <==> !Served(group, second, revision, cursor, limit))
    && (answer.Shown? ==> Shows(group, second, revision, cursor, limit, answer.summary))
  }

  /** What a handle reads in a state is the stored report of its ID. */
  lemma ReadsStored(cfg: Config, s: System, handle: Handle, now: Time)
    requires GetReport(cfg, s.files, handle, now).Ok?
    ensures ParseOwner(handle).Some? && ParseOwner(handle).value.opaqueID in s.files.reports
    ensures GetReport(cfg, s.files, handle, now).value
         == s.files.reports[ParseOwner(handle).value.opaqueID].sealed.plain
  {
  }

  /** Two reads in one run, in order: the index is out of range exactly for a revision that was appended in
      between and whose page is served. In every other case the answer is as if both had been one read of the
      second record. */
  lemma SummaryExactly(cfg: Config, run: Run, i: nat, j: nat, handle: Handle, early: Time, late: Time, group: Grouper,
                       revision: int, cursor: string, limit: int)
    requires ValidConfig(cfg) && ValidRun(cfg, run) && i <= j < |run.states|
    requires GetReport(cfg, run.states[i].files, handle, early).Ok?
    requires GetReport(cfg, run.states[j].files, handle, late).Ok?
    ensures var first := GetReport(cfg, run.states[i].files, handle, early).value;
            var second := GetReport(cfg, run.states[j].files, handle, late).value;
            Answers(group, first, second, revision, cursor, limit,
                    Summarize(group, first, second, revision, cursor, limit))
  {
    ReadsStored(cfg, run.states[i], handle, early);
    ReadsStored(cfg, run.states[j], handle, late);
    var x := ParseOwner(handle).value.opaqueID;
    CompletedReportNeverChanges(cfg, run, i, j, x);
    var first, second := run.states[i].files.reports[x].sealed.plain, run.states[j].files.reports[x].sealed.plain;
    assert Grown(first, second);
    GrownSummary(group, first, second, revision, cursor, limit);
  }

  lemma GrownSummary(group: Grouper, first: ReportRecord, second: ReportRecord, revision: int, cursor: string,
                     limit: int)
    requires Grown(first, second)
    ensures Answers(group, first, second, revision, cursor, limit,
                    Summarize(group, first, second, revision, cursor, limit))
  {
    if 0 < revision <= |first.revisions| {
      assert first.revisions[revision - 1] == second.revisions[revision - 1];
    }
  }
}
