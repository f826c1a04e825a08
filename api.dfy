/** The grading service (backend/api.py): the church list it serves, the
    start request it validates and schedules, the background evaluation that
    writes a job's record, and the lookup of a job's record.

    The cleaned church table arrives as a parameter (`None` when it cannot be
    read); the job id, the clock and the outside world of the batch are
    parameters too. */
module Api {
  import opened Wrappers
  import opened Seqs
  import opened Strings
  import opened Types
  import opened Batch

  // ----- the church list -----

  /** The display name of a handle: `@` removed, `_` read as a space, then
      title-cased. */
  function ChurchName(handle: string): string
  {
    Title(ReplaceChar(RemoveChar(handle, '@'), '_', ' '))
  }

  /** The church a row of the cleaned table stands for. */
  function ChurchOf(handle: string, website: string): Church
  {
    Church(handle, ChurchName(handle), PASTORS_AI + handle, website)
  }

  /** Title-casing neither adds nor moves a character that is not a letter. */
  lemma TitleKeepsOut(s: string, c: char)
    requires !IsLetter(c) && c !in s
    ensures c !in Title(s)
  {
    forall k | 0 <= k < |s| ensures Title(s)[k] != c {
      TitleAt(s, false, k);
    }
  }

  /** `name` is `bare` with `_` read as a space, title-cased character by
      character. */
  predicate TitledHandle(bare: string, name: string)
  {
    |name| == |bare| && forall k :: 0 <= k < |bare| ==> TitledAt(bare, name, k)
  }

  predicate TitledAt(bare: string, name: string, k: nat)
    requires k < |bare| && |name| == |bare|
  {
    name[k] == TitleChar(if bare[k] == '_' then ' ' else bare[k], k > 0 && IsLetter(bare[k - 1]))
  }

  /** A church is identified by its handle; its page is the handle's pastors.ai
      page, which is where the batch sends the chatbot question for that
      handle, and whose last segment is the handle again; its name is the
      handle without `@`, with `_` read as a space, title-cased character by
      character, so it holds neither `@` nor `_`. */
  lemma ChurchOfSpec(handle: string, website: string)
    ensures ChurchOf(handle, website).id == handle
    ensures ChurchOf(handle, website).websiteUrl == website
    ensures ChurchOf(handle, website).chatbotUrl == PASTORS_AI + handle
    ensures StartsWith(handle, "@") ==> ChurchOf(handle, website).chatbotUrl == ChatbotUrl(handle)
    ensures '/' !in handle ==> LastSegment(ChurchOf(handle, website).chatbotUrl, '/') == handle
    ensures |ChurchOf(handle, website).name| == |RemoveChar(handle, '@')|
    ensures '@' !in ChurchOf(handle, website).name && '_' !in ChurchOf(handle, website).name
    ensures TitledHandle(RemoveChar(handle, '@'), ChurchOf(handle, website).name)
  {
    var url := ChurchOf(handle, website).chatbotUrl;
    if '/' !in handle {
      assert url == "https://pastors.ai" + ['/'] + handle;
      LastSegmentAfter("https://pastors.ai", '/', handle);
    }
    var plain := ReplaceChar(RemoveChar(handle, '@'), '_', ' ');
    assert '@' !in plain by {
      forall k | 0 <= k < |plain| ensures plain[k] != '@' {
        assert RemoveChar(handle, '@')[k] != '@';
      }
    }
    TitleKeepsOut(plain, '@');
    TitleKeepsOut(plain, '_');
    NameIsTitled(handle);
  }

  /** Position by position, the name is the title-cased handle without `@`
      and with `_` read as a space. */
  lemma NameIsTitled(handle: string)
    ensures TitledHandle(RemoveChar(handle, '@'), ChurchName(handle))
  {
    var bare := RemoveChar(handle, '@');
    var plain := ReplaceChar(bare, '_', ' ');
    var name := ChurchName(handle);
    assert name == Title(plain);
    assert |name| == |bare|;
    forall k | 0 <= k < |bare| ensures TitledAt(bare, name, k) {
      TitleAt(plain, false, k);
      assert plain[k] == if bare[k] == '_' then ' ' else bare[k];
      if k > 0 {
        assert plain[k - 1] == if bare[k - 1] == '_' then ' ' else bare[k - 1];
      }
    }
    assert TitledHandle(bare, name);
  }

  /** Every row has both cells, so that every church can be built. */
  predicate AllCellsPresent(rows: seq<InputRow>)
  {
    forall i :: 0 <= i < |rows| ==> rows[i].chatbot.Some? && rows[i].website.Some?
  }

  /** `load_churches_from_csv`: one church per row, in table order; a table
      that cannot be read, or a row with a missing cell, gives no churches at
      all. */
  method LoadChurches(table: Option<seq<InputRow>>) returns (churches: seq<Church>)
    ensures table.None? || !AllCellsPresent(table.value) ==> churches == []
    ensures table.Some? && AllCellsPresent(table.value) ==>
      |churches| == |table.value|
      && forall i :: 0 <= i < |churches| ==>
           churches[i] == ChurchOf(table.value[i].chatbot.value, table.value[i].website.value)
  {
    if table.None? {
      return [];
    }
    var rows := table.value;
    churches := [];
    var i := 0;
    while i < |rows|
      invariant 0 <= i <= |rows| && |churches| == i
      invariant forall k :: 0 <= k < i ==> rows[k].chatbot.Some? && rows[k].website.Some?
      invariant forall k :: 0 <= k < i ==> churches[k] == ChurchOf(rows[k].chatbot.value, rows[k].website.value)
    {
      if rows[i].chatbot.None? || rows[i].website.None? {
        return [];
      }
      churches := churches + [ChurchOf(rows[i].chatbot.value, rows[i].website.value)];
      i := i + 1;
    }
  }

  // ----- requests -----

  datatype HttpError = HttpError(status: int, detail: string)

  datatype EvaluationRequest = EvaluationRequest(churchIds: seq<string>, questions: seq<string>, force: bool)

  /** The checks of `start_evaluation`, churches first. */
  function Validate(request: EvaluationRequest): (err: Option<HttpError>)
    ensures err.None? <==> request.churchIds != [] && request.questions != []
  {
    if request.churchIds == [] then Some(HttpError(400, "No churches selected"))
    else if request.questions == [] then Some(HttpError(400, "No questions provided"))
    else None
  }

  /** The rows the background task evaluates: those whose handle was asked for. */
  function SelectRows(rows: seq<InputRow>, churchIds: seq<string>): seq<InputRow>
  {
    Filter(rows, (row: InputRow) => row.chatbot.Some? && row.chatbot.value in churchIds)
  }

  /** The selection keeps table order and holds exactly the rows whose handle
      was asked for. */
  lemma SelectRowsSpec(rows: seq<InputRow>, churchIds: seq<string>)
    ensures IsSubsequence(SelectRows(rows, churchIds), rows)
    ensures forall row :: row in SelectRows(rows, churchIds) <==>
      row in rows && row.chatbot.Some? && row.chatbot.value in churchIds
    ensures forall row :: multiset(SelectRows(rows, churchIds))[row] ==
              if row.chatbot.Some? && row.chatbot.value in churchIds then multiset(rows)[row] else 0
  {
    FilterIsSubsequence(rows, (row: InputRow) => row.chatbot.Some? && row.chatbot.value in churchIds);
    FilterMultiset(rows, (row: InputRow) => row.chatbot.Some? && row.chatbot.value in churchIds);
  }

  // ----- job records -----

  /** One graded answer as the service reports it. */
  datatype ResultRecord = ResultRecord(
    churchId: string,
    question: string,
    botAnswer: string,
    gptAnswer: string,
    grade: Field,
    softMatch: Field,
    justification: Field,
    timestamp: string)

  /** A job's record in the job table. */
  datatype JobRecord = JobRecord(
    jobId: string,
    status: Status,
    progress: int,
    results: seq<ResultRecord>,
    error: Option<string>)

  /** The message recorded when the church table cannot be read. */
  const READ_ERROR := "could not read the church table"

  function RunningRecord(jobId: string): (r: JobRecord)
    ensures r.jobId == jobId && r.status == Running && r.progress == 0 && r.results == [] && r.error == None
  {
    JobRecord(jobId, Running, 0, [], None)
  }

  function CompleteRecord(jobId: string, results: seq<ResultRecord>): (r: JobRecord)
    ensures r.jobId == jobId && r.status == Complete && r.progress == 100 && r.results == results && r.error == None
  {
    JobRecord(jobId, Complete, 100, results, None)
  }

  function ErrorRecord(jobId: string, message: string): (r: JobRecord)
    ensures r.jobId == jobId && r.status == Error && r.progress == 0 && r.results == [] && r.error == Some(message)
  {
    JobRecord(jobId, Error, 0, [], Some(message))
  }

  /** A report row as a result: the church id is the last `/` segment of the
      chatbot URL, and the question is always the batch's fixed question. */
  function ResultOf(row: ReportRow, timestamp: string): ResultRecord
  {
    ResultRecord(LastSegment(row.chatbotUrl, '/'), QUESTION, row.botAnswer, row.gptAnswer,
      row.grade, row.softMatch, row.justification, timestamp)
  }

  /** The conversion loop of `run_evaluation_background`: one result per report
      row, in order, each stamped with the clock's reading for it. */
  method ConvertResults(report: seq<ReportRow>, now: nat -> string) returns (results: seq<ResultRecord>)
    ensures |results| == |report|
    ensures forall i :: 0 <= i < |report| ==> results[i] == ResultOf(report[i], now(i))
    ensures forall i :: 0 <= i < |results| ==> results[i].question == QUESTION && '/' !in results[i].churchId
  {
    results := [];
    var i := 0;
    while i < |report|
      invariant 0 <= i <= |report| && |results| == i
      invariant forall k :: 0 <= k < i ==> results[k] == ResultOf(report[k], now(k))
    {
      results := results + [ResultOf(report[i], now(i))];
      i := i + 1;
    }
  }

  /** A row with a stripped `@` handle free of `/` is reported under the id of
      the church built from that handle, whatever the question asked. */
  lemma ResultChurchId(handle: string, website: string, w: World, timestamp: string)
    requires StartsWith(handle, "@") && '/' !in handle && PyStrip(handle) == handle
    requires ProcessRow(InputRow(Some(handle), Some(website)), w).Success?
    ensures var result := ResultOf(ProcessRow(InputRow(Some(handle), Some(website)), w).value, timestamp);
      result.churchId == ChurchOf(handle, website).id && result.question == QUESTION
  {
    ProcessRowSpec(InputRow(Some(handle), Some(website)), w);
    ChatbotUrlSpec(handle);
  }

  /** A start request the service accepted: the task it scheduled. */
  datatype Task = Task(jobId: string, churchIds: seq<string>, questions: seq<string>)

  /** The job table and the background tasks scheduled so far. */
  class JobStore {
    var jobs: map<string, JobRecord>
    var scheduled: seq<Task>

    constructor ()
      ensures jobs == map[] && scheduled == []
    {
      jobs := map[];
      scheduled := [];
    }

    /** `get_results`: the stored record, or 404 for an unknown id. */
    function GetResults(jobId: string): (r: Result<JobRecord, HttpError>)
      reads this
      ensures jobId in jobs <==> r.Success?
      ensures r.Success? ==> r.value == jobs[jobId]
      ensures r.Failure? ==> r.error == HttpError(404, "Job not found")
    {
      if jobId in jobs then Success(jobs[jobId]) else Failure(HttpError(404, "Job not found"))
    }

    /** `start_evaluation`, with `jobId` the fresh id the service draws. A
        rejected request schedules nothing; an accepted one schedules its task
        and answers with the id. No record is written yet. */
    method StartEvaluation(request: EvaluationRequest, jobId: string) returns (response: Result<string, HttpError>)
      modifies this
      ensures request.churchIds == [] ==> response == Failure(HttpError(400, "No churches selected"))
      ensures request.churchIds != [] && request.questions == [] ==>
        response == Failure(HttpError(400, "No questions provided"))
      ensures response.Success? <==> request.churchIds != [] && request.questions != []
      ensures response.Success? ==>
        response.value == jobId && scheduled == old(scheduled) + [Task(jobId, request.churchIds, request.questions)]
      ensures response.Failure? ==> scheduled == old(scheduled)
      ensures jobs == old(jobs)
    {
      var err := Validate(request);
      if err.Some? {
        return Failure(err.value);
      }
      scheduled := scheduled + [Task(jobId, request.churchIds, request.questions)];
      return Success(jobId);
    }

    /** `run_evaluation_background`. `trace` lists the records written for the
        job, in order: running and then complete or error, or error alone when
        the table cannot be read. Only the job's own entry changes. */
    method RunEvaluationBackground(jobId: string, churchIds: seq<string>, questions: seq<string>,
                                   table: Option<seq<InputRow>>, w: World, now: nat -> string)
      returns (trace: seq<JobRecord>)
      modifies this
      ensures |trace| > 0 && jobs == old(jobs)[jobId := trace[|trace| - 1]]
      ensures scheduled == old(scheduled)
      ensures table.None? ==> trace == [ErrorRecord(jobId, READ_ERROR)]
      ensures table.Some? ==> |trace| == 2 && trace[0] == RunningRecord(jobId)
      ensures table.Some? ==>
        var selected := SelectRows(table.value, churchIds);
        (trace[1].status == Complete <==> forall i :: 0 <= i < |selected| ==> ProcessRow(selected[i], w).Success?)
      ensures table.Some? && trace[1].status == Complete ==>
        var selected := SelectRows(table.value, churchIds);
        && trace[1] == CompleteRecord(jobId, trace[1].results)
        && |trace[1].results| == |selected|
        && forall i :: 0 <= i < |selected| ==>
             trace[1].results[i] == ResultOf(ProcessRow(selected[i], w).value, now(i))
      ensures table.Some? && trace[1].status != Complete ==>
        var selected := SelectRows(table.value, churchIds);
        exists k :: 0 <= k < |selected| && ProcessRow(selected[k], w).Failure?
          && trace[1] == ErrorRecord(jobId, ProcessRow(selected[k], w).error)
          && forall i :: 0 <= i < k ==> ProcessRow(selected[i], w).Success?
    {
      if table.None? {
        var failed := ErrorRecord(jobId, READ_ERROR);
        jobs := jobs[jobId := failed];
        return [failed];
      }
      var selected := SelectRows(table.value, churchIds);
      var running := RunningRecord(jobId);
      jobs := jobs[jobId := running];
      var report := RunBatch(selected, w);
      var last: JobRecord;
      if report.Failure? {
        last := ErrorRecord(jobId, report.error);
      } else {
        var results := ConvertResults(report.value, now);
        last := CompleteRecord(jobId, results);
      }
      jobs := jobs[jobId := last];
      trace := [running, last];
    }
  }
}
