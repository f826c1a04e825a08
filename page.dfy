/** The dashboard page: the state it keeps, the start-evaluation handler and
    the polling of a running job (src/app/page.tsx). Network replies arrive as
    method parameters (`None` for a failed request); a timer tick is a call of
    `Tick`. */
module Page {
  import opened Wrappers
  import opened Types
  import SummaryHeader

  /** The question the question list starts with. */
  const DEFAULT_QUESTION := "What time is service?"

  /** A job the polling effect starts an interval for. */
  predicate Pollable(job: Option<JobStatus>)
  {
    job.Some? && job.value.status == Running && job.value.jobId != ""
  }

  /** The dependencies of the polling effect, `[job?.status, job?.jobId]`. */
  datatype Deps = Deps(status: Option<Status>, jobId: Option<string>)

  function DepsOf(job: Option<JobStatus>): Deps
  {
    if job.Some? then Deps(Some(job.value.status), Some(job.value.jobId)) else Deps(None, None)
  }

  /** What a press of the start button did. */
  datatype StartOutcome = NoChurchSelected | NoQuestion | Started(jobId: string) | StartFailed

  /** A start request was sent for this outcome. */
  predicate Requested(outcome: StartOutcome)
  {
    outcome.Started? || outcome.StartFailed?
  }

  /** The job a successful start shows until the first snapshot arrives. */
  function InitialJob(jobId: string): (job: JobStatus)
    ensures job.jobId == jobId && job.status == Running && job.progress == 0 && job.results == []
    ensures job.error == None
  {
    JobStatus(jobId, Running, 0, [], None)
  }

  class Home {
    var churches: seq<Church>
    var selected: seq<string>
    var questions: seq<string>
    var job: Option<JobStatus>
    var isLoading: bool
    var isLoadingChurches: bool
    /** An interval is set and will fetch the job on its next tick. */
    var polling: bool

    /** An interval only runs for a running job with an id. */
    ghost predicate Valid()
      reads this
    {
      polling ==> Pollable(job)
    }

    constructor ()
      ensures Valid()
      ensures churches == [] && selected == [] && questions == [DEFAULT_QUESTION]
      ensures job == None && !isLoading && isLoadingChurches && !polling
    {
      churches := [];
      selected := [];
      questions := [DEFAULT_QUESTION];
      job := None;
      isLoading := false;
      isLoadingChurches := true;
      polling := false;
    }

    /** `visibleResults`. */
    function VisibleResults(): (results: seq<EvaluationResult>)
      reads this
      ensures job.Some? ==> results == job.value.results
      ensures job.None? ==> results == []
    {
      if job.Some? then job.value.results else []
    }

    /** The disabled condition of the start button: an enabled button has a
        church and a question to send, so it passes both guards of the
        handler. */
    predicate StartDisabled()
      reads this
      ensures !StartDisabled() ==> |selected| != 0 && |questions| != 0
    {
      isLoading || |selected| == 0 || |questions| == 0 || isLoadingChurches
    }

    /** The mount effect: the church list arrives, or the request fails and the
        list stays as it was; either way loading ends. */
    method ChurchesLoaded(reply: Option<seq<Church>>)
      requires Valid()
      modifies this
      ensures Valid()
      ensures churches == (if reply.Some? then reply.value else old(churches))
      ensures !isLoadingChurches
      ensures selected == old(selected) && questions == old(questions) && job == old(job)
      ensures isLoading == old(isLoading) && polling == old(polling)
    {
      if reply.Some? {
        churches := reply.value;
      }
      isLoadingChurches := false;
    }

    /** The selector's `onSelectionChange`. */
    method SetSelected(ids: seq<string>)
      requires Valid()
      modifies this
      ensures Valid()
      ensures selected == ids
      ensures churches == old(churches) && questions == old(questions) && job == old(job)
      ensures isLoading == old(isLoading) && isLoadingChurches == old(isLoadingChurches)
      ensures polling == old(polling)
    {
      selected := ids;
    }

    /** The question editor's `onQuestionsChange`. */
    method SetQuestions(qs: seq<string>)
      requires Valid()
      modifies this
      ensures Valid()
      ensures questions == qs
      ensures churches == old(churches) && selected == old(selected) && job == old(job)
      ensures isLoading == old(isLoading) && isLoadingChurches == old(isLoadingChurches)
      ensures polling == old(polling)
    {
      questions := qs;
    }

    /** The polling effect re-running after the job changed from `before`:
        when its dependencies changed, the old interval is cleared and a new
        one is set for a pollable job; otherwise the interval is left alone. */
    method Rerun(before: Option<JobStatus>)
      modifies this
      ensures polling == (if DepsOf(before) != DepsOf(job) then Pollable(job) else old(polling))
      ensures churches == old(churches) && selected == old(selected) && questions == old(questions)
      ensures job == old(job) && isLoading == old(isLoading) && isLoadingChurches == old(isLoadingChurches)
    {
      if DepsOf(before) != DepsOf(job) {
        polling := Pollable(job);
      }
    }

    /** `handleStartEvaluation`. `reply` is the start request's answer: the
        new job id, or `None` when the request failed. */
    method StartEvaluation(reply: Option<string>) returns (outcome: StartOutcome)
      requires Valid()
      modifies this
      ensures Valid()
      // the guards, selection first; a rejected start changes nothing
      ensures old(|selected|) == 0 ==> outcome == NoChurchSelected
      ensures old(|selected|) != 0 && old(|questions|) == 0 ==> outcome == NoQuestion
      ensures !Requested(outcome) ==> unchanged(this)
      // an enabled button always sends the request
      ensures !old(StartDisabled()) ==> Requested(outcome)
      ensures Requested(outcome) <==> old(|selected|) != 0 && old(|questions|) != 0
      // a sent request replaces the job on success and keeps it on failure
      ensures Requested(outcome) && reply.Some? ==>
                outcome == Started(reply.value) && job == Some(InitialJob(reply.value)) && VisibleResults() == []
      ensures Requested(outcome) && reply.None? ==> outcome == StartFailed && job == old(job)
      ensures Requested(outcome) ==> !isLoading
      ensures Requested(outcome) ==>
                polling == (if DepsOf(old(job)) != DepsOf(job) then Pollable(job) else old(polling))
      ensures churches == old(churches) && selected == old(selected) && questions == old(questions)
      ensures isLoadingChurches == old(isLoadingChurches)
    {
      if |selected| == 0 {
        return NoChurchSelected;
      }
      if |questions| == 0 {
        return NoQuestion;
      }
      isLoading := true;
      var before := job;
      if reply.Some? {
        job := Some(InitialJob(reply.value));
        outcome := Started(reply.value);
      } else {
        outcome := StartFailed;
      }
      isLoading := false;
      Rerun(before);
    }

    /** One tick of the polling interval. `reply` is the answer to the results
        request: a job snapshot, or `None` when the request failed. Returns the
        id fetched, or `None` when no interval was running and nothing was
        fetched. */
    method Tick(reply: Option<JobStatus>) returns (fetched: Option<string>)
      requires Valid()
      modifies this
      ensures Valid()
      ensures !old(polling) ==> fetched == None && unchanged(this)
      ensures old(polling) ==> fetched == Some(old(job).value.jobId)
      // a failed fetch stops polling and keeps the job, still running
      ensures old(polling) && reply.None? ==> job == old(job) && !polling && job.value.status == Running
      // a snapshot replaces the whole job; polling goes on only while it runs
      ensures old(polling) && reply.Some? ==> job == reply && polling == Pollable(reply)
      ensures churches == old(churches) && selected == old(selected) && questions == old(questions)
      ensures isLoading == old(isLoading) && isLoadingChurches == old(isLoadingChurches)
    {
      if !polling {
        return None;
      }
      fetched := Some(job.value.jobId);
      if reply.None? {
        polling := false;
      } else {
        var before := job;
        job := reply;
        if reply.value.status != Running {
          polling := false;
        }
        Rerun(before);
      }
    }
  }

  /** A start followed by a running snapshot and a complete one: two fetches,
      the final job is the complete snapshot, and later ticks fetch nothing. */
  method RunToCompletion(jobId: string, churchIds: seq<string>, results: seq<EvaluationResult>)
    returns (fetches: seq<Option<string>>, finalJob: Option<JobStatus>, shown: seq<EvaluationResult>)
    requires jobId != "" && churchIds != []
    ensures fetches == [Some(jobId), Some(jobId), None]
    ensures finalJob == Some(JobStatus(jobId, Complete, 100, results, None))
    ensures shown == results
  {
    var home := new Home();
    home.SetSelected(churchIds);
    var started := home.StartEvaluation(Some(jobId));
    var f1 := home.Tick(Some(JobStatus(jobId, Running, 50, [], None)));
    var f2 := home.Tick(Some(JobStatus(jobId, Complete, 100, results, None)));
    var f3 := home.Tick(Some(JobStatus(jobId, Running, 0, [], None)));
    fetches := [f1, f2, f3];
    finalJob := home.job;
    shown := home.VisibleResults();
  }

  /** An error snapshot ends polling and its message is kept in the job. */
  method RunToError(jobId: string, churchIds: seq<string>, message: string)
    returns (fetches: seq<Option<string>>, finalJob: Option<JobStatus>)
    requires jobId != "" && churchIds != []
    ensures fetches == [Some(jobId), None]
    ensures finalJob.Some? && finalJob.value.status == Error && finalJob.value.error == Some(message)
  {
    var home := new Home();
    home.SetSelected(churchIds);
    var started := home.StartEvaluation(Some(jobId));
    var f1 := home.Tick(Some(JobStatus(jobId, Error, 0, [], Some(message))));
    var f2 := home.Tick(Some(JobStatus(jobId, Running, 0, [], None)));
    fetches := [f1, f2];
    finalJob := home.job;
  }

  /** A failed fetch leaves the job running at its last progress, and no
      further fetch happens. */
  method FetchFailure(jobId: string, churchIds: seq<string>)
    returns (fetches: seq<Option<string>>, finalJob: Option<JobStatus>)
    requires jobId != "" && churchIds != []
    ensures fetches == [Some(jobId), Some(jobId), None]
    ensures finalJob == Some(JobStatus(jobId, Running, 50, [], None))
  {
    var home := new Home();
    home.SetSelected(churchIds);
    var started := home.StartEvaluation(Some(jobId));
    var f1 := home.Tick(Some(JobStatus(jobId, Running, 50, [], None)));
    var f2 := home.Tick(None);
    var f3 := home.Tick(Some(JobStatus(jobId, Complete, 100, [], None)));
    fetches := [f1, f2, f3];
    finalJob := home.job;
  }

  /** An interval only runs while the summary header shows the progress card,
      and a freshly started job shows it at once. */
  lemma PollingShowsProgress(h: Home, jobId: string)
    requires h.Valid()
    ensures h.polling ==> SummaryHeader.ShowsProgress(h.job)
    ensures SummaryHeader.ShowsProgress(Some(InitialJob(jobId)))
  {
  }
}
