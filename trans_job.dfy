/**
 * `trans_job`: a translation request split into one translation task per source
 * sentence. The tasks report back when they finish; the job counts the finished,
 * canceled and failed tasks, calls its job-done notifier when the last task is done,
 * and sums the task results up into one status.
 *
 * The tasks themselves (`trans_task`), the JSON request and response objects and the
 * lock are not part of this model: a finished task is given by the status it reports,
 * and the notifier by a flag saying whether it was set.
 */
module TransJobs {
  import opened Wrappers

  /** `status_code`. */
  datatype StatusCode = ResultUndefined | ResultUnknown | ResultOk | ResultError | ResultCanceled | ResultPartial

  /** A translation task: one sentence of the job's text, with the job's ids and priority. */
  datatype TransTask = TransTask(sessionId: nat, jobId: nat, priority: int, sourceText: string)

  /** What a finished task has to say: its translation, status and status message. */
  datatype TaskResult = TaskResult(targetText: string, status: StatusCode, statusMsg: string, transInfo: string)

  /** One sentence of the job's response; the translation info only when asked for and translated. */
  datatype SentData = SentData(transText: string, status: StatusCode, statusMsg: string, transInfo: string)

  /** `trans_job_resp_out`: the job id, the sentences in task order, and the job's status. */
  datatype JobResponse = JobResponse(jobId: nat, sentData: seq<SentData>, status: StatusCode, statusMsg: string)

  const MSG_OK := "The text was fully translated!"
  const MSG_CANCELED := "The translation job has been canceled!"
  const MSG_PARTIAL := "The text was partially translated!"
  const NO_NOTIFIER_MSG := "The translation job's result setting function is not set!"

  /** The number of reports in `s` equal to `c`. */
  function Count(s: seq<StatusCode>, c: StatusCode): (n: nat)
    ensures n <= |s|
  {
    if s == [] then 0
    else Count(s[..|s| - 1], c) + (if s[|s| - 1] == c then 1 else 0)
  }

  /** Counting after one more report. */
  lemma CountAppend(s: seq<StatusCode>, x: StatusCode, c: StatusCode)
    ensures Count(s + [x], c) == Count(s, c) + (if x == c then 1 else 0)
  {
    assert (s + [x])[..|s|] == s;
  }

  /** No report is `c` exactly when the count of `c` is 0. */
  lemma {:induction false} CountZero(s: seq<StatusCode>, c: StatusCode)
    ensures Count(s, c) == 0 <==> forall i :: 0 <= i < |s| ==> s[i] != c
  {
    if s != [] {
      var p := s[..|s| - 1];
      CountZero(p, c);
      assert forall i :: 0 <= i < |p| ==> s[i] == p[i];
    }
  }

  /** Every report is `c` exactly when the count of `c` is the number of reports. */
  lemma {:induction false} CountAll(s: seq<StatusCode>, c: StatusCode)
    ensures Count(s, c) == |s| <==> forall i :: 0 <= i < |s| ==> s[i] == c
  {
    if s != [] {
      var p := s[..|s| - 1];
      CountAll(p, c);
      assert forall i :: 0 <= i < |p| ==> s[i] == p[i];
    }
  }

  /**
   * `set_job_status` on the counters: OK with no canceled and no failed task, CANCELED
   * when every finished task was canceled, PARTIAL otherwise.
   */
  function JobStatus(numCancel: nat, numError: nat, numDone: nat): (r: (StatusCode, string))
    ensures r.0 == ResultOk || r.0 == ResultCanceled || r.0 == ResultPartial
    ensures r.1 == (match r.0 case ResultOk => MSG_OK case ResultCanceled => MSG_CANCELED case _ => MSG_PARTIAL)
  {
    if numCancel == 0 && numError == 0 then (ResultOk, MSG_OK)
    else if numCancel == numDone then (ResultCanceled, MSG_CANCELED)
    else (ResultPartial, MSG_PARTIAL)
  }

  /**
   * The job's status in terms of the tasks' reports: OK iff no task was canceled or
   * failed; CANCELED iff there are reports and all of them are cancellations;
   * PARTIAL iff some task was canceled or failed but not every task was canceled.
   */
  lemma JobStatusOfReports(reports: seq<StatusCode>)
    ensures var st := JobStatus(Count(reports, ResultCanceled), Count(reports, ResultError), |reports|).0;
            && (st == ResultOk <==>
                  forall i :: 0 <= i < |reports| ==> reports[i] != ResultCanceled && reports[i] != ResultError)
            && (st == ResultCanceled <==>
                  |reports| > 0 && forall i :: 0 <= i < |reports| ==> reports[i] == ResultCanceled)
            && (st == ResultPartial <==>
                  (exists i :: 0 <= i < |reports| && (reports[i] == ResultCanceled || reports[i] == ResultError))
                  && exists j :: 0 <= j < |reports| && reports[j] != ResultCanceled)
  {
    CountZero(reports, ResultCanceled);
    CountZero(reports, ResultError);
    CountAll(reports, ResultCanceled);
  }

  /** The response entry of one task. */
  function SentDataOf(isTransInfo: bool, r: TaskResult): (d: SentData)
    ensures d.transText == r.targetText && d.status == r.status && d.statusMsg == r.statusMsg
    ensures isTransInfo && r.status == ResultOk ==> d.transInfo == r.transInfo
    ensures !isTransInfo || r.status != ResultOk ==> d.transInfo == ""
  {
    SentData(r.targetText, r.status, r.statusMsg,
             if isTransInfo && r.status == ResultOk then r.transInfo else "")
  }

  class TransJob {
    const sessionId: nat
    const jobId: nat
    /** `m_is_trans_info`: whether the response carries the translation info. */
    const isTransInfo: bool
    /** `m_tasks`: one task per source sentence. */
    var tasks: seq<TransTask>
    /** `m_done_tasks_count`. */
    var doneCount: nat
    /** `m_num_cancel_tasks`. */
    var numCancel: nat
    /** `m_num_error_tasks`. */
    var numError: nat
    /** Whether `m_notify_job_done_func` was set. */
    var hasNotifier: bool
    /** The statuses the tasks reported, in the order they reported. */
    ghost var reports: seq<StatusCode>

    /** The counters count the reports. */
    ghost predicate Valid()
      reads this
    {
      && doneCount == |reports|
      && numCancel == Count(reports, ResultCanceled)
      && numError == Count(reports, ResultError)
    }

    /** The constructor: a task per sentence of `sourceText`, in order, and no task done. */
    constructor (sessionId: nat, jobId: nat, isTransInfo: bool, priority: int, sourceText: seq<string>)
      ensures Valid() && reports == [] && !hasNotifier
      ensures this.sessionId == sessionId && this.jobId == jobId && this.isTransInfo == isTransInfo
      ensures |tasks| == |sourceText|
      ensures forall i :: 0 <= i < |sourceText| ==> tasks[i] == TransTask(sessionId, jobId, priority, sourceText[i])
    {
      this.sessionId, this.jobId, this.isTransInfo := sessionId, jobId, isTransInfo;
      doneCount, numCancel, numError, hasNotifier := 0, 0, 0, false;
      reports := [];
      var ts: seq<TransTask> := [];
      for i := 0 to |sourceText|
        invariant |ts| == i
        invariant forall j :: 0 <= j < i ==> ts[j] == TransTask(sessionId, jobId, priority, sourceText[j])
      {
        ts := ts + [TransTask(sessionId, jobId, priority, sourceText[i])];
      }
      tasks := ts;
    }

    /** `set_done_job_notifier`. */
    method SetDoneJobNotifier()
      modifies this
      ensures hasNotifier
      ensures tasks == old(tasks) && doneCount == old(doneCount) && numCancel == old(numCancel)
      ensures numError == old(numError) && reports == old(reports)
    {
      hasNotifier := true;
    }

    /** `is_job_finished`: every task has reported. */
    predicate IsJobFinished()
      reads this
      ensures Valid() ==> (IsJobFinished() <==> |reports| == |tasks|)
    {
      doneCount == |tasks|
    }

    /**
     * `notify_task_done` of a task that finished with `status`: counts it as done, and
     * as canceled or failed by its status; `notified` says whether the job-done
     * notifier was called, which is when the count of done tasks reaches the number of
     * tasks. When that point is reached without the notifier set, the task is still
     * counted but the call fails.
     */
    method NotifyTaskDone(status: StatusCode) returns (r: Result<bool>)
      requires Valid()
      modifies this
      ensures Valid() && reports == old(reports) + [status]
      ensures doneCount == old(doneCount) + 1
      ensures numCancel == old(numCancel) + (if status == ResultCanceled then 1 else 0)
      ensures numError == old(numError) + (if status == ResultError then 1 else 0)
      ensures r.Err? <==> |reports| == |tasks| && !hasNotifier
      ensures r.Err? ==> r.msg == NO_NOTIFIER_MSG
      ensures r.Ok? ==> (r.value <==> |reports| == |tasks|)
      ensures tasks == old(tasks) && hasNotifier == old(hasNotifier)
    {
      CountAppend(reports, status, ResultCanceled);
      CountAppend(reports, status, ResultError);
      match status {
        case ResultError => numError := numError + 1;
        case ResultCanceled => numCancel := numCancel + 1;
        case _ =>
      }
      doneCount := doneCount + 1;
      reports := reports + [status];
      if IsJobFinished() && !hasNotifier {
        r := Err(NO_NOTIFIER_MSG);
      } else {
        r := Ok(IsJobFinished());
      }
    }

    /**
     * `collect_job_results` given what each task has to say: one sentence entry per
     * task in task order, and the job's status from the counters.
     */
    method CollectJobResults(results: seq<TaskResult>) returns (resp: JobResponse)
      requires |results| == |tasks|
      ensures resp.jobId == jobId
      ensures |resp.sentData| == |tasks|
      ensures forall i :: 0 <= i < |results| ==> resp.sentData[i] == SentDataOf(isTransInfo, results[i])
      ensures (resp.status, resp.statusMsg) == JobStatus(numCancel, numError, doneCount)
    {
      var sents: seq<SentData> := [];
      for i := 0 to |results|
        invariant |sents| == i
        invariant forall j :: 0 <= j < i ==> sents[j] == SentDataOf(isTransInfo, results[j])
      {
        sents := sents + [SentDataOf(isTransInfo, results[i])];
      }
      var st := JobStatus(numCancel, numError, doneCount);
      resp := JobResponse(jobId, sents, st.0, st.1);
    }
  }
}
