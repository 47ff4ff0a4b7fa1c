/** One iteration of the worker loop: claim the next pending job, dispatch
    on its name, then mark it completed or failed. The PDF processor is a
    parameter giving the outcome of processing an upload id. */
module Worker {
  import opened Wrappers
  import opened Queue

  const ExtractPdf := "extract_pdf"

  /** How `pdfExtract.process(uploadId)` ended: it returned, or it threw an
      error carrying a message. */
  datatype Outcome = Returned | Threw(message: string)

  /** What one iteration did: slept with nothing to claim, or ran a job. */
  datatype Iteration = Slept | Done(job: Job) | FailedWith(job: Job, message: string)

  /** `const { uploadId } = job.payload` */
  function UploadIdOf(job: Job): (uploadId: Option<string>)
    ensures uploadId.Some? <==> "uploadId" in job.payload
  {
    if "uploadId" in job.payload then Some(job.payload["uploadId"]) else None
  }

  /** The outcome of running the claimed job: an unknown name throws. */
  function Run(job: Job, process: Option<string> -> Outcome): (outcome: Outcome)
    ensures job.name != ExtractPdf ==> outcome == Threw("Unknown job type: " + job.name)
    ensures job.name == ExtractPdf ==> outcome == process(UploadIdOf(job))
  {
    if job.name == ExtractPdf then process(UploadIdOf(job))
    else Threw("Unknown job type: " + job.name)
  }

  /** The job list and what happened, after one iteration. */
  function StepSpec(jobs: seq<Job>, process: Option<string> -> Outcome, claimNow: string, markNow: string)
    : (r: (seq<Job>, Iteration))
    ensures r.1.Slept? <==> forall k :: 0 <= k < |jobs| ==> jobs[k].status != Pending
    ensures r.1.Slept? ==> r.0 == jobs
    ensures !r.1.Slept? ==> Some(r.1.job) == AfterClaim(jobs, claimNow).1
    ensures r.1.Done? ==> Run(r.1.job, process) == Returned
    ensures r.1.FailedWith? ==> Run(r.1.job, process) == Threw(r.1.message)
  {
    var (claimed, job) := AfterClaim(jobs, claimNow);
    if job.None? then (jobs, Slept)
    else match Run(job.value, process)
      case Returned => (AfterComplete(claimed, job.value.id, markNow), Done(job.value))
      case Threw(m) => (AfterFail(claimed, job.value.id, m, markNow), FailedWith(job.value, m))
  }

  /** One pass of the `while (true)` body; the sleep is a no-op. */
  method Step(q: JobQueue, process: Option<string> -> Outcome, claimNow: string, markNow: string)
    returns (it: Iteration)
    modifies q
    ensures it == StepSpec(ReadQueue(old(q.store)), process, claimNow, markNow).1
    ensures it.Slept? ==> q.store == old(q.store)
    ensures !it.Slept? ==> q.store == JobList(StepSpec(ReadQueue(old(q.store)), process, claimNow, markNow).0)
  {
    ghost var jobs := ReadQueue(q.store);
    var job := q.ClaimNextPending(claimNow);
    if job.None? {
      return Slept;
    }
    var claimed := job.value;
    assert claimed in ReadQueue(q.store) by {
      var i :| 0 <= i < |jobs| && AfterClaim(jobs, claimNow).0 == jobs[i := claimed];
      assert ReadQueue(q.store)[i] == claimed;
    }
    var outcome := if claimed.name == ExtractPdf then process(UploadIdOf(claimed))
                   else Threw("Unknown job type: " + claimed.name);
    match outcome
    case Returned =>
      q.MarkCompleted(claimed.id, markNow);
      it := Done(claimed);
    case Threw(m) =>
      q.MarkFailed(claimed.id, m, markNow);
      it := FailedWith(claimed, m);
  }

  /** The claimed job once the outcome of running it is marked. */
  function Finished(job: Job, outcome: Outcome, now: string): (done: Job)
    ensures done.id == job.id && done.name == job.name && done.payload == job.payload
    ensures outcome.Returned? ==> done.status == Completed && done.error == None && done.attempts == job.attempts
    ensures outcome.Threw? ==>
      done.status == Failed && done.error == Some(outcome.message) && done.attempts == job.attempts + 1
  {
    match outcome
    case Returned => job.(status := Completed, updatedAt := now, error := None)
    case Threw(m) => job.(status := Failed, attempts := job.attempts + 1, updatedAt := now, error := Some(m))
  }

  /** With unique ids an iteration that claims a job rewrites that job, the
      first pending one, and nothing else. */
  lemma StepRewritesClaimedJob(jobs: seq<Job>, process: Option<string> -> Outcome, claimNow: string, markNow: string)
    requires UniqueIds(jobs) && FirstPending(jobs).Some?
    ensures var i := FirstPending(jobs).value;
      var c := jobs[i].(status := Processing, updatedAt := claimNow);
      StepSpec(jobs, process, claimNow, markNow).0 == jobs[i := Finished(c, Run(c, process), markNow)]
  {
    var i := FirstPending(jobs).value;
    var c := jobs[i].(status := Processing, updatedAt := claimNow);
    var claimed := jobs[i := c];
    assert AfterClaim(jobs, claimNow) == (claimed, Some(c)) by {
      ClaimTakes(jobs, i, claimNow);
    }
    var outcome := Run(c, process);
    assert StepSpec(jobs, process, claimNow, markNow).0 == MarkOutcome(claimed, c.id, outcome, markNow);
    MarkRewritesJob(jobs, i, c, outcome, markNow);
  }

  /** `markCompleted` or `markFailed`, as the outcome says. */
  function MarkOutcome(jobs: seq<Job>, id: string, outcome: Outcome, now: string): (r: seq<Job>)
    ensures outcome.Returned? ==> r == AfterComplete(jobs, id, now)
    ensures outcome.Threw? ==> r == AfterFail(jobs, id, outcome.message, now)
  {
    match outcome
    case Returned => AfterComplete(jobs, id, now)
    case Threw(m) => AfterFail(jobs, id, m, now)
  }

  /** Marking the job claimed at index i, whose id no earlier job has,
      rewrites index i only. */
  lemma MarkRewritesJob(jobs: seq<Job>, i: nat, c: Job, outcome: Outcome, now: string)
    requires UniqueIds(jobs) && i < |jobs| && c.id == jobs[i].id
    ensures MarkOutcome(jobs[i := c], c.id, outcome, now) == jobs[i := Finished(c, outcome, now)]
  {
    var claimed := jobs[i := c];
    assert forall k :: 0 <= k < i ==> claimed[k].id != c.id;
    UpdateTwice(jobs, i, c, Finished(c, outcome, now));
    match outcome
    case Returned =>
      CompleteAt(claimed, i, c, now);
    case Threw(m) =>
      FailAt(claimed, i, c, m, now);
  }

  /** With unique ids an iteration changes at most one job, the one it
      claimed: the first pending job, which ends completed or failed. */
  lemma StepTouchesOnlyClaimedJob(jobs: seq<Job>, process: Option<string> -> Outcome, claimNow: string, markNow: string)
    requires UniqueIds(jobs)
    ensures var (after, it) := StepSpec(jobs, process, claimNow, markNow);
      |after| == |jobs|
      && (!it.Slept? ==>
            FirstPending(jobs).Some?
            && var i := FirstPending(jobs).value;
            after[i].id == jobs[i].id
            && after[i].status == (if it.Done? then Completed else Failed)
            && forall k :: 0 <= k < |jobs| && k != i ==> after[k] == jobs[k])
  {
    if FirstPending(jobs).Some? {
      StepRewritesClaimedJob(jobs, process, claimNow, markNow);
    }
  }

  /** A pending `extract_pdf` job whose processing returns ends completed. */
  lemma ReturningExtractionCompletes(jobs: seq<Job>, process: Option<string> -> Outcome, claimNow: string, markNow: string, i: nat)
    requires UniqueIds(jobs)
    requires i < |jobs| && jobs[i].status == Pending
    requires forall k :: 0 <= k < i ==> jobs[k].status != Pending
    requires jobs[i].name == ExtractPdf && process(UploadIdOf(jobs[i])) == Returned
    ensures var (after, it) := StepSpec(jobs, process, claimNow, markNow);
      it.Done? && after[i].status == Completed && after[i].error == None
  {
    Queue.ClaimTakes(jobs, i, claimNow);
    StepTouchesOnlyClaimedJob(jobs, process, claimNow, markNow);
  }

  /** A pending `extract_pdf` job whose processing throws ends failed with
      that message and one more attempt, and the loop goes on. */
  lemma ThrowingExtractionFails(jobs: seq<Job>, process: Option<string> -> Outcome, claimNow: string, markNow: string, i: nat)
    requires UniqueIds(jobs)
    requires i < |jobs| && jobs[i].status == Pending
    requires forall k :: 0 <= k < i ==> jobs[k].status != Pending
    requires jobs[i].name == ExtractPdf && process(UploadIdOf(jobs[i])).Threw?
    ensures var (after, it) := StepSpec(jobs, process, claimNow, markNow);
      it.FailedWith? && after[i].status == Failed
      && after[i].error == Some(process(UploadIdOf(jobs[i])).message)
      && after[i].attempts == jobs[i].attempts + 1
  {
    Queue.ClaimTakes(jobs, i, claimNow);
    StepTouchesOnlyClaimedJob(jobs, process, claimNow, markNow);
  }

  /** A pending job with any other name ends failed with the unknown-type
      message and one more attempt. */
  lemma UnknownJobFails(jobs: seq<Job>, process: Option<string> -> Outcome, claimNow: string, markNow: string, i: nat)
    requires UniqueIds(jobs)
    requires i < |jobs| && jobs[i].status == Pending
    requires forall k :: 0 <= k < i ==> jobs[k].status != Pending
    requires jobs[i].name != ExtractPdf
    ensures var (after, it) := StepSpec(jobs, process, claimNow, markNow);
      it.FailedWith? && after[i].status == Failed
      && after[i].error == Some("Unknown job type: " + jobs[i].name)
      && after[i].attempts == jobs[i].attempts + 1
  {
    Queue.ClaimTakes(jobs, i, claimNow);
    StepTouchesOnlyClaimedJob(jobs, process, claimNow, markNow);
  }
}
