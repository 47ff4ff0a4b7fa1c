/** The file-backed job queue: a JSON list of jobs that every operation reads
    whole, changes and writes back. The file is the `store` field of
    `JobQueue`; ids and timestamps are passed in. */
module Queue {
  import opened Wrappers

  datatype Status = Pending | Processing | Completed | Failed

  datatype Job = Job(
    id: string,
    name: string,
    payload: map<string, string>,
    status: Status,
    attempts: nat,
    error: Option<string>,
    enqueuedAt: string,
    updatedAt: string)

  /** What the queue file holds: nothing yet, text that is not JSON, JSON
      that is not an array, or the job list. */
  datatype Stored = Absent | Unparsable | NotAList | JobList(jobs: seq<Job>)

  /** `readQueue`: anything but a job list reads as the empty list. */
  function ReadQueue(s: Stored): (jobs: seq<Job>)
    ensures s.JobList? ==> jobs == s.jobs
    ensures !s.JobList? ==> jobs == []
  {
    if s.JobList? then s.jobs else []
  }

  /** `list.findIndex(j => j.status === 'pending')` */
  function FirstPending(jobs: seq<Job>): (r: Option<nat>)
    ensures r.None? <==> forall k :: 0 <= k < |jobs| ==> jobs[k].status != Pending
    ensures r.Some? ==>
      r.value < |jobs| && jobs[r.value].status == Pending
      && forall k :: 0 <= k < r.value ==> jobs[k].status != Pending
  {
    if jobs == [] then None
    else if jobs[0].status == Pending then Some(0)
    else
      var r := FirstPending(jobs[1..]);
      if r.Some? then Some(r.value + 1) else None
  }

  /** `list.findIndex(j => j.id === id)` */
  function IndexOfId(jobs: seq<Job>, id: string): (r: Option<nat>)
    ensures r.None? <==> forall k :: 0 <= k < |jobs| ==> jobs[k].id != id
    ensures r.Some? ==>
      r.value < |jobs| && jobs[r.value].id == id
      && forall k :: 0 <= k < r.value ==> jobs[k].id != id
  {
    if jobs == [] then None
    else if jobs[0].id == id then Some(0)
    else
      var r := IndexOfId(jobs[1..], id);
      if r.Some? then Some(r.value + 1) else None
  }

  /** Two job lists hold the same jobs in the same places: only status,
      attempts, error and the update time may differ. */
  predicate SameJobs(a: seq<Job>, b: seq<Job>)
  {
    |a| == |b|
    && forall k :: 0 <= k < |a| ==>
      a[k].id == b[k].id && a[k].name == b[k].name && a[k].payload == b[k].payload
      && a[k].enqueuedAt == b[k].enqueuedAt
  }

  predicate UniqueIds(jobs: seq<Job>)
  {
    forall i, j :: 0 <= i < j < |jobs| ==> jobs[i].id != jobs[j].id
  }

  /** The job `enqueue` creates. */
  function NewJob(id: string, name: string, payload: map<string, string>, now: string): (job: Job)
    ensures job.status == Pending && job.attempts == 0 && job.error == None
    ensures job.id == id && job.name == name && job.payload == payload
    ensures job.enqueuedAt == now && job.updatedAt == now
  {
    Job(id, name, payload, Pending, 0, None, now, now)
  }

  /** The list after `enqueue`: the new job at the end, the others untouched. */
  function AfterEnqueue(jobs: seq<Job>, job: Job): (r: seq<Job>)
    ensures |r| == |jobs| + 1 && r[|jobs|] == job && r[..|jobs|] == jobs
  {
    jobs + [job]
  }

  /** The list and the claimed job after `claimNextPending`: the first
      pending job becomes processing; with none pending nothing changes. */
  function AfterClaim(jobs: seq<Job>, now: string): (r: (seq<Job>, Option<Job>))
    ensures r.1.None? <==> forall k :: 0 <= k < |jobs| ==> jobs[k].status != Pending
    ensures r.1.None? ==> r.0 == jobs
    ensures r.1.Some? ==> exists i :: (
      0 <= i < |jobs| && jobs[i].status == Pending
      && (forall k :: 0 <= k < i ==> jobs[k].status != Pending)
      && r.1.value == jobs[i].(status := Processing, updatedAt := now)
      && r.0 == jobs[i := r.1.value])
    ensures SameJobs(jobs, r.0)
  {
    match FirstPending(jobs)
      case None => (jobs, None)
      case Some(i) =>
        var job := jobs[i].(status := Processing, updatedAt := now);
        (jobs[i := job], Some(job))
  }

  /** The list after `markCompleted(id)`: the first job with that id is
      completed with no error; an unknown id changes nothing. */
  function AfterComplete(jobs: seq<Job>, id: string, now: string): (r: seq<Job>)
    ensures (forall k :: 0 <= k < |jobs| ==> jobs[k].id != id) ==> r == jobs
    ensures forall i :: (0 <= i < |jobs| && jobs[i].id == id
      && (forall k :: 0 <= k < i ==> jobs[k].id != id)) ==>
      r == jobs[i := jobs[i].(status := Completed, updatedAt := now, error := None)]
    ensures SameJobs(jobs, r)
  {
    match IndexOfId(jobs, id)
      case None => jobs
      case Some(i) => jobs[i := jobs[i].(status := Completed, updatedAt := now, error := None)]
  }

  /** The list after `markFailed(id, error)`: the first job with that id is
      failed with one more attempt and the message; an unknown id changes
      nothing. */
  function AfterFail(jobs: seq<Job>, id: string, message: string, now: string): (r: seq<Job>)
    ensures (forall k :: 0 <= k < |jobs| ==> jobs[k].id != id) ==> r == jobs
    ensures forall i :: (0 <= i < |jobs| && jobs[i].id == id
      && (forall k :: 0 <= k < i ==> jobs[k].id != id)) ==>
      r == jobs[i := jobs[i].(status := Failed, attempts := jobs[i].attempts + 1,
                              updatedAt := now, error := Some(message))]
    ensures SameJobs(jobs, r)
  {
    match IndexOfId(jobs, id)
      case None => jobs
      case Some(i) =>
        jobs[i := jobs[i].(status := Failed, attempts := jobs[i].attempts + 1,
                           updatedAt := now, error := Some(message))]
  }

  /** Writing the same index twice keeps only the second write. */
  lemma UpdateTwice(jobs: seq<Job>, i: nat, a: Job, b: Job)
    requires i < |jobs|
    ensures jobs[i := a][i := b] == jobs[i := b]
  {
  }

  /** `markCompleted` on the first job with the id, `job` at index i. */
  lemma CompleteAt(jobs: seq<Job>, i: nat, job: Job, now: string)
    requires i < |jobs| && jobs[i] == job && forall k :: 0 <= k < i ==> jobs[k].id != job.id
    ensures AfterComplete(jobs, job.id, now) == jobs[i := job.(status := Completed, updatedAt := now, error := None)]
  {
  }

  /** `markFailed` on the first job with the id, `job` at index i. */
  lemma FailAt(jobs: seq<Job>, i: nat, job: Job, message: string, now: string)
    requires i < |jobs| && jobs[i] == job && forall k :: 0 <= k < i ==> jobs[k].id != job.id
    ensures AfterFail(jobs, job.id, message, now)
      == jobs[i := job.(status := Failed, attempts := job.attempts + 1, updatedAt := now, error := Some(message))]
  {
  }

  class JobQueue {
    /** The content of `queue.json`. */
    var store: Stored

    constructor ()
      ensures store == Absent
    {
      store := Absent;
    }

    method Enqueue(id: string, name: string, payload: map<string, string>, now: string)
      returns (job: Job)
      modifies this
      ensures job == NewJob(id, name, payload, now)
      ensures store == JobList(AfterEnqueue(ReadQueue(old(store)), job))
    {
      job := Job(id, name, payload, Pending, 0, None, now, now);
      var list := ReadQueue(store);
      list := list + [job];
      store := JobList(list);
    }

    method ClaimNextPending(now: string) returns (job: Option<Job>)
      modifies this
      ensures job == AfterClaim(ReadQueue(old(store)), now).1
      ensures job.None? ==> store == old(store)
      ensures job.Some? ==> store == JobList(AfterClaim(ReadQueue(old(store)), now).0)
    {
      var list := ReadQueue(store);
      var idx := FirstPending(list);
      if idx.None? {
        return None;
      }
      var i := idx.value;
      list := list[i := list[i].(status := Processing, updatedAt := now)];
      store := JobList(list);
      job := Some(list[i]);
    }

    method MarkCompleted(id: string, now: string)
      modifies this
      ensures IndexOfId(ReadQueue(old(store)), id).None? ==> store == old(store)
      ensures IndexOfId(ReadQueue(old(store)), id).Some? ==>
        store == JobList(AfterComplete(ReadQueue(old(store)), id, now))
    {
      var list := ReadQueue(store);
      var idx := IndexOfId(list, id);
      if idx.None? {
        return;
      }
      var i := idx.value;
      list := list[i := list[i].(status := Completed, updatedAt := now, error := None)];
      store := JobList(list);
    }

    method MarkFailed(id: string, message: string, now: string)
      modifies this
      ensures IndexOfId(ReadQueue(old(store)), id).None? ==> store == old(store)
      ensures IndexOfId(ReadQueue(old(store)), id).Some? ==>
        store == JobList(AfterFail(ReadQueue(old(store)), id, message, now))
    {
      var list := ReadQueue(store);
      var idx := IndexOfId(list, id);
      if idx.None? {
        return;
      }
      var i := idx.value;
      var attempts := list[i].attempts + 1;
      list := list[i := list[i].(status := Failed, attempts := attempts,
                                 updatedAt := now, error := Some(message))];
      store := JobList(list);
    }
  }

  /** A store that is missing, unparsable or not an array offers no job. */
  lemma UnreadableStoreHasNothingToClaim(s: Stored, now: string)
    requires !s.JobList?
    ensures AfterClaim(ReadQueue(s), now) == ([], None)
  {
  }

  /** Enqueueing a fresh id keeps the ids unique, and claiming, completing
      and failing keep them unique. */
  lemma {:induction false} UniqueIdsPreserved(jobs: seq<Job>, job: Job, id: string, message: string, now: string)
    requires UniqueIds(jobs)
    requires forall k :: 0 <= k < |jobs| ==> jobs[k].id != job.id
    ensures UniqueIds(AfterEnqueue(jobs, job))
    ensures UniqueIds(AfterClaim(jobs, now).0)
    ensures UniqueIds(AfterComplete(jobs, id, now))
    ensures UniqueIds(AfterFail(jobs, id, message, now))
  {
    SameJobsKeepUniqueIds(jobs, AfterClaim(jobs, now).0);
    SameJobsKeepUniqueIds(jobs, AfterComplete(jobs, id, now));
    SameJobsKeepUniqueIds(jobs, AfterFail(jobs, id, message, now));
  }

  lemma SameJobsKeepUniqueIds(a: seq<Job>, b: seq<Job>)
    requires SameJobs(a, b) && UniqueIds(a)
    ensures UniqueIds(b)
  {
  }

  /** Enqueue each job in turn, as `enqueue` does. */
  function EnqueueAll(jobs: seq<Job>, news: seq<Job>): (r: seq<Job>)
    ensures r == jobs + news
    decreases |news|
  {
    if news == [] then jobs
    else
      assert jobs + news == AfterEnqueue(jobs, news[0]) + news[1..];
      EnqueueAll(AfterEnqueue(jobs, news[0]), news[1..])
  }

  /** Claim once per timestamp, collecting what each claim returns. */
  function ClaimAll(jobs: seq<Job>, nows: seq<string>): (r: (seq<Job>, seq<Option<Job>>))
    ensures |r.1| == |nows|
    decreases |nows|
  {
    if nows == [] then (jobs, [])
    else
      var (next, claimed) := AfterClaim(jobs, nows[0]);
      var (last, rest) := ClaimAll(next, nows[1..]);
      (last, [claimed] + rest)
  }

  /** With the first k jobs taken and job k pending, a claim takes job k. */
  lemma ClaimTakes(jobs: seq<Job>, k: nat, now: string)
    requires k < |jobs| && jobs[k].status == Pending
    requires forall j :: 0 <= j < k ==> jobs[j].status != Pending
    ensures var job := jobs[k].(status := Processing, updatedAt := now);
      AfterClaim(jobs, now) == (jobs[k := job], Some(job))
  {
    var first := FirstPending(jobs);
    assert first.Some? && first.value <= k;
  }

  /** What successive claims return when each takes the next job of `js`. */
  function ClaimsOf(js: seq<Job>, nows: seq<string>): (r: seq<Option<Job>>)
    requires |nows| <= |js|
    ensures |r| == |nows|
    decreases |nows|
  {
    if nows == [] then []
    else [Some(js[0].(status := Processing, updatedAt := nows[0]))] + ClaimsOf(js[1..], nows[1..])
  }

  lemma {:induction false} ClaimsOfAt(js: seq<Job>, nows: seq<string>)
    requires |nows| <= |js|
    ensures forall j :: 0 <= j < |nows| ==>
      ClaimsOf(js, nows)[j] == Some(js[j].(status := Processing, updatedAt := nows[j]))
    decreases |nows|
  {
    if nows != [] {
      ClaimsOfAt(js[1..], nows[1..]);
      forall j | 0 < j < |nows|
        ensures ClaimsOf(js, nows)[j] == Some(js[j].(status := Processing, updatedAt := nows[j]))
      {
        assert ClaimsOf(js, nows)[j] == ClaimsOf(js[1..], nows[1..])[j - 1];
        assert js[1..][j - 1] == js[j] && nows[1..][j - 1] == nows[j];
      }
    }
  }

  /** Once the first k jobs are taken and the rest are pending, claims
      return the pending jobs in list order. */
  lemma {:induction false} ClaimsInListOrder(jobs: seq<Job>, k: nat, nows: seq<string>)
    requires k + |nows| <= |jobs|
    requires forall j :: 0 <= j < k ==> jobs[j].status != Pending
    requires forall j :: k <= j < |jobs| ==> jobs[j].status == Pending
    ensures ClaimAll(jobs, nows).1 == ClaimsOf(jobs[k..], nows)
    decreases |nows|
  {
    if nows != [] {
      var job := jobs[k].(status := Processing, updatedAt := nows[0]);
      var next := jobs[k := job];
      assert ClaimAll(jobs, nows).1 == [Some(job)] + ClaimAll(next, nows[1..]).1 by {
        ClaimTakes(jobs, k, nows[0]);
      }
      assert forall j :: 0 <= j < k + 1 ==> next[j].status != Pending;
      assert forall j :: k + 1 <= j < |next| ==> next[j].status == Pending;
      ClaimsInListOrder(next, k + 1, nows[1..]);
      assert next[k + 1..] == jobs[k..][1..];
      assert ClaimsOf(jobs[k..], nows) == [Some(job)] + ClaimsOf(jobs[k..][1..], nows[1..]);
    }
  }

  /** The same claims leave the jobs after the claimed ones untouched and
      none of the claimed ones pending. */
  lemma {:induction false} ClaimsLeaveRest(jobs: seq<Job>, k: nat, nows: seq<string>)
    requires k + |nows| <= |jobs|
    requires forall j :: 0 <= j < k ==> jobs[j].status != Pending
    requires forall j :: k <= j < |jobs| ==> jobs[j].status == Pending
    ensures var r := ClaimAll(jobs, nows);
      |r.0| == |jobs|
      && (forall j :: 0 <= j < k + |nows| ==> r.0[j].status != Pending)
      && (forall j :: k + |nows| <= j < |jobs| ==> r.0[j] == jobs[j])
    decreases |nows|
  {
    if nows != [] {
      var job := jobs[k].(status := Processing, updatedAt := nows[0]);
      ClaimTakes(jobs, k, nows[0]);
      var next := jobs[k := job];
      ClaimsLeaveRest(next, k + 1, nows[1..]);
      assert ClaimAll(jobs, nows).0 == ClaimAll(next, nows[1..]).0;
    }
  }

  /** First in, first out: after n enqueues on an empty store, n claims
      return those jobs in enqueue order, and the next claim returns none. */
  lemma FirstInFirstOut(news: seq<Job>, nows: seq<string>, later: string)
    requires forall j :: 0 <= j < |news| ==> news[j].status == Pending
    requires |nows| == |news|
    ensures var r := ClaimAll(EnqueueAll(ReadQueue(Absent), news), nows);
      (forall j :: 0 <= j < |news| ==>
         r.1[j] == Some(news[j].(status := Processing, updatedAt := nows[j])))
      && AfterClaim(r.0, later).1 == None
  {
    var jobs := EnqueueAll(ReadQueue(Absent), news);
    assert jobs == news;
    ClaimsInListOrder(jobs, 0, nows);
    ClaimsOfAt(jobs[0..], nows);
    ClaimsLeaveRest(jobs, 0, nows);
  }
}
