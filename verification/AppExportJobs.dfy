/** The status updates of app export jobs (core/app/appexport/repository.py). */
module AppExportJobs {
  import opened Wrappers
  import opened Seqs

  datatype Status = Pending | Running | Done | Error

  datatype Job = Job(status: Status, createdAt: int, startedAt: Option<int>, finishedAt: Option<int>,
                     resultKey: Option<string>, error: Option<string>)

  type Jobs = map<string, Job>

  const DEFAULT_RECLAIM_MINUTES: int := 60
  const MINUTE: int := 60_000_000

  predicate Terminal(s: Status) {
    s == Done || s == Error
  }

  function ResultKey(id: string): string {
    "appexports/" + id + ".zip"
  }

  function NewJob(now: int): Job {
    Job(Pending, now, None, None, None, None)
  }

  function Failed(job: Job, now: int, error: string): Job {
    job.(status := Error, error := Some(error), finishedAt := Some(now))
  }

  // Conditional updates: `UPDATE … WHERE id AND status …`.

  function Start(jobs: Jobs, id: string, now: int): Jobs {
    if id in jobs && jobs[id].status == Pending
    then jobs[id := jobs[id].(status := Running, startedAt := Some(now))] else jobs
  }

  function Finish(jobs: Jobs, id: string, now: int, warning: Option<string>): Jobs {
    if id in jobs && !Terminal(jobs[id].status)
    then jobs[id := jobs[id].(status := Done, resultKey := Some(ResultKey(id)), error := warning,
      finishedAt := Some(now))]
    else jobs
  }

  function Fail(jobs: Jobs, id: string, now: int, error: string): Jobs {
    if id in jobs && !Terminal(jobs[id].status) then jobs[id := Failed(jobs[id], now, error)] else jobs
  }

  function FailWhere(jobs: Jobs, id: string, status: Status, now: int, error: string): Jobs {
    if id in jobs && jobs[id].status == status then jobs[id := Failed(jobs[id], now, error)] else jobs
  }

  /** What a job's age is measured from. */
  function Anchor(job: Job): Option<int> {
    if job.status == Running then job.startedAt else Some(job.createdAt)
  }

  predicate Stuck(job: Job, threshold: int) {
    (job.status == Pending || job.status == Running) && Anchor(job).Some? && Anchor(job).value < threshold
  }

  const TIMED_OUT := "app export timed out (worker crashed or hung)"
  const NOT_ENQUEUED := "mise en file impossible : file de jobs indisponible"

  function SweepAge(olderThanMinutes: Option<int>, configured: int): int {
    (if olderThanMinutes.None? || olderThanMinutes.value == 0 then configured else olderThanMinutes.value) * MINUTE
  }

  /** Closed jobs are as they were. */
  ghost predicate ClosedStay(before: Jobs, after: Jobs) {
    forall id :: id in before && Terminal(before[id].status) ==> id in after && after[id] == before[id]
  }

  /** No other job changed, none came or went. */
  ghost predicate OnlyRow(before: Jobs, after: Jobs, id: string) {
    after.Keys == before.Keys && forall other :: other in before && other != id ==> after[other] == before[other]
  }

  /** The first to close a job wins: no update after it has any effect. */
  lemma FirstCloseWins(jobs: Jobs, id: string, now: int, later: int, warning: Option<string>, error: string)
    ensures ForEver(Finish(jobs, id, now, warning), id, later, warning, error)
    ensures ForEver(Fail(jobs, id, now, error), id, later, warning, error)
  {
  }

  ghost predicate ForEver(jobs: Jobs, id: string, later: int, warning: Option<string>, error: string) {
    && Start(jobs, id, later) == jobs && Finish(jobs, id, later, warning) == jobs
    && Fail(jobs, id, later, error) == jobs
    && FailWhere(jobs, id, Pending, later, error) == jobs && FailWhere(jobs, id, Running, later, error) == jobs
  }

  /** The first delivery wins: a second claim has no effect, nor has a failed enqueueing after it. */
  lemma FirstClaimWins(jobs: Jobs, id: string, now: int, later: int, error: string)
    ensures Start(Start(jobs, id, now), id, later) == Start(jobs, id, now)
    ensures FailWhere(Start(jobs, id, now), id, Pending, later, error) == Start(jobs, id, now)
  {
  }

  class JobRepository {
    var jobs: Jobs

    method CreateJob(id: string, now: int)
      requires id !in jobs
      modifies this
      ensures jobs == old(jobs)[id := NewJob(now)]
      ensures jobs[id] == Job(Pending, now, None, None, None, None)
      // fresh for every sweep, and nothing to download
      ensures forall threshold :: threshold <= now ==> !Stuck(jobs[id], threshold)
      ensures jobs[id].status == Pending && jobs[id].resultKey.None? && jobs[id].error.None?
      ensures ClosedStay(old(jobs), jobs)
    {
      jobs := jobs[id := NewJob(now)];
    }

    method MarkRunning(id: string, now: int) returns (taken: bool)
      modifies this
      ensures jobs == Start(old(jobs), id, now)
      ensures taken <==> id in old(jobs) && old(jobs)[id].status == Pending
      // whoever takes it runs it from now on, whoever comes later does not
      ensures taken ==> jobs[id] == old(jobs)[id].(status := Running, startedAt := Some(now))
      ensures id in jobs ==> jobs[id].status != Pending && jobs[id].resultKey == old(jobs)[id].resultKey
      ensures OnlyRow(old(jobs), jobs, id) && ClosedStay(old(jobs), jobs) && (!taken ==> jobs == old(jobs))
    {
      taken := id in jobs && jobs[id].status == Pending;
      if taken {
        jobs := jobs[id := jobs[id].(status := Running, startedAt := Some(now))];
      }
    }

    method MarkDone(id: string, now: int, warning: Option<string>) returns (done: bool)
      modifies this
      ensures jobs == Finish(old(jobs), id, now, warning)
      ensures done <==> id in old(jobs) && (old(jobs)[id].status == Pending || old(jobs)[id].status == Running)
      // closed either way, and by this call only if it was open
      ensures id in jobs ==> jobs[id].status == Done || jobs[id].status == Error
      ensures done ==> jobs[id].status == Done && jobs[id].resultKey == Some("appexports/" + id + ".zip")
      ensures done ==> jobs[id].error == warning && jobs[id].finishedAt == Some(now)
      ensures OnlyRow(old(jobs), jobs, id) && ClosedStay(old(jobs), jobs) && (!done ==> jobs == old(jobs))
    {
      done := id in jobs && !Terminal(jobs[id].status);
      if done {
        jobs := jobs[id := jobs[id].(status := Done, resultKey := Some(ResultKey(id)), error := warning,
                                     finishedAt := Some(now))];
      }
    }

    method MarkError(id: string, now: int, error: string)
      modifies this
      ensures jobs == Fail(old(jobs), id, now, error)
      // an error unless it was done, and never a new result
      ensures id in jobs ==> (jobs[id].status == Error <==> old(jobs)[id].status != Done) && Terminal(jobs[id].status)
      ensures id in jobs ==> jobs[id].resultKey == old(jobs)[id].resultKey
      ensures id in jobs && (old(jobs)[id].status == Pending || old(jobs)[id].status == Running) ==>
        jobs[id].error == Some(error) && jobs[id].finishedAt == Some(now)
      ensures OnlyRow(old(jobs), jobs, id) && ClosedStay(old(jobs), jobs)
    {
      if id in jobs && !Terminal(jobs[id].status) {
        jobs := jobs[id := Failed(jobs[id], now, error)];
      }
    }

    method MarkEnqueueFailed(id: string, now: int) returns (failed: bool)
      modifies this
      ensures jobs == FailWhere(old(jobs), id, Pending, now, NOT_ENQUEUED)
      ensures failed <==> id in old(jobs) && old(jobs)[id].status == Pending
      // no longer waiting, and a job that runs is left to its worker
      ensures id in jobs ==> jobs[id].status != Pending && (failed ==> jobs[id].status == Error)
      ensures OnlyRow(old(jobs), jobs, id) && ClosedStay(old(jobs), jobs) && (!failed ==> jobs == old(jobs))
    {
      failed := id in jobs && jobs[id].status == Pending;
      if failed {
        jobs := jobs[id := Failed(jobs[id], now, NOT_ENQUEUED)];
      }
    }

    /** The sweep when nothing happens in between: exactly the stuck jobs fail, each reported. */
    method ReclaimStuckJobs(now: int, olderThanMinutes: Option<int>, configured: int := DEFAULT_RECLAIM_MINUTES)
      returns (reclaimed: seq<string>)
      modifies this
      ensures jobs.Keys == old(jobs).Keys
      ensures forall id :: id in jobs ==>
        jobs[id] == Reclaim(old(jobs)[id], now - SweepAge(olderThanMinutes, configured), now)
      // on the columns: an age in minutes, counted from the start of a running job, or from the creation
      ensures forall id :: id in jobs ==> SweptByAge(old(jobs)[id], jobs[id],
        now - MinutesAsked(olderThanMinutes, configured) * 60_000_000)
      // nothing the sweep read is stuck any more
      ensures forall id :: id in jobs ==> !Stuck(jobs[id], now - SweepAge(olderThanMinutes, configured))
      ensures NoDup(reclaimed)
      ensures forall id :: id in reclaimed <==>
        id in old(jobs) && Stuck(old(jobs)[id], now - SweepAge(olderThanMinutes, configured))
    {
      var threshold := now - SweepAge(olderThanMinutes, configured);
      reclaimed := [];
      var read := jobs;
      var todo := set id | id in read && !Terminal(read[id].status);
      while todo != {}
        invariant jobs.Keys == read.Keys && todo <= read.Keys && read == old(jobs)
        invariant forall id :: id in todo ==> !Terminal(read[id].status)
        invariant forall id :: id in jobs ==>
          jobs[id] == if id in todo then read[id] else Reclaim(read[id], threshold, now)
        invariant NoDup(reclaimed)
        invariant forall id :: id in reclaimed <==> id in read && id !in todo && Stuck(read[id], threshold)
        decreases |todo|
      {
        ghost var member := PickOne(todo);
        var id: string :| id in todo;
        ghost var before, jobs0, reclaimed0 := todo, jobs, reclaimed;
        todo := todo - {id};
        var job := read[id];
        var started := if job.status == Running then job.startedAt else Some(job.createdAt);
        if started.Some? && started.value < threshold && jobs[id].status == job.status {
          jobs := jobs[id := Failed(jobs[id], now, TIMED_OUT)];
          reclaimed := reclaimed + [id];
        }
        forall other | other in jobs
          ensures jobs[other] == if other in todo then read[other] else Reclaim(read[other], threshold, now)
        {
          if other != id {
            assert jobs[other] == jobs0[other] && (other in todo <==> other in before);
          }
        }
        forall other
          ensures other in reclaimed <==> other in read && other !in todo && Stuck(read[other], threshold)
        {
          if other != id {
            assert (other in todo <==> other in before) && (other in reclaimed <==> other in reclaimed0);
          }
        }
      }
      AgeIs(olderThanMinutes, configured);
      forall id | id in jobs
        ensures SweptByAge(read[id], jobs[id], threshold)
      {
        ReclaimHolds(read[id], threshold, now);
      }
    }
  }

  /** An open job older than the threshold fails, with a reason; any other is left alone. */
  ghost predicate SweptByAge(before: Job, after: Job, threshold: int) {
    match before.status
    case Done => after == before
    case Error => after == before
    case Pending =>
      if before.createdAt < threshold then after.status == Error && after.error.Some? else after == before
    case Running =>
      if before.startedAt.Some? && before.startedAt.value < threshold then after.status == Error && after.error.Some?
      else after == before
  }

  lemma ReclaimHolds(job: Job, threshold: int, now: int)
    ensures SweptByAge(job, Reclaim(job, threshold, now), threshold)
  {
  }

  /** The age asked for, or the configured one when none or zero is asked for. */
  ghost function MinutesAsked(olderThanMinutes: Option<int>, configured: int): int {
    match olderThanMinutes
    case None => configured
    case Some(minutes) => if minutes == 0 then configured else minutes
  }

  lemma AgeIs(olderThanMinutes: Option<int>, configured: int)
    ensures SweepAge(olderThanMinutes, configured) == MinutesAsked(olderThanMinutes, configured) * 60_000_000
  {
  }

  /** Unless told otherwise a sweep reclaims after an hour. */
  lemma DefaultAge()
    ensures SweepAge(None, DEFAULT_RECLAIM_MINUTES) == 3_600_000_000
  {
  }

  /** What the sweep does to a job. */
  function Reclaim(job: Job, threshold: int, now: int): Job {
    if Stuck(job, threshold) then Failed(job, now, TIMED_OUT) else job
  }
}
