/** The durable job queue, its scheduler and its worker loop. */
module WorkerQueue {
  import opened Outcomes
  import opened Collections

  datatype Status = Queued | Running | Succeeded | Failed

  /** `task_job_id` names a task's job by a digest of the task id, taken to be injective. */
  datatype JobId = TaskRun(taskId: string) | Named(name: string)

  datatype Job = Job(
    taskId: string, adapter: string, status: Status, createdAt: nat, updatedAt: nat,
    worker: Option<string>, error: Option<string>, result: Option<string>)

  type Table = map<JobId, Job>

  const TASK_QUEUE_ADAPTER := "onebridge_task"

  // ---- Single statements ----

  predicate IsQueued(t: Table, id: JobId, adapter: string) {
    id in t && t[id].status == Queued && t[id].adapter == adapter
  }

  /** The row a claim selects: the oldest queued row of the adapter that no other transaction has locked. */
  ghost predicate IsOldest(t: Table, id: JobId, adapter: string, locked: set<JobId>) {
    && IsQueued(t, id, adapter) && id !in locked
    && forall other | IsQueued(t, other, adapter) && other !in locked :: t[id].createdAt <= t[other].createdAt
  }

  function NewJob(taskId: string, adapter: string, now: nat): Job {
    Job(taskId, adapter, Queued, now, now, None, None, None)
  }

  function Inserted(t: Table, id: JobId, taskId: string, adapter: string, now: nat): Table {
    if id in t then t else t[id := NewJob(taskId, adapter, now)]
  }

  function Claimed(t: Table, id: JobId, worker: string, now: nat): Table
    requires id in t
  {
    t[id := t[id].(status := Running, worker := Some(worker), updatedAt := now)]
  }

  function Beaten(t: Table, id: JobId, worker: string, now: nat): Table {
    if id in t && t[id].status == Running && t[id].worker == Some(worker) then t[id := t[id].(updatedAt := now)] else t
  }

  function Reset(job: Job, now: nat): Job {
    job.(status := Queued, worker := None, error := None, result := None, updatedAt := now)
  }

  predicate IsStale(job: Job, adapter: string, cutoff: nat) {
    job.adapter == adapter && job.status == Running && job.updatedAt < cutoff
  }

  function Recovered(t: Table, adapter: string, cutoff: nat, now: nat): Table {
    map id | id in t :: if IsStale(t[id], adapter, cutoff) then Reset(t[id], now) else t[id]
  }

  function Finished(t: Table, id: JobId, result: string, now: nat): Table {
    if id in t then t[id := t[id].(status := Succeeded, result := Some(result), error := None, updatedAt := now)] else t
  }

  function FailedWith(t: Table, id: JobId, error: string, now: nat): Table {
    if id in t then t[id := t[id].(status := Failed, error := Some(error), updatedAt := now)] else t
  }

  function Requeued(t: Table, id: JobId, now: nat): Table {
    if id in t then t[id := Reset(t[id], now)] else t
  }

  // ---- Any number of clients ----

  datatype Event =
    | Enqueue(id: JobId, taskId: string, adapter: string, now: nat)
    | Claim(id: JobId, worker: string, adapter: string, locked: set<JobId>, now: nat)
    | Heartbeat(id: JobId, worker: string, now: nat)
    | RequeueStale(adapter: string, cutoff: nat, now: nat)
    | Finish(id: JobId, result: string, now: nat)
    | Fail(id: JobId, error: string, now: nat)
    | Requeue(id: JobId, now: nat)

  ghost predicate Enabled(t: Table, e: Event) {
    e.Claim? ==> IsOldest(t, e.id, e.adapter, e.locked)
  }

  ghost function Next(t: Table, e: Event): Table
    requires Enabled(t, e)
  {
    match e
    case Enqueue(id, taskId, adapter, now) => Inserted(t, id, taskId, adapter, now)
    case Claim(id, worker, adapter, locked, now) => Claimed(t, id, worker, now)
    case Heartbeat(id, worker, now) => Beaten(t, id, worker, now)
    case RequeueStale(adapter, cutoff, now) => Recovered(t, adapter, cutoff, now)
    case Finish(id, result, now) => Finished(t, id, result, now)
    case Fail(id, error, now) => FailedWith(t, id, error, now)
    case Requeue(id, now) => Requeued(t, id, now)
  }

  ghost predicate IsRun(t: Table, events: seq<Event>)
    decreases |events|
  {
    events == [] || (Enabled(t, events[0]) && IsRun(Next(t, events[0]), events[1..]))
  }

  ghost function After(t: Table, events: seq<Event>): Table
    requires IsRun(t, events)
    decreases |events|
  {
    if events == [] then t else After(Next(t, events[0]), events[1..])
  }

  // ---- No job is handed out twice ----

  /** This event puts the job back in the queue. */
  ghost predicate PutsBack(t: Table, e: Event, id: JobId) {
    || (e.Requeue? && e.id == id)
    || (e.RequeueStale? && id in t && IsStale(t[id], e.adapter, e.cutoff))
  }

  /** Some event of the run puts the job back. */
  ghost predicate PutBackDuring(t: Table, events: seq<Event>, id: JobId)
    requires IsRun(t, events)
    decreases |events|
  {
    events != [] && (PutsBack(t, events[0], id) || PutBackDuring(Next(t, events[0]), events[1..], id))
  }

  lemma {:induction false} StaysOut(t: Table, events: seq<Event>, id: JobId)
    requires IsRun(t, events) && id in t && t[id].status != Queued
    requires !PutBackDuring(t, events, id)
    ensures id in After(t, events) && After(t, events)[id].status != Queued
    decreases |events|
  {
    if events != [] {
      StaysOut(Next(t, events[0]), events[1..], id);
    }
  }

  /** Between two claims that return the same job, something put it back in the queue. */
  lemma TwoClaimsNeedRequeue(t: Table, first: Event, between: seq<Event>, second: Event)
    requires first.Claim? && second.Claim? && first.id == second.id
    requires Enabled(t, first) && IsRun(Next(t, first), between)
    requires Enabled(After(Next(t, first), between), second)
    ensures PutBackDuring(Next(t, first), between, first.id)
  {
    if !PutBackDuring(Next(t, first), between, first.id) {
      StaysOut(Next(t, first), between, first.id);
    }
  }

  // ---- First in, first out ----

  ghost function Older(t: Table, id: JobId): set<JobId>
    requires id in t
  {
    set other | other in t && IsQueued(t, other, t[id].adapter) && t[other].createdAt < t[id].createdAt
  }

  /** No other job of the adapter was created at the same instant. */
  ghost predicate DistinctTime(t: Table, id: JobId)
    requires id in t
  {
    forall other | other in t && other != id && t[other].adapter == t[id].adapter ::
      t[other].createdAt != t[id].createdAt
  }

  /** Timestamps of the adapter increase, no open transaction holds the job, nothing older comes back, and nobody
      closes the job unclaimed. */
  ghost predicate Undisturbed(t: Table, e: Event, id: JobId)
    requires id in t
  {
    match e
    case Enqueue(other, taskId, adapter, now) => adapter == t[id].adapter ==> now > t[id].createdAt
    case Claim(other, worker, adapter, locked, now) => id !in locked
    case RequeueStale(adapter, cutoff, now) =>
      forall other | other in t && IsStale(t[other], adapter, cutoff) && adapter == t[id].adapter ::
        t[other].createdAt > t[id].createdAt
    case Requeue(other, now) =>
      other in t && t[other].adapter == t[id].adapter && other != id ==> t[other].createdAt > t[id].createdAt
    case Finish(other, result, now) => other != id
    case Fail(other, error, now) => other != id
    case Heartbeat(other, worker, now) => true
  }

  ghost predicate UndisturbedRun(t: Table, events: seq<Event>, id: JobId)
    requires IsRun(t, events)
    decreases |events|
  {
    events != [] ==> id in t && Undisturbed(t, events[0], id) && UndisturbedRun(Next(t, events[0]), events[1..], id)
  }

  ghost function ClaimCount(events: seq<Event>, adapter: string): nat {
    if events == [] then 0
    else (if events[0].Claim? && events[0].adapter == adapter then 1 else 0) + ClaimCount(events[1..], adapter)
  }

  ghost predicate ClaimedDuring(events: seq<Event>, id: JobId) {
    events != [] && ((events[0].Claim? && events[0].id == id) || ClaimedDuring(events[1..], id))
  }

  lemma StepKeepsPlace(t: Table, e: Event, id: JobId)
    requires Enabled(t, e) && id in t && t[id].status == Queued && DistinctTime(t, id) && Undisturbed(t, e, id)
    requires !(e.Claim? && e.id == id)
    ensures var v := Next(t, e);
      && id in v && v[id].status == Queued && v[id].adapter == t[id].adapter && v[id].createdAt == t[id].createdAt
      && DistinctTime(v, id) && Older(v, id) <= Older(t, id)
      && (e.Claim? && e.adapter == t[id].adapter ==> e.id in Older(t, id) && e.id !in Older(v, id))
  {
  }

  lemma {:induction false} ClaimsUseUpOlder(t: Table, events: seq<Event>, id: JobId)
    requires IsRun(t, events) && id in t && t[id].status == Queued && DistinctTime(t, id)
    requires UndisturbedRun(t, events, id) && !ClaimedDuring(events, id)
    ensures ClaimCount(events, t[id].adapter) <= |Older(t, id)|
    decreases |events|
  {
    if events != [] {
      var e, rest := events[0], events[1..];
      var v := Next(t, e);
      StepKeepsPlace(t, e, id);
      ClaimsUseUpOlder(v, rest, id);
      if e.Claim? && e.adapter == t[id].adapter {
        SubsetSize(Older(v, id), Older(t, id) - {e.id});
      } else {
        SubsetSize(Older(v, id), Older(t, id));
      }
    }
  }

  /** A queued job with k older queued jobs of its adapter is claimed within k + 1 claims. */
  lemma ClaimedInTurn(t: Table, events: seq<Event>, id: JobId)
    requires IsRun(t, events) && id in t && t[id].status == Queued && DistinctTime(t, id)
    requires UndisturbedUntilClaimed(t, events, id)
    requires ClaimCount(events, t[id].adapter) > |Older(t, id)|
    ensures ClaimedDuring(events, id)
  {
    if !ClaimedDuring(events, id) {
      UnclaimedIsUndisturbed(t, events, id);
      ClaimsUseUpOlder(t, events, id);
    }
  }

  /** The side conditions only have to hold up to the job's own claim. */
  ghost predicate UndisturbedUntilClaimed(t: Table, events: seq<Event>, id: JobId)
    requires IsRun(t, events)
    decreases |events|
  {
    events != [] ==>
      || (events[0].Claim? && events[0].id == id)
      || (id in t && Undisturbed(t, events[0], id) && UndisturbedUntilClaimed(Next(t, events[0]), events[1..], id))
  }

  lemma {:induction false} UnclaimedIsUndisturbed(t: Table, events: seq<Event>, id: JobId)
    requires IsRun(t, events) && UndisturbedUntilClaimed(t, events, id) && !ClaimedDuring(events, id)
    ensures UndisturbedRun(t, events, id)
    decreases |events|
  {
    if events != [] {
      UnclaimedIsUndisturbed(Next(t, events[0]), events[1..], id);
    }
  }

  // ---- One row per task ----

  /** Rows of the task adapter are inserted by the scheduler, which derives the id from the task. */
  ghost predicate ByScheduler(e: Event) {
    e.Enqueue? && e.adapter == TASK_QUEUE_ADAPTER ==> e.id == TaskRun(e.taskId)
  }

  ghost predicate OneRowPerTask(t: Table) {
    forall id | id in t && t[id].adapter == TASK_QUEUE_ADAPTER :: id == TaskRun(t[id].taskId)
  }

  lemma ScheduledStep(t: Table, e: Event)
    requires OneRowPerTask(t) && Enabled(t, e) && ByScheduler(e)
    ensures OneRowPerTask(Next(t, e))
    ensures forall id | id in t :: id in Next(t, e) && Next(t, e)[id].taskId == t[id].taskId
    ensures e.Enqueue? ==> e.id in Next(t, e)
  {
  }

  /** However often and from wherever tasks are scheduled, a task has one row, and never loses it. */
  lemma {:induction false} SchedulingIsIdempotent(t: Table, events: seq<Event>)
    requires OneRowPerTask(t) && IsRun(t, events) && forall n | 0 <= n < |events| :: ByScheduler(events[n])
    ensures OneRowPerTask(After(t, events))
    ensures forall id | id in t :: id in After(t, events) && After(t, events)[id].taskId == t[id].taskId
    ensures forall n | 0 <= n < |events| && events[n].Enqueue? :: events[n].id in After(t, events)
    decreases |events|
  {
    if events != [] {
      var v, rest := Next(t, events[0]), events[1..];
      assert ByScheduler(events[0]);
      ScheduledStep(t, events[0]);
      assert forall n | 0 <= n < |rest| :: rest[n] == events[n + 1];
      SchedulingIsIdempotent(v, rest);
      forall n | 0 <= n < |events| && events[n].Enqueue? ensures events[n].id in After(t, events) {
        if n > 0 { assert rest[n - 1] == events[n]; }
      }
    }
  }

  // ---- The queue object ----

  class WorkerQueue {
    var jobs: Table

    constructor ()
      ensures jobs == map[]
    {
      jobs := map[];
    }

    method Enqueue(id: JobId, taskId: string, adapter: string, now: nat) returns (inserted: bool)
      modifies this
      ensures inserted <==> id !in old(jobs)
      ensures jobs == Inserted(old(jobs), id, taskId, adapter, now)
    {
      if id in jobs {
        return false;
      }
      jobs := jobs[id := NewJob(taskId, adapter, now)];
      return true;
    }

    /** The first row of the ordered select, leaving out rows that another transaction has locked. */
    method SelectOldest(adapter: string, locked: set<JobId>) returns (id: Option<JobId>)
      ensures id.None? ==> forall other | IsQueued(jobs, other, adapter) :: other in locked
      ensures id.Some? ==> IsOldest(jobs, id.value, adapter, locked)
    {
      id := None;
      var rest := set other | other in jobs && IsQueued(jobs, other, adapter) && other !in locked;
      ghost var all := rest;
      while rest != {}
        invariant rest <= all
        invariant id.None? ==> rest == all
        invariant id.Some? ==>
          id.value in all && forall other | other in all - rest :: jobs[id.value].createdAt <= jobs[other].createdAt
        decreases rest
      {
        var other :| other in rest;
        rest := rest - {other};
        if id.None? || jobs[other].createdAt < jobs[id.value].createdAt {
          id := Some(other);
        }
      }
      assert all - rest == all;
      assert forall other | IsQueued(jobs, other, adapter) && other !in locked :: other in all;
    }

    /** `locked` is empty for the single-writer store; the other store skips rows locked by open transactions. */
    method Claim(worker: string, adapter: string, locked: set<JobId>, now: nat) returns (id: Option<JobId>)
      modifies this
      ensures id.None? ==> jobs == old(jobs) && forall other | IsQueued(jobs, other, adapter) :: other in locked
      ensures id.Some? ==>
        IsOldest(old(jobs), id.value, adapter, locked) && jobs == Claimed(old(jobs), id.value, worker, now)
    {
      id := SelectOldest(adapter, locked);
      if id.Some? {
        jobs := jobs[id.value := jobs[id.value].(status := Running, worker := Some(worker), updatedAt := now)];
      }
    }

    method Heartbeat(id: JobId, worker: string, now: nat) returns (alive: bool)
      modifies this
      ensures alive <==> id in old(jobs) && old(jobs)[id].status == Running && old(jobs)[id].worker == Some(worker)
      ensures jobs == Beaten(old(jobs), id, worker, now)
    {
      alive := id in jobs && jobs[id].status == Running && jobs[id].worker == Some(worker);
      if alive {
        jobs := jobs[id := jobs[id].(updatedAt := now)];
      }
    }

    /** The cutoff is `now` minus the age limit, which is at least one second; before that nothing is stale. */
    method RequeueStale(adapter: string, staleAfter: nat, now: nat) returns (count: nat)
      modifies this
      ensures var cutoff := Cutoff(now, staleAfter);
        && jobs == Recovered(old(jobs), adapter, cutoff, now)
        && count == |set id | id in old(jobs) && IsStale(old(jobs)[id], adapter, cutoff)|
    {
      var cutoff := Cutoff(now, staleAfter);
      var stale := set id | id in jobs && IsStale(jobs[id], adapter, cutoff);
      count := |stale|;
      ghost var before, all := jobs, stale;
      while stale != {}
        invariant stale <= all && jobs.Keys == before.Keys
        invariant forall id | id in before ::
          jobs[id] == if id in all - stale then Reset(before[id], now) else before[id]
        decreases stale
      {
        var id :| id in stale;
        stale := stale - {id};
        jobs := jobs[id := Reset(jobs[id], now)];
      }
      assert jobs == Recovered(before, adapter, cutoff, now);
    }

    method Finish(id: JobId, result: string, now: nat)
      modifies this
      ensures jobs == Finished(old(jobs), id, result, now)
    {
      if id in jobs {
        jobs := jobs[id := jobs[id].(status := Succeeded, result := Some(result), error := None, updatedAt := now)];
      }
    }

    method Fail(id: JobId, error: string, now: nat)
      modifies this
      ensures jobs == FailedWith(old(jobs), id, error, now)
    {
      if id in jobs {
        jobs := jobs[id := jobs[id].(status := Failed, error := Some(error), updatedAt := now)];
      }
    }

    method Requeue(id: JobId, now: nat)
      modifies this
      ensures jobs == Requeued(old(jobs), id, now)
    {
      if id in jobs {
        jobs := jobs[id := Reset(jobs[id], now)];
      }
    }

    /** `TaskScheduler.schedule`: one row per task; `restart` re-opens a job that has ended. */
    method Schedule(taskId: string, restart: bool, now: nat) returns (status: Status, created: bool)
      modifies this
      ensures created <==> TaskRun(taskId) !in old(jobs)
      ensures TaskRun(taskId) in jobs && status == jobs[TaskRun(taskId)].status
      ensures jobs ==
        if created then Inserted(old(jobs), TaskRun(taskId), taskId, TASK_QUEUE_ADAPTER, now)
        else if restart &&
          (old(jobs)[TaskRun(taskId)].status == Failed || old(jobs)[TaskRun(taskId)].status == Succeeded)
        then Requeued(old(jobs), TaskRun(taskId), now)
        else old(jobs)
    {
      var id := TaskRun(taskId);
      created := Enqueue(id, taskId, TASK_QUEUE_ADAPTER, now);
      if restart && !created && (jobs[id].status == Failed || jobs[id].status == Succeeded) {
        Requeue(id, now);
      }
      status := jobs[id].status;
    }

    /** One turn of a worker; `outcome` is the handler's result, or its error. */
    method RunOne(worker: string, adapter: string, staleAfter: nat, outcome: Result<string, string>, now: nat)
        returns (id: Option<JobId>)
      modifies this
      ensures var before := Recovered(old(jobs), adapter, Cutoff(now, staleAfter), now);
        if id.None? then jobs == before && forall other | other in before :: !IsQueued(before, other, adapter)
        else
          && IsOldest(before, id.value, adapter, {})
          && jobs[id.value := before[id.value]] == before
          && id.value in jobs && jobs[id.value].status == (if outcome.Ok? then Succeeded else Failed)
          && jobs[id.value].worker == Some(worker)
    {
      var _ := RequeueStale(adapter, staleAfter, now);
      ghost var before := jobs;
      id := Claim(worker, adapter, {}, now);
      if id.None? {
        return;
      }
      match outcome
      case Ok(result) => Finish(id.value, result, now);
      case Err(error) => Fail(id.value, error, now);
    }
  }

  function Cutoff(now: nat, staleAfter: nat): nat {
    var age := if staleAfter < 1 then 1 else staleAfter;
    if now < age then 0 else now - age
  }
}
