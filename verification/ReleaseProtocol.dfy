/**
 The release operator as a concurrent system: any number of executors, requests, approvals and revocations
 interleave, one committed transaction per step, and an executor may crash between any two of its steps.
 */
module ReleaseProtocol {
  import opened Outcomes
  import opened ReleasePlan

  datatype RequestStatus = Pending | Stale | Approved | Rejected | Revoked | Executing | Completed | Failed

  datatype Request = Request(plan: Plan, fingerprint: Fingerprint, requestedBy: string, status: RequestStatus)

  datatype Decision = Approve | Reject | Withdrawn

  datatype Approval = Approval(
    plan: Plan, fingerprint: Fingerprint, decision: Decision, actor: string,
    requestId: Option<nat>, requestedBy: Option<string>, consumedAt: Option<nat>, createdAt: nat)

  datatype Lease = Lease(releaseId: nat, owner: string, acquiredAt: nat)

  /** The three tables; a row's id is its position. */
  datatype Db = Db(requests: seq<Request>, approvals: seq<Approval>, lease: Option<Lease>)

  datatype Policy = Policy(leaseMaxAge: nat, approvalMaxAge: nat, twoPerson: bool)

  // ---- Transactions ----

  function Requested(d: Db, plan: Plan, actor: string): Db {
    d.(requests := d.requests + [Request(plan, Digest(plan), actor, Pending)])
  }

  function WithStatus(d: Db, id: nat, status: RequestStatus): Db {
    if id < |d.requests| then d.(requests := d.requests[id := d.requests[id].(status := status)]) else d
  }

  function LinkedStatus(d: Db, id: Option<nat>, status: RequestStatus): Db {
    if id.Some? then WithStatus(d, id.value, status) else d
  }

  /** The request is open and this person may decide it. */
  predicate MayDecide(d: Db, id: nat, actor: string) {
    id < |d.requests| && d.requests[id].status == Pending && actor != "" && actor != d.requests[id].requestedBy
  }

  /** `approve_request` may record a decision on this request against the plan recomputed now. */
  predicate CanDecide(d: Db, id: nat, current: Plan, actor: string) {
    && MayDecide(d, id, actor)
    && Digest(current) == d.requests[id].fingerprint
  }

  function Decided(d: Db, id: nat, current: Plan, actor: string, approves: bool, now: nat): Db
    requires CanDecide(d, id, current, actor)
  {
    WithStatus(d, id, if approves then Approved else Rejected).(
      approvals := d.approvals + [Approval(current, Digest(current), if approves then Approve else Reject, actor,
                                           Some(id), Some(d.requests[id].requestedBy), None, now)])
  }

  /** `approve` as the route calls it: no persisted request. */
  function ApprovedDirectly(d: Db, plan: Plan, actor: string, approves: bool, now: nat): Db {
    d.(approvals :=
      d.approvals + [Approval(plan, Digest(plan), if approves then Approve else Reject, actor, None, None, None, now)])
  }

  predicate CanRevoke(d: Db, id: nat) {
    id < |d.approvals| && d.approvals[id].consumedAt.None? && d.approvals[id].decision == Approve
  }

  function Revoke(d: Db, id: nat): Db
    requires CanRevoke(d, id)
  {
    LinkedStatus(d.(approvals := d.approvals[id := d.approvals[id].(decision := Withdrawn)]), d.approvals[id].requestId,
      Revoked)
  }

  /** Everything `execute` checks before it takes the lease. */
  predicate MayExecute(d: Db, policy: Policy, id: nat, owner: string, current: Plan, now: nat) {
    && id < |d.approvals|
    && var a := d.approvals[id];
    && a.decision == Approve && a.consumedAt.None?
    && (policy.twoPerson ==>
          && a.requestedBy.Some? && a.requestedBy.value != "" && a.requestId.Some?
          && a.requestedBy.value != a.actor && owner != a.actor)
    && a.createdAt <= now <= a.createdAt + policy.approvalMaxAge
    && Digest(current) == a.fingerprint
  }

  predicate LeaseFree(d: Db, policy: Policy, now: nat) {
    d.lease.None? || now > d.lease.value.acquiredAt + policy.leaseMaxAge
  }

  function Leased(d: Db, id: nat, owner: string, now: nat): Db {
    d.(lease := Some(Lease(id, owner, now)))
  }

  predicate CanConsume(d: Db, id: nat) {
    id < |d.approvals| && d.approvals[id].consumedAt.None?
  }

  function Consumed(d: Db, id: nat, now: nat): Db
    requires CanConsume(d, id)
  {
    d.(approvals := d.approvals[id := d.approvals[id].(consumedAt := Some(now))])
  }

  function Unleased(d: Db, id: nat): Db {
    if d.lease.Some? && d.lease.value.releaseId == id then d.(lease := None) else d
  }

  // ---- Executors and the system ----

  datatype Stage = Checked | Holding | Spent | Announced | Running | Ended | Closing | Done

  /** One call of `execute`: the approval as it was read, how far it got, and whether its process still lives;
      `spent` once its consume committed. */
  datatype Executor = Executor(
    approvalId: nat, owner: string, snapshot: Approval, plan: Plan, stage: Stage, alive: bool, acquiredAt: nat,
      spent: bool, succeeded: bool)

  /** `runs` records, in order, which executor started each `controller.run`. */
  datatype System = System(db: Db, now: nat, executors: seq<Executor>, runs: seq<nat>)

  datatype Event =
    | Tick(seconds: nat)
    | SubmitRequest(plan: Plan, actor: string)
    | MarkStale(requestId: nat)
    | DecideRequest(requestId: nat, current: Plan, approver: string, approves: bool)
    | DecidePlan(plan: Plan, approver: string, approves: bool)
    | RevokeApproval(approvalId: nat)
    | StartExecute(approvalId: nat, owner: string, current: Plan)
    | Acquire(executor: nat)
    | AcquireBusy(executor: nat)
    | Consume(executor: nat)
    | ConsumeRefused(executor: nat)
    | Announce(executor: nat)
    | AnnounceRaises(executor: nat)
    | StartRun(executor: nat)
    | EndRun(executor: nat, success: bool)
    | SetOutcome(executor: nat)
    | OutcomeRaises(executor: nat)
    | ReleaseLease(executor: nat)
    | Crash(executor: nat)

  const INITIAL := System(Db([], [], None), 0, [], [])

  ghost predicate At(s: System, e: nat, stage: Stage) {
    e < |s.executors| && s.executors[e].alive && s.executors[e].stage == stage
  }

  ghost predicate Enabled(s: System, policy: Policy, e: Event) {
    match e
    case Tick(seconds) => true
    case SubmitRequest(plan, actor) => actor != ""
    case MarkStale(id) => id < |s.db.requests| && s.db.requests[id].status == Pending
    case DecideRequest(id, current, approver, approves) => CanDecide(s.db, id, current, approver)
    case DecidePlan(plan, approver, approves) => approver != "" && !policy.twoPerson
    case RevokeApproval(id) => CanRevoke(s.db, id)
    case StartExecute(id, owner, current) => MayExecute(s.db, policy, id, owner, current, s.now)
    case Acquire(x) => At(s, x, Checked) && LeaseFree(s.db, policy, s.now)
    case AcquireBusy(x) => At(s, x, Checked)
    case Consume(x) => At(s, x, Holding) && CanConsume(s.db, s.executors[x].approvalId)
    case ConsumeRefused(x) => At(s, x, Holding)
    case Announce(x) => At(s, x, Spent)
    case AnnounceRaises(x) => At(s, x, Spent)
    case StartRun(x) => At(s, x, Announced)
    case EndRun(x, success) => At(s, x, Running)
    case SetOutcome(x) => At(s, x, Ended)
    case OutcomeRaises(x) => At(s, x, Ended)
    case ReleaseLease(x) => At(s, x, Closing)
    case Crash(x) => x < |s.executors|
  }

  ghost function Moved(s: System, x: nat, stage: Stage): System
    requires x < |s.executors|
  {
    s.(executors := s.executors[x := s.executors[x].(stage := stage)])
  }

  ghost function Next(s: System, policy: Policy, e: Event): System
    requires Enabled(s, policy, e)
  {
    match e
    case Tick(seconds) => s.(now := s.now + seconds)
    case SubmitRequest(plan, actor) => s.(db := Requested(s.db, plan, actor))
    case MarkStale(id) => s.(db := WithStatus(s.db, id, Stale))
    case DecideRequest(id, current, approver, approves) =>
      s.(db := Decided(s.db, id, current, approver, approves, s.now))
    case DecidePlan(plan, approver, approves) => s.(db := ApprovedDirectly(s.db, plan, approver, approves, s.now))
    case RevokeApproval(id) => s.(db := Revoke(s.db, id))
    case StartExecute(id, owner, current) =>
      s.(executors := s.executors + [Executor(id, owner, s.db.approvals[id], current, Checked, true, 0, false, false)])
    case Acquire(x) =>
      var y := s.executors[x];
      s.(db := Leased(s.db, y.approvalId, y.owner, s.now),
        executors := s.executors[x := y.(stage := Holding, acquiredAt := s.now)])
    case AcquireBusy(x) => Moved(s, x, Done)
    case Consume(x) =>
      s.(db := Consumed(s.db, s.executors[x].approvalId, s.now),
         executors := s.executors[x := s.executors[x].(stage := Spent, spent := true)])
    case ConsumeRefused(x) => Moved(s, x, Closing)
    case Announce(x) => Moved(s.(db := LinkedStatus(s.db, s.executors[x].snapshot.requestId, Executing)), x, Announced)
    case AnnounceRaises(x) => Moved(s, x, Closing)
    case StartRun(x) => Moved(s.(runs := s.runs + [x]), x, Running)
    case EndRun(x, success) => s.(executors := s.executors[x := s.executors[x].(stage := Ended, succeeded := success)])
    case SetOutcome(x) =>
      Moved(s.(db :=
        LinkedStatus(s.db, s.executors[x].snapshot.requestId, if s.executors[x].succeeded then Completed else Failed)),
          x, Closing)
    case OutcomeRaises(x) => Moved(s, x, Closing)
    case ReleaseLease(x) => Moved(s.(db := Unleased(s.db, s.executors[x].approvalId)), x, Done)
    case Crash(x) => s.(executors := s.executors[x := s.executors[x].(alive := false)])
  }

  ghost predicate IsRun(s: System, policy: Policy, events: seq<Event>)
    decreases |events|
  {
    events == [] || (Enabled(s, policy, events[0]) && IsRun(Next(s, policy, events[0]), policy, events[1..]))
  }

  ghost function After(s: System, policy: Policy, events: seq<Event>): System
    requires IsRun(s, policy, events)
    decreases |events|
  {
    if events == [] then s else After(Next(s, policy, events[0]), policy, events[1..])
  }

  // ---- Single use and traceability ----

  predicate Past(x: Executor) {
    x.stage == Spent || x.stage == Announced || x.stage == Running || x.stage == Ended
  }

  predicate BeforeRun(x: Executor) {
    x.stage == Checked || x.stage == Holding || x.stage == Spent || x.stage == Announced
  }

  /** What the executor read agrees with the stored approval, whose fixed columns never change. */
  ghost predicate Snapshot(d: Db, policy: Policy, x: Executor) {
    && x.approvalId < |d.approvals|
    && var a := d.approvals[x.approvalId];
    && x.snapshot.plan == a.plan && x.plan == a.plan && x.snapshot.actor == a.actor
    && x.snapshot.requestId == a.requestId && x.snapshot.requestedBy == a.requestedBy
    && x.snapshot.decision == Approve && a.decision != Reject
    && (policy.twoPerson ==> x.owner != a.actor)
    && (x.spent ==> a.consumedAt.Some?)
    && (Past(x) ==> x.spent)
  }

  ghost predicate Executors(s: System, policy: Policy) {
    && (forall n | 0 <= n < |s.executors| :: Snapshot(s.db, policy, s.executors[n]))
    && (forall m, n | 0 <= m < n < |s.executors| && s.executors[m].spent && s.executors[n].spent ::
          s.executors[m].approvalId != s.executors[n].approvalId)
  }

  ghost predicate Runs(s: System) {
    && (forall n | 0 <= n < |s.runs| ::
          s.runs[n] < |s.executors| && s.executors[s.runs[n]].spent && !BeforeRun(s.executors[s.runs[n]]))
    && (forall m, n | 0 <= m < n < |s.runs| :: s.runs[m] != s.runs[n])
  }

  /** An approval made from a request carries that request's plan and its requester, who did not approve it. */
  ghost predicate FromRequest(d: Db, a: Approval)
    requires a.requestId.Some?
  {
    && a.requestId.value < |d.requests|
    && var r := d.requests[a.requestId.value];
    && r.status != Pending && a.plan == r.plan && a.requestedBy == Some(r.requestedBy) && a.actor != r.requestedBy
  }

  ghost predicate Approvals(d: Db, policy: Policy) {
    && (forall n | 0 <= n < |d.requests| :: d.requests[n].fingerprint == Digest(d.requests[n].plan))
    && (forall n | 0 <= n < |d.approvals| ::
          && d.approvals[n].fingerprint == Digest(d.approvals[n].plan)
          && (policy.twoPerson ==> d.approvals[n].requestId.Some?)
          && (d.approvals[n].requestId.Some? ==> FromRequest(d, d.approvals[n])))
    && (forall m, n | 0 <= m < n < |d.approvals| && d.approvals[m].requestId.Some? ::
          d.approvals[m].requestId != d.approvals[n].requestId)
  }

  ghost predicate Traceable(s: System, policy: Policy) {
    Approvals(s.db, policy) && Executors(s, policy) && Runs(s)
  }

  lemma StatusKeepsApprovals(d: Db, policy: Policy, id: Option<nat>, status: RequestStatus)
    requires Approvals(d, policy) && status != Pending
    ensures Approvals(LinkedStatus(d, id, status), policy)
    ensures LinkedStatus(d, id, status).approvals == d.approvals && LinkedStatus(d, id, status).lease == d.lease
  {
    var v := LinkedStatus(d, id, status);
    assert forall n | 0 <= n < |d.requests| :: v.requests[n] == d.requests[n].(status := v.requests[n].status);
    assert forall n | 0 <= n < |d.requests| && d.requests[n].status != Pending :: v.requests[n].status != Pending;
    forall a: Approval | a in d.approvals && a.requestId.Some? && FromRequest(d, a) ensures FromRequest(v, a) {
    }
  }

  lemma DecisionKeepsApprovals(d: Db, policy: Policy, id: nat, current: Plan, actor: string, approves: bool, now: nat)
    requires Approvals(d, policy) && CanDecide(d, id, current, actor)
    ensures Approvals(Decided(d, id, current, actor, approves, now), policy)
  {
    StatusKeepsApprovals(d, policy, Some(id), if approves then Approved else Rejected);
  }

  lemma RevokeKeepsApprovals(d: Db, policy: Policy, id: nat)
    requires Approvals(d, policy) && CanRevoke(d, id)
    ensures Approvals(Revoke(d, id), policy)
  {
    StatusKeepsApprovals(d.(approvals := d.approvals[id := d.approvals[id].(decision := Withdrawn)]), policy,
                         d.approvals[id].requestId, RequestStatus.Revoked);
  }

  lemma DbStepKeepsApprovals(s: System, policy: Policy, e: Event)
    requires Approvals(s.db, policy) && Enabled(s, policy, e)
    ensures Approvals(Next(s, policy, e).db, policy)
  {
    match e
    case MarkStale(id) => StatusKeepsApprovals(s.db, policy, Some(id), Stale);
    case DecideRequest(id, current, approver, approves) =>
      DecisionKeepsApprovals(s.db, policy, id, current, approver, approves, s.now);
    case RevokeApproval(id) => RevokeKeepsApprovals(s.db, policy, id);
    case Announce(x) => StatusKeepsApprovals(s.db, policy, s.executors[x].snapshot.requestId, Executing);
    case SetOutcome(x) =>
      StatusKeepsApprovals(s.db, policy, s.executors[x].snapshot.requestId,
        if s.executors[x].succeeded then Completed else Failed);
    case _ =>
  }

  /** The fixed columns of every approval, and whether it is consumed, survive each step. */
  ghost predicate Kept(d: Db, v: Db) {
    && |d.requests| <= |v.requests|
    && (forall n | 0 <= n < |d.requests| ::
          v.requests[n].plan == d.requests[n].plan && v.requests[n].requestedBy == d.requests[n].requestedBy)
    && |d.approvals| <= |v.approvals|
    && forall n | 0 <= n < |d.approvals| :: KeptApproval(d.approvals[n], v.approvals[n])
  }

  ghost predicate KeptApproval(a: Approval, b: Approval) {
    && b.plan == a.plan && b.actor == a.actor && b.requestId == a.requestId && b.requestedBy == a.requestedBy
    && (a.consumedAt.Some? ==> b.consumedAt.Some? && b.decision == a.decision)
    && (a.decision != Approve ==> b.decision == a.decision)
    && (a.decision != Reject ==> b.decision != Reject)
  }

  lemma StatusKept(d: Db, id: Option<nat>, status: RequestStatus)
    ensures Kept(d, LinkedStatus(d, id, status))
  {
  }

  lemma DecisionsKept(d: Db, id: nat, current: Plan, actor: string, approves: bool, now: nat)
    ensures CanDecide(d, id, current, actor) ==> Kept(d, Decided(d, id, current, actor, approves, now))
    ensures CanRevoke(d, id) ==> Kept(d, Revoke(d, id))
  {
  }

  lemma StepKeepsDb(s: System, policy: Policy, e: Event)
    requires Enabled(s, policy, e)
    ensures Kept(s.db, Next(s, policy, e).db)
  {
    match e
    case MarkStale(id) => StatusKept(s.db, Some(id), Stale);
    case DecideRequest(id, current, approver, approves) => DecisionsKept(s.db, id, current, approver, approves, s.now);
    case RevokeApproval(id) => DecisionsKept(s.db, id, s.db.approvals[id].plan, "", false, 0);
    case Announce(x) => StatusKept(s.db, s.executors[x].snapshot.requestId, Executing);
    case SetOutcome(x) =>
      StatusKept(s.db, s.executors[x].snapshot.requestId, if s.executors[x].succeeded then Completed else Failed);
    case _ =>
  }

  lemma StepKeepsRows(s: System, policy: Policy, e: Event)
    requires Enabled(s, policy, e)
    ensures Kept(s.db, Next(s, policy, e).db)
    ensures |s.executors| <= |Next(s, policy, e).executors|
    ensures |s.runs| <= |Next(s, policy, e).runs| && Next(s, policy, e).runs[..|s.runs|] == s.runs
  {
    StepKeepsDb(s, policy, e);
  }

  /** What a step may do to an executor that has already started. */
  ghost predicate KeptExecutor(x: Executor, y: Executor) {
    && y.approvalId == x.approvalId && y.owner == x.owner && y.snapshot == x.snapshot && y.plan == x.plan
    && (x.spent ==> y.spent)
    && ((Past(x) ==> x.spent) ==> Past(y) ==> y.spent)
  }

  lemma StepKeepsExecutor(s: System, policy: Policy, e: Event, n: nat)
    requires Enabled(s, policy, e) && n < |s.executors|
    ensures KeptExecutor(s.executors[n], Next(s, policy, e).executors[n])
    ensures !s.executors[n].spent && Next(s, policy, e).executors[n].spent ==> e == Event.Consume(n)
  {
  }

  lemma StartedSnapshot(s: System, policy: Policy, e: Event)
    requires Enabled(s, policy, e) && e.StartExecute? && Approvals(s.db, policy)
    ensures Snapshot(Next(s, policy, e).db, policy, Next(s, policy, e).executors[|s.executors|])
  {
  }

  lemma StepKeepsSnapshot(s: System, policy: Policy, e: Event, n: nat)
    requires Approvals(s.db, policy) && Executors(s, policy) && Enabled(s, policy, e)
    requires n < |Next(s, policy, e).executors|
    ensures Snapshot(Next(s, policy, e).db, policy, Next(s, policy, e).executors[n])
  {
    if n < |s.executors| {
      assert Snapshot(s.db, policy, s.executors[n]);
      StepKeepsDb(s, policy, e);
      StepKeepsExecutor(s, policy, e, n);
      var id := s.executors[n].approvalId;
      assert KeptApproval(s.db.approvals[id], Next(s, policy, e).db.approvals[id]);
    } else {
      StartedSnapshot(s, policy, e);
    }
  }

  lemma StepKeepsExecutors(s: System, policy: Policy, e: Event)
    requires Approvals(s.db, policy) && Executors(s, policy) && Enabled(s, policy, e)
    ensures Executors(Next(s, policy, e), policy)
  {
    var v := Next(s, policy, e);
    forall n | 0 <= n < |v.executors| ensures Snapshot(v.db, policy, v.executors[n]) {
      StepKeepsSnapshot(s, policy, e, n);
    }
    forall m, n | 0 <= m < n < |v.executors| && v.executors[m].spent && v.executors[n].spent
      ensures v.executors[m].approvalId != v.executors[n].approvalId
    {
      SpentApart(s, policy, e, m, n);
    }
  }

  /** Consuming succeeds only on an approval that no executor has spent. */
  lemma SpentApart(s: System, policy: Policy, e: Event, m: nat, n: nat)
    requires Executors(s, policy) && Enabled(s, policy, e)
    requires m < n < |Next(s, policy, e).executors|
    requires Next(s, policy, e).executors[m].spent && Next(s, policy, e).executors[n].spent
    ensures Next(s, policy, e).executors[m].approvalId != Next(s, policy, e).executors[n].approvalId
  {
    assert n < |s.executors|;
    StepKeepsExecutor(s, policy, e, m);
    StepKeepsExecutor(s, policy, e, n);
    assert Snapshot(s.db, policy, s.executors[m]) && Snapshot(s.db, policy, s.executors[n]);
  }

  /** An executor that has started its run stays past that point, and only StartRun starts one. */
  lemma StepKeepsStarted(s: System, policy: Policy, e: Event, n: nat)
    requires Enabled(s, policy, e) && n < |s.executors|
    ensures !BeforeRun(s.executors[n]) ==> !BeforeRun(Next(s, policy, e).executors[n])
    ensures Next(s, policy, e).runs == if e.StartRun? then s.runs + [e.executor] else s.runs
  {
  }

  lemma StepKeepsRuns(s: System, policy: Policy, e: Event)
    requires Executors(s, policy) && Runs(s) && Enabled(s, policy, e)
    ensures Runs(Next(s, policy, e))
  {
    var v := Next(s, policy, e);
    forall n | 0 <= n < |s.executors|
      ensures (s.executors[n].spent ==> v.executors[n].spent) &&
        (!BeforeRun(s.executors[n]) ==> !BeforeRun(v.executors[n])) {
      StepKeepsExecutor(s, policy, e, n);
      StepKeepsStarted(s, policy, e, n);
    }
    if e.StartRun? {
      assert Snapshot(s.db, policy, s.executors[e.executor]);
      StepKeepsStarted(s, policy, e, e.executor);
    } else if |s.runs| > 0 {
      StepKeepsStarted(s, policy, e, s.runs[0]);
    }
  }

  lemma {:induction false} EveryStateIsTraceable(s: System, policy: Policy, events: seq<Event>)
    requires Traceable(s, policy) && IsRun(s, policy, events)
    ensures Traceable(After(s, policy, events), policy)
    decreases |events|
  {
    if events != [] {
      DbStepKeepsApprovals(s, policy, events[0]);
      StepKeepsExecutors(s, policy, events[0]);
      StepKeepsRuns(s, policy, events[0]);
      EveryStateIsTraceable(Next(s, policy, events[0]), policy, events[1..]);
    }
  }

  function RunApproval(s: System, n: nat): nat
    requires n < |s.runs| && s.runs[n] < |s.executors|
  {
    s.executors[s.runs[n]].approvalId
  }

  /** Whatever interleaves and whatever crashes, an approval starts at most one `controller.run`. */
  lemma OneRunPerApproval(policy: Policy, events: seq<Event>)
    requires IsRun(INITIAL, policy, events)
    ensures var s := After(INITIAL, policy, events);
      && (forall n | 0 <= n < |s.runs| :: s.runs[n] < |s.executors|)
      && forall m, n | 0 <= m < n < |s.runs| :: RunApproval(s, m) != RunApproval(s, n)
  {
    EveryStateIsTraceable(INITIAL, policy, events);
    var s := After(INITIAL, policy, events);
    forall m, n | 0 <= m < n < |s.runs| ensures RunApproval(s, m) != RunApproval(s, n) {
      assert s.runs[m] != s.runs[n];
      var i, j := s.runs[m], s.runs[n];
      assert s.executors[i].spent && s.executors[j].spent;
    }
  }

  /** In either mode, the approval behind a run was read as an approve decision, stays one or is later withdrawn,
      and is spent. */
  lemma RunsWereApproved(policy: Policy, events: seq<Event>, n: nat)
    requires IsRun(INITIAL, policy, events) && n < |After(INITIAL, policy, events).runs|
    ensures var s := After(INITIAL, policy, events);
      && s.runs[n] < |s.executors| && RunApproval(s, n) < |s.db.approvals|
      && var x := s.executors[s.runs[n]];
      && var a := s.db.approvals[x.approvalId];
      && x.snapshot.decision == Approve && (a.decision == Approve || a.decision == Withdrawn)
      && a.consumedAt.Some? && x.plan == a.plan && a.fingerprint == Digest(x.plan)
  {
    EveryStateIsTraceable(INITIAL, policy, events);
    var s := After(INITIAL, policy, events);
    assert Snapshot(s.db, policy, s.executors[s.runs[n]]);
  }

  /**
   With two-person mode on, every run traces to one persisted request: the plan run is the plan requested,
   the requester did not approve it and the approver does not execute it.
   */
  lemma TwoPersonRunsAreTraceable(policy: Policy, events: seq<Event>, n: nat)
    requires policy.twoPerson && IsRun(INITIAL, policy, events) && n < |After(INITIAL, policy, events).runs|
    ensures var s := After(INITIAL, policy, events);
      && s.runs[n] < |s.executors| && RunApproval(s, n) < |s.db.approvals|
      && var x := s.executors[s.runs[n]];
      && var a := s.db.approvals[x.approvalId];
      && a.requestId.Some? && a.requestId.value < |s.db.requests|
      && var r := s.db.requests[a.requestId.value];
      && r.status != Pending && x.plan == a.plan == r.plan
      && x.snapshot.decision == Approve && (a.decision == Approve || a.decision == Withdrawn)
      && a.actor != r.requestedBy && x.owner != a.actor
  {
    EveryStateIsTraceable(INITIAL, policy, events);
    var s := After(INITIAL, policy, events);
    assert Snapshot(s.db, policy, s.executors[s.runs[n]]);
    assert FromRequest(s.db, s.db.approvals[RunApproval(s, n)]);
  }

  /** No request is ever decided twice. */
  lemma OneApprovalPerRequest(policy: Policy, events: seq<Event>, m: nat, n: nat)
    requires IsRun(INITIAL, policy, events)
    requires m < n < |After(INITIAL, policy, events).db.approvals|
    requires After(INITIAL, policy, events).db.approvals[m].requestId.Some?
    ensures After(INITIAL, policy, events).db.approvals[m].requestId !=
      After(INITIAL, policy, events).db.approvals[n].requestId
  {
    EveryStateIsTraceable(INITIAL, policy, events);
  }

  // ---- Consumption and revocation ----

  lemma {:induction false} RowsStay(s: System, policy: Policy, events: seq<Event>)
    requires IsRun(s, policy, events)
    ensures Kept(s.db, After(s, policy, events).db)
    ensures |s.executors| <= |After(s, policy, events).executors|
    ensures |s.runs| <= |After(s, policy, events).runs| && After(s, policy, events).runs[..|s.runs|] == s.runs
    decreases |events|
  {
    if events != [] {
      var t := Next(s, policy, events[0]);
      StepKeepsRows(s, policy, events[0]);
      RowsStay(t, policy, events[1..]);
      var v := After(s, policy, events);
      forall n | 0 <= n < |s.db.approvals| ensures KeptApproval(s.db.approvals[n], v.db.approvals[n]) {
        assert KeptApproval(s.db.approvals[n], t.db.approvals[n]);
      }
      assert v.runs[..|s.runs|] == v.runs[..|t.runs|][..|s.runs|];
    }
  }

  /** A consumed approval is never revoked afterwards, and a decision other than approve is final. */
  lemma ConsumedIsNeverRevoked(s: System, policy: Policy, events: seq<Event>, id: nat)
    requires IsRun(s, policy, events) && id < |s.db.approvals|
    requires s.db.approvals[id].consumedAt.Some? || s.db.approvals[id].decision != Approve
    ensures id < |After(s, policy, events).db.approvals|
    ensures After(s, policy, events).db.approvals[id].decision == s.db.approvals[id].decision
  {
    RowsStay(s, policy, events);
    assert KeptApproval(s.db.approvals[id], After(s, policy, events).db.approvals[id]);
  }

  /** No executor numbered `from` or later works for this approval. */
  ghost predicate NoneStarted(s: System, id: nat, from: nat) {
    forall n | from <= n < |s.executors| :: s.executors[n].approvalId != id
  }

  lemma {:induction false} RevokedStartsNothing(s: System, policy: Policy, events: seq<Event>, id: nat, from: nat)
    requires IsRun(s, policy, events) && id < |s.db.approvals| && s.db.approvals[id].decision != Approve
    requires NoneStarted(s, id, from)
    ensures NoneStarted(After(s, policy, events), id, from)
    decreases |events|
  {
    if events != [] {
      StepKeepsRows(s, policy, events[0]);
      var t := Next(s, policy, events[0]);
      assert KeptApproval(s.db.approvals[id], t.db.approvals[id]);
      RevokedStartsNothing(t, policy, events[1..], id, from);
    }
  }

  /** An `execute` that starts after the revocation completed never reaches a run. */
  lemma RevokedBeforeExecute(s: System, policy: Policy, events: seq<Event>, id: nat, n: nat)
    requires IsRun(s, policy, events) && id < |s.db.approvals| && s.db.approvals[id].decision != Approve
    requires n < |After(s, policy, events).runs|
    requires |s.executors| <= After(s, policy, events).runs[n] < |After(s, policy, events).executors|
    ensures RunApproval(After(s, policy, events), n) != id
  {
    RevokedStartsNothing(s, policy, events, id, |s.executors|);
  }

  // ---- Which runs a revocation misses ----

  lemma {:induction false} RunExtends(s: System, policy: Policy, events: seq<Event>, e: Event)
    requires IsRun(s, policy, events) && Enabled(After(s, policy, events), policy, e)
    ensures IsRun(s, policy, events + [e])
    ensures After(s, policy, events + [e]) == Next(After(s, policy, events), policy, e)
    decreases |events|
  {
    if events != [] {
      assert (events + [e])[1..] == events[1..] + [e];
      RunExtends(Next(s, policy, events[0]), policy, events[1..], e);
    } else {
      assert [e][1..] == [];
    }
  }

  lemma {:induction false} RunJoins(s: System, policy: Policy, events: seq<Event>, more: seq<Event>)
    requires IsRun(s, policy, events) && IsRun(After(s, policy, events), policy, more)
    ensures IsRun(s, policy, events + more)
    ensures After(s, policy, events + more) == After(After(s, policy, events), policy, more)
    decreases |events|
  {
    if events != [] {
      RunJoins(Next(s, policy, events[0]), policy, events[1..], more);
      assert (events + more)[1..] == events[1..] + more;
    } else {
      assert events + more == more;
    }
  }

  predicate CanStillRun(s: System, id: nat) {
    exists x :: 0 <= x < |s.executors| && s.executors[x].alive && s.executors[x].approvalId == id
      && (s.executors[x].stage == Checked || s.executors[x].stage == Holding)
  }

  /** Runs that started at position `from` or later are not for this approval, and no executor can start one. */
  ghost predicate NoRunFrom(s: System, id: nat, from: nat) {
    && id < |s.db.approvals| && s.db.approvals[id].decision != Approve
    && (forall n | 0 <= n < |s.executors| && s.executors[n].approvalId == id && s.executors[n].alive ::
      !BeforeRun(s.executors[n]))
    && (forall n | from <= n < |s.runs| :: s.runs[n] < |s.executors| && RunApproval(s, n) != id)
  }

  lemma StepStartsNoRun(s: System, policy: Policy, e: Event, id: nat, from: nat)
    requires NoRunFrom(s, id, from) && Enabled(s, policy, e)
    ensures NoRunFrom(Next(s, policy, e), id, from)
  {
    var v := Next(s, policy, e);
    StepKeepsDb(s, policy, e);
    assert KeptApproval(s.db.approvals[id], v.db.approvals[id]);
    forall n | 0 <= n < |s.executors| ensures v.executors[n].approvalId == s.executors[n].approvalId {
      StepKeepsExecutor(s, policy, e, n);
    }
    forall n | 0 <= n < |v.executors| && v.executors[n].approvalId == id && v.executors[n].alive
      ensures !BeforeRun(v.executors[n]) {
      assert n < |s.executors|;
    }
  }

  lemma {:induction false} NothingStartsRun(s: System, policy: Policy, events: seq<Event>, id: nat, from: nat)
    requires NoRunFrom(s, id, from) && IsRun(s, policy, events)
    ensures NoRunFrom(After(s, policy, events), id, from)
    decreases |events|
  {
    if events != [] {
      StepStartsNoRun(s, policy, events[0], id, from);
      NothingStartsRun(Next(s, policy, events[0]), policy, events[1..], id, from);
    }
  }

  /** The rest of an execute whose approval is not consumed yet and whose lease is free or its own. */
  lemma ExecutorReachesRun(s: System, policy: Policy, x: nat) returns (events: seq<Event>)
    requires At(s, x, Holding) && CanConsume(s.db, s.executors[x].approvalId)
    ensures IsRun(s, policy, events)
    ensures var v := After(s, policy, events);
      v.runs == s.runs + [x] && |v.executors| == |s.executors| && v.executors[x].approvalId == s.executors[x].approvalId
      && |v.db.approvals| == |s.db.approvals| &&
        v.db.approvals[s.executors[x].approvalId].decision == s.db.approvals[s.executors[x].approvalId].decision
  {
    var e := Event.Consume(x);
    RunExtends(s, policy, [], e);
    events := [] + [e];
    RunExtends(s, policy, events, Event.Announce(x));
    events := events + [Event.Announce(x)];
    RunExtends(s, policy, events, StartRun(x));
    events := events + [StartRun(x)];
  }

  /** Whoever passed the checks of `execute` and has not consumed the approval can still run after the revocation. */
  lemma RevocationMissesRun(s: System, policy: Policy, id: nat, x: nat) returns (events: seq<Event>)
    requires CanRevoke(s.db, id) && x < |s.executors| && s.executors[x].alive && s.executors[x].approvalId == id
    requires s.executors[x].stage == Checked || s.executors[x].stage == Holding
    ensures IsRun(s, policy, events) && |events| > 0 && events[0] == RevokeApproval(id)
    ensures var v := After(s, policy, events);
      v.runs == s.runs + [x] && |v.executors| == |s.executors| && v.executors[x].approvalId == id
      && id < |v.db.approvals| && v.db.approvals[id].decision == Withdrawn
  {
    var e := RevokeApproval(id);
    RunExtends(s, policy, [], e);
    events := [] + [e];
    if s.executors[x].stage == Checked {
      var wait := Tick(if s.db.lease.Some? then s.db.lease.value.acquiredAt + policy.leaseMaxAge + 1 else 0);
      RunExtends(s, policy, events, wait);
      events := events + [wait];
      RunExtends(s, policy, events, Event.Acquire(x));
      events := events + [Event.Acquire(x)];
    }
    var rest := ExecutorReachesRun(After(s, policy, events), policy, x);
    RunJoins(s, policy, events, rest);
    events := events + rest;
  }

  /** This run begins with the revocation and starts a controller run for the approval afterwards. */
  ghost predicate RunsAfterRevocation(s: System, policy: Policy, events: seq<Event>, id: nat) {
    && |events| > 0 && events[0] == RevokeApproval(id) && IsRun(s, policy, events)
    && var v := After(s, policy, events);
    && exists n :: |s.runs| <= n < |v.runs| && v.runs[n] < |v.executors| && RunApproval(v, n) == id
  }

  /** Exactly when a revocation can lose the race: some live executor has passed the checks and not consumed yet. */
  lemma RevocationMissesExactly(s: System, policy: Policy, id: nat)
    requires Executors(s, policy) && CanRevoke(s.db, id)
    ensures CanStillRun(s, id) <==> exists events :: RunsAfterRevocation(s, policy, events, id)
  {
    if CanStillRun(s, id) {
      var x :| 0 <= x < |s.executors| && s.executors[x].alive && s.executors[x].approvalId == id
        && (s.executors[x].stage == Checked || s.executors[x].stage == Holding);
      var events := RevocationMissesRun(s, policy, id, x);
      var v := After(s, policy, events);
      assert v.runs[|s.runs|] == x && RunApproval(v, |s.runs|) == id;
      assert RunsAfterRevocation(s, policy, events, id);
    } else {
      forall events | |events| > 0 && events[0] == RevokeApproval(id) && IsRun(s, policy, events)
        ensures !RunsAfterRevocation(s, policy, events, id)
      {
        forall n | 0 <= n < |s.executors| && s.executors[n].approvalId == id && s.executors[n].alive
          ensures !BeforeRun(s.executors[n]) {
          assert Snapshot(s.db, policy, s.executors[n]);
        }
        NothingStartsRun(Next(s, policy, events[0]), policy, events[1..], id, |s.runs|);
      }
    }
  }

  // ---- Single flight ----

  predicate InFlight(x: Executor) {
    x.alive && x.stage != Checked && x.stage != Done
  }

  /** Every live executor that holds the lease is still inside its lease window. */
  ghost predicate WithinWindow(s: System, policy: Policy) {
    forall n | 0 <= n < |s.executors| && InFlight(s.executors[n]) ::
      s.now <= s.executors[n].acquiredAt + policy.leaseMaxAge
  }

  /** Whenever a lease is taken, no live executor has outlived its window. */
  ghost predicate Timely(s: System, policy: Policy, events: seq<Event>)
    requires IsRun(s, policy, events)
    decreases |events|
  {
    events != [] ==>
      (events[0].Acquire? ==> WithinWindow(s, policy)) && Timely(Next(s, policy, events[0]), policy, events[1..])
  }

  ghost predicate Alone(s: System) {
    forall m, n | 0 <= m < n < |s.executors| :: !(InFlight(s.executors[m]) && InFlight(s.executors[n]))
  }

  ghost predicate AlwaysAlone(s: System, policy: Policy, events: seq<Event>)
    requires IsRun(s, policy, events)
    decreases |events|
  {
    Alone(s) && (events != [] ==> AlwaysAlone(Next(s, policy, events[0]), policy, events[1..]))
  }

  /** A live executor past acquisition owns the lease row. */
  ghost predicate OwnsLease(s: System, x: Executor) {
    s.db.lease.Some? && s.db.lease.value.releaseId == x.approvalId && s.db.lease.value.acquiredAt == x.acquiredAt
  }

  ghost predicate SingleFlight(s: System) {
    && (forall n | 0 <= n < |s.executors| && InFlight(s.executors[n]) :: OwnsLease(s, s.executors[n]))
    && Alone(s)
  }

  /** The lease row stands and no executor came in flight. */
  ghost predicate Quiet(s: System, v: System) {
    && v.db.lease == s.db.lease
    && forall n | 0 <= n < |v.executors| && InFlight(v.executors[n]) ::
         n < |s.executors| && InFlight(s.executors[n])
         && v.executors[n].approvalId == s.executors[n].approvalId &&
           v.executors[n].acquiredAt == s.executors[n].acquiredAt
  }

  lemma QuietStep(s: System, policy: Policy, e: Event)
    requires Enabled(s, policy, e) && !e.Acquire? && !e.ReleaseLease?
    ensures Quiet(s, Next(s, policy, e))
  {
  }

  lemma QuietKeepsSingleFlight(s: System, v: System)
    requires SingleFlight(s) && Quiet(s, v)
    ensures SingleFlight(v)
  {
  }

  lemma AcquireIsAlone(s: System, policy: Policy, e: Event)
    requires SingleFlight(s) && WithinWindow(s, policy) && Enabled(s, policy, e) && e.Acquire?
    ensures forall n | 0 <= n < |s.executors| :: !InFlight(s.executors[n])
  {
    forall n | 0 <= n < |s.executors| ensures !InFlight(s.executors[n]) {
      assert InFlight(s.executors[n]) ==> OwnsLease(s, s.executors[n]);
    }
  }

  lemma StepKeepsSingleFlight(s: System, policy: Policy, e: Event)
    requires SingleFlight(s) && Enabled(s, policy, e) && (e.Acquire? ==> WithinWindow(s, policy))
    ensures SingleFlight(Next(s, policy, e))
  {
    var v := Next(s, policy, e);
    if e.Acquire? {
      AcquireIsAlone(s, policy, e);
      assert forall n | 0 <= n < |v.executors| && n != e.executor :: v.executors[n] == s.executors[n];
    } else if e.ReleaseLease? {
      assert InFlight(s.executors[e.executor]);
      forall n | 0 <= n < |v.executors| ensures !InFlight(v.executors[n]) {
        if n != e.executor { assert v.executors[n] == s.executors[n]; }
      }
    } else {
      QuietStep(s, policy, e);
      QuietKeepsSingleFlight(s, v);
    }
  }

  /** Taking the lease keeps single flight exactly when no live executor has outlived its window. */
  lemma AcquireIsSafeExactly(s: System, policy: Policy, x: nat)
    requires SingleFlight(s) && Enabled(s, policy, Event.Acquire(x))
    ensures SingleFlight(Next(s, policy, Event.Acquire(x))) <==> WithinWindow(s, policy)
    ensures Alone(Next(s, policy, Event.Acquire(x))) <==> WithinWindow(s, policy)
  {
    var v := Next(s, policy, Event.Acquire(x));
    if WithinWindow(s, policy) {
      StepKeepsSingleFlight(s, policy, Event.Acquire(x));
    } else {
      var n :| 0 <= n < |s.executors| && InFlight(s.executors[n]) &&
        s.now > s.executors[n].acquiredAt + policy.leaseMaxAge;
      assert InFlight(v.executors[n]) && InFlight(v.executors[x]);
    }
  }

  lemma {:induction false} SingleFlightExactly(s: System, policy: Policy, events: seq<Event>)
    requires SingleFlight(s) && IsRun(s, policy, events)
    ensures AlwaysAlone(s, policy, events) <==> Timely(s, policy, events)
    ensures Timely(s, policy, events) ==> SingleFlight(After(s, policy, events))
    decreases |events|
  {
    if events != [] {
      var v := Next(s, policy, events[0]);
      if events[0].Acquire? {
        AcquireIsSafeExactly(s, policy, events[0].executor);
      }
      if events[0].Acquire? ==> WithinWindow(s, policy) {
        StepKeepsSingleFlight(s, policy, events[0]);
        SingleFlightExactly(v, policy, events[1..]);
      }
    }
  }

  /**
   Over a whole history, at most one executor is ever between acquire and release if and only if the lease is
   never taken while a live executor has outlived its window; so at most one `controller.run` is in flight.
   */
  lemma AtMostOneInFlight(policy: Policy, events: seq<Event>)
    requires IsRun(INITIAL, policy, events)
    ensures AlwaysAlone(INITIAL, policy, events) <==> Timely(INITIAL, policy, events)
    ensures Timely(INITIAL, policy, events) ==> Alone(After(INITIAL, policy, events))
  {
    SingleFlightExactly(INITIAL, policy, events);
  }

  // ---- Why the side conditions are there ----

  lemma ApprovedRun(policy: Policy, plan: Plan) returns (events: seq<Event>)
    ensures IsRun(INITIAL, policy, events)
    ensures var s := After(INITIAL, policy, events);
      && s.now == 0 && s.executors == [] && s.runs == [] && s.db.lease == None
      && |s.db.requests| == 2 && |s.db.approvals| == 2
      && (forall n | 0 <= n < 2 ::
        MayExecute(s.db, policy, n, "operator", plan, 0) && s.db.approvals[n].requestId == Some(n))
  {
    events := [];
    RunExtends(INITIAL, policy, events, SubmitRequest(plan, "author"));
    events := events + [SubmitRequest(plan, "author")];
    RunExtends(INITIAL, policy, events, SubmitRequest(plan, "author"));
    events := events + [SubmitRequest(plan, "author")];
    RunExtends(INITIAL, policy, events, DecideRequest(0, plan, "approver", true));
    events := events + [DecideRequest(0, plan, "approver", true)];
    RunExtends(INITIAL, policy, events, DecideRequest(1, plan, "approver", true));
    events := events + [DecideRequest(1, plan, "approver", true)];
  }

  /** A history in which a revocation lands after the checks and before the consume, and the run starts all the same. */
  lemma RevocationCanLoseTheRace(policy: Policy, plan: Plan) returns (events: seq<Event>)
    ensures IsRun(INITIAL, policy, events)
    ensures After(INITIAL, policy, events).runs == [0]
    ensures var s := After(INITIAL, policy, events);
      |s.executors| == 1 && RunApproval(s, 0) < |s.db.approvals| &&
        s.db.approvals[RunApproval(s, 0)].decision == Withdrawn
  {
    events := ApprovedRun(policy, plan);
    RunExtends(INITIAL, policy, events, StartExecute(0, "operator", plan));
    events := events + [StartExecute(0, "operator", plan)];
    var rest := RevocationMissesRun(After(INITIAL, policy, events), policy, 0, 0);
    RunJoins(INITIAL, policy, events, rest);
    events := events + rest;
  }

  /** A history in which an executor outlives its lease window and shares the flight with the one that reclaimed the
      lease. */
  lemma OverstayingBreaksSingleFlight(policy: Policy, plan: Plan) returns (events: seq<Event>)
    ensures IsRun(INITIAL, policy, events) && !Alone(After(INITIAL, policy, events)) && !Timely(INITIAL, policy, events)
  {
    events := ApprovedRun(policy, plan);
    RunExtends(INITIAL, policy, events, StartExecute(0, "operator", plan));
    events := events + [StartExecute(0, "operator", plan)];
    RunExtends(INITIAL, policy, events, StartExecute(1, "operator", plan));
    events := events + [StartExecute(1, "operator", plan)];
    RunExtends(INITIAL, policy, events, Acquire(0));
    events := events + [Acquire(0)];
    RunExtends(INITIAL, policy, events, Tick(policy.leaseMaxAge + 1));
    events := events + [Tick(policy.leaseMaxAge + 1)];
    var s := After(INITIAL, policy, events);
    assert SingleFlight(s) && InFlight(s.executors[0]) && !WithinWindow(s, policy);
    AcquireIsSafeExactly(s, policy, 1);
    RunExtends(INITIAL, policy, events, Acquire(1));
    events := events + [Acquire(1)];
    SingleFlightExactly(INITIAL, policy, events);
  }
}
