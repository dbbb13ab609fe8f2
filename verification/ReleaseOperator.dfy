/** The approval-gated, single-flight wrapper around production releases. */
module ReleaseOperator {
  import opened Outcomes
  import opened DeploymentRegistry
  import opened ReleasePlan
  import opened ReleaseProtocol
  import opened ProductionRelease
  import Compat = CompatibilityService
  import Pipeline = ReleasePipeline

  datatype OperatorError =
    | PlanRefused(reason: PlanError)
    | UnknownRequest
    | UnknownApproval
    | RequestNotPending
    | ActorRequired
    | SamePerson
    | RequestRequired
    | StalePlan
    | NotApproved
    | AlreadyConsumed
    | MetadataMissing
    | ApproverExecutes
    | Expired
    | Busy
    | RunRefused(cause: RunError)

  /** The clock at the three moments `execute` reads it. */
  datatype Clock = Clock(checkedAt: nat, acquiredAt: nat, consumedAt: nat)

  /** The deployed slot, its version and endpoint, and the active adapter versions are those of the plan. */
  ghost predicate PlanLanded(p: Plan, reg: Registry, m: Compat.Matrix) {
    && ActiveSlot(reg) == Some(p.targetSlot) && p.targetSlot in reg
    && reg[p.targetSlot].version == p.targetVersion && reg[p.targetSlot].endpoint == p.targetEndpoint
    && forall n | 0 <= n < |p.adapters| ::
         Compat.OnlyActive(m, p.adapters[n].key) && Compat.Latest(m.quals, p.adapters[n].key) == Some(true)
  }

  /** The tables after a run that took the lease, spent the approval and gave the lease back. */
  function Performed(d: Db, id: nat, snapshot: Approval, owner: string, clock: Clock, success: bool): Db
    requires CanConsume(d, id)
  {
    var spent := Consumed(Leased(d, id, owner, clock.acquiredAt), id, clock.consumedAt);
    Unleased(LinkedStatus(LinkedStatus(spent, snapshot.requestId, Executing), snapshot.requestId,
      if success then Completed else Failed), id)
  }

  class ProductionReleaseOperator {
    const controller: ProductionReleaseController
    const policy: Policy
    var requests: seq<Request>
    var approvals: seq<Approval>
    var lease: Option<Lease>

    constructor (controller: ProductionReleaseController, policy: Policy)
      ensures Tables() == Db([], [], None) && this.controller == controller && this.policy == policy
    {
      this.controller, this.policy := controller, policy;
      requests, approvals, lease := [], [], None;
    }

    function Tables(): Db
      reads this
    {
      Db(requests, approvals, lease)
    }

    function Slots(): Registry
      reads controller.deployments
    {
      controller.deployments.slots
    }

    function Matrix(): Compat.Matrix
      reads controller.compatibility
    {
      controller.compatibility.Tables()
    }

    ghost predicate Valid()
      reads this, controller.deployments, controller.compatibility
    {
      controller.Valid() && Approvals(Tables(), policy)
    }

    /** The plan describes what the two registries hold now. */
    ghost predicate DescribesNow(p: Plan, target: Slot, ids: seq<string>)
      reads controller.deployments, controller.compatibility
    {
      Describes(p, Slots(), Matrix(), controller.compatibility.registry, controller.hasSmokeUrl,
                controller.deployments.router != null, target, Pipeline.Requested(ids))
    }

    method MakePlan(target: Slot, adapterIds: seq<string>) returns (r: Result<Plan, PlanError>)
      ensures r.Ok? ==> DescribesNow(r.value, target, adapterIds) && Pipeline.Requested(adapterIds) != []
      ensures r.Ok? <==> && target in Slots() && Pipeline.Requested(adapterIds) != []
                         && forall id | id in Pipeline.Requested(adapterIds) ::
                           Plannable(Matrix(), controller.compatibility.registry, id)
      ensures r == Err(PlanError.UnknownTarget) <==> target !in Slots()
      ensures r == Err(EmptyAdapterSet) <==> target in Slots() && Pipeline.Requested(adapterIds) == []
      ensures r.Err? && target in Slots() && Pipeline.Requested(adapterIds) != [] ==>
        FirstRefusal(Matrix(), controller.compatibility.registry, Pipeline.Requested(adapterIds), r.error)
    {
      if target !in controller.deployments.slots {
        return Err(PlanError.UnknownTarget);
      }
      var requested := Pipeline.Requested(adapterIds);
      if requested == [] {
        return Err(EmptyAdapterSet);
      }
      var adapters := PlanAdapters(controller.compatibility, requested);
      if adapters.Err? {
        return Err(adapters.error);
      }
      var row := controller.deployments.slots[target];
      var previous := ActiveSlot(controller.deployments.slots);
      return Ok(Plan(target, row.version, row.endpoint, previous,
                     if previous.None? then None else Some(controller.deployments.slots[previous.value].version),
                     controller.hasSmokeUrl, controller.deployments.router != null, adapters.value));
    }

    method SubmitRequest(plan: Plan, actor: string) returns (r: Result<nat, OperatorError>)
      modifies this
      ensures r.Ok? <==> actor != ""
      ensures r.Ok? ==> r.value == |old(requests)| && Tables() == Requested(old(Tables()), plan, actor)
      ensures r.Err? ==> Tables() == old(Tables())
    {
      if actor == "" {
        return Err(ActorRequired);
      }
      requests := requests + [Request(plan, Digest(plan), actor, Pending)];
      return Ok(|requests| - 1);
    }

    /** The plan that `approve_request` recomputes for this request. */
    ghost predicate DescribesAgain(current: Plan, d: Db, id: nat)
      reads controller.deployments, controller.compatibility
    {
      && id < |d.requests|
      && Pipeline.Requested(AdapterIds(d.requests[id].plan.adapters)) != []
      && DescribesNow(current, d.requests[id].plan.targetSlot, AdapterIds(d.requests[id].plan.adapters))
    }

    method ApproveRequest(id: nat, actor: string, approves: bool, now: nat) returns (r: Result<nat, OperatorError>)
      requires Valid()
      modifies this
      ensures Valid()
      ensures r.Ok? <==>
        exists current :: DescribesAgain(current, old(Tables()), id) && CanDecide(old(Tables()), id, current, actor)
      ensures r.Ok? ==> r.value == |old(approvals)| && exists current ::
        && DescribesAgain(current, old(Tables()), id) && CanDecide(old(Tables()), id, current, actor)
        && Tables() == Decided(old(Tables()), id, current, actor, approves, now)
      ensures r == Err(StalePlan) <==> MayDecide(old(Tables()), id, actor) && exists current ::
        DescribesAgain(current, old(Tables()), id) && Digest(current) != old(requests)[id].fingerprint
      ensures r.Err? ==>
        Tables() == if r.error == StalePlan then WithStatus(old(Tables()), id, Stale) else old(Tables())
    {
      if id >= |requests| {
        return Err(UnknownRequest);
      }
      var request := requests[id];
      if request.status != Pending {
        return Err(RequestNotPending);
      }
      if actor == "" {
        return Err(ActorRequired);
      }
      if actor == request.requestedBy {
        return Err(SamePerson);
      }
      var current := MakePlan(request.plan.targetSlot, AdapterIds(request.plan.adapters));
      if current.Err? {
        return Err(PlanRefused(current.error));
      }
      DescriptionUnique(current.value, Slots(), Matrix(), controller.compatibility.registry, controller.hasSmokeUrl,
                        controller.deployments.router !=
                          null, request.plan.targetSlot, Pipeline.Requested(AdapterIds(request.plan.adapters)));
      assert DescribesAgain(current.value, Tables(), id);
      if Digest(current.value) != request.fingerprint {
        StatusKeepsApprovals(Tables(), policy, Some(id), Stale);
        requests := requests[id := request.(status := Stale)];
        return Err(StalePlan);
      }
      ghost var before := Tables();
      assert CanDecide(before, id, current.value, actor);
      DecisionKeepsApprovals(before, policy, id, current.value, actor, approves, now);
      requests := requests[id := request.(status := if approves then Approved else Rejected)];
      approvals :=
        approvals + [Approval(current.value, Digest(current.value), if approves then Approve else Reject, actor,
                                         Some(id), Some(request.requestedBy), None, now)];
      assert Tables() == Decided(before, id, current.value, actor, approves, now);
      return Ok(|approvals| - 1);
    }

    /** `approve` as the route calls it, without a request. */
    method ApprovePlan(plan: Plan, actor: string, approves: bool, now: nat) returns (r: Result<nat, OperatorError>)
      modifies this
      ensures r.Ok? <==> actor != "" && !policy.twoPerson
      ensures r.Ok? ==>
        r.value == |old(approvals)| && Tables() == ApprovedDirectly(old(Tables()), plan, actor, approves, now)
      ensures r.Err? ==> Tables() == old(Tables())
    {
      if actor == "" {
        return Err(ActorRequired);
      }
      if policy.twoPerson {
        return Err(RequestRequired);
      }
      approvals :=
        approvals + [Approval(plan, Digest(plan), if approves then Approve else Reject, actor, None, None, None, now)];
      return Ok(|approvals| - 1);
    }

    method RevokeApproval(id: nat, actor: string) returns (r: Result<(), OperatorError>)
      modifies this
      ensures r.Ok? <==> actor != "" && CanRevoke(old(Tables()), id)
      ensures r.Ok? ==> Tables() == Revoke(old(Tables()), id)
      ensures r.Err? ==> Tables() == old(Tables())
    {
      if actor == "" {
        return Err(ActorRequired);
      }
      if id >= |approvals| {
        return Err(UnknownApproval);
      }
      var row := approvals[id];
      if row.consumedAt.Some? {
        return Err(AlreadyConsumed);
      }
      if row.decision != Approve {
        return Err(NotApproved);
      }
      approvals := approvals[id := row.(decision := Withdrawn)];
      SetRequestStatus(row.requestId, RequestStatus.Revoked);
      return Ok(());
    }

    method SetRequestStatus(id: Option<nat>, status: RequestStatus)
      modifies this
      ensures Tables() == LinkedStatus(old(Tables()), id, status)
    {
      if id.Some? && id.value < |requests| {
        requests := requests[id.value := requests[id.value].(status := status)];
      }
    }

    method Acquire(id: nat, owner: string, now: nat) returns (acquired: bool)
      modifies this
      ensures acquired <==> LeaseFree(old(Tables()), policy, now)
      ensures Tables() == if acquired then Leased(old(Tables()), id, owner, now) else old(Tables())
    {
      if lease.Some? && now <= lease.value.acquiredAt + policy.leaseMaxAge {
        return false;
      }
      lease := Some(Lease(id, owner, now));
      return true;
    }

    method ReleaseLease(id: nat)
      modifies this
      ensures Tables() == Unleased(old(Tables()), id)
    {
      if lease.Some? && lease.value.releaseId == id {
        lease := None;
      }
    }

    method Consume(id: nat, now: nat) returns (consumed: bool)
      modifies this
      ensures consumed <==> CanConsume(old(Tables()), id)
      ensures Tables() == if consumed then Consumed(old(Tables()), id, now) else old(Tables())
    {
      if id >= |approvals| || approvals[id].consumedAt.Some? {
        return false;
      }
      approvals := approvals[id := approvals[id].(consumedAt := Some(now))];
      return true;
    }

    /** The controller accepts a run of this plan. */
    ghost predicate Runnable(p: Plan)
      reads controller.deployments
    {
      Admissible(Slots(), controller.deployments.router != null, controller.hasSmokeUrl, p.targetSlot,
                 Pipeline.Requested(AdapterIds(p.adapters)))
    }

    /** From the lease on; the approval may have changed since `snapshot` was read and checked. */
    method Perform(id: nat, snapshot: Approval, current: Plan, owner: string, clock: Clock, c: Conditions)
        returns (r: Result<nat, OperatorError>)
      requires controller.Valid()
      modifies this, controller, controller.deployments, controller.deployments.router, controller.compatibility
      ensures controller.Valid()
      ensures !(LeaseFree(old(Tables()), policy, clock.acquiredAt) && CanConsume(old(Tables()), id)) ==>
        r.Err? && !r.error.RunRefused? && controller.releases == old(controller.releases) && Slots() == old(Slots()) &&
          Matrix() == old(Matrix())
      ensures !LeaseFree(old(Tables()), policy, clock.acquiredAt) ==> Tables() == old(Tables())
      ensures LeaseFree(old(Tables()), policy, clock.acquiredAt) && !CanConsume(old(Tables()), id) ==>
        Tables() == old(Tables()).(lease := None)
      ensures LeaseFree(old(Tables()), policy, clock.acquiredAt) && CanConsume(old(Tables()), id) ==>
        (r.Err? ==> r.error.RunRefused?)
      ensures LeaseFree(old(Tables()), policy, clock.acquiredAt) && CanConsume(old(Tables()), id) ==>
        Tables() == Performed(old(Tables()), id, snapshot, owner, clock,
                              r.Ok? && r.value < |controller.releases| &&
                                controller.releases[r.value].status == Succeeded)
      ensures r.Ok? <==>
        LeaseFree(old(Tables()), policy, clock.acquiredAt) && CanConsume(old(Tables()), id) && old(Runnable(current))
      ensures r.Ok? ==> r.value < |controller.releases| && controller.releases[r.value].target == current.targetSlot
      ensures r.Ok? ==> controller.releases[r.value].adapters == Pipeline.Requested(AdapterIds(current.adapters))
      ensures r.Ok? ==>
        controller.EndsWith(old(controller.Starting(current.targetSlot,
          Pipeline.Requested(AdapterIds(current.adapters)))), c, r.value)
    {
      var acquired := Acquire(id, owner, clock.acquiredAt);
      if !acquired {
        return Err(Busy);
      }
      var consumed := Consume(id, clock.consumedAt);
      if !consumed {
        ReleaseLease(id);
        return Err(AlreadyConsumed);
      }
      SetRequestStatus(snapshot.requestId, Executing);
      var run := controller.Run(current.targetSlot, AdapterIds(current.adapters), c);
      if run.Err? {
        SetRequestStatus(snapshot.requestId, Failed);
        ReleaseLease(id);
        return Err(RunRefused(run.error));
      }
      SetRequestStatus(snapshot.requestId,
        if controller.releases[run.value].status == Succeeded then Completed else Failed);
      ReleaseLease(id);
      return Ok(run.value);
    }

    method Check(id: nat, owner: string, now: nat) returns (r: Result<Plan, OperatorError>)
      requires Valid()
      ensures r.Ok? ==> MayExecute(Tables(), policy, id, owner, r.value, now) && r.value == approvals[id].plan
      ensures r.Ok? ==>
        DescribesNow(r.value, r.value.targetSlot, AdapterIds(r.value.adapters)) && DescribesPlanned(r.value, id)
      ensures r.Err? ==> !r.error.RunRefused?
      ensures r.Err? ==>
        forall current | DescribesPlanned(current, id) :: !MayExecute(Tables(), policy, id, owner, current, now)
    {
      if id >= |approvals| {
        return Err(UnknownApproval);
      }
      var a := approvals[id];
      if a.decision != Approve {
        return Err(NotApproved);
      }
      if a.consumedAt.Some? {
        return Err(AlreadyConsumed);
      }
      if policy.twoPerson {
        if a.requestedBy.None? || a.requestedBy.value == "" || a.requestId.None? {
          return Err(MetadataMissing);
        }
        if a.requestedBy.value == a.actor {
          return Err(SamePerson);
        }
        if owner == a.actor {
          return Err(ApproverExecutes);
        }
      }
      if now < a.createdAt || now > a.createdAt + policy.approvalMaxAge {
        return Err(Expired);
      }
      var current := MakePlan(a.plan.targetSlot, AdapterIds(a.plan.adapters));
      if current.Err? {
        return Err(PlanRefused(current.error));
      }
      if Digest(current.value) != a.fingerprint {
        DescriptionUnique(current.value, Slots(), Matrix(), controller.compatibility.registry, controller.hasSmokeUrl,
                          controller.deployments.router !=
                            null, a.plan.targetSlot, Pipeline.Requested(AdapterIds(a.plan.adapters)));
        return Err(StalePlan);
      }
      return Ok(current.value);
    }

    /** The plan that `execute` recomputes for this approval. */
    ghost predicate DescribesPlanned(current: Plan, id: nat)
      reads this, controller.deployments, controller.compatibility
    {
      && id < |approvals|
      && Pipeline.Requested(AdapterIds(approvals[id].plan.adapters)) != []
      && DescribesNow(current, approvals[id].plan.targetSlot, AdapterIds(approvals[id].plan.adapters))
    }

    method Execute(id: nat, owner: string, clock: Clock, c: Conditions) returns (r: Result<nat, OperatorError>)
      requires Valid()
      modifies this, controller, controller.deployments, controller.deployments.router, controller.compatibility
      ensures Valid()
      ensures r.Ok? <==> LeaseFree(old(Tables()), policy, clock.acquiredAt) && exists current ::
        old(DescribesPlanned(current, id) && Runnable(current)) &&
          MayExecute(old(Tables()), policy, id, owner, current, clock.checkedAt)
      ensures r.Ok? ==> id < |old(approvals)| && r.value < |controller.releases|
      ensures r.Ok? ==> MayExecute(old(Tables()), policy, id, owner, old(approvals)[id].plan, clock.checkedAt)
      ensures r.Ok? ==> controller.releases[r.value].target == old(approvals)[id].plan.targetSlot
      ensures r.Ok? ==> controller.releases[r.value].adapters == AdapterIds(old(approvals)[id].plan.adapters)
      ensures r.Ok? ==> Tables() == Performed(old(Tables()), id, old(approvals)[id], owner, clock,
                                              controller.releases[r.value].status == Succeeded)
      ensures r.Err? && !r.error.RunRefused? ==>
        Tables() == old(Tables()) && controller.releases == old(controller.releases)
      ensures r.Err? && !r.error.RunRefused? ==> Slots() == old(Slots()) && Matrix() == old(Matrix())
      ensures r.Err? && r.error.RunRefused? ==>
        id < |old(approvals)| && CanConsume(old(Tables()), id)
        && Tables() == Performed(old(Tables()), id, old(approvals)[id], owner, clock, false)
      ensures r.Ok? && controller.releases[r.value].status == Succeeded ==>
        PlanLanded(old(approvals)[id].plan, Slots(), Matrix())
      ensures r.Ok? && controller.releases[r.value].status == Succeeded && old(approvals)[id].requestId.Some? ==>
        && old(approvals)[id].requestId.value < |old(requests)|
        && PlanLanded(old(requests)[old(approvals)[id].requestId.value].plan, Slots(), Matrix())
    {
      var checked := Check(id, owner, clock.checkedAt);
      if checked.Err? {
        return Err(checked.error);
      }
      var current := checked.value;
      ghost var before, x := Tables(),
        controller.Starting(current.targetSlot, Pipeline.Requested(AdapterIds(current.adapters)));
      r := Perform(id, approvals[id], current, owner, clock, c);
      PerformedKeepsApprovals(before, policy, id, before.approvals[id], owner, clock);
      DescribedIds(current, x.db.slots, x.matrix, x.registry, controller.hasSmokeUrl, x.external, x.target,
        x.requested);
      if r.Ok? && controller.releases[r.value].status == Succeeded {
        LandedPlan(current, x, Slots(), Matrix(), controller.hasSmokeUrl);
      }
    }
  }

  lemma PerformedKeepsApprovals(d: Db, policy: Policy, id: nat, snapshot: Approval, owner: string, clock: Clock)
    requires Approvals(d, policy)
    ensures CanConsume(d, id) ==> forall success :: Approvals(Performed(d, id, snapshot, owner, clock, success), policy)
    ensures Approvals(d.(lease := None), policy)
  {
    if CanConsume(d, id) {
      var spent := Consumed(Leased(d, id, owner, clock.acquiredAt), id, clock.consumedAt);
      StatusKeepsApprovals(spent, policy, snapshot.requestId, Executing);
      var announced := LinkedStatus(spent, snapshot.requestId, Executing);
      StatusKeepsApprovals(announced, policy, snapshot.requestId, Completed);
      StatusKeepsApprovals(announced, policy, snapshot.requestId, Failed);
    }
  }

  /** The tables determine the plan, so recomputing it gives the same fingerprint. */
  lemma DescriptionUnique(p: Plan, reg: Registry, m: Compat.Matrix, registry: map<string, string>,
                          smokeUrl: bool, external: bool, target: Slot, requested: seq<string>)
    requires Describes(p, reg, m, registry, smokeUrl, external, target, requested)
    ensures forall r | Describes(r, reg, m, registry, smokeUrl, external, target, requested) :: r == p
  {
    forall r | Describes(r, reg, m, registry, smokeUrl, external, target, requested) ensures r == p {
      assert r.adapters == p.adapters;
    }
  }

  lemma LandedPlan(p: Plan, x: Situation, after: Registry, n: Compat.Matrix, smokeUrl: bool)
    requires x.requested == Pipeline.Requested(AdapterIds(p.adapters)) && x.target == p.targetSlot
    requires Describes(p, x.db.slots, x.matrix, x.registry, smokeUrl, x.external, x.target, x.requested)
    requires Landed(x, after, n)
    ensures PlanLanded(p, after, n)
  {
    forall k | 0 <= k < |p.adapters|
      ensures Compat.OnlyActive(n, p.adapters[k].key) && Compat.Latest(n.quals, p.adapters[k].key) == Some(true)
    {
      assert Plannable(x.matrix, x.registry, x.requested[k]);
      assert x.requested[k] in x.requested;
    }
  }

  /** The system once an undisturbed `execute` has spent its approval. */
  ghost function SpentSystem(s: System, id: nat, owner: string, plan: Plan, clock: Clock): System
    requires CanConsume(s.db, id)
  {
    s.(db := Consumed(Leased(s.db, id, owner, clock.acquiredAt), id, clock.consumedAt), now := clock.consumedAt,
       executors :=
         s.executors + [Executor(id, owner, s.db.approvals[id], plan, Spent, true, clock.acquiredAt, true, false)])
  }

  lemma SpendingIsRun(s: System, policy: Policy, id: nat, owner: string, plan: Plan, clock: Clock)
      returns (events: seq<Event>)
    requires s.now == clock.checkedAt <= clock.acquiredAt <= clock.consumedAt
    requires MayExecute(s.db, policy, id, owner, plan, clock.checkedAt) && LeaseFree(s.db, policy, clock.acquiredAt)
    ensures IsRun(s, policy, events) && After(s, policy, events) == SpentSystem(s, id, owner, plan, clock)
  {
    var x := |s.executors|;
    var e := StartExecute(id, owner, plan);
    RunExtends(s, policy, [], e);
    events := [] + [e];
    e := Tick(clock.acquiredAt - clock.checkedAt);
    RunExtends(s, policy, events, e);
    events := events + [e];
    RunExtends(s, policy, events, Acquire(x));
    events := events + [Acquire(x)];
    e := Tick(clock.consumedAt - clock.acquiredAt);
    RunExtends(s, policy, events, e);
    events := events + [e];
    RunExtends(s, policy, events, Consume(x));
    events := events + [Consume(x)];
    assert After(s, policy, events).executors == SpentSystem(s, id, owner, plan, clock).executors;
  }

  /** From the consume to the end of the controller's run. */
  ghost function EndedSystem(s: System, x: nat, success: bool): System
    requires x < |s.executors|
  {
    s.(db := LinkedStatus(s.db, s.executors[x].snapshot.requestId, Executing), runs := s.runs + [x],
       executors := s.executors[x := s.executors[x].(stage := Ended, succeeded := success)])
  }

  lemma EndingIsRun(s: System, policy: Policy, before: seq<Event>, x: nat, success: bool) returns (events: seq<Event>)
    requires IsRun(s, policy, before) && At(After(s, policy, before), x, Spent)
    ensures IsRun(s, policy, events) && After(s, policy, events) == EndedSystem(After(s, policy, before), x, success)
  {
    events := before;
    RunExtends(s, policy, events, Announce(x));
    events := events + [Announce(x)];
    RunExtends(s, policy, events, StartRun(x));
    events := events + [StartRun(x)];
    RunExtends(s, policy, events, EndRun(x, success));
    events := events + [EndRun(x, success)];
  }

  /** An undisturbed `execute` is a run of the concurrent system, so the protocol's theorems cover it. */
  lemma ExecutionIsRun(s: System, policy: Policy, id: nat, owner: string, plan: Plan, clock: Clock, success: bool)
      returns (events: seq<Event>)
    requires s.now == clock.checkedAt <= clock.acquiredAt <= clock.consumedAt
    requires MayExecute(s.db, policy, id, owner, plan, clock.checkedAt) && LeaseFree(s.db, policy, clock.acquiredAt)
    ensures IsRun(s, policy, events)
    ensures After(s, policy, events).db == Performed(s.db, id, s.db.approvals[id], owner, clock, success)
    ensures After(s, policy, events).runs == s.runs + [|s.executors|]
  {
    var x := |s.executors|;
    events := SpendingIsRun(s, policy, id, owner, plan, clock);
    events := EndingIsRun(s, policy, events, x, success);
    RunExtends(s, policy, events, SetOutcome(x));
    events := events + [SetOutcome(x)];
    RunExtends(s, policy, events, ReleaseLease(x));
    events := events + [ReleaseLease(x)];
  }
}
