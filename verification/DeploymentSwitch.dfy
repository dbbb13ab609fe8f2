/** The deployment switch service: slot table, action journal and the external traffic router it drives. */
module DeploymentSwitch {
  import opened Outcomes
  import opened DeploymentRegistry
  import opened SwitchJournal

  datatype SwitchError =
    | UnknownSlot
    | ActiveSlotProtected
    | ProbeRaised
    | HealthNotCurrent
    | NoHealthyStandby
    | ActuationFailed
    | JournalWriteFailed
    | ReadFailed
    | RegistryCommitFailed
    | NothingPending
    | ObservationMismatch

  /** The router behind the actuator hook; it keeps the traffic on the last slot it was told to use. */
  class Router {
    var live: Option<Slot>

    constructor ()
      ensures live == None
    {
      live := None;
    }

    method Use(slot: Slot, accepts: bool) returns (applied: bool)
      modifies this
      ensures applied == accepts
      ensures live == if accepts then Some(slot) else old(live)
    {
      if accepts {
        live := Some(slot);
      }
      return accepts;
    }
  }

  class DeploymentSwitchService {
    var slots: Registry
    var actions: seq<Action>
    var writes: nat
    const router: Router?
    const maxAge: nat

    constructor (router: Router?, maxAge: nat)
      ensures this.router == router && this.maxAge == maxAge && slots == map[] && actions == [] && writes == 0
    {
      this.router, this.maxAge := router, maxAge;
      slots, actions, writes := map[], [], 0;
    }

    function Tables(): Db
      reads this, router
    {
      Db(slots, actions, writes, if router == null then None else router.live)
    }

    method Register(slot: Slot, endpoint: string, version: string) returns (r: Result<Deployment, SwitchError>)
      modifies this
      ensures slots == Update(old(slots), DeploymentRegistry.Register(slot, endpoint, version), maxAge)
      ensures r.Ok? <==> Commits(old(slots), DeploymentRegistry.Register(slot, endpoint, version), maxAge)
      ensures r.Ok? ==> slot in slots && r.value == slots[slot]
      ensures actions == old(actions) && writes == old(writes)
    {
      if slot !in slots {
        slots := slots[slot := Deployment(endpoint, version, Candidate, Unknown, None, None)];
      } else {
        var row := slots[slot];
        var changed := row.endpoint != endpoint || row.version != version;
        if changed && row.state == Active {
          return Err(ActiveSlotProtected);
        }
        row := row.(endpoint := endpoint, version := version);
        if changed {
          row := row.(state := Candidate, health := Unknown, checkedAt := None);
        }
        slots := slots[slot := row];
      }
      return Ok(slots[slot]);
    }

    method RecordHealth(slot: Slot, healthy: bool, at: nat) returns (r: Result<Deployment, SwitchError>)
      modifies this
      ensures slots == Update(old(slots), DeploymentRegistry.RecordHealth(slot, healthy, at), maxAge)
      ensures r.Ok? <==> slot in old(slots)
      ensures r.Ok? ==> slot in slots && r.value == slots[slot]
      ensures actions == old(actions) && writes == old(writes)
    {
      if slot !in slots {
        return Err(UnknownSlot);
      }
      var row := slots[slot].(health := if healthy then Healthy else Unhealthy, checkedAt := Some(at));
      if !healthy && row.state == Candidate {
        row := row.(state := Blocked);
      }
      slots := slots[slot := row];
      return Ok(row);
    }

    /** `answer` is the health endpoint's verdict: None when the request itself raises. */
    method Probe(slot: Slot, answer: Option<bool>, at: nat) returns (r: Result<Deployment, SwitchError>)
      modifies this
      ensures slots == if answer.None? then old(slots)
                       else Update(old(slots), DeploymentRegistry.RecordHealth(slot, answer.value, at), maxAge)
      ensures r.Ok? <==> slot in old(slots) && answer.Some?
      ensures r.Ok? ==> slot in slots && r.value == slots[slot]
      ensures actions == old(actions) && writes == old(writes)
    {
      if slot !in slots {
        return Err(UnknownSlot);
      }
      if answer.None? {
        return Err(ProbeRaised);
      }
      r := RecordHealth(slot, answer.value, at);
    }

    /** The row is written before anything moves; `succeeds` is the outcome of the write. */
    method RecordActionPending(kind: ActionKind, slot: Slot, succeeds: bool) returns (id: Option<nat>)
      requires slot in slots
      modifies this
      ensures Tables() == if succeeds then Appended(old(Tables()), kind, slot) else old(Tables())
      ensures id == if succeeds then Some(|old(actions)|) else None
    {
      if !succeeds {
        return None;
      }
      id := Some(|actions|);
      actions := actions + [Action(kind, ActiveSlot(slots), slot, slots[slot].version, Pending, writes)];
      writes := writes + 1;
    }

    method RecordActionResult(id: nat, status: ActionStatus, succeeds: bool)
      requires id < |actions|
      modifies this
      ensures Tables() == if succeeds then Marked(old(Tables()), id, status) else old(Tables())
    {
      if succeeds {
        actions := actions[id := actions[id].(status := status, updatedAt := writes)];
        writes := writes + 1;
      }
    }

    /** Returns the row's number, if there is one, only when the traffic moved and the row says so. */
    method Actuate(kind: ActionKind, slot: Slot, s: Surroundings) returns (r: Result<Option<nat>, SwitchError>)
      requires slot in slots
      modifies this, router
      ensures router == null ==> r == Ok(None) && Tables() == old(Tables())
      ensures router != null ==> Tables() == Actuating(old(Tables()), kind, slot, s)
      ensures (router != null ==>
        r == if s.opens && s.actuates && s.records then Ok(Some(|old(actions)|))
             else Err(if s.opens && s.records then ActuationFailed else JournalWriteFailed))
    {
      if router == null {
        return Ok(None);
      }
      var id := RecordActionPending(kind, slot, s.opens);
      if id.None? {
        return Err(JournalWriteFailed);
      }
      var applied := router.Use(slot, s.actuates);
      RecordActionResult(id.value, if applied then Actuated else Failed, s.records);
      if !s.records {
        return Err(JournalWriteFailed);
      }
      return if applied then Ok(id) else Err(ActuationFailed);
    }

    /** What a promotion or rollback leaves behind after its first checks have passed. */
    ghost function Ending(d: Db, kind: ActionKind, slot: Slot, s: Surroundings): Db
      requires slot in d.slots
    {
      if router != null then SwitchJournal.Ending(d, kind, slot, s, maxAge)
      else if Follows(d, kind, slot, s, maxAge)
        then d.(slots := Update(d.slots, SwitchTx(kind, slot, s.commitAt), maxAge))
      else d
    }

    /** The registry followed, the last read succeeded and, with a router, every journal write went through. */
    ghost predicate Lands(d: Db, kind: ActionKind, slot: Slot, s: Surroundings) {
      (router != null ==> s.opens && s.actuates && s.records && s.closes) && Follows(d, kind, slot, s, maxAge) &&
        s.rereads
    }

    /** The end of both switches: the row, if there is one, gets its final status, and the slot is read again. */
    method Close(kind: ActionKind, id: Option<nat>, committed: bool, slot: Slot, s: Surroundings)
        returns (r: Result<Deployment, SwitchError>)
      requires slot in slots && (id.Some? ==> id.value < |actions|)
      modifies this
      ensures Tables() ==
        (if id.Some? && Closes(kind, committed, s)
          then Marked(old(Tables()), id.value, if committed then Committed else ReconcileRequired)
                           else old(Tables()))
      ensures r.Ok? <==> committed && s.rereads && (id.Some? ==> s.closes)
      ensures slot in slots && (r.Ok? ==> r.value == slots[slot])
    {
      if committed && kind.Promotion? && !s.rereads {
        return Err(ReadFailed);
      }
      if id.Some? {
        RecordActionResult(id.value, if committed then Committed else ReconcileRequired, s.closes);
        if !s.closes {
          return Err(JournalWriteFailed);
        }
      }
      if !committed {
        return Err(RegistryCommitFailed);
      }
      return if s.rereads then Ok(slots[slot]) else Err(ReadFailed);
    }

    method Promote(slot: Slot, s: Surroundings) returns (r: Result<Deployment, SwitchError>)
      modifies this, router
      ensures !(slot in old(slots) && HealthCurrent(old(slots)[slot], s.now, maxAge)) ==>
        r.Err? && Tables() == old(Tables())
      ensures slot in old(slots) && HealthCurrent(old(slots)[slot], s.now, maxAge) ==>
        if IsActive(old(slots), slot) then r == Ok(old(slots)[slot]) && Tables() == old(Tables())
        else
          && (r.Ok? <==> Lands(old(Tables()), Promotion, slot, s))
          && Tables() == Ending(old(Tables()), Promotion, slot, s)
      ensures r.Ok? ==> slot in slots && r.value == slots[slot]
    {
      if slot !in slots {
        return Err(UnknownSlot);
      }
      if !HealthCurrent(slots[slot], s.now, maxAge) {
        return Err(HealthNotCurrent);
      }
      if slots[slot].state == Active {
        return Ok(slots[slot]);
      }
      var actuation := Actuate(Promotion, slot, s);
      if actuation.Err? {
        return Err(actuation.error);
      }
      var id := actuation.value;
      var committed := CommitPromotion(slot, s.commitAt, s.commits);
      r := Close(Promotion, id, committed, slot, s);
    }

    /** The promotion transaction: fresh health check, demote every other active row, activate the target. */
    method CommitPromotion(slot: Slot, at: nat, commits: bool) returns (committed: bool)
      requires slot in slots
      modifies this`slots
      ensures committed <==> commits && Commits(old(slots), CommitPromote(slot, at), maxAge)
      ensures slots == if committed then Update(old(slots), CommitPromote(slot, at), maxAge) else old(slots)
    {
      if !HealthCurrent(slots[slot], at, maxAge) {
        return false;
      }
      var view := slots;
      var active := set t | t in slots && slots[t].state == Active;
      while active != {}
        invariant view.Keys == slots.Keys && active <= set t | t in slots && slots[t].state == Active
        invariant forall t | t in slots :: view[t] ==
                    if t !in active && t != slot && slots[t].state == Active then slots[t].(state := Standby)
                      else slots[t]
        decreases active
      {
        var t :| t in active;
        if t != slot {
          view := view[t := view[t].(state := Standby)];
        }
        active := active - {t};
      }
      view := view[slot := Activate(view[slot], at)];
      if !commits {
        return false;
      }
      assert view == Switched(slots, slot, at);
      slots := view;
      return true;
    }

    method Rollback(s: Surroundings) returns (r: Result<Deployment, SwitchError>)
      modifies this, router
      ensures var choice := RollbackChoice(old(slots), s.now, maxAge);
        if choice.None? then r == Err(NoHealthyStandby) && Tables() == old(Tables())
        else
          && (r.Ok? <==> Lands(old(Tables()), ActionKind.Rollback, choice.value, s))
          && Tables() == Ending(old(Tables()), ActionKind.Rollback, choice.value, s)
          && (r.Ok? ==> choice.value in slots && r.value == slots[choice.value])
    {
      var choice := RollbackChoice(slots, s.now, maxAge);
      if choice.None? {
        return Err(NoHealthyStandby);
      }
      var slot := choice.value;
      var actuation := Actuate(ActionKind.Rollback, slot, s);
      if actuation.Err? {
        return Err(actuation.error);
      }
      var id := actuation.value;
      var committed := CommitRollbackTx(slot, s.commitAt, s.commits);
      r := Close(ActionKind.Rollback, id, committed, slot, s);
    }

    method CommitRollbackTx(slot: Slot, at: nat, commits: bool) returns (committed: bool)
      requires slot in slots
      modifies this`slots
      ensures committed <==> commits && Commits(old(slots), CommitRollback(slot, at), maxAge)
      ensures slots == if committed then Update(old(slots), CommitRollback(slot, at), maxAge) else old(slots)
    {
      var active := ActiveSlot(slots);
      if slots[slot].state != Standby || slots[slot].health != Healthy || !HealthCurrent(slots[slot], at, maxAge) {
        return false;
      }
      if !commits {
        return false;
      }
      if active.Some? {
        slots := slots[active.value := slots[active.value].(state := Standby)];
      }
      slots := slots[slot := Activate(slots[slot], at)];
      return true;
    }

    /** The newest row that asks for reconciliation, if any does. */
    method LatestRequired() returns (id: Option<nat>)
      ensures id == NewestRequired(actions)
    {
      id := None;
      for n := 0 to |actions|
        invariant id == NewestRequired(actions[..n])
      {
        assert actions[..n + 1][..n] == actions[..n];
        if actions[n].status == ReconcileRequired && (id.None? || actions[id.value].updatedAt < actions[n].updatedAt) {
          id := Some(n);
        }
      }
      assert actions[..|actions|] == actions;
    }

    /** The loop over the rows of the service. */
    method ActivateObserved(observed: Slot, at: nat)
      requires observed in slots
      modifies this`slots
      ensures slots == Switched(old(slots), observed, at)
    {
      var rows, view := slots.Keys, slots;
      while rows != {}
        invariant rows <= slots.Keys && view.Keys == slots.Keys
        invariant forall t | t in slots :: view[t] == if t in rows then slots[t] else Switched(slots, observed, at)[t]
        decreases rows
      {
        var t :| t in rows;
        rows := rows - {t};
        if t == observed {
          view := view[t := Activate(view[t], at)];
        } else if view[t].state == Active {
          view := view[t := view[t].(state := Standby)];
        }
      }
      assert view == Switched(slots, observed, at);
      slots := view;
    }

    /** `observed` is the slot an operator saw serving; the version check is skipped when none is given. */
    method Reconcile(observed: Slot, version: Option<string>, at: nat) returns (r: Result<Deployment, SwitchError>)
      modifies this
      ensures r.Ok? <==> Accepts(old(Tables()), observed, version)
      ensures r.Ok? ==>
        Tables() == Marked(old(Tables()).(slots := Switched(old(slots), observed, at)),
          NewestRequired(old(actions)).value, Reconciled)
      ensures r.Ok? ==> observed in slots && r.value == slots[observed]
      ensures r.Err? ==> Tables() == old(Tables())
      ensures r == Err(NothingPending) <==> NewestRequired(old(actions)).None?
    {
      var latest := LatestRequired();
      if latest.None? {
        return Err(NothingPending);
      }
      var id := latest.value;
      if actions[id].fromSlot != Some(observed) && actions[id].toSlot != observed {
        return Err(ObservationMismatch);
      }
      if observed !in slots {
        return Err(UnknownSlot);
      }
      if version.Some? && version.value != "" && slots[observed].version != version.value {
        return Err(ObservationMismatch);
      }
      ghost var before := Tables();
      ActivateObserved(observed, at);
      RecordActionResult(id, Reconciled, true);
      assert Tables() == Marked(before.(slots := Switched(before.slots, observed, at)), id, Reconciled);
      return Ok(slots[observed]);
    }
  }
}
