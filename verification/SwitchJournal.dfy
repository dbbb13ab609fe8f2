/**
 The write-ahead journal of slot switches as a state machine.  Every committed transaction is one step and
 the actuator call, which moves live traffic outside the database, is a step of its own.  Between any two steps
 the operation may break off, because the process dies or because the next journal write raises.  Switches run
 one after the other; registrations and probes may happen at any time.
 */
module SwitchJournal {
  import opened Outcomes
  import opened DeploymentRegistry

  datatype ActionKind = Promotion | Rollback

  datatype ActionStatus = Pending | Actuated | Failed | ReconcileRequired | Committed | Reconciled

  datatype Action = Action(
    kind: ActionKind, fromSlot: Option<Slot>, toSlot: Slot, version: string, status: ActionStatus, updatedAt: nat)

  /** The slot table, the journal in creation order, a count of journal writes, and the slot that has the traffic. */
  datatype Db = Db(slots: Registry, actions: seq<Action>, writes: nat, live: Option<Slot>)

  /** Where the running switch stands; each case names its journal row. */
  datatype Control =
    | Idle
    | Journaled(id: nat)
    | Moved(id: nat)
    | Refused(id: nat)
    | Recorded(id: nat)
    | Landed(id: nat)
    | Broken(id: nat)

  datatype World = World(db: Db, control: Control)

  datatype Event =
    | Edit(tx: Transaction)
    | Begin(kind: ActionKind, slot: Slot, at: nat)
    | TrafficMoves
    | ActuatorRaises
    | RecordFailed
    | RecordActuated
    | Commit(at: nat)
    | CommitRaises
    | RecordRequired
    | RecordCommitted
    | Crash
    | Reconcile(id: nat, slot: Slot, version: Option<string>, at: nat)

  // ---- Single writes ----

  function Appended(d: Db, kind: ActionKind, slot: Slot): Db
    requires slot in d.slots
  {
    d.(actions := d.actions + [Action(kind, ActiveSlot(d.slots), slot, d.slots[slot].version, Pending, d.writes)],
       writes := d.writes + 1)
  }

  function Marked(d: Db, id: nat, status: ActionStatus): Db
    requires id < |d.actions|
  {
    d.(actions := d.actions[id := d.actions[id].(status := status, updatedAt := d.writes)], writes := d.writes + 1)
  }

  function SwitchTx(kind: ActionKind, slot: Slot, at: nat): Transaction {
    if kind.Promotion? then CommitPromote(slot, at) else CommitRollback(slot, at)
  }

  /** The checks before anything is written. */
  predicate CanBegin(d: Db, kind: ActionKind, slot: Slot, at: nat, maxAge: nat) {
    match kind
    case Promotion => slot in d.slots && HealthCurrent(d.slots[slot], at, maxAge) && !IsActive(d.slots, slot)
    case Rollback => RollbackChoice(d.slots, at, maxAge) == Some(slot)
  }

  /** The newest row that asks for reconciliation. */
  predicate IsLatestRequired(actions: seq<Action>, id: nat) {
    && id < |actions| && actions[id].status == ReconcileRequired
    && forall n | 0 <= n < |actions| && actions[n].status == ReconcileRequired ::
      actions[n].updatedAt <= actions[id].updatedAt
  }

  /** That row, as the services look it up. */
  function NewestRequired(actions: seq<Action>): (r: Option<nat>)
    ensures r.Some? ==> IsLatestRequired(actions, r.value)
    ensures r.None? ==> forall n | 0 <= n < |actions| :: actions[n].status != ReconcileRequired
  {
    if actions == [] then None
    else
      var last := |actions| - 1;
      var before := NewestRequired(actions[..last]);
      if actions[last].status == ReconcileRequired &&
        (before.None? || actions[before.value].updatedAt < actions[last].updatedAt) then Some(last) else before
  }

  /** An observation that the newest request accepts. */
  predicate Accepts(d: Db, slot: Slot, version: Option<string>) {
    NewestRequired(d.actions).Some? && Reconcilable(d, NewestRequired(d.actions).value, slot, version)
  }

  /** The observation is accepted for that row. */
  predicate Reconcilable(d: Db, id: nat, slot: Slot, version: Option<string>) {
    && IsLatestRequired(d.actions, id)
    && (d.actions[id].fromSlot == Some(slot) || d.actions[id].toSlot == slot)
    && slot in d.slots
    && (version.Some? && version.value != "" ==> d.slots[slot].version == version.value)
  }

  // ---- The machine ----

  ghost predicate Enabled(w: World, e: Event, maxAge: nat) {
    match e
    case Edit(tx) => tx.Register? || tx.RecordHealth?
    case Begin(kind, slot, at) => w.control.Idle? && CanBegin(w.db, kind, slot, at, maxAge)
    case TrafficMoves => w.control.Journaled? && w.control.id < |w.db.actions|
    case ActuatorRaises => w.control.Journaled?
    case RecordFailed => w.control.Refused? && w.control.id < |w.db.actions|
    case RecordActuated => w.control.Moved? && w.control.id < |w.db.actions|
    case Commit(at) => w.control.Recorded? && w.control.id < |w.db.actions| &&
      var a := w.db.actions[w.control.id]; Commits(w.db.slots, SwitchTx(a.kind, a.toSlot, at), maxAge)
    case CommitRaises => w.control.Recorded?
    case RecordRequired => w.control.Broken? && w.control.id < |w.db.actions|
    case RecordCommitted => w.control.Landed? && w.control.id < |w.db.actions|
    case Crash => true
    case Reconcile(id, slot, version, at) =>
      w.control.Idle? && Reconcilable(w.db, id, slot, version) && w.db.live == Some(slot)
  }

  ghost function Next(w: World, e: Event, maxAge: nat): World
    requires Enabled(w, e, maxAge)
  {
    match e
    case Edit(tx) => w.(db := w.db.(slots := Update(w.db.slots, tx, maxAge)))
    case Begin(kind, slot, at) => World(Appended(w.db, kind, slot), Journaled(|w.db.actions|))
    case TrafficMoves => World(w.db.(live := Some(w.db.actions[w.control.id].toSlot)), Moved(w.control.id))
    case ActuatorRaises => w.(control := Refused(w.control.id))
    case RecordFailed => World(Marked(w.db, w.control.id, Failed), Idle)
    case RecordActuated => World(Marked(w.db, w.control.id, Actuated), Recorded(w.control.id))
    case Commit(at) =>
      var a := w.db.actions[w.control.id];
      World(w.db.(slots := Update(w.db.slots, SwitchTx(a.kind, a.toSlot, at), maxAge)), Landed(w.control.id))
    case CommitRaises => w.(control := Broken(w.control.id))
    case RecordRequired => World(Marked(w.db, w.control.id, ReconcileRequired), Idle)
    case RecordCommitted => World(Marked(w.db, w.control.id, Committed), Idle)
    case Crash => w.(control := Idle)
    case Reconcile(id, slot, version, at) =>
      World(Marked(w.db.(slots := Switched(w.db.slots, slot, at)), id, Reconciled), Idle)
  }

  ghost predicate IsRun(w: World, events: seq<Event>, maxAge: nat)
    decreases |events|
  {
    events == [] || (Enabled(w, events[0], maxAge) && IsRun(Next(w, events[0], maxAge), events[1..], maxAge))
  }

  ghost function After(w: World, events: seq<Event>, maxAge: nat): World
    requires IsRun(w, events, maxAge)
    decreases |events|
  {
    if events == [] then w else After(Next(w, events[0], maxAge), events[1..], maxAge)
  }

  const EMPTY := World(Db(map[], [], 0, None), Idle)

  // ---- The write-ahead property ----

  ghost predicate Agrees(d: Db) {
    d.live == ActiveSlot(d.slots)
  }

  predicate Unresolved(a: Action) {
    a.status == Pending || a.status == Actuated || a.status == ReconcileRequired
  }

  /** An unresolved journal row, other than `except`, leads to the slot that has the traffic. */
  ghost predicate Covered(d: Db, except: Option<nat>) {
    exists n :: 0 <= n < |d.actions| && Some(n) != except && Unresolved(d.actions[n]) &&
      d.live == Some(d.actions[n].toSlot)
  }

  ghost predicate ControlHolds(w: World) {
    var d := w.db;
    match w.control
    case Idle => Agrees(d) || Covered(d, None)
    case Journaled(id) => id < |d.actions| && d.actions[id].status == Pending && (Agrees(d) || Covered(d, Some(id)))
    case Refused(id) => id < |d.actions| && d.actions[id].status == Pending && (Agrees(d) || Covered(d, Some(id)))
    case Moved(id) => id < |d.actions| && d.live == Some(d.actions[id].toSlot) && d.actions[id].status == Pending
    case Recorded(id) => id < |d.actions| && d.live == Some(d.actions[id].toSlot) && d.actions[id].status == Actuated
    case Broken(id) => id < |d.actions| && d.live == Some(d.actions[id].toSlot) && d.actions[id].status == Actuated
    case Landed(id) => id < |d.actions| && Agrees(d)
  }

  ghost predicate Journal(w: World) {
    && Sound(w.db.slots)
    && (forall n | 0 <= n < |w.db.actions| :: w.db.actions[n].toSlot in w.db.slots)
    && ControlHolds(w)
  }

  lemma EditKeepsJournal(w: World, tx: Transaction, maxAge: nat)
    requires Journal(w) && (tx.Register? || tx.RecordHealth?)
    ensures Journal(w.(db := w.db.(slots := Update(w.db.slots, tx, maxAge))))
  {
    var after := Update(w.db.slots, tx, maxAge);
    UpdateSound(w.db.slots, tx, maxAge);
    if Commits(w.db.slots, tx, maxAge) {
      EditSound(w.db.slots, after, tx.slot);
    }
    var v := w.(db := w.db.(slots := after));
    assert forall except :: Covered(w.db, except) ==> Covered(v.db, except);
  }

  lemma MarkKeepsCover(d: Db, id: nat, status: ActionStatus)
    requires id < |d.actions| && Covered(d, Some(id))
    ensures Covered(Marked(d, id, status), None)
  {
    var n :| 0 <= n < |d.actions| && n != id && Unresolved(d.actions[n]) && d.live == Some(d.actions[n].toSlot);
    assert Marked(d, id, status).actions[n] == d.actions[n];
  }

  lemma CommitAgrees(w: World, at: nat, maxAge: nat)
    requires Journal(w) && Enabled(w, Commit(at), maxAge)
    ensures Journal(Next(w, Commit(at), maxAge))
  {
    var a := w.db.actions[w.control.id];
    var tx := SwitchTx(a.kind, a.toSlot, at);
    UpdateSound(w.db.slots, tx, maxAge);
    if tx.CommitPromote? {
      SwitchSound(w.db.slots, tx, maxAge);
    } else {
      RollbackSound(w.db.slots, tx, maxAge);
    }
  }

  /** A completed reconcile puts the registry where the traffic is. */
  lemma ReconcileRestores(w: World, e: Event, maxAge: nat)
    requires Sound(w.db.slots) && Enabled(w, e, maxAge) && e.Reconcile?
    ensures Agrees(Next(w, e, maxAge).db) && Sound(Next(w, e, maxAge).db.slots)
  {
    SwitchSound(w.db.slots, CommitReconcile(e.slot, e.at), maxAge);
  }

  lemma StepKeepsJournal(w: World, e: Event, maxAge: nat)
    requires Journal(w) && Enabled(w, e, maxAge)
    ensures Journal(Next(w, e, maxAge))
  {
    var v := Next(w, e, maxAge);
    match e
    case Edit(tx) => EditKeepsJournal(w, tx, maxAge);
    case Begin(kind, slot, at) =>
      if Covered(w.db, None) {
        var n :| 0 <= n < |w.db.actions| && Unresolved(w.db.actions[n]) && w.db.live == Some(w.db.actions[n].toSlot);
        assert v.db.actions[n] == w.db.actions[n];
      }
    case RecordFailed => if !Agrees(w.db) { MarkKeepsCover(w.db, w.control.id, Failed); }
    case RecordRequired => assert v.db.actions[w.control.id].status == ReconcileRequired;
    case Commit(at) => CommitAgrees(w, at, maxAge);
    case Crash =>
      if w.control.Moved? || w.control.Recorded? || w.control.Broken? {
        assert Unresolved(w.db.actions[w.control.id]);
      }
    case Reconcile(id, slot, version, at) => ReconcileRestores(w, e, maxAge);
    case _ =>
  }

  /**
   In every state of every run, whatever crashed: if the traffic is not where the registry says,
   an unresolved journal row leads to the slot that has it.
   */
  lemma {:induction false} JournalCoversTraffic(w: World, events: seq<Event>, maxAge: nat)
    requires Journal(w) && IsRun(w, events, maxAge)
    ensures Journal(After(w, events, maxAge))
    ensures Agrees(After(w, events, maxAge).db) || Covered(After(w, events, maxAge).db, None)
    decreases |events|
  {
    if events != [] {
      StepKeepsJournal(w, events[0], maxAge);
      JournalCoversTraffic(Next(w, events[0], maxAge), events[1..], maxAge);
    } else {
      if w.control.Moved? || w.control.Recorded? || w.control.Broken? {
        assert Unresolved(w.db.actions[w.control.id]);
      }
    }
  }

  lemma EveryRunIsCovered(events: seq<Event>, maxAge: nat)
    requires IsRun(EMPTY, events, maxAge)
    ensures Sound(After(EMPTY, events, maxAge).db.slots)
    ensures Agrees(After(EMPTY, events, maxAge).db) || Covered(After(EMPTY, events, maxAge).db, None)
  {
    JournalCoversTraffic(EMPTY, events, maxAge);
  }

  // ---- When can a disagreement be reconciled? ----

  /** The newest row that asks for reconciliation names the slot that has the traffic. */
  ghost predicate Named(d: Db) {
    exists n: nat :: IsLatestRequired(d.actions, n) && d.live.Some?
      && (d.actions[n].fromSlot == d.live || d.actions[n].toSlot == d.live.value)
  }

  /** Some reconcile with the true observation is accepted. */
  ghost predicate CanReconcile(w: World, at: nat, maxAge: nat) {
    w.db.live.Some? && exists id :: Enabled(w, Reconcile(id, w.db.live.value, None, at), maxAge)
  }

  /** The traffic has moved and neither the registry nor the row's final status has followed. */
  predicate Exposed(c: Control) {
    c.Moved? || c.Recorded? || c.Broken?
  }

  /** Until the registry commit, the slot a switch is meant for is not the active one. */
  ghost predicate TargetIdle(w: World) {
    w.control.Journaled? || w.control.Refused? || Exposed(w.control) ==>
      w.control.id < |w.db.actions| && ActiveSlot(w.db.slots) != Some(w.db.actions[w.control.id].toSlot)
  }

  ghost predicate Ready(w: World) {
    && Journal(w) && TargetIdle(w)
    && (w.db.live.Some? ==> w.db.live.value in w.db.slots)
    && (forall n | 0 <= n < |w.db.actions| :: w.db.actions[n].updatedAt < w.db.writes)
    && (w.control.Idle? || w.control.Journaled? || w.control.Refused? ==> Agrees(w.db) || Named(w.db))
  }

  /** Rows that neither asked nor ask for reconciliation leave the newest request where it was. */
  lemma OtherRowsKeepRequest(d: Db, v: Db)
    requires Named(d) && v.live == d.live && |d.actions| <= |v.actions|
    requires forall n | 0 <= n < |v.actions| && v.actions[n].status == ReconcileRequired :: n < |d.actions|
    requires forall n | 0 <= n < |d.actions| &&
      (d.actions[n].status == ReconcileRequired || v.actions[n].status == ReconcileRequired) ::
      v.actions[n] == d.actions[n]
    ensures Named(v)
  {
    var n: nat :| IsLatestRequired(d.actions, n) &&
      (d.actions[n].fromSlot == d.live || d.actions[n].toSlot == d.live.value);
    assert IsLatestRequired(v.actions, n);
  }

  lemma StepKeepsTarget(w: World, e: Event, maxAge: nat)
    requires Ready(w) && Enabled(w, e, maxAge)
    ensures TargetIdle(Next(w, e, maxAge))
    ensures var v := Next(w, e, maxAge).db; v.live.Some? ==> v.live.value in v.slots
  {
    if e.Edit? {
      UpdateSound(w.db.slots, e.tx, maxAge);
      if Commits(w.db.slots, e.tx, maxAge) {
        EditSound(w.db.slots, Update(w.db.slots, e.tx, maxAge), e.tx.slot);
      }
    }
  }

  /** Every step but a crash of an exposed switch leaves the next switch a registry it can trust or a row that asks. */
  lemma StepKeepsReady(w: World, e: Event, maxAge: nat)
    requires Ready(w) && Enabled(w, e, maxAge)
    requires e.Crash? ==> !Exposed(w.control) || Named(w.db)
    ensures Ready(Next(w, e, maxAge))
  {
    StepKeepsJournal(w, e, maxAge);
    StepKeepsTarget(w, e, maxAge);
    var v := Next(w, e, maxAge);
    match e
    case Edit(tx) =>
      if Commits(w.db.slots, tx, maxAge) { EditSound(w.db.slots, v.db.slots, tx.slot); }
      if Named(w.db) { OtherRowsKeepRequest(w.db, v.db); }
    case Begin(kind, slot, at) => if Named(w.db) { OtherRowsKeepRequest(w.db, v.db); }
    case RecordFailed => if !Agrees(w.db) { OtherRowsKeepRequest(w.db, v.db); }
    case RecordRequired => assert IsLatestRequired(v.db.actions, w.control.id);
    case Reconcile(id, slot, version, at) => ReconcileRestores(w, e, maxAge);
    case _ =>
  }

  lemma NamedIsReconcilable(w: World, at: nat, maxAge: nat)
    requires w.control.Idle? && (w.db.live.Some? ==> w.db.live.value in w.db.slots)
    ensures CanReconcile(w, at, maxAge) <==> Named(w.db)
  {
    if Named(w.db) {
      var n: nat :| IsLatestRequired(w.db.actions, n) &&
        (w.db.actions[n].fromSlot == w.db.live || w.db.actions[n].toSlot == w.db.live.value);
      assert Enabled(w, Reconcile(n, w.db.live.value, None, at), maxAge);
    }
  }

  /**
   Exactly which crashes lose the way back: those after the traffic moved and before the row was closed,
   unless an older row already asks for reconciliation and names the slot that now has the traffic.
   */
  lemma CrashStrandsExactly(w: World, at: nat, maxAge: nat)
    requires Ready(w)
    ensures var v := Next(w, Crash, maxAge);
      Agrees(v.db) || CanReconcile(v, at, maxAge) <==> !Exposed(w.control) || Named(w.db)
  {
    NamedIsReconcilable(Next(w, Crash, maxAge), at, maxAge);
  }

  /** Every crash of the run is harmless in that sense; a caller can tell from the state before the crash. */
  ghost predicate CrashesHarmless(w: World, events: seq<Event>, maxAge: nat)
    requires IsRun(w, events, maxAge)
    decreases |events|
  {
    events != [] ==>
      && (events[0].Crash? ==> !Exposed(w.control) || Named(w.db))
      && CrashesHarmless(Next(w, events[0], maxAge), events[1..], maxAge)
  }

  /** Whenever no switch is running, the registry is right or reconcile accepts the true observation. */
  ghost predicate AlwaysRecoverable(w: World, events: seq<Event>, at: nat, maxAge: nat)
    requires IsRun(w, events, maxAge)
    decreases |events|
  {
    && (w.control.Idle? ==> Agrees(w.db) || CanReconcile(w, at, maxAge))
    && (events != [] ==> AlwaysRecoverable(Next(w, events[0], maxAge), events[1..], at, maxAge))
  }

  lemma {:induction false} RecoverableExactly(w: World, events: seq<Event>, at: nat, maxAge: nat)
    requires Ready(w) && IsRun(w, events, maxAge)
    ensures AlwaysRecoverable(w, events, at, maxAge) <==> CrashesHarmless(w, events, maxAge)
    decreases |events|
  {
    if w.control.Idle? {
      NamedIsReconcilable(w, at, maxAge);
    }
    if events != [] {
      if events[0].Crash? {
        CrashStrandsExactly(w, at, maxAge);
      }
      if events[0].Crash? ==> !Exposed(w.control) || Named(w.db) {
        StepKeepsReady(w, events[0], maxAge);
        RecoverableExactly(Next(w, events[0], maxAge), events[1..], at, maxAge);
      }
    }
  }

  /** From the empty database: disagreements can always be reconciled if and only if every crash was harmless. */
  lemma EveryRunRecoversExactly(events: seq<Event>, at: nat, maxAge: nat)
    requires IsRun(EMPTY, events, maxAge)
    ensures AlwaysRecoverable(EMPTY, events, at, maxAge) <==> CrashesHarmless(EMPTY, events, maxAge)
  {
    RecoverableExactly(EMPTY, events, at, maxAge);
  }

  /** A run that breaks off after the actuator call: traffic and registry disagree and no observation is accepted. */
  lemma CrashCanStrand(maxAge: nat) returns (events: seq<Event>)
    ensures IsRun(EMPTY, events, maxAge)
    ensures !Agrees(After(EMPTY, events, maxAge).db) && After(EMPTY, events, maxAge).control.Idle?
    ensures forall id, slot, version, at ::
      !Enabled(After(EMPTY, events, maxAge), Reconcile(id, slot, version, at), maxAge)
  {
    var e0, e1, e2 := Edit(Register(Blue, "https://blue", "1")), Edit(RecordHealth(Blue, true, 0)),
      Begin(Promotion, Blue, 0);
    events := [];
    RunExtends(EMPTY, events, e0, maxAge);
    events := events + [e0];
    RunExtends(EMPTY, events, e1, maxAge);
    events := events + [e1];
    RunExtends(EMPTY, events, e2, maxAge);
    events := events + [e2];
    RunExtends(EMPTY, events, TrafficMoves, maxAge);
    events := events + [TrafficMoves];
    RunExtends(EMPTY, events, RecordActuated, maxAge);
    events := events + [RecordActuated];
    RunExtends(EMPTY, events, Crash, maxAge);
    events := events + [Crash];
  }

  lemma {:induction false} RunExtends(w: World, events: seq<Event>, e: Event, maxAge: nat)
    requires IsRun(w, events, maxAge) && Enabled(After(w, events, maxAge), e, maxAge)
    ensures IsRun(w, events + [e], maxAge)
    ensures After(w, events + [e], maxAge) == Next(After(w, events, maxAge), e, maxAge)
    decreases |events|
  {
    if events != [] {
      RunExtends(Next(w, events[0], maxAge), events[1..], e, maxAge);
      assert (events + [e])[1..] == events[1..] + [e];
    } else {
      assert [e][1..] == [];
    }
  }

  lemma {:induction false} RunJoins(w: World, events: seq<Event>, more: seq<Event>, maxAge: nat)
    requires IsRun(w, events, maxAge) && IsRun(After(w, events, maxAge), more, maxAge)
    ensures IsRun(w, events + more, maxAge)
    ensures After(w, events + more, maxAge) == After(After(w, events, maxAge), more, maxAge)
    decreases |events|
  {
    if events != [] {
      RunJoins(Next(w, events[0], maxAge), events[1..], more, maxAge);
      assert (events + more)[1..] == events[1..] + more;
    } else {
      assert events + more == more;
    }
  }

  // ---- Whole switches, as the service leaves them ----

  /**
   What the surroundings do during one switch: clock readings, the actuator, the registry commit, the three journal
   writes, which open the row, record what the actuator did, and close it, and the read of the slot to be returned.
   */
  datatype Surroundings = Surroundings(
    now: nat, opens: bool, actuates: bool, records: bool, commitAt: nat, commits: bool, closes: bool, rereads: bool)

  /** The row gets its final status. A promotion reads the slot again before it closes the row, a rollback
      afterwards. */
  predicate Closes(kind: ActionKind, follows: bool, s: Surroundings) {
    s.closes && (follows && kind.Promotion? ==> s.rereads)
  }

  /** The actuator raised: the row is closed as failed and nothing else changed. */
  function Refusal(d: Db, kind: ActionKind, slot: Slot): Db
    requires slot in d.slots
  {
    Marked(Appended(d, kind, slot), |d.actions|, Failed)
  }

  /** The traffic moved and the row still says pending. */
  function Moving(d: Db, kind: ActionKind, slot: Slot): Db
    requires slot in d.slots
  {
    Appended(d, kind, slot).(live := Some(slot))
  }

  function Actuation(d: Db, kind: ActionKind, slot: Slot): Db
    requires slot in d.slots
  {
    Marked(Moving(d, kind, slot), |d.actions|, Actuated)
  }

  /** What the calls up to the actuator's answer leave behind. */
  function Actuating(d: Db, kind: ActionKind, slot: Slot, s: Surroundings): Db
    requires slot in d.slots
  {
    if !s.opens then d
    else if !s.actuates then (if s.records then Refusal(d, kind, slot) else Appended(d, kind, slot))
    else if s.records then Actuation(d, kind, slot)
    else Moving(d, kind, slot)
  }

  /** The registry commit goes through. */
  predicate Follows(d: Db, kind: ActionKind, slot: Slot, s: Surroundings, maxAge: nat) {
    s.commits && Commits(d.slots, SwitchTx(kind, slot, s.commitAt), maxAge)
  }

  /** Everything a switch may leave behind after its first checks have passed. */
  ghost function Ending(d: Db, kind: ActionKind, slot: Slot, s: Surroundings, maxAge: nat): Db
    requires slot in d.slots
  {
    var a := Actuating(d, kind, slot, s);
    if !(s.opens && s.actuates && s.records) then a
    else
      var follows := Follows(d, kind, slot, s, maxAge);
      var b := if follows then a.(slots := Update(d.slots, SwitchTx(kind, slot, s.commitAt), maxAge)) else a;
      if Closes(kind, follows, s) then Marked(b, |d.actions|, if follows then Committed else ReconcileRequired) else b
  }

  lemma MovingIsRun(d: Db, kind: ActionKind, slot: Slot, at: nat, maxAge: nat) returns (events: seq<Event>)
    requires slot in d.slots && CanBegin(d, kind, slot, at, maxAge)
    ensures IsRun(World(d, Idle), events, maxAge)
    ensures After(World(d, Idle), events, maxAge) == World(Moving(d, kind, slot), Moved(|d.actions|))
  {
    var w, begin := World(d, Idle), Begin(kind, slot, at);
    RunExtends(w, [], begin, maxAge);
    events := [] + [begin];
    RunExtends(w, events, TrafficMoves, maxAge);
    events := events + [TrafficMoves];
  }

  lemma ActuatingIsRun(d: Db, kind: ActionKind, slot: Slot, s: Surroundings, maxAge: nat) returns (events: seq<Event>)
    requires slot in d.slots && CanBegin(d, kind, slot, s.now, maxAge)
    ensures IsRun(World(d, Idle), events, maxAge)
    ensures (After(World(d, Idle), events, maxAge) ==
      World(Actuating(d, kind, slot, s), if s.opens && s.actuates && s.records then Recorded(|d.actions|) else Idle))
  {
    var w := World(d, Idle);
    events := [];
    if s.opens && s.actuates {
      events := MovingIsRun(d, kind, slot, s.now, maxAge);
      var e := if s.records then RecordActuated else Crash;
      RunExtends(w, events, e, maxAge);
      events := events + [e];
    } else if s.opens {
      var begin, e := Begin(kind, slot, s.now), if s.records then RecordFailed else Crash;
      RunExtends(w, events, begin, maxAge);
      events := events + [begin];
      RunExtends(w, events, ActuatorRaises, maxAge);
      events := events + [ActuatorRaises];
      RunExtends(w, events, e, maxAge);
      events := events + [e];
    }
  }

  /** However a switch of the service ends, it is a run of the machine, so the journal theorems apply to it. */
  lemma EndingIsRun(d: Db, kind: ActionKind, slot: Slot, s: Surroundings, maxAge: nat) returns (events: seq<Event>)
    requires slot in d.slots && CanBegin(d, kind, slot, s.now, maxAge)
    ensures IsRun(World(d, Idle), events, maxAge)
    ensures After(World(d, Idle), events, maxAge) == World(Ending(d, kind, slot, s, maxAge), Idle)
  {
    var w := World(d, Idle);
    events := ActuatingIsRun(d, kind, slot, s, maxAge);
    if s.opens && s.actuates && s.records {
      var follows := Follows(d, kind, slot, s, maxAge);
      var commit := if follows then Commit(s.commitAt) else CommitRaises;
      RunExtends(w, events, commit, maxAge);
      events := events + [commit];
      var close := if !Closes(kind, follows, s) then Crash else if follows then RecordCommitted else RecordRequired;
      RunExtends(w, events, close, maxAge);
      events := events + [close];
    }
  }
}
