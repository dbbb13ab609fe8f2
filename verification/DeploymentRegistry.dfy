/** The blue/green slot table and what each committed transaction does to it. */
module DeploymentRegistry {
  import opened Outcomes

  datatype Slot = Blue | Green

  datatype SlotState = Candidate | Active | Standby | Blocked

  datatype Health = Unknown | Healthy | Unhealthy

  datatype Deployment = Deployment(
    endpoint: string, version: string, state: SlotState,
    health: Health, checkedAt: Option<nat>, promotedAt: Option<nat>)

  type Registry = map<Slot, Deployment>

  /** Healthy evidence taken no later than now and no longer ago than the age limit. */
  predicate HealthCurrent(d: Deployment, now: nat, maxAge: nat) {
    d.health == Healthy && d.checkedAt.Some? && d.checkedAt.value <= now <= d.checkedAt.value + maxAge
  }

  predicate IsActive(reg: Registry, slot: Slot) {
    slot in reg && reg[slot].state == Active
  }

  /** The first active slot in slot order, as every caller looks it up. */
  function ActiveSlot(reg: Registry): Option<Slot> {
    if IsActive(reg, Blue) then Some(Blue) else if IsActive(reg, Green) then Some(Green) else None
  }

  predicate CanRollbackTo(reg: Registry, slot: Slot, now: nat, maxAge: nat) {
    slot in reg && reg[slot].state == Standby && HealthCurrent(reg[slot], now, maxAge)
  }

  /** The most recently promoted standby slot with current health; a missing time counts as oldest. */
  function RollbackChoice(reg: Registry, now: nat, maxAge: nat): Option<Slot> {
    var blue, green := CanRollbackTo(reg, Blue, now, maxAge), CanRollbackTo(reg, Green, now, maxAge);
    if blue && green then
      Some(if reg[Green].promotedAt.Some? &&
        (reg[Blue].promotedAt.None? || reg[Blue].promotedAt.value < reg[Green].promotedAt.value)
           then Green else Blue)
    else if blue then Some(Blue)
    else if green then Some(Green)
    else None
  }

  datatype Transaction =
    | Register(slot: Slot, endpoint: string, version: string)
    | RecordHealth(slot: Slot, healthy: bool, at: nat)
    | CommitPromote(slot: Slot, at: nat)
    | CommitRollback(slot: Slot, at: nat)
    | CommitReconcile(slot: Slot, at: nat)

  predicate Replaces(d: Deployment, endpoint: string, version: string) {
    d.endpoint != endpoint || d.version != version
  }

  /** The transaction commits; otherwise it raises and the table keeps its content. */
  predicate Commits(reg: Registry, tx: Transaction, maxAge: nat) {
    match tx
    case Register(slot, endpoint, version) => !(IsActive(reg, slot) && Replaces(reg[slot], endpoint, version))
    case RecordHealth(slot, healthy, at) => slot in reg
    case CommitPromote(slot, at) => slot in reg && HealthCurrent(reg[slot], at, maxAge)
    case CommitRollback(slot, at) => CanRollbackTo(reg, slot, at, maxAge)
    case CommitReconcile(slot, at) => slot in reg
  }

  function Registered(reg: Registry, slot: Slot, endpoint: string, version: string): Registry {
    if slot !in reg then reg[slot := Deployment(endpoint, version, Candidate, Unknown, None, None)]
    else if Replaces(reg[slot], endpoint, version) then
      reg[slot := Deployment(endpoint, version, Candidate, Unknown, None, reg[slot].promotedAt)]
    else reg
  }

  function Probed(reg: Registry, slot: Slot, healthy: bool, at: nat): Registry
    requires slot in reg
  {
    var d := reg[slot];
    reg[slot := d.(health := if healthy then Healthy else Unhealthy, checkedAt := Some(at),
                   state := if !healthy && d.state == Candidate then Blocked else d.state)]
  }

  function Activate(d: Deployment, at: nat): Deployment {
    d.(state := Active, promotedAt := Some(at))
  }

  /** The slot becomes active and every other active slot a standby. */
  ghost function Switched(reg: Registry, slot: Slot, at: nat): Registry
    requires slot in reg
  {
    map s | s in reg ::
      if s == slot then Activate(reg[s], at)
      else if reg[s].state == Active then reg[s].(state := Standby)
      else reg[s]
  }

  /** A rollback demotes only the first active row that it finds. */
  function RolledBack(reg: Registry, slot: Slot, at: nat): Registry
    requires slot in reg
  {
    var demoted := if ActiveSlot(reg).Some? then
                     var a := ActiveSlot(reg).value; reg[a := reg[a].(state := Standby)]
                   else reg;
    demoted[slot := Activate(reg[slot], at)]
  }

  ghost function Update(reg: Registry, tx: Transaction, maxAge: nat): Registry {
    if !Commits(reg, tx, maxAge) then reg
    else match tx
      case Register(slot, endpoint, version) => Registered(reg, slot, endpoint, version)
      case RecordHealth(slot, healthy, at) => Probed(reg, slot, healthy, at)
      case CommitPromote(slot, at) => Switched(reg, slot, at)
      case CommitRollback(slot, at) => RolledBack(reg, slot, at)
      case CommitReconcile(slot, at) => Switched(reg, slot, at)
  }

  ghost function Run(reg: Registry, txs: seq<Transaction>, maxAge: nat): Registry {
    if txs == [] then reg else Update(Run(reg, txs[..|txs| - 1], maxAge), txs[|txs| - 1], maxAge)
  }

  /** At most one active slot, and a standby slot only beside an active one. */
  ghost predicate Sound(reg: Registry) {
    && (forall s, t | IsActive(reg, s) && IsActive(reg, t) :: s == t)
    && ((exists s :: s in reg && reg[s].state == Standby) ==> ActiveSlot(reg).Some?)
  }

  /** What no single transaction may do to a sound table. */
  ghost predicate StepSafe(reg: Registry, tx: Transaction, after: Registry, maxAge: nat) {
    && reg.Keys <= after.Keys
    && (ActiveSlot(reg).Some? ==> ActiveSlot(after).Some?)
    && (forall s | IsActive(reg, s) && IsActive(after, s) ::
          after[s].endpoint == reg[s].endpoint && after[s].version == reg[s].version)
    && (forall s | IsActive(after, s) && !IsActive(reg, s) ::
          tx.CommitReconcile? ||
            ((tx.CommitPromote? || tx.CommitRollback?) && s in reg && HealthCurrent(reg[s], tx.at, maxAge)))
  }

  lemma SwitchSound(reg: Registry, tx: Transaction, maxAge: nat)
    requires Sound(reg) && Commits(reg, tx, maxAge) && (tx.CommitPromote? || tx.CommitReconcile?)
    ensures Sound(Switched(reg, tx.slot, tx.at)) && ActiveSlot(Switched(reg, tx.slot, tx.at)) == Some(tx.slot)
    ensures StepSafe(reg, tx, Switched(reg, tx.slot, tx.at), maxAge)
  {
    assert tx.slot == Blue || tx.slot == Green;
  }

  lemma RollbackSound(reg: Registry, tx: Transaction, maxAge: nat)
    requires Sound(reg) && Commits(reg, tx, maxAge) && tx.CommitRollback?
    ensures Sound(RolledBack(reg, tx.slot, tx.at)) && ActiveSlot(RolledBack(reg, tx.slot, tx.at)) == Some(tx.slot)
    ensures StepSafe(reg, tx, RolledBack(reg, tx.slot, tx.at), maxAge)
  {
    assert ActiveSlot(reg).Some?;
    assert tx.slot == Blue || tx.slot == Green;
  }

  /** Registration and probes leave every slot as active, or as standby, as it was, or make it neither. */
  lemma EditSound(reg: Registry, after: Registry, slot: Slot)
    requires Sound(reg) && slot in after && after == reg[slot := after[slot]]
    requires after[slot].state == Active <==> IsActive(reg, slot)
    requires after[slot].state == Standby ==> slot in reg && reg[slot].state == Standby
    ensures Sound(after) && ActiveSlot(after) == ActiveSlot(reg)
  {
    assert forall s :: IsActive(after, s) <==> IsActive(reg, s);
    assert forall s | s in after && after[s].state == Standby :: s in reg && reg[s].state == Standby;
  }

  lemma UpdateSound(reg: Registry, tx: Transaction, maxAge: nat)
    requires Sound(reg)
    ensures Sound(Update(reg, tx, maxAge))
    ensures StepSafe(reg, tx, Update(reg, tx, maxAge), maxAge)
  {
    if Commits(reg, tx, maxAge) {
      match tx
      case Register(slot, endpoint, version) => EditSound(reg, Registered(reg, slot, endpoint, version), slot);
      case RecordHealth(slot, healthy, at) => EditSound(reg, Probed(reg, slot, healthy, at), slot);
      case CommitPromote(slot, at) => SwitchSound(reg, tx, maxAge);
      case CommitRollback(slot, at) => RollbackSound(reg, tx, maxAge);
      case CommitReconcile(slot, at) => SwitchSound(reg, tx, maxAge);
    }
  }

  lemma {:induction false} RunGrows(reg: Registry, txs: seq<Transaction>, maxAge: nat, n: nat)
    requires Sound(reg) && n <= |txs|
    ensures Sound(Run(reg, txs, maxAge))
    ensures ActiveSlot(Run(reg, txs[..n], maxAge)).Some? ==> ActiveSlot(Run(reg, txs, maxAge)).Some?
  {
    if n < |txs| {
      var front := txs[..|txs| - 1];
      RunGrows(reg, front, maxAge, n);
      assert front[..n] == txs[..n];
      UpdateSound(Run(reg, front, maxAge), txs[|txs| - 1], maxAge);
    } else {
      assert txs[..n] == txs;
      if n > 0 {
        RunGrows(reg, txs[..n - 1], maxAge, n - 1);
        UpdateSound(Run(reg, txs[..n - 1], maxAge), txs[n - 1], maxAge);
      }
    }
  }

  /**
   Over every interleaving of slot transactions, starting from an empty table: the table stays sound,
   an active slot never disappears, and every step keeps to StepSafe.
   */
  lemma EveryRunIsSafe(txs: seq<Transaction>, maxAge: nat)
    ensures Sound(Run(map[], txs, maxAge))
    ensures forall m, n | 0 <= m <= n <= |txs| && ActiveSlot(Run(map[], txs[..m], maxAge)).Some? ::
              ActiveSlot(Run(map[], txs[..n], maxAge)).Some?
    ensures forall n | 0 <= n < |txs| ::
              StepSafe(Run(map[], txs[..n], maxAge), txs[n], Run(map[], txs[..n + 1], maxAge), maxAge)
  {
    RunGrows(map[], txs, maxAge, |txs|);
    forall m, n | 0 <= m <= n <= |txs| && ActiveSlot(Run(map[], txs[..m], maxAge)).Some?
      ensures ActiveSlot(Run(map[], txs[..n], maxAge)).Some?
    {
      RunGrows(map[], txs[..n], maxAge, m);
      assert txs[..n][..m] == txs[..m];
    }
    forall n | 0 <= n < |txs|
      ensures StepSafe(Run(map[], txs[..n], maxAge), txs[n], Run(map[], txs[..n + 1], maxAge), maxAge)
    {
      RunGrows(map[], txs[..n], maxAge, n);
      assert txs[..n + 1][..n] == txs[..n];
      UpdateSound(Run(map[], txs[..n], maxAge), txs[n], maxAge);
    }
  }
}
