/** One guarded production release: qualify, probe, switch, smoke-test, promote the adapters, or roll back. */
module ProductionRelease {
  import opened Outcomes
  import opened DeploymentRegistry
  import opened SwitchJournal
  import opened DeploymentSwitch
  import Collections
  import Compat = CompatibilityService
  import Pipeline = ReleasePipeline

  datatype ReleaseStatus =
    | Started
    | QualificationFailed
    | ProbeFailed
    | SwitchFailed
    | ReconcileNeeded
    | RolledBackStatus
    | RollbackFailed
    | Succeeded
    | ReconciledStatus

  /** One release row; `updatedAt` counts writes to the release table. */
  datatype Release = Release(
    target: Slot, previous: Option<Slot>, adapters: seq<string>, status: ReleaseStatus, updatedAt: nat)

  datatype RunError = EmptySet | SmokeUrlRequired | UnknownTarget | TargetAlreadyActive

  datatype Smoke = Smoke(healthy: bool, reportedSlot: Option<string>, reportedVersion: Option<string>)

  /** Everything outside the database that one run observes. */
  datatype Conditions = Conditions(
    answer: string -> Compat.Report,
    targetProbe: Option<bool>, targetProbedAt: nat,
    previousProbe: Option<bool>, previousProbedAt: nat,
    switching: Surroundings,
    smoke: Option<Smoke>,
    adaptersCommit: bool, adaptersReread: bool,
    restoring: Surroundings)

  function SlotName(slot: Slot): string {
    if slot == Blue then "blue" else "green"
  }

  /** The smoke test answered, is healthy and contradicts neither the slot nor the version. */
  predicate SmokePasses(smoke: Option<Smoke>, slot: Slot, version: string) {
    && smoke.Some? && smoke.value.healthy
    && (smoke.value.reportedSlot.Some? ==> smoke.value.reportedSlot.value == SlotName(slot))
    && (smoke.value.reportedVersion.Some? ==> smoke.value.reportedVersion.value == version)
  }

  ghost predicate Qualifies(m: Compat.Matrix, registry: map<string, string>, requested: seq<string>, c: Conditions) {
    Pipeline.AllInstalled(registry, requested) && Pipeline.AllPass(m, registry, requested, c.answer)
  }

  predicate ProbesPass(previous: Option<Slot>, c: Conditions) {
    c.targetProbe == Some(true) && (previous.Some? ==> c.previousProbe == Some(true))
  }

  /** A probe at `probed` is still valid evidence at `now`. */
  predicate Fresh(probed: nat, now: nat, maxAge: nat) {
    probed <= now <= probed + maxAge
  }

  // ---- One switch, on evidence taken at `probed` ----

  /** The operation gets as far as the registry commit. */
  predicate Tries(external: bool, maxAge: nat, probed: nat, s: Surroundings) {
    Fresh(probed, s.now, maxAge) && (external ==> s.opens && s.actuates && s.records)
  }

  /** The registry commit goes through. */
  predicate RegistryFollows(external: bool, maxAge: nat, probed: nat, s: Surroundings) {
    Tries(external, maxAge, probed, s) && s.commits && Fresh(probed, s.commitAt, maxAge)
  }

  /** The operation returns normally. */
  predicate Returns(external: bool, maxAge: nat, probed: nat, s: Surroundings) {
    RegistryFollows(external, maxAge, probed, s) && (external ==> s.closes) && s.rereads
  }

  predicate MovesTraffic(external: bool, maxAge: nat, probed: nat, s: Surroundings) {
    external && Fresh(probed, s.now, maxAge) && s.opens && s.actuates
  }

  /** The registry followed, but the journal write that closes the row or the last read raised. */
  predicate LandsUnreported(external: bool, maxAge: nat, probed: nat, s: Surroundings) {
    RegistryFollows(external, maxAge, probed, s) && ((external && !s.closes) || !s.rereads)
  }

  /** The traffic moved, the registry did not follow, and the row says so. */
  predicate StrandsTraffic(external: bool, maxAge: nat, probed: nat, s: Surroundings) {
    external && Tries(external, maxAge, probed, s) && !RegistryFollows(external, maxAge, probed, s) && s.closes
  }

  /** The operation raises without having written a journal row. */
  predicate NothingJournaled(external: bool, maxAge: nat, probed: nat, s: Surroundings) {
    !external || !Fresh(probed, s.now, maxAge) || !s.opens
  }

  // ---- The slot table through a run ----

  /** The two probes, seen from the switch: nothing but health evidence is new. */
  ghost predicate ProbedTable(before: Registry, after: Registry, target: Slot, previous: Option<Slot>, c: Conditions) {
    && Sound(after) && ActiveSlot(after) == ActiveSlot(before) && after.Keys == before.Keys
    && target in after && !IsActive(after, target)
    && after[target].health == Healthy && after[target].checkedAt == Some(c.targetProbedAt)
    && after[target].version == before[target].version && after[target].endpoint == before[target].endpoint
    && (previous.Some? ==>
          && previous.value in after && previous.value != target
          && after[previous.value].health == Healthy && after[previous.value].checkedAt == Some(c.previousProbedAt))
  }

  lemma ProbeKeepsActive(reg: Registry, slot: Slot, healthy: bool, at: nat, maxAge: nat)
    requires Sound(reg)
    ensures Sound(Update(reg, RecordHealth(slot, healthy, at), maxAge))
    ensures ActiveSlot(Update(reg, RecordHealth(slot, healthy, at), maxAge)) == ActiveSlot(reg)
    ensures Update(reg, RecordHealth(slot, healthy, at), maxAge).Keys == reg.Keys
  {
    if slot in reg { EditSound(reg, Update(reg, RecordHealth(slot, healthy, at), maxAge), slot); }
  }

  /** After a switch the only slot a rollback can choose is the one that was active before. */
  lemma SwitchLeavesWayBack(reg: Registry, target: Slot, at: nat, now: nat, maxAge: nat)
    requires Sound(reg) && target in reg && !IsActive(reg, target)
    ensures var after := Switched(reg, target, at);
      && Sound(after) && ActiveSlot(after) == Some(target)
      && (ActiveSlot(reg).None? ==> RollbackChoice(after, now, maxAge).None?)
      && (ActiveSlot(reg).Some? ==>
            var p := ActiveSlot(reg).value;
            && RollbackChoice(after, now, maxAge) == (if HealthCurrent(reg[p], now, maxAge) then Some(p) else None)
            && after[p] == reg[p].(state := Standby))
  {
    SwitchSound(reg, CommitReconcile(target, at), maxAge);
    assert target == Blue || target == Green;
  }

  // ---- What a run promises ----

  /** The newest journal row asks for reconciliation. */
  predicate Asks(actions: seq<Action>) {
    |actions| > 0 && actions[|actions| - 1].status == ReconcileRequired
  }

  /** Each adapter's installed version is its only active version, on passing latest evidence. */
  ghost predicate SetActive(m: Compat.Matrix, registry: map<string, string>, requested: seq<string>) {
    forall id | id in requested ::
      Pipeline.Vouched(m, registry, id) && Compat.OnlyActive(m, Pipeline.KeyOf(registry, id))
  }

  /** Everything a run starts from. */
  datatype Situation = Situation(
    db: Db, matrix: Compat.Matrix, registry: map<string, string>, requested: seq<string>,
    external: bool, maxAge: nat, target: Slot)

  function Previous(x: Situation): Option<Slot> {
    ActiveSlot(x.db.slots)
  }

  ghost predicate ReachesSwitch(x: Situation, c: Conditions) {
    Qualifies(x.matrix, x.registry, x.requested, c) && ProbesPass(Previous(x), c)
  }

  predicate SwitchReturns(x: Situation, c: Conditions) {
    Returns(x.external, x.maxAge, c.targetProbedAt, c.switching)
  }

  predicate Passes(x: Situation, c: Conditions)
    requires x.target in x.db.slots
  {
    SmokePasses(c.smoke, x.target, x.db.slots[x.target].version) && c.adaptersCommit && c.adaptersReread
  }

  /** The adapter promotion is reached and commits, whether or not it returns. */
  ghost predicate AdaptersLand(x: Situation, c: Conditions)
    requires x.target in x.db.slots
  {
    ReachesSwitch(x, c) && SwitchReturns(x, c) && SmokePasses(c.smoke, x.target, x.db.slots[x.target].version) &&
      c.adaptersCommit
  }

  /** Which status a run ends with, from what it observed. */
  ghost function Verdict(x: Situation, c: Conditions): ReleaseStatus
    requires x.target in x.db.slots
  {
    if !Qualifies(x.matrix, x.registry, x.requested, c) then QualificationFailed
    else if !ProbesPass(Previous(x), c) then ProbeFailed
    else if !SwitchReturns(x, c) then
      if StrandsTraffic(x.external, x.maxAge, c.targetProbedAt, c.switching)
        || (NothingJournaled(x.external, x.maxAge, c.targetProbedAt, c.switching) && Asks(x.db.actions))
          then ReconcileNeeded
      else SwitchFailed
    else if Passes(x, c) then Succeeded
    else if Previous(x).Some? && Returns(x.external, x.maxAge, c.previousProbedAt, c.restoring) then RolledBackStatus
    else RollbackFailed
  }

  /** Which slot the registry has active afterwards. */
  ghost function FinalSlot(x: Situation, c: Conditions): Option<Slot>
    requires x.target in x.db.slots
  {
    if !ReachesSwitch(x, c) then Previous(x)
    else if !SwitchReturns(x, c) then
      if RegistryFollows(x.external, x.maxAge, c.targetProbedAt, c.switching) then Some(x.target) else Previous(x)
    else if !Passes(x, c) && Previous(x).Some? && RegistryFollows(x.external, x.maxAge, c.previousProbedAt, c.restoring)
      then Previous(x)
    else Some(x.target)
  }

  /** Which slot has the traffic afterwards, when the run drives a router. */
  ghost function FinalTraffic(x: Situation, c: Conditions): Option<Slot>
    requires x.target in x.db.slots
  {
    if !ReachesSwitch(x, c) then x.db.live
    else if !SwitchReturns(x, c) then
      if MovesTraffic(x.external, x.maxAge, c.targetProbedAt, c.switching) then Some(x.target) else x.db.live
    else if !Passes(x, c) && Previous(x).Some? && MovesTraffic(x.external, x.maxAge, c.previousProbedAt, c.restoring)
      then Previous(x)
    else Some(x.target)
  }

  /** The target is active, unchanged, and each adapter's installed version is its only active one. */
  ghost predicate Landed(x: Situation, after: Registry, n: Compat.Matrix) {
    && ActiveSlot(after) == Some(x.target) && x.target in x.db.slots && x.target in after
    && after[x.target].version == x.db.slots[x.target].version &&
      after[x.target].endpoint == x.db.slots[x.target].endpoint
    && SetActive(n, x.registry, x.requested)
  }

  predicate WasActive(m: Compat.Matrix, k: Compat.Key) {
    k in m.rows && m.rows[k] == Compat.Active
  }

  /** Every version that became active is the installed version of an adapter of the set. */
  ghost predicate OnlySetNew(m: Compat.Matrix, n: Compat.Matrix, registry: map<string, string>,
                            requested: seq<string>) {
    forall k | WasActive(n, k) && !WasActive(m, k) ::
      k.adapter in requested && k.adapter in registry && k == Pipeline.KeyOf(registry, k.adapter)
  }

  /** Everything a run leaves behind. */
  ghost predicate Outcome(x: Situation, c: Conditions, status: ReleaseStatus, after: Registry, live: Option<Slot>,
                          n: Compat.Matrix) {
    && x.target in x.db.slots && status == Verdict(x, c)
    && ActiveSlot(after) == FinalSlot(x, c)
    && (x.external ==> live == FinalTraffic(x, c))
    && (status == Succeeded ==> Landed(x, after, n))
    && (if AdaptersLand(x, c)
      then SetActive(n, x.registry, x.requested) && OnlySetNew(x.matrix, n, x.registry, x.requested)
        else Pipeline.NoNewActive(x.matrix, n))
  }

  /** All or nothing, read off the final status. */
  ghost predicate AllOrNothing(x: Situation, status: ReleaseStatus, after: Registry, n: Compat.Matrix) {
    match status
    case Succeeded => Landed(x, after, n)
    case RollbackFailed => ActiveSlot(after) == Some(x.target) && Pipeline.NoNewActive(x.matrix, n)
    case Started => false
    case ReconciledStatus => false
    case _ => ActiveSlot(after) == Previous(x) && Pipeline.NoNewActive(x.matrix, n)
  }

  /** What five of the statuses say about the traffic; the other two leave it open. */
  ghost predicate TrafficFollows(x: Situation, status: ReleaseStatus, after: Option<Slot>) {
    match status
    case Succeeded => after == Some(x.target)
    case RolledBackStatus => after == Previous(x)
    case QualificationFailed => after == x.db.live
    case ProbeFailed => after == x.db.live
    case SwitchFailed => after == x.db.live
    case _ => true
  }

  /** A registry change of the switch, or of the way back, after which the closing write or the last read raised. */
  ghost predicate RegistryUnreported(x: Situation, c: Conditions)
    requires x.target in x.db.slots
  {
    && ReachesSwitch(x, c)
    && (LandsUnreported(x.external, x.maxAge, c.targetProbedAt, c.switching)
        || (SwitchReturns(x, c) && !Passes(x, c) && Previous(x).Some?
            && LandsUnreported(x.external, x.maxAge, c.previousProbedAt, c.restoring)))
  }

  /** The switch moved the traffic, and the write that records it, the closing write, or the read after the commit
      raised. */
  ghost predicate TrafficUnreported(x: Situation, c: Conditions) {
    && ReachesSwitch(x, c) && MovesTraffic(x.external, x.maxAge, c.targetProbedAt, c.switching)
    && (!c.switching.records || !c.switching.closes
        || (RegistryFollows(x.external, x.maxAge, c.targetProbedAt, c.switching) && !c.switching.rereads))
    && x.db.live != Some(x.target)
  }

  /** The set was promoted, the read after the commit raised, and some version of the set was not active before. */
  ghost predicate AdaptersUnreported(x: Situation, c: Conditions)
    requires x.target in x.db.slots
  {
    && AdaptersLand(x, c) && !c.adaptersReread
    && exists id :: id in x.requested && id in x.registry && !WasActive(x.matrix, Pipeline.KeyOf(x.registry, id))
  }

  /** A promoted set leaves nothing new active exactly when it was active before. */
  lemma NewActiveExactly(x: Situation, n: Compat.Matrix)
    requires SetActive(n, x.registry, x.requested) && OnlySetNew(x.matrix, n, x.registry, x.requested)
    ensures Pipeline.NoNewActive(x.matrix, n) <==>
      forall id | id in x.requested :: id in x.registry && WasActive(x.matrix, Pipeline.KeyOf(x.registry, id))
  {
    forall id | id in x.requested ensures id in x.registry && WasActive(n, Pipeline.KeyOf(x.registry, id)) {
      assert Compat.OnlyActive(n, Pipeline.KeyOf(x.registry, id));
    }
    if forall id | id in x.requested :: id in x.registry && WasActive(x.matrix, Pipeline.KeyOf(x.registry, id)) {
      forall k | k in n.rows && n.rows[k] == Compat.Active
        ensures k in x.matrix.rows && x.matrix.rows[k] == Compat.Active {
        assert WasActive(n, k);
      }
    }
  }

  /** A release is all-or-nothing, and its status tells where the traffic is, exactly when nothing raised in such a
      place. */
  lemma OutcomeIsAllOrNothing(x: Situation, c: Conditions, status: ReleaseStatus, after: Registry, live: Option<Slot>,
                            n: Compat.Matrix)
    requires Outcome(x, c, status, after, live, n) && Previous(x) != Some(x.target)
    ensures AllOrNothing(x, status, after, n) <==> !RegistryUnreported(x, c) && !AdaptersUnreported(x, c)
    ensures x.external ==> (TrafficFollows(x, status, live) <==> !TrafficUnreported(x, c))
  {
    if AdaptersLand(x, c) {
      NewActiveExactly(x, n);
    }
  }

  /** Only the status and the write stamp of one row changed. */
  ghost predicate Stamped(before: seq<Release>, after: seq<Release>, id: nat) {
    && id < |before| == |after|
    && after[id] == before[id].(status := after[id].status, updatedAt := after[id].updatedAt)
    && forall n | 0 <= n < |after| && n != id :: after[n] == before[n]
  }

  class ProductionReleaseController {
    const deployments: DeploymentSwitchService
    const compatibility: Compat.CompatibilityService
    const hasSmokeUrl: bool
    var releases: seq<Release>
    var writes: nat

    constructor (deployments: DeploymentSwitchService, compatibility: Compat.CompatibilityService, hasSmokeUrl: bool)
      ensures this.deployments == deployments && this.compatibility == compatibility && this.hasSmokeUrl == hasSmokeUrl
      ensures releases == []
    {
      this.deployments, this.compatibility, this.hasSmokeUrl := deployments, compatibility, hasSmokeUrl;
      releases, writes := [], 0;
    }

    predicate External() {
      deployments.router != null
    }

    /** Both tables are in a state their own transactions can reach. */
    ghost predicate Valid()
      reads deployments, compatibility
    {
      Sound(deployments.slots) && Compat.Sound(compatibility.Tables())
    }

    method Create(target: Slot, previous: Option<Slot>, adapters: seq<string>) returns (id: nat)
      modifies this
      ensures id == |old(releases)|
      ensures releases == old(releases) + [Release(target, previous, adapters, Started, old(writes))]
    {
      id := |releases|;
      releases := releases + [Release(target, previous, adapters, Started, writes)];
      writes := writes + 1;
    }

    method Save(id: nat, status: ReleaseStatus)
      requires id < |releases|
      modifies this
      ensures Stamped(old(releases), releases, id) && releases[id].status == status
    {
      releases := releases[id := releases[id].(status := status, updatedAt := writes)];
      writes := writes + 1;
    }

    method ProbeBoth(target: Slot, previous: Option<Slot>, c: Conditions) returns (passed: bool)
      requires Sound(deployments.slots) && previous == ActiveSlot(deployments.slots)
      requires target in deployments.slots && !IsActive(deployments.slots, target)
      modifies deployments
      ensures passed <==> ProbesPass(previous, c)
      ensures passed ==> ProbedTable(old(deployments.slots), deployments.slots, target, previous, c)
      ensures Sound(deployments.slots) && ActiveSlot(deployments.slots) == previous
      ensures deployments.actions == old(deployments.actions) && deployments.writes == old(deployments.writes)
    {
      var maxAge := deployments.maxAge;
      ghost var before := deployments.slots;
      ProbeKeepsActive(before, target, c.targetProbe == Some(true), c.targetProbedAt, maxAge);
      var first := deployments.Probe(target, c.targetProbe, c.targetProbedAt);
      if first.Err? || first.value.health != Healthy {
        return false;
      }
      if previous.Some? {
        ProbeKeepsActive(deployments.slots, previous.value, c.previousProbe == Some(true), c.previousProbedAt, maxAge);
        var second := deployments.Probe(previous.value, c.previousProbe, c.previousProbedAt);
        if second.Err? || second.value.health != Healthy {
          return false;
        }
      }
      return true;
    }

    method SwitchTraffic(target: Slot, ghost before: Registry, ghost previous: Option<Slot>, c: Conditions)
        returns (switched: bool)
      requires ProbedTable(before, deployments.slots, target, previous, c)
      modifies deployments, deployments.router
      ensures switched <==> Returns(External(), deployments.maxAge, c.targetProbedAt, c.switching)
      ensures deployments.slots == if RegistryFollows(External(), deployments.maxAge, c.targetProbedAt, c.switching)
                                   then Switched(old(deployments.slots), target, c.switching.commitAt)
                                     else old(deployments.slots)
      ensures External() ==> (deployments.router.live ==
        if MovesTraffic(External(), deployments.maxAge, c.targetProbedAt, c.switching) then Some(target)
          else old(deployments.router.live))
      ensures !switched ==> (Asks(deployments.actions) <==>
        StrandsTraffic(External(), deployments.maxAge, c.targetProbedAt, c.switching)
        || (NothingJournaled(External(), deployments.maxAge, c.targetProbedAt, c.switching) &&
          Asks(old(deployments.actions))))
    {
      var r := deployments.Promote(target, c.switching);
      return r.Ok?;
    }

    /** The call of `rollback` after a switch of `table` to `target`. */
    method SwitchBack(ghost table: Registry, target: Slot, at: nat, ghost previous: Option<Slot>, c: Conditions)
        returns (restored: bool)
      requires Sound(table) && target in table && !IsActive(table, target) && previous == ActiveSlot(table)
      requires deployments.slots == Switched(table, target, at)
      requires previous.Some? ==> table[previous.value].health == Healthy
      requires previous.Some? ==> table[previous.value].checkedAt == Some(c.previousProbedAt)
      modifies deployments, deployments.router
      ensures Sound(deployments.slots)
      ensures restored <==> previous.Some? && Returns(External(), deployments.maxAge, c.previousProbedAt, c.restoring)
      ensures ActiveSlot(deployments.slots) ==
        if previous.Some? && RegistryFollows(External(), deployments.maxAge, c.previousProbedAt, c.restoring)
          then previous else Some(target)
      ensures External() ==> (deployments.router.live ==
        if previous.Some? && MovesTraffic(External(), deployments.maxAge, c.previousProbedAt, c.restoring) then previous
          else old(deployments.router.live))
    {
      var maxAge := deployments.maxAge;
      SwitchLeavesWayBack(table, target, at, c.restoring.now, maxAge);
      if previous.Some? {
        RollbackLands(deployments.slots, previous.value, c.restoring.commitAt, maxAge);
      }
      var r := deployments.Rollback(c.restoring);
      return r.Ok?;
    }

    /** `_rollback`: the status says whether the service reported a way back. */
    method RestorePrevious(id: nat, ghost table: Registry, target: Slot, at: nat, ghost previous: Option<Slot>,
                           c: Conditions)
      requires id < |releases|
      requires Sound(table) && target in table && !IsActive(table, target) && previous == ActiveSlot(table)
      requires deployments.slots == Switched(table, target, at)
      requires previous.Some? ==> table[previous.value].health == Healthy
      requires previous.Some? ==> table[previous.value].checkedAt == Some(c.previousProbedAt)
      modifies this, deployments, deployments.router
      ensures Sound(deployments.slots)
      ensures Stamped(old(releases), releases, id)
      ensures releases[id].status == if previous.Some? &&
        Returns(External(), deployments.maxAge, c.previousProbedAt, c.restoring)
                                     then RolledBackStatus else RollbackFailed
      ensures ActiveSlot(deployments.slots) ==
        if previous.Some? && RegistryFollows(External(), deployments.maxAge, c.previousProbedAt, c.restoring)
          then previous else Some(target)
      ensures External() ==> (deployments.router.live ==
        if previous.Some? && MovesTraffic(External(), deployments.maxAge, c.previousProbedAt, c.restoring) then previous
          else old(deployments.router.live))
    {
      var restored := SwitchBack(table, target, at, previous, c);
      Save(id, if restored then RolledBackStatus else RollbackFailed);
    }

    /** The promotion of the qualified set, and whether it returned. */
    method PromoteAdapters(requested: seq<string>, ghost m: Compat.Matrix, c: Conditions) returns (promoted: bool)
      requires Compat.Sound(m) && Qualifies(m, compatibility.registry, requested, c)
      requires compatibility.Tables() == Pipeline.QualifyAll(m, compatibility.registry, requested, c.answer)
      requires requested != [] && forall i, j | 0 <= i < j < |requested| :: requested[i] != requested[j]
      modifies compatibility
      ensures promoted == (c.adaptersCommit && c.adaptersReread)
      ensures Compat.Sound(compatibility.Tables())
      ensures c.adaptersCommit ==> SetActive(compatibility.Tables(), compatibility.registry, requested)
      ensures c.adaptersCommit ==> OnlySetNew(m, compatibility.Tables(), compatibility.registry, requested)
      ensures !c.adaptersCommit ==> compatibility.Tables() == old(compatibility.Tables())
    {
      SetPromoted(m, compatibility.Tables(), compatibility.registry, requested, c);
      Pipeline.QualifyAllSound(m, compatibility.registry, requested, c.answer);
      var keys := Pipeline.Keys(compatibility.registry, requested);
      var r := compatibility.PromoteMany(keys, c.adaptersCommit, c.adaptersReread);
      return r.Ok?;
    }

    /** What a run for this target and this set starts from. */
    ghost function Starting(target: Slot, requested: seq<string>): Situation
      reads deployments, deployments.router, compatibility
    {
      Situation(deployments.Tables(), compatibility.Tables(), compatibility.registry, requested, External(),
        deployments.maxAge, target)
    }

    /** The outcome of the run whose row has this number. */
    ghost predicate EndsWith(x: Situation, c: Conditions, id: nat)
      requires id < |releases|
      reads this, deployments, deployments.router, compatibility
    {
      Outcome(x, c, releases[id].status, deployments.slots, deployments.Tables().live, compatibility.Tables())
    }

    /** The stages after the switch: smoke test, adapter promotion, or compensation. */
    method SmokeAndPromote(id: nat, target: Slot, previous: Option<Slot>, requested: seq<string>, c: Conditions,
                           ghost table: Registry, ghost x: Situation)
      requires id < |releases| && x.target == target && x.requested == requested && x.registry == compatibility.registry
      requires x.external == External() && x.maxAge == deployments.maxAge
      requires ProbedTable(x.db.slots, table, target, previous, c) && previous == ActiveSlot(table) &&
        target in x.db.slots
      requires ReachesSwitch(x, c) && SwitchReturns(x, c) && Compat.Sound(x.matrix)
      requires deployments.slots == Switched(table, target, c.switching.commitAt)
      requires External() ==> deployments.router.live == Some(target)
      requires compatibility.Tables() == Pipeline.QualifyAll(x.matrix, compatibility.registry, requested, c.answer)
      requires requested != [] && forall i, j | 0 <= i < j < |requested| :: requested[i] != requested[j]
      modifies this, deployments, deployments.router, compatibility
      ensures Valid() && Stamped(old(releases), releases, id)
      ensures EndsWith(x, c, id)
    {
      SwitchLeavesWayBack(table, target, c.switching.commitAt, 0, deployments.maxAge);
      Pipeline.QualifyAllSound(x.matrix, compatibility.registry, requested, c.answer);
      if !SmokePasses(c.smoke, target, deployments.slots[target].version) {
        RestorePrevious(id, table, target, c.switching.commitAt, previous, c);
        return;
      }
      var promoted := PromoteAdapters(requested, x.matrix, c);
      if !promoted {
        RestorePrevious(id, table, target, c.switching.commitAt, previous, c);
        return;
      }
      Save(id, Succeeded);
    }

    /** The switch and what follows it. */
    method SwitchAndRelease(id: nat, target: Slot, previous: Option<Slot>, requested: seq<string>, c: Conditions,
                            ghost x: Situation)
      requires Valid() && id < |releases| && x.target == target && x.requested == requested &&
        x.registry == compatibility.registry
      requires x.external == External() && x.maxAge == deployments.maxAge
      requires ProbedTable(x.db.slots, deployments.slots, target, previous, c) && previous == Previous(x) &&
        target in x.db.slots
      requires ReachesSwitch(x, c) && Compat.Sound(x.matrix)
      requires x.db.live == deployments.Tables().live && x.db.actions == deployments.actions
      requires compatibility.Tables() == Pipeline.QualifyAll(x.matrix, compatibility.registry, requested, c.answer)
      requires requested != [] && forall i, j | 0 <= i < j < |requested| :: requested[i] != requested[j]
      modifies this, deployments, deployments.router, compatibility
      ensures Valid() && Stamped(old(releases), releases, id)
      ensures EndsWith(x, c, id)
    {
      ghost var table := deployments.slots;
      SwitchLeavesWayBack(table, target, c.switching.commitAt, 0, deployments.maxAge);
      Pipeline.QualifyAllSound(x.matrix, compatibility.registry, requested, c.answer);
      var switched := SwitchTraffic(target, x.db.slots, previous, c);
      if !switched {
        Save(id, if Asks(deployments.actions) then ReconcileNeeded else SwitchFailed);
        return;
      }
      SmokeAndPromote(id, target, previous, requested, c, table, x);
    }

    /** All stages of a release whose row has been created. */
    method Stages(id: nat, target: Slot, previous: Option<Slot>, requested: seq<string>, c: Conditions)
      requires Valid() && id < |releases|
      requires target in deployments.slots && !IsActive(deployments.slots, target) &&
        previous == ActiveSlot(deployments.slots)
      requires requested != [] && Pipeline.Requested(requested) == requested
      modifies this, deployments, deployments.router, compatibility
      ensures Valid() && Stamped(old(releases), releases, id)
      ensures EndsWith(old(Starting(target, requested)), c, id)
    {
      ghost var x := Starting(target, requested);
      var qualified := Pipeline.Run(compatibility, requested, c.answer, false, true, true);
      QualifiedTables(x.matrix, compatibility.Tables(), compatibility.registry, requested, c, qualified.value);
      if !qualified.value.passed {
        Save(id, QualificationFailed);
        return;
      }
      var probed := ProbeBoth(target, previous, c);
      if !probed {
        Save(id, ProbeFailed);
        return;
      }
      SwitchAndRelease(id, target, previous, requested, c, x);
    }

    method Run(target: Slot, adapterIds: seq<string>, c: Conditions) returns (r: Result<nat, RunError>)
      requires Valid()
      modifies this, deployments, deployments.router, compatibility
      ensures Valid()
      ensures r.Ok? <==>
        Admissible(old(deployments.slots), External(), hasSmokeUrl, target, Pipeline.Requested(adapterIds))
      ensures r.Err? ==> releases == old(releases) && deployments.Tables() == old(deployments.Tables())
      ensures r.Err? ==> compatibility.Tables() == old(compatibility.Tables())
      ensures r.Ok? ==> r.value == |old(releases)| && |releases| == r.value + 1 && releases[..r.value] == old(releases)
      ensures r.Ok? ==> releases[r.value].target == target
      ensures r.Ok? ==> releases[r.value].previous == ActiveSlot(old(deployments.slots))
      ensures r.Ok? ==> releases[r.value].adapters == Pipeline.Requested(adapterIds)
      ensures r.Ok? ==> EndsWith(old(Starting(target, Pipeline.Requested(adapterIds))), c, r.value)
      ensures r.Ok? ==> (var x := old(Starting(target, Pipeline.Requested(adapterIds)));
        AllOrNothing(x, releases[r.value].status, deployments.slots, compatibility.Tables()) <==>
          !RegistryUnreported(x, c) && !AdaptersUnreported(x, c))
      ensures r.Ok? && External() ==> (var x := old(Starting(target, Pipeline.Requested(adapterIds)));
        TrafficFollows(x, releases[r.value].status, deployments.router.live) <==> !TrafficUnreported(x, c))
    {
      var requested := Pipeline.Requested(adapterIds);
      if requested == [] {
        return Err(EmptySet);
      }
      if deployments.router != null && !hasSmokeUrl {
        return Err(SmokeUrlRequired);
      }
      if target !in deployments.slots {
        return Err(UnknownTarget);
      }
      var previous := ActiveSlot(deployments.slots);
      if previous == Some(target) {
        return Err(TargetAlreadyActive);
      }
      ghost var x := Starting(target, requested);
      RequestedTwice(adapterIds);
      var id := Create(target, previous, requested);
      Stages(id, target, previous, requested, c);
      OutcomeIsAllOrNothing(x, c, releases[id].status, deployments.slots, deployments.Tables().live,
        compatibility.Tables());
      return Ok(id);
    }

    /** The row that most recently asked for reconciliation, if any does. */
    method NewestAsking() returns (id: Option<nat>)
      ensures id.None? ==> forall n | 0 <= n < |releases| :: releases[n].status != ReconcileNeeded
      ensures id.Some? ==> NewestAskingRow(releases, id.value)
    {
      id := None;
      for n := 0 to |releases|
        invariant id.None? ==> forall k | 0 <= k < n :: releases[k].status != ReconcileNeeded
        invariant id.Some? ==> id.value < n && releases[id.value].status == ReconcileNeeded
        invariant id.Some? ==> forall k | 0 <= k < n && releases[k].status == ReconcileNeeded ::
                                 releases[k].updatedAt <= releases[id.value].updatedAt
      {
        if releases[n].status == ReconcileNeeded && (id.None? || releases[id.value].updatedAt < releases[n].updatedAt) {
          id := Some(n);
        }
      }
    }

    /** Puts the registry where an operator saw the traffic and closes the release that asked for it. */
    method Reconcile(observed: Slot, version: Option<string>, at: nat)
        returns (r: Result<(Option<nat>, Reconciliation), SwitchError>)
      requires Valid()
      modifies this, deployments
      ensures Valid()
      ensures r.Ok? <==> Accepts(old(deployments.Tables()), observed, version)
      ensures r.Err? ==> releases == old(releases) && deployments.Tables() == old(deployments.Tables())
      ensures r.Ok? ==> ActiveSlot(deployments.slots) == Some(observed)
      ensures r.Ok? && r.value.0.None? ==> releases == old(releases) && r.value.1 == DeploymentOnly
      ensures r.Ok? && r.value.0.None? ==> forall n | 0 <= n < |releases| :: releases[n].status != ReconcileNeeded
      ensures r.Ok? && r.value.0.Some? ==> NewestAskingRow(old(releases), r.value.0.value)
      ensures r.Ok? && r.value.0.Some? ==>
        var id := r.value.0.value;
        && Stamped(old(releases), releases, id) && releases[id].status == ReconciledStatus
        && r.value.1 == (if observed == releases[id].target then TargetObserved
                         else if releases[id].previous == Some(observed) then PreviousObserved else OtherSlot)
    {
      ghost var before := deployments.slots;
      var active := deployments.Reconcile(observed, version, at);
      if active.Err? {
        return Err(active.error);
      }
      SwitchSound(before, CommitReconcile(observed, at), deployments.maxAge);
      var id := NewestAsking();
      if id.None? {
        return Ok((None, DeploymentOnly));
      }
      var row := releases[id.value];
      Save(id.value, ReconciledStatus);
      return Ok((id, if observed == row.target then TargetObserved
                     else if row.previous == Some(observed) then PreviousObserved else OtherSlot));
    }
  }

  predicate NewestAskingRow(releases: seq<Release>, id: nat) {
    && id < |releases| && releases[id].status == ReconcileNeeded
    && forall n | 0 <= n < |releases| && releases[n].status == ReconcileNeeded ::
      releases[n].updatedAt <= releases[id].updatedAt
  }

  datatype Reconciliation = DeploymentOnly | TargetObserved | PreviousObserved | OtherSlot

  predicate Admissible(reg: Registry, external: bool, hasSmokeUrl: bool, target: Slot, requested: seq<string>) {
    requested != [] && (external ==> hasSmokeUrl) && target in reg && ActiveSlot(reg) != Some(target)
  }

  lemma RollbackLands(reg: Registry, slot: Slot, at: nat, maxAge: nat)
    requires Sound(reg) && slot in reg && reg[slot].state == Standby
    ensures Commits(reg, CommitRollback(slot, at), maxAge) ==>
      Sound(RolledBack(reg, slot, at)) && ActiveSlot(RolledBack(reg, slot, at)) == Some(slot)
  {
    if Commits(reg, CommitRollback(slot, at), maxAge) { RollbackSound(reg, CommitRollback(slot, at), maxAge); }
  }

  lemma {:induction false} NonEmptyIdentity(ids: seq<string>)
    requires "" !in ids
    ensures Pipeline.NonEmpty(ids) == ids
  {
    if ids != [] { NonEmptyIdentity(ids[1..]); }
  }

  lemma RequestedTwice(ids: seq<string>)
    ensures Pipeline.Requested(Pipeline.Requested(ids)) == Pipeline.Requested(ids)
  {
    NonEmptyIdentity(Pipeline.Requested(ids));
    Collections.DistinctIsIdentity(Pipeline.Requested(ids));
  }

  lemma QualifiedTables(m: Compat.Matrix, n: Compat.Matrix, registry: map<string, string>, requested: seq<string>,
                        c: Conditions, r: Pipeline.ReleaseResult)
    requires Compat.Sound(m)
    requires Pipeline.Outcome(m, n, registry, requested, c.answer, false, true, true, r)
    ensures Compat.Sound(n) && Pipeline.NoNewActive(m, n)
    ensures r.passed <==> Qualifies(m, registry, requested, c)
    ensures r.passed ==> n == Pipeline.QualifyAll(m, registry, requested, c.answer)
  {
    Pipeline.QualifyAllSound(m, registry, requested, c.answer);
  }

  /** Promoting a qualified set cannot be refused, and leaves each member the only active version. */
  lemma SetPromoted(m: Compat.Matrix, n: Compat.Matrix, registry: map<string, string>, requested: seq<string>,
                    c: Conditions)
    requires Compat.Sound(m) && Qualifies(m, registry, requested, c)
    requires n == Pipeline.QualifyAll(m, registry, requested, c.answer)
    requires forall i, j | 0 <= i < j < |requested| :: requested[i] != requested[j]
    ensures forall id | id in requested :: id in registry
    ensures var keys := Pipeline.Keys(registry, requested); var after := Compat.ActivatedAll(n, keys);
      && Collections.Distinct(keys) == keys && Compat.SetError(n, keys).None? && Compat.Sound(after)
      && SetActive(after, registry, requested) && OnlySetNew(m, after, registry, requested)
  {
    Pipeline.QualifyAllSound(m, registry, requested, c.answer);
    Pipeline.PassedSetPromotes(m, registry, requested, c.answer);
    Pipeline.PassedSetIsQualified(m, registry, requested, c.answer);
    var keys := Pipeline.Keys(registry, requested);
    Compat.SetErrorNone(n, keys);
    Compat.ActivatedAllSound(n, keys);
    Compat.ActivatedAllOutcome(n, keys);
    forall id | id in requested
      ensures Pipeline.Vouched(Compat.ActivatedAll(n, keys), registry, id)
           && Compat.OnlyActive(Compat.ActivatedAll(n, keys), Pipeline.KeyOf(registry, id))
    {
      var k :| 0 <= k < |requested| && requested[k] == id;
      assert keys[k] in keys;
    }
    PromotedOnly(m, n, registry, requested);
  }

  lemma PromotedOnly(m: Compat.Matrix, n: Compat.Matrix, registry: map<string, string>, requested: seq<string>)
    requires Pipeline.NoNewActive(m, n) && forall id | id in requested :: id in registry
    requires forall i, j | 0 <= i < j < |requested| :: requested[i] != requested[j]
    requires Compat.ActivatedAll(n, Pipeline.Keys(registry, requested)).rows.Keys == n.rows.Keys
    ensures OnlySetNew(m, Compat.ActivatedAll(n, Pipeline.Keys(registry, requested)), registry, requested)
  {
    var keys := Pipeline.Keys(registry, requested);
    var after := Compat.ActivatedAll(n, keys);
    Compat.ActivatedAllOutcome(n, keys);
    forall k | WasActive(after, k) && !WasActive(m, k)
      ensures k.adapter in requested && k.adapter in registry && k == Pipeline.KeyOf(registry, k.adapter)
    {
      assert k in n.rows && !(forall t | t in keys :: t.adapter != k.adapter);
      var t :| t in keys && t.adapter == k.adapter;
      assert Compat.OnlyActive(after, t);
      var i :| 0 <= i < |keys| && keys[i] == t;
      assert requested[i] in requested;
    }
  }

  // ---- Runs at the edge of these conditions ----

  /** A release of one adapter to green, from these tables. */
  function ToGreen(d: Db): Situation {
    Situation(d, Compat.Matrix(map[], []), map["hermes" := "1"], ["hermes"], true, 60, Green)
  }

  /** Nothing fails: every probe, report, write, read and commit is good and the smoke test is silent about slot and
      version. */
  function AllWell(): Conditions {
    var s := Surroundings(0, true, true, true, 0, true, true, true);
    Conditions(_ =>
      Compat.Reported(true), Some(true), 0, Some(true), 0, s, Some(Smoke(true, None, None)), true, true, s)
  }

  /** The tables after blue was registered, found healthy and promoted, and green registered. */
  ghost predicate BlueServes(d: Db, events: seq<Event>) {
    && IsRun(EMPTY, events, 60) && After(EMPTY, events, 60) == World(d, Idle)
    && Green in d.slots && ActiveSlot(d.slots) == Some(Blue) && d.live == Some(Blue)
  }

  lemma BlueIsPromoted() returns (events: seq<Event>, d: Db)
    ensures BlueServes(d, events)
  {
    var before;
    events, before := TwoSlots();
    var s := AllWell().switching;
    var promotion := EndingIsRun(before, Promotion, Blue, s, 60);
    RunJoins(EMPTY, events, promotion, 60);
    events, d := events + promotion, SwitchJournal.Ending(before, Promotion, Blue, s, 60);
  }

  /** The write that closes the journal row raises: switch_failed, with the registry and the traffic on the target. */
  lemma SwitchFailedMayHaveLanded() returns (events: seq<Event>, d: Db)
    ensures BlueServes(d, events)
    ensures var c := AllWell().(switching := AllWell().switching.(closes := false)); var x := ToGreen(d);
      Verdict(x, c) == SwitchFailed && FinalSlot(x, c) == Some(Green) && FinalTraffic(x, c) == Some(Green)
  {
    events, d := BlueIsPromoted();
  }

  /** The write that records the actuation raises: switch_failed, with only the traffic on the target. */
  lemma SwitchFailedMayHaveMoved() returns (events: seq<Event>, d: Db)
    ensures BlueServes(d, events)
    ensures var c := AllWell().(switching := AllWell().switching.(records := false)); var x := ToGreen(d);
      Verdict(x, c) == SwitchFailed && FinalSlot(x, c) == Some(Blue) && FinalTraffic(x, c) == Some(Green)
  {
    events, d := BlueIsPromoted();
  }

  /** The smoke test fails and the write that closes the way back raises: rollback_failed, with the previous slot
      active. */
  lemma RollbackFailedMayHaveLanded() returns (events: seq<Event>, d: Db)
    ensures BlueServes(d, events)
    ensures var c := AllWell().(smoke := None, restoring := AllWell().restoring.(closes := false)); var x := ToGreen(d);
      Verdict(x, c) == RollbackFailed && FinalSlot(x, c) == Some(Blue) && FinalTraffic(x, c) == Some(Blue)
  {
    events, d := BlueIsPromoted();
  }

  /** The read after the adapter promotion raises: rolled_back, with a new adapter version active. */
  lemma RolledBackMayHavePromoted() returns (events: seq<Event>, d: Db)
    ensures BlueServes(d, events)
    ensures var c := AllWell().(adaptersReread := false); var x := ToGreen(d);
      && Verdict(x, c) == RolledBackStatus && !RegistryUnreported(x, c) && !TrafficUnreported(x, c) &&
        AdaptersUnreported(x, c)
      && forall after, live, n | Outcome(x, c, RolledBackStatus, after, live, n) ::
        !AllOrNothing(x, RolledBackStatus, after, n)
  {
    events, d := BlueIsPromoted();
    var x, c := ToGreen(d), AllWell().(adaptersReread := false);
    assert "hermes" in x.requested;
    forall after, live, n | Outcome(x, c, RolledBackStatus, after, live, n)
      ensures !AllOrNothing(x, RolledBackStatus, after, n) {
      OutcomeIsAllOrNothing(x, c, RolledBackStatus, after, live, n);
    }
  }

  /** A release is labelled reconcile_required without having stranded anything exactly when it wrote no row and an
      older one asks. */
  lemma OldRequestLabelsExactly(x: Situation, c: Conditions)
    requires x.target in x.db.slots
    ensures (Verdict(x, c) == ReconcileNeeded
      && !StrandsTraffic(x.external, x.maxAge, c.targetProbedAt, c.switching)) <==>
      && ReachesSwitch(x, c) && !SwitchReturns(x, c) && Asks(x.db.actions)
      && NothingJournaled(x.external, x.maxAge, c.targetProbedAt, c.switching)
  {
  }

  /** Blue and green registered, blue healthy. */
  lemma TwoSlots() returns (events: seq<Event>, d: Db)
    ensures IsRun(EMPTY, events, 60) && After(EMPTY, events, 60) == World(d, Idle)
    ensures d == Db(map[Blue := Deployment("https://blue", "1", SlotState.Candidate, Healthy, Some(0), None),
                        Green := Deployment("https://green", "2", SlotState.Candidate, Unknown, None, None)], [], 0,
                          None)
  {
    var e0, e1, e2 := Edit(Register(Blue, "https://blue", "1")), Edit(RecordHealth(Blue, true, 0)),
      Edit(Register(Green, "https://green", "2"));
    RunExtends(EMPTY, [], e0, 60);
    events := [] + [e0];
    RunExtends(EMPTY, events, e1, 60);
    events := events + [e1];
    RunExtends(EMPTY, events, e2, 60);
    events := events + [e2];
    d := After(EMPTY, events, 60).db;
  }

  /** An earlier stranded switch still asks and this run's first journal write raises: the run is labelled by the
      old row. */
  lemma OldRequestLabelsRelease() returns (events: seq<Event>, d: Db)
    ensures IsRun(EMPTY, events, 60) && After(EMPTY, events, 60) == World(d, Idle) && Green in d.slots
    ensures var c := AllWell().(switching := AllWell().switching.(opens := false)); var x := ToGreen(d);
      && Verdict(x, c) == ReconcileNeeded && FinalTraffic(x, c) == d.live && FinalSlot(x, c) == ActiveSlot(d.slots)
      && NothingJournaled(x.external, x.maxAge, c.targetProbedAt, c.switching)
  {
    var before;
    events, before := TwoSlots();
    var s := AllWell().switching.(commits := false);
    var stranding := EndingIsRun(before, Promotion, Blue, s, 60);
    RunJoins(EMPTY, events, stranding, 60);
    events, d := events + stranding, SwitchJournal.Ending(before, Promotion, Blue, s, 60);
  }
}
