/** The life of a task over every sequence of operations, and what the release gate makes of it. */
module TaskLifecycle {
  import opened Outcomes
  import opened Artifacts
  import opened TaskRun
  import opened Collections
  import Gate = ReleaseGate

  datatype TaskRow = TaskRow(contract: Contract, status: TaskStatus, attempt: nat, artifacts: seq<Artifact>)

  /** `RunUnrecorded` is a run whose last status write raises, `RunCrash` one that breaks off after some turns. */
  datatype Event =
    | RunTask(answers: Answers)
    | RunUnrecorded(answers: Answers)
    | RunCrash(answers: Answers, turns: nat)
    | Revise(id: nat, sha256: Sha256Hex)
    | Decide(ids: seq<nat>, approve: bool)
    | ReleaseTask(sha256: Sha256Hex)
    | Retry
    | Cancel

  function Submitted(c: Contract): TaskRow {
    TaskRow(c, Queued, 0, [])
  }

  // ---- One operation ----

  function Started(t: TaskRow, p: Progress, status: TaskStatus): TaskRow {
    t.(status := status, attempt := t.attempt + 1, artifacts := p.artifacts)
  }

  function Finished(c: Contract, p: Progress): TaskStatus {
    if p.failed then Failed else if c.approval == BeforePublish then WaitingApproval else Succeeded
  }

  predicate Revisable(t: TaskRow, id: nat) {
    id < |t.artifacts| && Latest(t.artifacts, t.artifacts[id].kind) == Some(id)
  }

  /** The parent is superseded and the human revision follows it. */
  function Revised(t: TaskRow, id: nat, sha256: Sha256Hex): TaskRow
    requires Revisable(t, id)
  {
    var parent := t.artifacts[id];
    t.(status := WaitingApproval,
       artifacts := t.artifacts[id := parent.(status := Superseded)]
                    + [Artifact(|t.artifacts|, parent.projectId, parent.taskId, parent.kind, parent.revision + 1,
                      AwaitingReview, sha256, "human_review", [id])])
  }

  predicate AllKnown(t: TaskRow, ids: seq<nat>) {
    forall id | id in ids :: id < |t.artifacts|
  }

  /** Exactly the named artifacts get the status. */
  function Restatus(artifacts: seq<Artifact>, ids: seq<nat>, status: ArtifactStatus): (r: seq<Artifact>)
    ensures |r| == |artifacts|
    ensures forall n: nat | n < |r| :: r[n] == if n in ids then artifacts[n].(status := status) else artifacts[n]
  {
    seq(|artifacts|, n requires 0 <= n < |artifacts| =>
      if n in ids then artifacts[n].(status := status) else artifacts[n])
  }

  predicate NewestApproved(artifacts: seq<Artifact>, kind: Kind) {
    Latest(artifacts, kind).Some? && artifacts[Latest(artifacts, kind).value].status == Approved
  }

  function Decided(t: TaskRow, ids: seq<nat>, approve: bool): TaskRow {
    var after := Restatus(t.artifacts, ids, if approve then Approved else Rejected);
    t.(artifacts := after,
       status := if !approve then Blocked
                 else if forall k | k in t.contract.required ::
                   NewestApproved(after, k) then Succeeded else WaitingApproval)
  }

  function Chosen(artifacts: seq<Artifact>, ids: seq<nat>): (r: seq<Artifact>)
    ensures forall a :: a in r <==> a in artifacts && a.id in ids
  {
    if artifacts == [] then []
    else
      var front, last := Chosen(artifacts[..|artifacts| - 1], ids), artifacts[|artifacts| - 1];
      if last.id in ids then front + [last] else front
  }

  function Selected(t: TaskRow): seq<nat> {
    Gate.SelectedIds(t.artifacts, t.contract.required)
  }

  ghost predicate Releasable(t: TaskRow) {
    && Gate.Opens(t.contract, t.artifacts, t.status)
    && Gate.BuildReleaseManifest(Chosen(t.artifacts, Selected(t))).Ok?
  }

  function Released(t: TaskRow, sha256: Sha256Hex): TaskRow {
    t.(artifacts := t.artifacts + [Artifact(|t.artifacts|, t.contract.projectId, t.contract.taskId, ReleaseKind,
                                            NextRevision(t.artifacts, ReleaseKind), ArtifactStatus.Released, sha256,
                                              "onebridge", Selected(t))])
  }

  ghost function After(routes: Routes, t: TaskRow, e: Event): TaskRow {
    match e
    case RunTask(answers) =>
      var p := Turns(t.contract, routes, answers, t.artifacts, |t.contract.required|);
      if t.status == Cancelled then t else Started(t, p, Finished(t.contract, p))
    case RunUnrecorded(answers) =>
      if t.status == Cancelled then t
        else Started(t, Turns(t.contract, routes, answers, t.artifacts, |t.contract.required|), Failed)
    case RunCrash(answers, turns) =>
      if t.status == Cancelled || turns > |t.contract.required| then t
      else Started(t, Turns(t.contract, routes, answers, t.artifacts, turns), Running)
    case Revise(id, sha256) => if Revisable(t, id) then Revised(t, id, sha256) else t
    case Decide(ids, approve) => if AllKnown(t, ids) then Decided(t, ids, approve) else t
    case ReleaseTask(sha256) => if Releasable(t) then Released(t, sha256) else t
    case Retry => if t.status in {Failed, Blocked} then t.(status := Queued) else t
    case Cancel => if t.status in {Succeeded, Cancelled} then t else t.(status := Cancelled)
  }

  ghost function RunFrom(routes: Routes, t: TaskRow, events: seq<Event>): TaskRow {
    if events == [] then t else After(routes, RunFrom(routes, t, events[..|events| - 1]), events[|events| - 1])
  }

  // ---- What every operation keeps ----

  /** A succeeded task under review: the newest of every required kind was approved. */
  ghost predicate SuccessIsReviewed(t: TaskRow) {
    t.contract.approval == BeforePublish && t.status == Succeeded ==>
      forall k | k in t.contract.required ::
        Latest(t.artifacts, k).Some? && (k != ReleaseKind ==> NewestApproved(t.artifacts, k))
  }

  ghost predicate Sound(routes: Routes, t: TaskRow) {
    && UniqueOutputs(t.contract) && History(t.contract, t.artifacts)
    && AdapterAtomic(t.contract, routes, Kinds(t.artifacts))
    && SuccessIsReviewed(t)
  }

  /** Only statuses differ. */
  ghost predicate SameButStatus(a: seq<Artifact>, b: seq<Artifact>) {
    |a| == |b| && forall n: nat | n < |a| :: b[n] == a[n].(status := b[n].status)
  }

  lemma {:induction false} LatestIgnoresStatus(a: seq<Artifact>, b: seq<Artifact>, kind: Kind)
    requires SameButStatus(a, b)
    ensures Latest(a, kind) == Latest(b, kind)
  {
    if a != [] {
      var n := |a| - 1;
      assert b[n] == a[n].(status := b[n].status);
      LatestIgnoresStatus(a[..n], b[..n], kind);
    }
  }

  lemma HistoryIgnoresStatus(c: Contract, a: seq<Artifact>, b: seq<Artifact>)
    requires SameButStatus(a, b)
    requires History(c, a)
    ensures History(c, b) && Kinds(a) == Kinds(b)
  {
    forall n: nat | n < |b| ensures Chained(b, n) && Owned(c, b, n) {
      assert Chained(a, n) && Owned(c, a, n) && b[n] == a[n].(status := b[n].status);
      if m :| Precedes(a, m, n) {
        assert Precedes(b, m, n);
      }
      if |a[n].inputs| == 1 && Precedes(a, a[n].inputs[0], n) {
        assert Precedes(b, b[n].inputs[0], n);
      }
    }
    assert RevisionsGrow(b) by {
      forall m: nat, n: nat | m < n < |b| && b[m].kind == b[n].kind ensures b[m].revision < b[n].revision {
        assert b[n] == a[n].(status := b[n].status) && b[m] == a[m].(status := b[m].status);
        assert a[m].revision < a[n].revision;
      }
    }
    forall k ensures k in Kinds(a) <==> k in Kinds(b) {
      KindsAreLatest(a, k);
      KindsAreLatest(b, k);
      LatestIgnoresStatus(a, b, k);
    }
  }

  lemma RunKeepsSound(routes: Routes, t: TaskRow, answers: Answers, turns: nat)
    requires Sound(routes, t)
    ensures Sound(routes, After(routes, t, RunTask(answers))) &&
      Sound(routes, After(routes, t, RunCrash(answers, turns)))
    ensures Sound(routes, After(routes, t, RunUnrecorded(answers)))
  {
    TurnsKeepHistory(t.contract, routes, answers, t.artifacts, |t.contract.required|);
    if turns <= |t.contract.required| {
      TurnsKeepHistory(t.contract, routes, answers, t.artifacts, turns);
    }
  }

  lemma ReviseKeepsSound(routes: Routes, t: TaskRow, id: nat, sha256: Sha256Hex)
    requires Sound(routes, t) && Revisable(t, id)
    ensures Sound(routes, Revised(t, id, sha256))
    ensures Kinds(Revised(t, id, sha256).artifacts) == Kinds(t.artifacts)
  {
    var parent := t.artifacts[id];
    assert Owned(t.contract, t.artifacts, id);
    var retired := t.artifacts[id := parent.(status := Superseded)];
    HistoryIgnoresStatus(t.contract, t.artifacts, retired);
    LatestIgnoresStatus(t.artifacts, retired, parent.kind);
    var a := Revised(t, id, sha256).artifacts[|retired|];
    assert Revised(t, id, sha256).artifacts == retired + [a];
    AppendKeepsHistory(t.contract, retired, a);
    KindsAppend(retired, a);
    assert parent in t.artifacts;
  }

  /** The revision is the newest of its kind; the newest of every other kind stays. */
  lemma RevisionIsNewest(t: TaskRow, id: nat, sha256: Sha256Hex, kind: Kind)
    requires Revisable(t, id)
    ensures (Latest(Revised(t, id, sha256).artifacts, kind) ==
      if kind == t.artifacts[id].kind then Some(|t.artifacts|) else Latest(t.artifacts, kind))
  {
    var retired := t.artifacts[id := t.artifacts[id].(status := Superseded)];
    var a := Revised(t, id, sha256).artifacts[|retired|];
    assert Revised(t, id, sha256).artifacts == retired + [a];
    LatestIgnoresStatus(t.artifacts, retired, kind);
    LatestAppend(retired, a, kind);
  }

  lemma DecideKeepsSound(routes: Routes, t: TaskRow, ids: seq<nat>, approve: bool)
    requires Sound(routes, t)
    ensures Sound(routes, Decided(t, ids, approve))
  {
    HistoryIgnoresStatus(t.contract, t.artifacts, Decided(t, ids, approve).artifacts);
  }

  lemma SelectedAreEarlier(t: TaskRow)
    requires History(t.contract, t.artifacts) && forall k | k in t.contract.required :: Latest(t.artifacts, k).Some?
    ensures forall i | i in Selected(t) :: i < |t.artifacts|
  {
    SelectedAre(t.artifacts, t.contract.required);
    forall i | i in Selected(t) ensures i < |t.artifacts| {
      var n :| 0 <= n < |Selected(t)| && Selected(t)[n] == i;
      assert Owned(t.contract, t.artifacts, Latest(t.artifacts, t.contract.required[n]).value);
    }
  }

  lemma ReleaseKeepsSound(routes: Routes, t: TaskRow, sha256: Sha256Hex)
    requires Sound(routes, t) && Releasable(t)
    ensures Sound(routes, Released(t, sha256))
  {
    var a := Released(t, sha256).artifacts[|t.artifacts|];
    SelectedAreEarlier(t);
    AppendKeepsHistory(t.contract, t.artifacts, a);
    KindsAppend(t.artifacts, a);
    forall k ensures Latest(t.artifacts, k).Some? ==> Latest(t.artifacts + [a], k).Some?
      ensures k != ReleaseKind ==> Latest(t.artifacts + [a], k) == Latest(t.artifacts, k)
    {
      LatestAppend(t.artifacts, a, k);
    }
    forall k | k in t.contract.required ensures k in Kinds(t.artifacts) {
      KindsAreLatest(t.artifacts, k);
    }
  }

  lemma StepKeepsSound(routes: Routes, t: TaskRow, e: Event)
    requires Sound(routes, t)
    ensures Sound(routes, After(routes, t, e)) && After(routes, t, e).contract == t.contract
  {
    match e
    case RunTask(answers) => RunKeepsSound(routes, t, answers, 0);
    case RunUnrecorded(answers) => RunKeepsSound(routes, t, answers, 0);
    case RunCrash(answers, turns) => RunKeepsSound(routes, t, answers, turns);
    case Revise(id, sha256) => if Revisable(t, id) { ReviseKeepsSound(routes, t, id, sha256); }
    case Decide(ids, approve) => DecideKeepsSound(routes, t, ids, approve);
    case ReleaseTask(sha256) => if Releasable(t) { ReleaseKeepsSound(routes, t, sha256); }
    case Retry =>
    case Cancel =>
  }

  /** After any operations in any order, runs that fail or crash anywhere among them. */
  lemma {:induction false} EveryRunIsSound(routes: Routes, c: Contract, events: seq<Event>)
    requires UniqueOutputs(c)
    ensures Sound(routes, RunFrom(routes, Submitted(c), events))
    ensures RunFrom(routes, Submitted(c), events).contract == c
  {
    if events != [] {
      EveryRunIsSound(routes, c, events[..|events| - 1]);
      StepKeepsSound(routes, RunFrom(routes, Submitted(c), events[..|events| - 1]), events[|events| - 1]);
    }
  }

  /** A run that reports success leaves every required kind present, and the next run adds nothing whatever adapters
      answer. */
  lemma RerunAddsNothing(routes: Routes, t: TaskRow, answers: Answers, others: Answers)
    requires Sound(routes, t) && t.status != Cancelled
    requires After(routes, t, RunTask(answers)).status != Failed
    ensures forall k | k in t.contract.required :: k in Kinds(After(routes, t, RunTask(answers)).artifacts)
    ensures var once := After(routes, t, RunTask(answers));
      After(routes, once, RunTask(others)) == once.(attempt := t.attempt + 2)
  {
    TurnsKeepHistory(t.contract, routes, answers, t.artifacts, |t.contract.required|);
    assert t.contract.required[..|t.contract.required|] == t.contract.required;
    var once := After(routes, t, RunTask(answers));
    CompleteRunAddsNothing(t.contract, routes, others, once.artifacts, |t.contract.required|);
  }

  // ---- The gate and the manifest ----

  ghost predicate ReleaseSettled(t: TaskRow) {
    Latest(t.artifacts, ReleaseKind).None? || NewestApproved(t.artifacts, ReleaseKind)
  }

  ghost predicate ReleaseRejected(t: TaskRow) {
    Latest(t.artifacts, ReleaseKind).Some? && t.artifacts[Latest(t.artifacts, ReleaseKind).value].status == Rejected
  }

  /** Every SHA the store returned passes the gate. */
  lemma StoredShaAccepted(s: string)
    requires IsSha256(s)
    ensures Gate.ShaAccepted(s)
  {
    forall c | c in s ensures IsHexDigit(Gate.LowerHex(c)) {
      assert IsHexDigit(c);
    }
  }

  /** The gate opens for a reviewed task exactly when the task succeeded and its last release, if any, was approved. */
  lemma GateAgreesWithStatus(routes: Routes, c: Contract, events: seq<Event>)
    requires UniqueOutputs(c) && c.approval == BeforePublish
    ensures (var t := RunFrom(routes, Submitted(c), events);
      Gate.Opens(c, t.artifacts, t.status) <==> t.status == Succeeded && ReleaseSettled(t))
  {
    EveryRunIsSound(routes, c, events);
    var t := RunFrom(routes, Submitted(c), events);
    if t.status == Succeeded && ReleaseSettled(t) {
      forall k | Latest(t.artifacts, k).Some?
        ensures NewestApproved(t.artifacts, k) && Gate.ShaAccepted(t.artifacts[Latest(t.artifacts, k).value].sha256) {
        assert Owned(c, t.artifacts, Latest(t.artifacts, k).value);
        StoredShaAccepted(t.artifacts[Latest(t.artifacts, k).value].sha256);
      }
    }
  }

  /** A release closes the gate for the next one until the release artifact is itself approved. */
  lemma ReleaseClosesGate(routes: Routes, t: TaskRow, sha256: Sha256Hex)
    requires Sound(routes, t) && Releasable(t) && t.contract.approval == BeforePublish
    ensures var after := Released(t, sha256);
      after.status == Succeeded && !Gate.Opens(after.contract, after.artifacts, after.status)
  {
    var a := Released(t, sha256).artifacts[|t.artifacts|];
    LatestAppend(t.artifacts, a, ReleaseKind);
  }

  // ---- Nothing is approved unseen ----

  /** The k-th operation of the run was a decision that approved this artifact. */
  ghost predicate ApprovedBy(routes: Routes, c: Contract, events: seq<Event>, k: nat, id: nat) {
    && k < |events| && events[k].Decide? && events[k].approve && id in events[k].ids
    && AllKnown(RunFrom(routes, Submitted(c), events[..k]), events[k].ids)
  }

  /** Only a decision turns an artifact's status to approved; the rest is new and awaits review. */
  lemma OnlyDecisionsApprove(routes: Routes, t: TaskRow, e: Event, id: nat)
    requires Sound(routes, t) && t.contract.approval == BeforePublish
    requires id < |After(routes, t, e).artifacts| && After(routes, t, e).artifacts[id].status == Approved
    ensures (id < |t.artifacts| && t.artifacts[id].status == Approved) ||
      (e.Decide? && e.approve && id in e.ids && AllKnown(t, e.ids))
  {
    match e
    case RunTask(answers) => TurnsAwaitReview(t.contract, routes, answers, t.artifacts, |t.contract.required|);
    case RunUnrecorded(answers) => TurnsAwaitReview(t.contract, routes, answers, t.artifacts, |t.contract.required|);
    case RunCrash(answers, turns) =>
      if turns <= |t.contract.required| { TurnsAwaitReview(t.contract, routes, answers, t.artifacts, turns); }
    case _ =>
  }

  ghost predicate NewAwaitReview(before: seq<Artifact>, after: seq<Artifact>) {
    before <= after && forall n: nat :: |before| <= n < |after| ==> after[n].status == AwaitingReview
  }

  lemma {:induction false} BatchAwaitsReview(c: Contract, artifacts: seq<Artifact>, kinds: seq<Kind>,
                            outputs: seq<Output>, adapter: string, lineage: seq<nat>)
    requires c.approval == BeforePublish && forall k | k in kinds :: FirstOf(outputs, k).Some?
    ensures NewAwaitReview(artifacts, Batch(c, artifacts, kinds, outputs, adapter, lineage))
  {
    if kinds != [] {
      var front, last := kinds[..|kinds| - 1], kinds[|kinds| - 1];
      var before := Batch(c, artifacts, front, outputs, adapter, lineage);
      BatchAwaitsReview(c, artifacts, front, outputs, adapter, lineage);
      var a := Fresh(c, before, last, FirstOf(outputs, last).value.sha256, adapter, lineage);
      var after := Batch(c, artifacts, kinds, outputs, adapter, lineage);
      assert after == before + [a] && a.status == AwaitingReview;
      forall n: nat | |artifacts| <= n < |after| ensures after[n].status == AwaitingReview {
        assert after[n] == if n < |before| then before[n] else a;
      }
    }
  }

  lemma TurnAwaitsReview(c: Contract, routes: Routes, answers: Answers, artifacts: seq<Artifact>, kind: Kind)
    requires kind in c.required && c.approval == BeforePublish && Turn(c, routes, answers, artifacts, kind).Some?
    ensures NewAwaitReview(artifacts, Turn(c, routes, answers, artifacts, kind).value)
  {
    if kind !in Kinds(artifacts) {
      var adapter := Route(routes, kind).value;
      var missing := Missing(c.required, Kinds(artifacts), routes, adapter);
      assert kind in missing;
      BatchAwaitsReview(c, artifacts, missing, Answer(answers, adapter).outputs, adapter, Ids(artifacts));
    }
  }

  lemma {:induction false} TurnsAwaitReview(c: Contract, routes: Routes, answers: Answers, artifacts: seq<Artifact>,
                            turns: nat)
    requires turns <= |c.required| && c.approval == BeforePublish
    ensures NewAwaitReview(artifacts, Turns(c, routes, answers, artifacts, turns).artifacts)
  {
    if turns > 0 {
      TurnsAwaitReview(c, routes, answers, artifacts, turns - 1);
      var p, kind := Turns(c, routes, answers, artifacts, turns - 1), c.required[turns - 1];
      if !p.failed && Turn(c, routes, answers, p.artifacts, kind).Some? {
        TurnAwaitsReview(c, routes, answers, p.artifacts, kind);
      }
    }
  }

  /** In every run of a task under review, an approved artifact was named by an approving decision made when it
      existed. */
  lemma {:induction false} ApprovedWasDecided(routes: Routes, c: Contract, events: seq<Event>, id: nat) returns (k: nat)
    requires UniqueOutputs(c) && c.approval == BeforePublish
    requires id < |RunFrom(routes, Submitted(c), events).artifacts|
    requires RunFrom(routes, Submitted(c), events).artifacts[id].status == Approved
    ensures ApprovedBy(routes, c, events, k, id)
  {
    var front, last := events[..|events| - 1], events[|events| - 1];
    var t := RunFrom(routes, Submitted(c), front);
    EveryRunIsSound(routes, c, front);
    OnlyDecisionsApprove(routes, t, last, id);
    if id < |t.artifacts| && t.artifacts[id].status == Approved {
      k := ApprovedWasDecided(routes, c, front, id);
      assert events[..k] == front[..k];
    } else {
      k := |front|;
    }
  }

  /** So everything a release manifest lists was approved by somebody. */
  lemma ReleasedWasDecided(routes: Routes, c: Contract, events: seq<Event>, kind: Kind) returns (k: nat)
    requires UniqueOutputs(c) && c.approval == BeforePublish && kind in c.required
    requires Releasable(RunFrom(routes, Submitted(c), events))
    ensures var t := RunFrom(routes, Submitted(c), events);
      Latest(t.artifacts, kind).Some? && ApprovedBy(routes, c, events, k, Latest(t.artifacts, kind).value)
  {
    EveryRunIsSound(routes, c, events);
    var t := RunFrom(routes, Submitted(c), events);
    k := ApprovedWasDecided(routes, c, events, Latest(t.artifacts, kind).value);
  }

  /** Without an approval policy the gate asks for more than success: approved required kinds and no rejected
      release. */
  lemma GateWithoutReview(routes: Routes, c: Contract, events: seq<Event>)
    requires UniqueOutputs(c) && c.approval == NoApproval
    ensures (var t := RunFrom(routes, Submitted(c), events);
      Gate.Opens(c, t.artifacts, t.status) <==>
        t.status == Succeeded && (forall k | k in c.required :: NewestApproved(t.artifacts, k)) && !ReleaseRejected(t))
  {
    EveryRunIsSound(routes, c, events);
    var t := RunFrom(routes, Submitted(c), events);
    if t.status == Succeeded && (forall k | k in c.required :: NewestApproved(t.artifacts, k)) && !ReleaseRejected(t) {
      forall k | Latest(t.artifacts, k).Some?
        ensures t.artifacts[Latest(t.artifacts, k).value].status != Rejected &&
          Gate.ShaAccepted(t.artifacts[Latest(t.artifacts, k).value].sha256)
      {
        assert Owned(c, t.artifacts, Latest(t.artifacts, k).value);
        StoredShaAccepted(t.artifacts[Latest(t.artifacts, k).value].sha256);
      }
    }
  }

  lemma {:induction false} SelectedAre(artifacts: seq<Artifact>, kinds: seq<Kind>)
    requires forall k | k in kinds :: Latest(artifacts, k).Some?
    ensures |Gate.SelectedIds(artifacts, kinds)| == |kinds|
    ensures forall n | 0 <= n < |kinds| ::
      Gate.SelectedIds(artifacts, kinds)[n] == artifacts[Latest(artifacts, kinds[n]).value].id
  {
    if kinds != [] {
      SelectedAre(artifacts, kinds[..|kinds| - 1]);
    }
  }

  /** The gate's selection is the newest artifact of each required kind. */
  lemma ChosenAre(t: TaskRow, a: Artifact)
    requires History(t.contract, t.artifacts)
    requires forall k | k in t.contract.required :: Latest(t.artifacts, k).Some?
    ensures (a in Chosen(t.artifacts, Selected(t)) <==>
      exists k :: k in t.contract.required && Latest(t.artifacts, k).Some? &&
        a == t.artifacts[Latest(t.artifacts, k).value])
  {
    SelectedAre(t.artifacts, t.contract.required);
    var ids := Selected(t);
    if a in Chosen(t.artifacts, ids) {
      var n: nat :| n < |t.artifacts| && t.artifacts[n] == a;
      assert Owned(t.contract, t.artifacts, n);
      var i :| 0 <= i < |ids| && ids[i] == a.id;
      assert Owned(t.contract, t.artifacts, Latest(t.artifacts, t.contract.required[i]).value);
      assert t.contract.required[i] in t.contract.required;
    }
    if k :| k in t.contract.required && Latest(t.artifacts, k).Some? && a == t.artifacts[Latest(t.artifacts, k).value] {
      var i :| 0 <= i < |t.contract.required| && t.contract.required[i] == k;
      assert a.id == ids[i];
      assert a in t.artifacts;
    }
  }

  lemma {:induction false} ChosenAreDistinct(c: Contract, artifacts: seq<Artifact>, ids: seq<nat>)
    requires forall n: nat | n < |artifacts| :: Owned(c, artifacts, n)
    ensures forall i, j | 0 <= i < j < |Chosen(artifacts, ids)| ::
      Chosen(artifacts, ids)[i] != Chosen(artifacts, ids)[j]
  {
    if artifacts != [] {
      var last := |artifacts| - 1;
      var front := artifacts[..last];
      forall n: nat | n < |front| ensures Owned(c, front, n) {
        assert Owned(c, artifacts, n);
      }
      ChosenAreDistinct(c, front, ids);
      assert Owned(c, artifacts, last);
      forall a | a in front ensures a != artifacts[last] {
        var n: nat :| n < |front| && front[n] == a;
        assert Owned(c, front, n);
      }
    }
  }

  function Newest(t: TaskRow, kind: Kind): Gate.ReleaseArtifact
    requires Latest(t.artifacts, kind).Some?
  {
    Gate.EntryOf(t.artifacts[Latest(t.artifacts, kind).value])
  }

  /** Once the gate opens, only an empty set of required outputs stops the manifest. */
  lemma ManifestIsBuilt(routes: Routes, t: TaskRow)
    requires Sound(routes, t) && Gate.Opens(t.contract, t.artifacts, t.status)
    ensures Gate.BuildReleaseManifest(Chosen(t.artifacts, Selected(t))).Ok? <==> t.contract.required != []
  {
    var chosen := Chosen(t.artifacts, Selected(t));
    forall a | a in chosen
      ensures a.status == Approved && a.projectId == t.contract.projectId && a.taskId == t.contract.taskId {
      ChosenAre(t, a);
      var n: nat :| n < |t.artifacts| && t.artifacts[n] == a;
      assert Owned(t.contract, t.artifacts, n);
    }
    Gate.ManifestLists(chosen);
    if t.contract.required != [] {
      ChosenAre(t, t.artifacts[Latest(t.artifacts, t.contract.required[0]).value]);
    } else {
      assert Selected(t) == [];
      HasMember(chosen);
    }
  }

  /** The manifest lists the newest revision of each required kind, once, in the order of the kinds' names. */
  lemma ManifestListsNewest(routes: Routes, t: TaskRow)
    requires Sound(routes, t) && Releasable(t)
    ensures (var entries := Gate.BuildReleaseManifest(Chosen(t.artifacts, Selected(t))).value.artifacts;
      && (forall i, j | 0 <= i < j < |entries| :: Gate.KindRank(entries[i].kind) < Gate.KindRank(entries[j].kind))
      && forall e ::
        e in entries <==> exists k :: k in t.contract.required && Latest(t.artifacts, k).Some? && e == Newest(t, k))
  {
    var chosen := Chosen(t.artifacts, Selected(t));
    var entries := Gate.BuildReleaseManifest(chosen).value.artifacts;
    Gate.ManifestLists(chosen);
    ChosenAreDistinct(t.contract, t.artifacts, Selected(t));
    forall e ensures e in entries <==>
      exists k :: k in t.contract.required && Latest(t.artifacts, k).Some? && e == Newest(t, k) {
      EntryIsNewest(t, e);
      assert e in entries <==> e in multiset(entries);
      assert e in Gate.Entries(chosen) <==> e in multiset(Gate.Entries(chosen));
    }
    DistinctEntries(t);
    ReorderedIsDistinct(Gate.Entries(chosen), entries);
    forall i, j | 0 <= i < j < |entries| ensures entries[i].kind != entries[j].kind {
      assert entries[i] in entries && entries[j] in entries;
    }
  }

  lemma EntryIsNewest(t: TaskRow, e: Gate.ReleaseArtifact)
    requires History(t.contract, t.artifacts)
    requires forall k | k in t.contract.required :: Latest(t.artifacts, k).Some?
    ensures (e in Gate.Entries(Chosen(t.artifacts, Selected(t))) <==>
      exists k :: k in t.contract.required && Latest(t.artifacts, k).Some? && e == Newest(t, k))
  {
    var chosen := Chosen(t.artifacts, Selected(t));
    if e in Gate.Entries(chosen) {
      var n :| 0 <= n < |chosen| && Gate.Entries(chosen)[n] == e;
      ChosenAre(t, chosen[n]);
    }
    if k :| k in t.contract.required && Latest(t.artifacts, k).Some? && e == Newest(t, k) {
      var a := t.artifacts[Latest(t.artifacts, k).value];
      ChosenAre(t, a);
      var n :| 0 <= n < |chosen| && chosen[n] == a;
      assert Gate.Entries(chosen)[n] == e;
    }
  }

  lemma DistinctEntries(t: TaskRow)
    requires forall n: nat | n < |t.artifacts| :: Owned(t.contract, t.artifacts, n)
    ensures (var entries := Gate.Entries(Chosen(t.artifacts, Selected(t)));
      forall i, j | 0 <= i < j < |entries| :: entries[i] != entries[j])
  {
    var chosen := Chosen(t.artifacts, Selected(t));
    ChosenAreDistinct(t.contract, t.artifacts, Selected(t));
    forall i, j | 0 <= i < j < |chosen| ensures chosen[i].id != chosen[j].id {
      assert chosen[i] in chosen && chosen[j] in chosen;
      var m: nat :| m < |t.artifacts| && t.artifacts[m] == chosen[i];
      var n: nat :| n < |t.artifacts| && t.artifacts[n] == chosen[j];
      assert Owned(t.contract, t.artifacts, m) && Owned(t.contract, t.artifacts, n);
    }
  }

  lemma CodeIsAccepted(adapter: string, output: Output, routes: Routes, answers: Answers)
    requires output.kind == Code && adapter != "" && routes == map[Code := adapter]
    requires answers == map[adapter := Returned([output], true)]
    ensures FirstOf([output], Code) == Some(output) && Route(routes, Code) == Some(adapter)
    ensures Accepts(Answer(answers, adapter), Code)
    ensures Missing([Code], Kinds([]), routes, adapter) == [Code]
  {
    assert [output][..0] == [] && [Code][..0] == [];
    assert Missing([], Kinds([]), routes, adapter) == [] && Code !in Kinds([]);
  }

  lemma CodeIsStored(c: Contract, adapter: string, output: Output)
    requires output.kind == Code && FirstOf([output], Code) == Some(output)
    ensures Batch(c, [], [Code], [output], adapter, []) == [Fresh(c, [], Code, output.sha256, adapter, [])]
  {
    assert [Code][..0] == [] && Batch(c, [], [], [output], adapter, []) == [];
  }

  lemma AcceptedTurn(c: Contract, routes: Routes, answers: Answers, artifacts: seq<Artifact>, kind: Kind,
                     adapter: string, missing: seq<Kind>, outputs: seq<Output>)
    requires kind in c.required && kind !in Kinds(artifacts) && Route(routes, kind) == Some(adapter)
    requires Missing(c.required, Kinds(artifacts), routes, adapter) == missing
    requires Answer(answers, adapter) == Returned(outputs, true) && forall k | k in missing :: FirstOf(outputs, k).Some?
    ensures Turn(c, routes, answers, artifacts, kind) ==
      Some(Batch(c, artifacts, missing, outputs, adapter, Ids(artifacts)))
  {
    assert kind in missing;
  }

  /** The first run of a task for code alone. */
  lemma CodeIsProduced(c: Contract, adapter: string, output: Output, routes: Routes, answers: Answers)
    requires c.required == [Code] && output.kind == Code && adapter != "" && routes == map[Code := adapter]
    requires answers == map[adapter := Returned([output], true)]
    ensures Turn(c, routes, answers, [], Code) == Some([Fresh(c, [], Code, output.sha256, adapter, [])])
  {
    CodeIsAccepted(adapter, output, routes, answers);
    CodeIsStored(c, adapter, output);
    AcceptedTurn(c, routes, answers, [], Code, adapter, [Code], [output]);
  }

  /** Retry and a complete run bring a rejected task without an approval policy to success; the gate still refuses. */
  lemma RerunHidesRejection(routes: Routes, t: TaskRow, answers: Answers, kind: Kind)
    requires t.contract.approval == NoApproval && t.status == Blocked
    requires forall k | k in t.contract.required :: k in Kinds(t.artifacts)
    requires Latest(t.artifacts, kind).Some? && t.artifacts[Latest(t.artifacts, kind).value].status == Rejected
    ensures var after := After(routes, After(routes, t, Retry), RunTask(answers));
      after.status == Succeeded && after.artifacts == t.artifacts &&
        !Gate.Opens(t.contract, after.artifacts, after.status)
  {
    CompleteRunAddsNothing(t.contract, routes, answers, t.artifacts, |t.contract.required|);
  }

  lemma RejectionIsNewest(t: TaskRow)
    requires |t.artifacts| == 1 && t.artifacts[0].kind == Code && t.contract.required == [Code]
    ensures var after := Decided(t, [0], false);
      Latest(after.artifacts, Code) == Some(0) && after.artifacts[0].status == Rejected &&
        Code in Kinds(after.artifacts) && after.status == Blocked
  {
    var after := Decided(t, [0], false).artifacts;
    assert |after| == 1 && after[0] == t.artifacts[0].(status := Rejected);
    assert after[..0] == [] && Latest(after, Code) == Some(0);
    KindsAreLatest(after, Code);
  }

  lemma CodeRunSucceeds(c: Contract, adapter: string, output: Output, routes: Routes, answers: Answers)
    requires c.approval == NoApproval && c.required == [Code] && output.kind == Code && adapter != "" &&
      routes == map[Code := adapter]
    requires answers == map[adapter := Returned([output], true)]
    ensures After(routes, Submitted(c), RunTask(answers)) ==
      TaskRow(c, Succeeded, 1, [Fresh(c, [], Code, output.sha256, adapter, [])])
  {
    CodeIsProduced(c, adapter, output, routes, answers);
    assert Turns(c, routes, answers, [], 0) == Progress([], false);
    assert Turns(c, routes, answers, [], 1).artifacts == Turn(c, routes, answers, [], Code).value;
  }

  lemma RejectionHides(routes: Routes, t: TaskRow, answers: Answers)
    requires t.contract.approval == NoApproval && t.contract.required == [Code]
    requires |t.artifacts| == 1 && t.artifacts[0].kind == Code
    ensures var after := After(routes, After(routes, After(routes, t, Decide([0], false)), Retry), RunTask(answers));
      after.status == Succeeded && !Gate.Opens(t.contract, after.artifacts, after.status)
  {
    RejectionIsNewest(t);
    assert AllKnown(t, [0]);
    RerunHidesRejection(routes, Decided(t, [0], false), answers, Code);
  }

  /** Such a task is one run and one rejection away from its submission. */
  lemma UnreviewedSuccessCanBeRefused(c: Contract, adapter: string, output: Output, routes: Routes, answers: Answers)
    requires c.approval == NoApproval && c.required == [Code] && output.kind == Code && adapter != "" &&
      routes == map[Code := adapter]
    requires answers == map[adapter := Returned([output], true)]
    ensures var t :=
      After(routes,
        After(routes, After(routes, After(routes, Submitted(c), RunTask(answers)), Decide([0], false)), Retry),
          RunTask(answers));
      t.status == Succeeded && !Gate.Opens(c, t.artifacts, t.status)
  {
    CodeRunSucceeds(c, adapter, output, routes, answers);
    RejectionHides(routes, After(routes, Submitted(c), RunTask(answers)), answers);
  }

  /** A task that requires nothing and needs no approval: one run later the gate opens and the manifest is refused. */
  lemma EmptyReleaseIsRefused(routes: Routes, c: Contract, answers: Answers)
    requires c.approval == NoApproval && c.required == []
    ensures var t := RunFrom(routes, Submitted(c), [RunTask(answers)]);
      Gate.Opens(c, t.artifacts, t.status) &&
        Gate.BuildReleaseManifest(Chosen(t.artifacts, Selected(t))) == Err(Gate.NoArtifacts)
  {
    assert [RunTask(answers)][..0] == [];
    assert RunFrom(routes, Submitted(c), [RunTask(answers)]) == TaskRow(c, Succeeded, 1, []);
  }

  // ---- What opens the gate again after a release ----

  lemma StepKeepsKinds(routes: Routes, t: TaskRow, e: Event)
    requires Sound(routes, t)
    ensures var v := After(routes, t, e);
      |t.artifacts| <= |v.artifacts| && forall n: nat | n < |t.artifacts| :: v.artifacts[n].kind == t.artifacts[n].kind
  {
    match e
    case RunTask(answers) => TurnsKeepHistory(t.contract, routes, answers, t.artifacts, |t.contract.required|);
    case RunUnrecorded(answers) => TurnsKeepHistory(t.contract, routes, answers, t.artifacts, |t.contract.required|);
    case RunCrash(answers, turns) =>
      if turns <= |t.contract.required| { TurnsKeepHistory(t.contract, routes, answers, t.artifacts, turns); }
    case _ =>
  }

  lemma {:induction false} KindsStay(routes: Routes, c: Contract, events: seq<Event>, m: nat)
    requires UniqueOutputs(c) && m <= |events|
    ensures var t, v := RunFrom(routes, Submitted(c), events[..m]), RunFrom(routes, Submitted(c), events);
      |t.artifacts| <= |v.artifacts| && forall n: nat | n < |t.artifacts| :: v.artifacts[n].kind == t.artifacts[n].kind
    decreases |events|
  {
    if m < |events| {
      var front := events[..|events| - 1];
      KindsStay(routes, c, front, m);
      assert front[..m] == events[..m];
      EveryRunIsSound(routes, c, front);
      StepKeepsKinds(routes, RunFrom(routes, Submitted(c), front), events[|events| - 1]);
    } else {
      assert events[..m] == events;
    }
  }

  lemma LatestIsLast(artifacts: seq<Artifact>, n: nat)
    requires RevisionsGrow(artifacts) && n < |artifacts|
    ensures Latest(artifacts, artifacts[n].kind).Some? && n <= Latest(artifacts, artifacts[n].kind).value
  {
    var newest := Latest(artifacts, artifacts[n].kind).value;
  }

  /** The artifact that a release stores is still there at the end. */
  lemma ReleaseStays(routes: Routes, c: Contract, events: seq<Event>, n: nat)
    requires UniqueOutputs(c) && n < |events| && events[n].ReleaseTask? &&
      Releasable(RunFrom(routes, Submitted(c), events[..n]))
    ensures var t, id := RunFrom(routes, Submitted(c), events), |RunFrom(routes, Submitted(c), events[..n]).artifacts|;
      id < |t.artifacts| && t.artifacts[id].kind == ReleaseKind
  {
    EveryRunIsSound(routes, c, events[..n]);
    assert events[..n + 1][..n] == events[..n];
    assert RunFrom(routes, Submitted(c), events[..n + 1]) ==
      Released(RunFrom(routes, Submitted(c), events[..n]), events[n].sha256);
    KindsStay(routes, c, events, n + 1);
  }

  /** The n-th operation of the run released the task. */
  ghost predicate ReleasedAt(routes: Routes, c: Contract, events: seq<Event>, n: nat) {
    n < |events| && events[n].ReleaseTask? && Releasable(RunFrom(routes, Submitted(c), events[..n]))
  }

  ghost predicate OpenAfter(routes: Routes, c: Contract, events: seq<Event>) {
    var t := RunFrom(routes, Submitted(c), events); Gate.Opens(c, t.artifacts, t.status)
  }

  /** After the n-th operation a decision approved the newest release artifact, which that operation or a later one
      made. */
  ghost predicate ReapprovedAfter(routes: Routes, c: Contract, events: seq<Event>, n: nat, k: nat)
    requires n <= |events|
  {
    var newest := Latest(RunFrom(routes, Submitted(c), events).artifacts, ReleaseKind);
    n < k && newest.Some? && |RunFrom(routes, Submitted(c), events[..n]).artifacts| <= newest.value &&
      ApprovedBy(routes, c, events, k, newest.value)
  }

  /** In every history of a task under review, the gate is open after a release only once a release artifact made
      since was approved. */
  lemma ReopeningWasDecided(routes: Routes, c: Contract, events: seq<Event>, n: nat)
    requires UniqueOutputs(c) && c.approval == BeforePublish && n < |events|
    ensures ReleasedAt(routes, c, events, n) && OpenAfter(routes, c, events) ==>
      exists k :: ReapprovedAfter(routes, c, events, n, k)
  {
    if ReleasedAt(routes, c, events, n) && OpenAfter(routes, c, events) {
      var t, release := RunFrom(routes, Submitted(c), events), |RunFrom(routes, Submitted(c), events[..n]).artifacts|;
      ReleaseStays(routes, c, events, n);
      EveryRunIsSound(routes, c, events);
      LatestIsLast(t.artifacts, release);
      GateAgreesWithStatus(routes, c, events);
      var k := ApprovedWasDecided(routes, c, events, Latest(t.artifacts, ReleaseKind).value);
      if k <= n {
        assert events[..n][..k] == events[..k];
        KindsStay(routes, c, events[..n], k);
      }
      assert ReapprovedAfter(routes, c, events, n, k);
    }
  }
}
