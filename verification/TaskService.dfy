/** The task service over its table of tasks. */
module TaskService {
  import opened Outcomes
  import opened Collections
  import opened Artifacts
  import opened TaskRun
  import opened TaskLifecycle
  import Gate = ReleaseGate

  datatype Failure =
    | UnknownTask | DuplicateTask | CancelledTask | RunFailed | UnknownArtifact | ParentNotLatest
    | ForeignArtifact | GateBlocked(reasons: seq<Gate.Reason>) | ManifestRefused(error: Gate.ManifestError)
    | NotRetryable

  const OUTPUT_ADAPTER: Routes :=
    map[Content := "flowise", Design := "open_design", Code := "hermes", TestReport := "hermes"]

  /** Once a run has failed it takes no further turn. */
  lemma {:induction false} FailedStaysFailed(c: Contract, routes: Routes, answers: Answers, artifacts: seq<Artifact>,
                            turns: nat, more: nat)
    requires turns <= more <= |c.required| && Turns(c, routes, answers, artifacts, turns).failed
    ensures Turns(c, routes, answers, artifacts, more) == Turns(c, routes, answers, artifacts, turns)
  {
    if turns < more {
      FailedStaysFailed(c, routes, answers, artifacts, turns, more - 1);
    }
  }

  lemma NextTurn(c: Contract, routes: Routes, answers: Answers, artifacts: seq<Artifact>, n: nat, before: Progress,
                 p: Progress)
    requires n < |c.required| && before == Turns(c, routes, answers, artifacts, n) && !before.failed
    requires var next := Turn(c, routes, answers, before.artifacts, c.required[n]);
      p == if next.None? then Progress(before.artifacts, true) else Progress(next.value, false)
    ensures p == Turns(c, routes, answers, artifacts, n + 1)
  {
  }

  lemma IdsOfBatch(artifacts: seq<Artifact>, a: Artifact)
    ensures Ids(artifacts + [a]) == Ids(artifacts) + [a.id]
  {
    assert (artifacts + [a])[..|artifacts|] == artifacts;
  }

  class OneBridgeService {
    const outputRoutes: Routes
    var tasks: map<string, TaskRow>

    ghost predicate Valid()
      reads this
    {
      forall id | id in tasks :: tasks[id].contract.taskId == id && Sound(outputRoutes, tasks[id])
    }

    constructor (overrides: Routes)
      ensures Valid() && tasks == map[] && outputRoutes == OUTPUT_ADAPTER + overrides
    {
      outputRoutes, tasks := OUTPUT_ADAPTER + overrides, map[];
    }

    method Submit(c: Contract) returns (r: Result<TaskStatus, Failure>)
      requires Valid() && UniqueOutputs(c)
      modifies this
      ensures Valid()
      ensures r == if c.taskId in old(tasks) then Err(DuplicateTask) else Ok(Queued)
      ensures tasks == if c.taskId in old(tasks) then old(tasks) else old(tasks)[c.taskId := Submitted(c)]
    {
      if c.taskId in tasks {
        return Err(DuplicateTask);
      }
      tasks := tasks[c.taskId := TaskRow(c, Queued, 0, [])];
      return Ok(Queued);
    }

    /** Validation for every missing kind, then the first output of each. */
    method SelectOutputs(missing: seq<Kind>, result: AdapterResult) returns (selected: Option<map<Kind, Output>>)
      ensures selected.Some? <==> forall k | k in missing :: Accepts(result, k)
      ensures selected.Some? ==>
        forall k | k in missing :: k in selected.value && FirstOf(result.outputs, k) == Some(selected.value[k])
    {
      for n := 0 to |missing|
        invariant forall k | k in missing[..n] :: Accepts(result, k)
      {
        if !Accepts(result, missing[n]) {
          return None;
        }
        assert missing[..n + 1] == missing[..n] + [missing[n]];
      }
      assert missing[..|missing|] == missing;
      if missing == [] {
        return Some(map[]);
      }
      assert Accepts(result, missing[0]);
      var found: map<Kind, Output> := map[];
      for n := 0 to |result.outputs|
        invariant forall k :: k in found <==> k in missing && FirstOf(result.outputs[..n], k).Some?
        invariant forall k | k in found :: FirstOf(result.outputs[..n], k) == Some(found[k])
      {
        assert result.outputs[..n + 1][..n] == result.outputs[..n];
        var output := result.outputs[n];
        if output.kind in missing && output.kind !in found {
          found := found[output.kind := output];
        }
      }
      assert result.outputs[..|result.outputs|] == result.outputs;
      return Some(found);
    }

    /** One adapter's outputs, committed together. */
    method StoreBatch(taskId: string, missing: seq<Kind>, selected: map<Kind, Output>, outputs: seq<Output>,
                      adapter: string, lineage: seq<nat>)
        returns (produced: seq<nat>)
      requires taskId in tasks
      requires forall k | k in missing :: k in selected && FirstOf(outputs, k) == Some(selected[k])
      modifies this
      ensures var t := old(tasks)[taskId];
        tasks == old(tasks)[taskId :=
          t.(artifacts := Batch(t.contract, t.artifacts, missing, outputs, adapter, lineage))]
      ensures produced == Ids(tasks[taskId].artifacts)
    {
      var t := tasks[taskId];
      var rows := t.artifacts;
      produced := Ids(rows);
      for n := 0 to |missing|
        invariant rows == Batch(t.contract, t.artifacts, missing[..n], outputs, adapter, lineage)
        invariant produced == Ids(rows)
        invariant tasks == old(tasks)
      {
        var kind := missing[n];
        assert missing[..n + 1][..n] == missing[..n];
        var record := Fresh(t.contract, rows, kind, selected[kind].sha256, adapter, lineage);
        IdsOfBatch(rows, record);
        rows, produced := rows + [record], produced + [record.id];
      }
      assert missing[..|missing|] == missing;
      tasks := tasks[taskId := t.(artifacts := rows)];
    }

    /** One turn of the loop for a kind that is not there yet. */
    method Produce(taskId: string, kind: Kind, completed: set<Kind>, lineage: seq<nat>, answers: Answers)
        returns (ok: bool, done: set<Kind>, produced: seq<nat>)
      requires taskId in tasks && kind in tasks[taskId].contract.required && kind !in completed
      requires completed == Kinds(tasks[taskId].artifacts) && lineage == Ids(tasks[taskId].artifacts)
      modifies this
      ensures var t := old(tasks)[taskId]; var next := Turn(t.contract, outputRoutes, answers, t.artifacts, kind);
        && ok == next.Some?
        && tasks == (if ok then old(tasks)[taskId := t.(artifacts := next.value)] else old(tasks))
      ensures done == Kinds(tasks[taskId].artifacts) && produced == Ids(tasks[taskId].artifacts)
    {
      ok, done, produced := false, completed, lineage;
      var t := tasks[taskId];
      var route := Route(outputRoutes, kind);
      if route.None? {
        return;
      }
      var missing := Missing(t.contract.required, completed, outputRoutes, route.value);
      var result := Answer(answers, route.value);
      assert kind in missing;
      var selected := SelectOutputs(missing, result);
      if selected.None? {
        return;
      }
      assert Accepts(result, kind);
      produced := StoreBatch(taskId, missing, selected.value, result.outputs, route.value, lineage);
      ok, done := true, completed + set k | k in missing;
      BatchKinds(t.contract, t.artifacts, missing, result.outputs, route.value, lineage);
      SameMembers(done, Kinds(tasks[taskId].artifacts));
    }

    /** The loop of a run; by its invariant every commit leaves what breaking off at that turn leaves. */
    method ProduceAll(taskId: string, answers: Answers) returns (failed: bool)
      requires taskId in tasks
      modifies this
      ensures var t := old(tasks)[taskId];
        var p := Turns(t.contract, outputRoutes, answers, t.artifacts, |t.contract.required|);
        failed == p.failed && tasks == old(tasks)[taskId := t.(artifacts := p.artifacts)]
    {
      var t := tasks[taskId];
      var required := t.contract.required;
      var completed, produced := Kinds(t.artifacts), Ids(t.artifacts);
      var n := 0;
      failed := false;
      ghost var p := Progress(t.artifacts, false);
      while n < |required| && !failed
        invariant 0 <= n <= |required|
        invariant p == Turns(t.contract, outputRoutes, answers, t.artifacts, n)
        invariant tasks == old(tasks)[taskId := t.(artifacts := p.artifacts)]
        invariant failed == p.failed
        invariant completed == Kinds(p.artifacts) && produced == Ids(p.artifacts)
      {
        ghost var before := p;
        if required[n] !in completed {
          var ok;
          ok, completed, produced := Produce(taskId, required[n], completed, produced, answers);
          failed := !ok;
          p := Progress(tasks[taskId].artifacts, failed);
          UpdatedTwice(old(tasks), taskId, t.(artifacts := before.artifacts), t.(artifacts := p.artifacts));
        }
        NextTurn(t.contract, outputRoutes, answers, t.artifacts, n, before, p);
        n := n + 1;
      }
      if failed {
        FailedStaysFailed(t.contract, outputRoutes, answers, t.artifacts, n, |required|);
      }
    }

    /** `records` is false when the write of the final status raises. */
    method Run(taskId: string, answers: Answers, records: bool) returns (r: Result<TaskStatus, Failure>)
      requires Valid()
      modifies this
      ensures Valid()
      ensures taskId !in old(tasks) ==> r == Err(UnknownTask) && tasks == old(tasks)
      ensures taskId in old(tasks) ==>
        tasks == old(tasks)[taskId := After(outputRoutes, old(tasks)[taskId], RunEvent(answers, records))]
      ensures taskId in old(tasks) && old(tasks)[taskId].status == Cancelled ==> r == Err(CancelledTask)
      ensures taskId in old(tasks) && old(tasks)[taskId].status != Cancelled ==>
        r == if tasks[taskId].status == Failed then Err(RunFailed) else Ok(tasks[taskId].status)
    {
      if taskId !in tasks {
        return Err(UnknownTask);
      }
      var t := tasks[taskId];
      if t.status == Cancelled {
        return Err(CancelledTask);
      }
      tasks := tasks[taskId := t.(status := Running, attempt := t.attempt + 1)];
      var failed := ProduceAll(taskId, answers);
      failed := failed || !records;
      var status := if failed then Failed else if t.contract.approval == BeforePublish then WaitingApproval
        else Succeeded;
      ghost var next := After(outputRoutes, t, RunEvent(answers, records));
      ghost var before := tasks[taskId];
      tasks := tasks[taskId := tasks[taskId].(status := status)];
      UpdatedTwice(old(tasks), taskId, t.(status := Running, attempt := t.attempt + 1), before);
      UpdatedTwice(old(tasks), taskId, before, next);
      RunKeepsSound(outputRoutes, t, answers, 0);
      return if failed then Err(RunFailed) else Ok(status);
    }

    method ReviseTextArtifact(taskId: string, artifactId: nat, sha256: Sha256Hex) returns (r: Result<Artifact, Failure>)
      requires Valid()
      modifies this
      ensures Valid()
      ensures taskId !in old(tasks) ==> r == Err(UnknownTask) && tasks == old(tasks)
      ensures taskId in old(tasks) ==>
        tasks == old(tasks)[taskId := After(outputRoutes, old(tasks)[taskId], Revise(artifactId, sha256))]
      ensures r.Ok? <==> taskId in old(tasks) && IsNewestOfItsKind(old(tasks)[taskId].artifacts, artifactId)
      ensures r.Ok? ==>
        r.value == tasks[taskId].artifacts[|old(tasks)[taskId].artifacts|] && r.value.inputs == [artifactId]
    {
      if taskId !in tasks {
        return Err(UnknownTask);
      }
      var t := tasks[taskId];
      if artifactId >= |t.artifacts| {
        return Err(UnknownArtifact);
      }
      var parent := t.artifacts[artifactId];
      LatestIsNewest(t.artifacts, parent.kind, artifactId);
      if Latest(t.artifacts, parent.kind) != Some(artifactId) {
        return Err(ParentNotLatest);
      }
      ReviseKeepsSound(outputRoutes, t, artifactId, sha256);
      var rows := t.artifacts[artifactId := parent.(status := Superseded)];
      var record :=
        Artifact(|rows|, parent.projectId, parent.taskId, parent.kind, parent.revision + 1, AwaitingReview, sha256,
          "human_review", [artifactId]);
      tasks := tasks[taskId := t.(status := WaitingApproval, artifacts := rows + [record])];
      return Ok(record);
    }

    /** The rows of the decision take its status. */
    method Mark(t: TaskRow, rows: set<nat>, ids: seq<nat>, status: ArtifactStatus) returns (artifacts: seq<Artifact>)
      requires forall n: nat | n < |t.artifacts| :: Owned(t.contract, t.artifacts, n)
      requires forall n: nat :: n in rows <==> n in ids
      ensures artifacts == Restatus(t.artifacts, ids, status)
    {
      artifacts := t.artifacts;
      for n := 0 to |artifacts|
        invariant |artifacts| == |t.artifacts|
        invariant forall m: nat | m < n ::
          artifacts[m] == if m in ids then t.artifacts[m].(status := status) else t.artifacts[m]
        invariant forall m: nat | n <= m < |artifacts| :: artifacts[m] == t.artifacts[m]
      {
        assert Owned(t.contract, t.artifacts, n);
        if artifacts[n].id in rows {
          artifacts := artifacts[n := artifacts[n].(status := status)];
        }
      }
    }

    method AllNewestApproved(required: seq<Kind>, artifacts: seq<Artifact>) returns (approved: bool)
      ensures approved <==> forall k | k in required :: NewestApproved(artifacts, k)
    {
      for n := 0 to |required|
        invariant forall k | k in required[..n] :: NewestApproved(artifacts, k)
      {
        if !NewestApproved(artifacts, required[n]) {
          return false;
        }
        assert required[..n + 1] == required[..n] + [required[n]];
      }
      assert required[..|required|] == required;
      return true;
    }

    /** The decision within its transaction. */
    method Decision(t: TaskRow, artifactIds: seq<nat>, approve: bool) returns (after: Option<TaskRow>)
      requires forall n: nat | n < |t.artifacts| :: Owned(t.contract, t.artifacts, n)
      ensures after == if AllKnown(t, artifactIds) then Some(Decided(t, artifactIds, approve)) else None
    {
      var rows := set a | a in t.artifacts && a.id in artifactIds :: a.id;
      var asked := set id | id in artifactIds;
      CountTellsKnown(t, artifactIds, rows, asked);
      if |rows| != |asked| {
        return None;
      }
      var artifacts := Mark(t, rows, artifactIds, if approve then Approved else Rejected);
      var status := Blocked;
      if approve {
        var requiredApproved := AllNewestApproved(t.contract.required, artifacts);
        status := if requiredApproved then Succeeded else WaitingApproval;
      }
      return Some(t.(status := status, artifacts := artifacts));
    }

    method Approve(taskId: string, artifactIds: seq<nat>, approve: bool) returns (r: Result<TaskStatus, Failure>)
      requires Valid()
      modifies this
      ensures Valid()
      ensures taskId !in old(tasks) ==> r == Err(UnknownTask) && tasks == old(tasks)
      ensures taskId in old(tasks) ==>
        tasks == old(tasks)[taskId := After(outputRoutes, old(tasks)[taskId], Decide(artifactIds, approve))]
      ensures (taskId in old(tasks) ==>
        r == if AllKnown(old(tasks)[taskId], artifactIds) then Ok(tasks[taskId].status) else Err(ForeignArtifact))
    {
      if taskId !in tasks {
        return Err(UnknownTask);
      }
      var t := tasks[taskId];
      var decided := Decision(t, artifactIds, approve);
      if decided.None? {
        return Err(ForeignArtifact);
      }
      DecideKeepsSound(outputRoutes, t, artifactIds, approve);
      tasks := tasks[taskId := decided.value];
      return Ok(decided.value.status);
    }

    method Release(taskId: string, sha256: Sha256Hex) returns (r: Result<Gate.Manifest, Failure>)
      requires Valid()
      modifies this
      ensures Valid()
      ensures taskId !in old(tasks) ==> r == Err(UnknownTask) && tasks == old(tasks)
      ensures taskId in old(tasks) ==>
        tasks == old(tasks)[taskId := After(outputRoutes, old(tasks)[taskId], ReleaseTask(sha256))]
      ensures r.Ok? <==> taskId in old(tasks) && OpensWithOutputs(old(tasks)[taskId])
      ensures (taskId in old(tasks) && r.Err? && r.error.GateBlocked? ==> forall reason ::
        reason in r.error.reasons <==>
          Gate.Given(old(tasks)[taskId].contract, old(tasks)[taskId].artifacts, old(tasks)[taskId].status, reason))
      ensures r.Ok? ==> forall e :: e in r.value.artifacts <==> ListsNewest(old(tasks)[taskId], e)
    {
      if taskId !in tasks {
        return Err(UnknownTask);
      }
      var t := tasks[taskId];
      var decision := Gate.EvaluateReleaseGate(t.contract, t.artifacts, t.status);
      if !decision.allowed {
        return Err(GateBlocked(decision.reasons));
      }
      ManifestIsBuilt(outputRoutes, t);
      var manifest := Gate.BuildReleaseManifest(Chosen(t.artifacts, decision.selected));
      if manifest.Err? {
        return Err(ManifestRefused(manifest.error));
      }
      ManifestListsNewest(outputRoutes, t);
      ReleaseKeepsSound(outputRoutes, t, sha256);
      var record :=
        Artifact(|t.artifacts|, t.contract.projectId, taskId, ReleaseKind, NextRevision(t.artifacts, ReleaseKind),
                             ArtifactStatus.Released, sha256, "onebridge", decision.selected);
      tasks := tasks[taskId := t.(artifacts := t.artifacts + [record])];
      return Ok(manifest.value);
    }

    method Retry(taskId: string) returns (r: Result<TaskStatus, Failure>)
      requires Valid()
      modifies this
      ensures Valid()
      ensures taskId in old(tasks) ==>
        tasks == old(tasks)[taskId := After(outputRoutes, old(tasks)[taskId], TaskLifecycle.Retry)]
      ensures taskId !in old(tasks) ==> tasks == old(tasks)
      ensures (r == if taskId !in old(tasks) then Err(UnknownTask)
        else if old(tasks)[taskId].status in {Failed, Blocked} then Ok(Queued) else Err(NotRetryable))
    {
      if taskId !in tasks {
        return Err(UnknownTask);
      }
      if tasks[taskId].status !in {Failed, Blocked} {
        return Err(NotRetryable);
      }
      tasks := tasks[taskId := tasks[taskId].(status := Queued)];
      return Ok(Queued);
    }

    method Cancel(taskId: string) returns (r: Result<TaskStatus, Failure>)
      requires Valid()
      modifies this
      ensures Valid()
      ensures taskId in old(tasks) ==>
        tasks == old(tasks)[taskId := After(outputRoutes, old(tasks)[taskId], TaskLifecycle.Cancel)]
      ensures taskId !in old(tasks) ==> tasks == old(tasks)
      ensures r == if taskId in old(tasks) then Ok(tasks[taskId].status) else Err(UnknownTask)
    {
      if taskId !in tasks {
        return Err(UnknownTask);
      }
      if tasks[taskId].status in {Succeeded, Cancelled} {
        return Ok(tasks[taskId].status);
      }
      tasks := tasks[taskId := tasks[taskId].(status := Cancelled)];
      return Ok(Cancelled);
    }
  }

  function RunEvent(answers: Answers, records: bool): Event {
    if records then RunTask(answers) else RunUnrecorded(answers)
  }

  /** The parent of a human revision must be the newest of its kind. */
  ghost predicate IsNewestOfItsKind(artifacts: seq<Artifact>, id: nat) {
    id < |artifacts| && IsNewest(artifacts, artifacts[id].kind, id)
  }

  ghost predicate OpensWithOutputs(t: TaskRow) {
    t.contract.required != [] && Gate.Opens(t.contract, t.artifacts, t.status)
  }

  ghost predicate ListsNewest(t: TaskRow, e: Gate.ReleaseArtifact) {
    exists k :: k in t.contract.required && Latest(t.artifacts, k).Some? && e == Newest(t, k)
  }

  /** Counting the rows found tells whether every id named is an artifact of the task. */
  lemma CountTellsKnown(t: TaskRow, ids: seq<nat>, rows: set<nat>, asked: set<nat>)
    requires forall n: nat | n < |t.artifacts| :: Owned(t.contract, t.artifacts, n)
    requires rows == set a | a in t.artifacts && a.id in ids :: a.id
    requires asked == set id | id in ids
    ensures |rows| == |asked| <==> AllKnown(t, ids)
    ensures |rows| == |asked| ==> forall n: nat :: n in rows <==> n in ids
  {
    forall n: nat ensures n in rows <==> n in ids && n < |t.artifacts| {
      if n in rows {
        var a :| a in t.artifacts && a.id in ids && a.id == n;
        var m: nat :| m < |t.artifacts| && t.artifacts[m] == a;
        assert Owned(t.contract, t.artifacts, m);
      }
      if n in ids && n < |t.artifacts| {
        assert Owned(t.contract, t.artifacts, n);
        assert t.artifacts[n] in t.artifacts;
      }
    }
    SubsetSize(rows, asked);
    if AllKnown(t, ids) {
      SameMembers(rows, asked);
    }
  }
}
