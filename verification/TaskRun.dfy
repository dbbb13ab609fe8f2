/** What a task run produces: every adapter's missing outputs are stored together or not at all. */
module TaskRun {
  import opened Outcomes
  import opened Artifacts

  type Routes = map<Kind, string>

  datatype Output = Output(kind: Kind, sha256: Sha256Hex)

  /** An adapter call fails or returns outputs; `wellFormed` is the part of validation that looks at no kind. */
  datatype AdapterResult = Raised | Returned(outputs: seq<Output>, wellFormed: bool)

  /** What each adapter would answer; asking for an adapter that is not registered raises. */
  type Answers = map<string, AdapterResult>

  predicate UniqueOutputs(c: Contract) {
    forall i, j | 0 <= i < j < |c.required| :: c.required[i] != c.required[j]
  }

  // ---- One adapter call ----

  function Route(routes: Routes, kind: Kind): Option<string> {
    if kind in routes && routes[kind] != "" then Some(routes[kind]) else None
  }

  function Answer(answers: Answers, adapter: string): AdapterResult {
    if adapter in answers then answers[adapter] else Raised
  }

  function FirstOf(outputs: seq<Output>, kind: Kind): (r: Option<Output>)
    ensures r.Some? ==> r.value in outputs && r.value.kind == kind
    ensures r.None? ==> forall o | o in outputs :: o.kind != kind
  {
    if outputs == [] then None
    else
      var before := FirstOf(outputs[..|outputs| - 1], kind);
      if before.None? && outputs[|outputs| - 1].kind == kind then Some(outputs[|outputs| - 1]) else before
  }

  predicate Accepts(result: AdapterResult, kind: Kind) {
    result.Returned? && result.wellFormed && FirstOf(result.outputs, kind).Some?
  }

  /** The required kinds that are not there yet and that this adapter makes. */
  function Missing(required: seq<Kind>, done: set<Kind>, routes: Routes, adapter: string): (r: seq<Kind>)
    ensures forall k :: k in r <==> k in required && k !in done && Route(routes, k) == Some(adapter)
    ensures (forall i, j | 0 <= i < j < |required| :: required[i] != required[j]) ==>
      forall i, j | 0 <= i < j < |r| :: r[i] != r[j]
  {
    if required == [] then []
    else
      var front := Missing(required[..|required| - 1], done, routes, adapter);
      var k := required[|required| - 1];
      if k !in done && Route(routes, k) == Some(adapter) then front + [k] else front
  }

  function NextRevision(artifacts: seq<Artifact>, kind: Kind): nat {
    var newest := Latest(artifacts, kind);
    1 + if newest.None? then 0 else artifacts[newest.value].revision
  }

  function Ids(artifacts: seq<Artifact>): (r: seq<nat>)
    ensures |r| == |artifacts| && forall n | 0 <= n < |r| :: r[n] == artifacts[n].id
  {
    if artifacts == [] then [] else Ids(artifacts[..|artifacts| - 1]) + [artifacts[|artifacts| - 1].id]
  }

  function Fresh(c: Contract, artifacts: seq<Artifact>, kind: Kind, sha256: Sha256Hex, adapter: string,
                 lineage: seq<nat>): Artifact {
    Artifact(|artifacts|, c.projectId, c.taskId, kind, NextRevision(artifacts, kind),
             if c.approval == BeforePublish then AwaitingReview else Approved, sha256, adapter, lineage)
  }

  /** The artifacts after one adapter's batch is committed. */
  function Batch(c: Contract, artifacts: seq<Artifact>, kinds: seq<Kind>, outputs: seq<Output>, adapter: string,
                 lineage: seq<nat>): (r: seq<Artifact>)
    requires forall k | k in kinds :: FirstOf(outputs, k).Some?
    ensures |r| == |artifacts| + |kinds| && r[..|artifacts|] == artifacts
    ensures forall n | 0 <= n < |kinds| :: r[|artifacts| + n].kind == kinds[n]
  {
    if kinds == [] then artifacts
    else
      var last := kinds[|kinds| - 1];
      var before := Batch(c, artifacts, kinds[..|kinds| - 1], outputs, adapter, lineage);
      before + [Fresh(c, before, last, FirstOf(outputs, last).value.sha256, adapter, lineage)]
  }

  /** One turn of the loop over the required outputs; None when it raises. */
  function Turn(c: Contract, routes: Routes, answers: Answers, artifacts: seq<Artifact>,
                kind: Kind): Option<seq<Artifact>>
    requires kind in c.required
  {
    if kind in Kinds(artifacts) then Some(artifacts)
    else if Route(routes, kind).None? then None
    else
      var adapter := Route(routes, kind).value;
      var missing := Missing(c.required, Kinds(artifacts), routes, adapter);
      var result := Answer(answers, adapter);
      if forall k | k in missing :: Accepts(result, k) then
        assert kind in missing;
        Some(Batch(c, artifacts, missing, result.outputs, adapter, Ids(artifacts)))
      else None
  }

  datatype Progress = Progress(artifacts: seq<Artifact>, failed: bool)

  /** The first `turns` turns of the loop. */
  function Turns(c: Contract, routes: Routes, answers: Answers, artifacts: seq<Artifact>, turns: nat): Progress
    requires turns <= |c.required|
  {
    if turns == 0 then Progress(artifacts, false)
    else
      var p := Turns(c, routes, answers, artifacts, turns - 1);
      if p.failed then p
      else
        var next := Turn(c, routes, answers, p.artifacts, c.required[turns - 1]);
        if next.None? then Progress(p.artifacts, true) else Progress(next.value, false)
  }

  // ---- Histories ----

  ghost predicate Precedes(artifacts: seq<Artifact>, m: nat, n: nat) {
    m < n < |artifacts| && artifacts[m].kind == artifacts[n].kind && artifacts[m].revision + 1 == artifacts[n].revision
  }

  /** Revision k+1 of anything but the release artifact lists exactly revision k. */
  ghost predicate Chained(artifacts: seq<Artifact>, n: nat)
    requires n < |artifacts|
  {
    && 1 <= artifacts[n].revision
    && (artifacts[n].revision > 1 ==> exists m :: Precedes(artifacts, m, n))
    && (artifacts[n].revision > 1 && artifacts[n].kind != ReleaseKind ==>
          |artifacts[n].inputs| == 1 && Precedes(artifacts, artifacts[n].inputs[0], n))
  }

  /** Numbered by position, of this task, with a stored digest, made from earlier artifacts only. */
  ghost predicate Owned(c: Contract, artifacts: seq<Artifact>, n: nat)
    requires n < |artifacts|
  {
    var a := artifacts[n];
    && a.id == n && a.projectId == c.projectId && a.taskId == c.taskId && IsSha256(a.sha256)
    && (a.kind in c.required || a.kind == ReleaseKind)
    && (forall i | i in a.inputs :: i < n)
  }

  ghost predicate History(c: Contract, artifacts: seq<Artifact>) {
    && RevisionsGrow(artifacts)
    && (forall n: nat | n < |artifacts| :: Chained(artifacts, n))
    && (forall n: nat | n < |artifacts| :: Owned(c, artifacts, n))
  }

  /** The required kinds one adapter makes are all there or none is. */
  ghost predicate AdapterAtomic(c: Contract, routes: Routes, done: set<Kind>) {
    forall k, m | k in c.required && m in c.required && Route(routes, k).Some? &&
      Route(routes, k) == Route(routes, m) ::
      k in done <==> m in done
  }

  lemma LatestAppend(artifacts: seq<Artifact>, a: Artifact, kind: Kind)
    ensures Latest(artifacts + [a], kind) ==
      (if a.kind == kind && a.revision >= NextRevision(artifacts, kind) then Some(|artifacts|)
       else if a.kind == kind && Latest(artifacts, kind).None? then Some(|artifacts|) else Latest(artifacts, kind))
  {
    assert (artifacts + [a])[..|artifacts|] == artifacts;
  }

  lemma KindsAppend(artifacts: seq<Artifact>, a: Artifact)
    ensures Kinds(artifacts + [a]) == Kinds(artifacts) + {a.kind}
  {
    forall k ensures k in Kinds(artifacts + [a]) <==> k in Kinds(artifacts) + {a.kind} {
      if k in Kinds(artifacts) {
        var b :| b in artifacts && b.kind == k;
        assert b in artifacts + [a];
      } else if k == a.kind {
        assert a in artifacts + [a];
      }
    }
  }

  lemma KindsAreLatest(artifacts: seq<Artifact>, kind: Kind)
    ensures kind in Kinds(artifacts) <==> Latest(artifacts, kind).Some?
  {
    if Latest(artifacts, kind).Some? {
      assert artifacts[Latest(artifacts, kind).value] in artifacts;
    }
  }

  /** Appending the next revision keeps a history, whoever appends it. */
  lemma AppendKeepsHistory(c: Contract, artifacts: seq<Artifact>, a: Artifact)
    requires History(c, artifacts)
    requires a.revision == NextRevision(artifacts, a.kind)
    requires a.revision > 1 && a.kind != ReleaseKind ==>
      |a.inputs| == 1 && Latest(artifacts, a.kind) == Some(a.inputs[0])
    requires Owned(c, artifacts + [a], |artifacts|)
    ensures History(c, artifacts + [a])
  {
    var after := artifacts + [a];
    forall n: nat | n < |after| ensures Chained(after, n) && Owned(c, after, n) {
      if n < |artifacts| {
        assert Chained(artifacts, n) && Owned(c, artifacts, n);
        assert after[n] == artifacts[n];
        if m :| Precedes(artifacts, m, n) {
          assert Precedes(after, m, n);
        }
      } else if a.revision > 1 {
        assert Precedes(after, Latest(artifacts, a.kind).value, n);
      }
    }
  }

  lemma {:induction false} BatchKinds(c: Contract, artifacts: seq<Artifact>, kinds: seq<Kind>, outputs: seq<Output>,
                            adapter: string, lineage: seq<nat>)
    requires forall k | k in kinds :: FirstOf(outputs, k).Some?
    ensures forall k ::
      k in Kinds(Batch(c, artifacts, kinds, outputs, adapter, lineage)) <==> k in Kinds(artifacts) || k in kinds
  {
    if kinds != [] {
      var front, last := kinds[..|kinds| - 1], kinds[|kinds| - 1];
      var before := Batch(c, artifacts, front, outputs, adapter, lineage);
      BatchKinds(c, artifacts, front, outputs, adapter, lineage);
      KindsAppend(before, Fresh(c, before, last, FirstOf(outputs, last).value.sha256, adapter, lineage));
      assert kinds == front + [last];
    }
  }

  lemma {:induction false} BatchKeepsHistory(c: Contract, artifacts: seq<Artifact>, kinds: seq<Kind>,
                            outputs: seq<Output>, adapter: string, lineage: seq<nat>)
    requires History(c, artifacts)
    requires forall k | k in kinds :: FirstOf(outputs, k).Some? && k in c.required && k !in Kinds(artifacts)
    requires forall i, j | 0 <= i < j < |kinds| :: kinds[i] != kinds[j]
    requires forall i | i in lineage :: i < |artifacts|
    ensures History(c, Batch(c, artifacts, kinds, outputs, adapter, lineage))
  {
    if kinds != [] {
      var front, last := kinds[..|kinds| - 1], kinds[|kinds| - 1];
      BatchKinds(c, artifacts, front, outputs, adapter, lineage);
      var before := Batch(c, artifacts, front, outputs, adapter, lineage);
      BatchKeepsHistory(c, artifacts, front, outputs, adapter, lineage);
      assert last !in front;
      KindsAreLatest(before, last);
      var a := Fresh(c, before, last, FirstOf(outputs, last).value.sha256, adapter, lineage);
      AppendKeepsHistory(c, before, a);
      assert kinds == front + [last];
    }
  }

  lemma IdsAreEarlier(c: Contract, artifacts: seq<Artifact>)
    requires forall n: nat | n < |artifacts| :: Owned(c, artifacts, n)
    ensures forall i | i in Ids(artifacts) :: i < |artifacts|
  {
    forall i | i in Ids(artifacts) ensures i < |artifacts| {
      var n: nat :| n < |artifacts| && Ids(artifacts)[n] == i;
      assert Owned(c, artifacts, n);
    }
  }

  lemma TurnKeepsHistory(c: Contract, routes: Routes, answers: Answers, artifacts: seq<Artifact>, kind: Kind)
    requires kind in c.required
    requires UniqueOutputs(c) && History(c, artifacts) && AdapterAtomic(c, routes, Kinds(artifacts))
    ensures (Turn(c, routes, answers, artifacts, kind).Some? ==>
      var after := Turn(c, routes, answers, artifacts, kind).value;
      History(c, after) && AdapterAtomic(c, routes, Kinds(after)) && kind in Kinds(after) &&
        Kinds(artifacts) <= Kinds(after) && artifacts <= after)
  {
    if kind !in Kinds(artifacts) && Turn(c, routes, answers, artifacts, kind).Some? {
      var adapter := Route(routes, kind).value;
      var missing := Missing(c.required, Kinds(artifacts), routes, adapter);
      assert kind in missing;
      IdsAreEarlier(c, artifacts);
      BatchKinds(c, artifacts, missing, Answer(answers, adapter).outputs, adapter, Ids(artifacts));
      BatchKeepsHistory(c, artifacts, missing, Answer(answers, adapter).outputs, adapter, Ids(artifacts));
    }
  }

  /** A run that stops anywhere leaves each adapter's kinds together, and one that does not stop leaves all kinds. */
  lemma {:induction false} TurnsKeepHistory(c: Contract, routes: Routes, answers: Answers, artifacts: seq<Artifact>,
                            turns: nat)
    requires turns <= |c.required|
    requires UniqueOutputs(c) && History(c, artifacts) && AdapterAtomic(c, routes, Kinds(artifacts))
    ensures var p := Turns(c, routes, answers, artifacts, turns);
      History(c, p.artifacts) && AdapterAtomic(c, routes, Kinds(p.artifacts))
    ensures artifacts <= Turns(c, routes, answers, artifacts, turns).artifacts
    ensures Kinds(artifacts) <= Kinds(Turns(c, routes, answers, artifacts, turns).artifacts)
    ensures (var p := Turns(c, routes, answers, artifacts, turns);
      !p.failed ==> forall k | k in c.required[..turns] :: k in Kinds(p.artifacts))
  {
    if turns > 0 {
      TurnsKeepHistory(c, routes, answers, artifacts, turns - 1);
      var p := Turns(c, routes, answers, artifacts, turns - 1);
      assert c.required[..turns] == c.required[..turns - 1] + [c.required[turns - 1]];
      TurnKeepsHistory(c, routes, answers, p.artifacts, c.required[turns - 1]);
    }
  }

  /** A run over a complete task asks no adapter and adds nothing. */
  lemma {:induction false} CompleteRunAddsNothing(c: Contract, routes: Routes, answers: Answers,
                            artifacts: seq<Artifact>, turns: nat)
    requires turns <= |c.required|
    requires forall k | k in c.required :: k in Kinds(artifacts)
    ensures Turns(c, routes, answers, artifacts, turns) == Progress(artifacts, false)
  {
    if turns > 0 {
      CompleteRunAddsNothing(c, routes, answers, artifacts, turns - 1);
    }
  }

  /** Each kind's revisions are exactly 1 to n, one artifact each. */
  lemma {:induction false} RevisionsAreConsecutive(c: Contract, artifacts: seq<Artifact>, newest: nat, revision: nat)
      returns (m: nat)
    requires History(c, artifacts) && newest < |artifacts| && 1 <= revision <= artifacts[newest].revision
    ensures m <= newest && artifacts[m].kind == artifacts[newest].kind && artifacts[m].revision == revision
    ensures forall n | 0 <= n < |artifacts| && artifacts[n].kind == artifacts[newest].kind &&
      artifacts[n].revision == revision :: n == m
    decreases newest
  {
    assert Chained(artifacts, newest);
    if artifacts[newest].revision == revision {
      m := newest;
    } else {
      var before :| Precedes(artifacts, before, newest);
      m := RevisionsAreConsecutive(c, artifacts, before, revision);
    }
  }
}
