/** The pipeline made from a task's required outputs, and the waves it runs in. */
module DefaultPipeline {
  import opened Outcomes
  import opened WorkflowGraph

  datatype Route = Route(kind: string, adapter: string)

  const MAPPING: seq<Route> :=
    [Route("content", "flowise"), Route("design", "open_design"), Route("code", "hermes"),
      Route("test_report", "hermes")]

  predicate Supported(kind: string) {
    exists route :: route in MAPPING && route.kind == kind
  }

  function Requested(mapping: seq<Route>, requested: set<string>): seq<Route> {
    if mapping == [] then []
    else
      var front, last := Requested(mapping[..|mapping| - 1], requested), mapping[|mapping| - 1];
      if last.kind in requested then front + [last] else front
  }

  /** Every step waits for the one before it. */
  ghost predicate IsChain(steps: seq<WorkflowStep>) {
    forall n | 0 <= n < |steps| :: steps[n].index == n && steps[n].dependsOn == if n == 0 then [] else [n - 1]
  }

  ghost predicate Makes(steps: seq<WorkflowStep>, routes: seq<Route>) {
    |steps| == |routes| && forall n | 0 <= n < |steps| ::
      steps[n].outputKind == routes[n].kind && steps[n].adapter == routes[n].adapter &&
        steps[n].name == "produce_" + routes[n].kind
  }

  /** Fails exactly on a kind it has no adapter for. */
  method MakePipeline(requested: set<string>) returns (r: Result<seq<WorkflowStep>, set<string>>)
    ensures r.Err? <==> exists kind :: kind in requested && !Supported(kind)
    ensures r.Err? ==> forall kind :: kind in r.error <==> kind in requested && !Supported(kind)
    ensures r.Ok? ==> IsChain(r.value) && Makes(r.value, Requested(MAPPING, requested))
  {
    var steps: seq<WorkflowStep>, previous: Option<int> := [], None;
    for n := 0 to |MAPPING|
      invariant IsChain(steps) && Makes(steps, Requested(MAPPING[..n], requested))
      invariant previous == if steps == [] then None else Some(|steps| - 1)
    {
      assert MAPPING[..n + 1][..n] == MAPPING[..n];
      var route := MAPPING[n];
      if route.kind in requested {
        var dependencies := if previous.Some? then [previous.value] else [];
        steps := steps + [WorkflowStep(|steps|, "produce_" + route.kind, route.adapter, route.kind, dependencies)];
        previous := Some(|steps| - 1);
      }
    }
    assert MAPPING[..|MAPPING|] == MAPPING;
    var unknown := set kind | kind in requested && !Supported(kind);
    assert forall kind :: kind in unknown <==> kind in requested && !Supported(kind);
    if unknown != {} {
      return Err(unknown);
    }
    return Ok(steps);
  }

  lemma ChainEdge(steps: seq<WorkflowStep>, i: int, d: int)
    requires IsChain(steps)
    ensures Edge(GraphOf(steps), i, d) <==> 0 < i < |steps| && d == i - 1
    ensures Edge(GraphOf(steps), i, d) ==> d in GraphOf(steps)
  {
    ChainGraph(steps, i);
    ChainGraph(steps, d);
  }

  lemma ChainGraph(steps: seq<WorkflowStep>, i: int)
    requires IsChain(steps)
    ensures i in GraphOf(steps) <==> 0 <= i < |steps|
    ensures 0 <= i < |steps| ==> GraphOf(steps)[i] == steps[i]
  {
    if i in GraphOf(steps) {
      GraphHoldsSteps(steps, i);
    }
    if 0 <= i < |steps| {
      assert steps[i] in steps;
      assert UniqueIndices(steps);
      StepsHaveIndices(steps, steps[i]);
    }
  }

  lemma {:induction false} ChainPathIsShort(steps: seq<WorkflowStep>, p: seq<int>)
    requires IsChain(steps) && IsPath(GraphOf(steps), p) && 0 <= p[0] < |steps|
    ensures |p| <= p[0] + 1
    decreases |p|
  {
    if |p| > 1 {
      ChainEdge(steps, p[0], p[1]);
      Subpath(GraphOf(steps), p, 1, |p|);
      ChainPathIsShort(steps, p[1..]);
    }
  }

  /** The longest chain of step n is n, n-1, down to 0. */
  lemma ChainIsLongest(steps: seq<WorkflowStep>, n: nat)
    requires IsChain(steps) && n < |steps|
    ensures LongestChain(GraphOf(steps), n, n)
  {
    var down := seq(n + 1, k => n - k);
    forall k | 0 <= k < n ensures Edge(GraphOf(steps), down[k], down[k + 1]) {
      ChainEdge(steps, n - k, n - k - 1);
    }
    assert PathFrom(GraphOf(steps), down, n);
    forall p | PathFrom(GraphOf(steps), p, n) ensures |p| <= n + 1 {
      ChainPathIsShort(steps, p);
    }
  }

  /** A chain is scheduled one step a wave, in its own order. */
  lemma ChainRunsInOrder(steps: seq<WorkflowStep>, waves: seq<seq<WorkflowStep>>)
    requires IsChain(steps)
    requires |waves| == |steps| && forall n | 0 <= n < |waves| :: waves[n] == [steps[n]]
    ensures IsSchedule(GraphOf(steps), waves)
  {
    var g := GraphOf(steps);
    forall k, s | 0 <= k < |waves| && s in waves[k]
      ensures s.index in g && g[s.index] == s && LongestChain(g, s.index, k) {
      ChainGraph(steps, k);
      ChainIsLongest(steps, k);
    }
    forall i | i in g ensures exists k :: 0 <= k < |waves| && g[i] in waves[k] {
      ChainGraph(steps, i);
      assert g[i] in waves[i];
    }
  }

  /** Whatever schedule the graph has, it is that one. */
  lemma DefaultWaves(steps: seq<WorkflowStep>, waves: seq<seq<WorkflowStep>>)
    requires IsChain(steps)
    ensures UniqueIndices(steps) && !MissingFound(GraphOf(steps)) && !Cyclic(GraphOf(steps))
    ensures IsSchedule(GraphOf(steps), waves) <==>
      |waves| == |steps| && forall n | 0 <= n < |waves| :: waves[n] == [steps[n]]
  {
    var inOrder := seq(|steps|, n requires 0 <= n < |steps| => [steps[n]]);
    ChainRunsInOrder(steps, inOrder);
    GraphKeyed(steps);
    ScheduledIsAcyclic(GraphOf(steps), inOrder);
    forall i | i in GraphOf(steps) ensures !HasMissing(GraphOf(steps), i) {
      forall d | d in GraphOf(steps)[i].dependsOn ensures d in GraphOf(steps) {
        ChainEdge(steps, i, d);
      }
    }
    if IsSchedule(GraphOf(steps), waves) {
      ScheduleUnique(GraphOf(steps), waves, inOrder);
    }
    if |waves| == |steps| && forall n | 0 <= n < |waves| :: waves[n] == [steps[n]] {
      assert waves == inOrder;
    }
  }
}
