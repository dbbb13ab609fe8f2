/** The workflow scheduler: dependency waves and the ancestors of a step. */
module WorkflowGraph {
  import opened Outcomes
  import Collections

  datatype WorkflowStep = WorkflowStep(
    index: int, name: string, adapter: string, outputKind: string, dependsOn: seq<int>)

  datatype WorkflowError = StepIndexDuplicate | CycleDetected | DependencyMissing

  type Graph = map<int, WorkflowStep>

  // ---- Steps and the graph they describe ----

  ghost predicate UniqueIndices(steps: seq<WorkflowStep>) {
    forall i, j | 0 <= i < j < |steps| :: steps[i].index != steps[j].index
  }

  /** The dictionary comprehension of `step_map`: a later step replaces an earlier one. */
  ghost function GraphOf(steps: seq<WorkflowStep>): Graph {
    if steps == [] then map[]
    else var last := steps[|steps| - 1]; GraphOf(steps[..|steps| - 1])[last.index := last]
  }

  ghost predicate KeyedByIndex(g: Graph) {
    forall i | i in g :: g[i].index == i
  }

  lemma {:induction false} GraphHoldsSteps(steps: seq<WorkflowStep>, i: int)
    requires i in GraphOf(steps)
    ensures GraphOf(steps)[i].index == i && GraphOf(steps)[i] in steps
  {
    var n := |steps| - 1;
    if steps[n].index != i {
      GraphHoldsSteps(steps[..n], i);
    }
  }

  lemma {:induction false} StepsHaveIndices(steps: seq<WorkflowStep>, s: WorkflowStep)
    requires s in steps
    ensures s.index in GraphOf(steps)
    ensures UniqueIndices(steps) ==> GraphOf(steps)[s.index] == s
  {
    var n := |steps| - 1;
    if s != steps[n] {
      assert s in steps[..n];
      StepsHaveIndices(steps[..n], s);
    }
  }

  /** The duplicate test of `step_map`: the dictionary is shorter exactly when an index repeats. */
  lemma {:induction false} GraphSize(steps: seq<WorkflowStep>)
    ensures |GraphOf(steps)| <= |steps|
    ensures |GraphOf(steps)| == |steps| <==> UniqueIndices(steps)
  {
    if steps != [] {
      var n := |steps| - 1;
      var front := steps[..n];
      var g, i := GraphOf(front), steps[n].index;
      GraphSize(front);
      if i in g {
        assert GraphOf(steps).Keys == g.Keys;
        GraphHoldsSteps(front, i);
        var j :| 0 <= j < n && front[j] == g[i];
        assert steps[j].index == steps[n].index;
      } else {
        assert GraphOf(steps).Keys == g.Keys + {i};
        forall j | 0 <= j < n ensures steps[j].index != i {
          assert steps[j] == front[j] && front[j] in front;
          StepsHaveIndices(front, front[j]);
        }
        assert forall j | 0 <= j < n :: front[j] == steps[j];
      }
    }
  }

  lemma GraphKeyed(steps: seq<WorkflowStep>)
    ensures KeyedByIndex(GraphOf(steps))
  {
    forall i | i in GraphOf(steps) ensures GraphOf(steps)[i].index == i {
      GraphHoldsSteps(steps, i);
    }
  }

  lemma GraphIncludes(a: seq<WorkflowStep>, b: seq<WorkflowStep>, i: int)
    requires UniqueIndices(b) && multiset(a) == multiset(b) && i in GraphOf(a)
    ensures i in GraphOf(b) && GraphOf(b)[i] == GraphOf(a)[i]
  {
    GraphHoldsSteps(a, i);
    var s := GraphOf(a)[i];
    assert s in multiset(a);
    assert s in b;
    StepsHaveIndices(b, s);
  }

  lemma UniqueIgnoresOrder(a: seq<WorkflowStep>, b: seq<WorkflowStep>)
    requires UniqueIndices(a) && multiset(a) == multiset(b)
    ensures UniqueIndices(b)
  {
    assert |a| == |multiset(a)| && |b| == |multiset(b)|;
    GraphSize(a);
    GraphSize(b);
    forall i | i in GraphOf(a).Keys ensures i in GraphOf(b).Keys {
      GraphHoldsSteps(a, i);
      assert GraphOf(a)[i] in multiset(a);
      assert GraphOf(a)[i] in b;
      StepsHaveIndices(b, GraphOf(a)[i]);
    }
    Collections.SubsetSize(GraphOf(a).Keys, GraphOf(b).Keys);
  }

  /** Reordering the input does not change the graph. */
  lemma GraphIgnoresOrder(a: seq<WorkflowStep>, b: seq<WorkflowStep>)
    requires UniqueIndices(a) && multiset(a) == multiset(b)
    ensures UniqueIndices(b) && GraphOf(a) == GraphOf(b)
  {
    UniqueIgnoresOrder(a, b);
    forall i ensures i in GraphOf(a) <==> i in GraphOf(b) {
      if i in GraphOf(a) { GraphIncludes(a, b, i); }
      if i in GraphOf(b) { GraphIncludes(b, a, i); }
    }
    forall i | i in GraphOf(a) ensures GraphOf(a)[i] == GraphOf(b)[i] {
      GraphIncludes(a, b, i);
    }
  }

  method StepMap(steps: seq<WorkflowStep>) returns (r: Result<Graph, WorkflowError>)
    ensures UniqueIndices(steps) ==> r == Ok(GraphOf(steps))
    ensures !UniqueIndices(steps) ==> r == Err(StepIndexDuplicate)
  {
    var mapping: Graph := map[];
    for n := 0 to |steps|
      invariant mapping == GraphOf(steps[..n])
    {
      assert steps[..n + 1][..n] == steps[..n];
      mapping := mapping[steps[n].index := steps[n]];
    }
    assert steps[..|steps|] == steps;
    GraphSize(steps);
    if |mapping| != |steps| {
      return Err(StepIndexDuplicate);
    }
    return Ok(mapping);
  }

  // ---- Dependency paths, cycles and chains ----

  ghost predicate Edge(g: Graph, a: int, b: int) {
    a in g && b in g[a].dependsOn
  }

  /** A walk along dependencies; only its last index may be missing from the graph. */
  ghost predicate IsPath(g: Graph, p: seq<int>) {
    |p| > 0 && forall k | 0 <= k < |p| - 1 :: Edge(g, p[k], p[k + 1])
  }

  ghost predicate PathFrom(g: Graph, p: seq<int>, a: int) {
    IsPath(g, p) && p[0] == a
  }

  ghost predicate PathBetween(g: Graph, p: seq<int>, a: int, b: int) {
    PathFrom(g, p, a) && p[|p| - 1] == b
  }

  ghost predicate Reaches(g: Graph, a: int, b: int) {
    exists p :: PathBetween(g, p, a, b)
  }

  /** Reached by following at least one dependency. */
  ghost predicate Descends(g: Graph, a: int, b: int) {
    exists p :: PathBetween(g, p, a, b) && |p| >= 2
  }

  ghost predicate OnCycle(g: Graph, a: int) {
    Descends(g, a, a)
  }

  ghost predicate Cyclic(g: Graph) {
    exists a :: OnCycle(g, a)
  }

  ghost predicate HasMissing(g: Graph, i: int)
    requires i in g
  {
    !forall d | d in g[i].dependsOn :: d in g
  }

  ghost predicate Closed(g: Graph) {
    forall i | i in g :: !HasMissing(g, i)
  }

  /** The dependency chain starting at `i` can be followed `n` times and no chain is longer. */
  ghost predicate LongestChain(g: Graph, i: int, n: nat) {
    && (exists p :: PathFrom(g, p, i) && |p| == n + 1)
    && (forall p :: PathFrom(g, p, i) ==> |p| <= n + 1)
  }

  lemma Subpath(g: Graph, p: seq<int>, i: nat, j: nat)
    requires IsPath(g, p) && i < j <= |p|
    ensures IsPath(g, p[i..j])
  {
    var q := p[i..j];
    forall k | 0 <= k < |q| - 1 ensures Edge(g, q[k], q[k + 1]) {
      assert Edge(g, p[i + k], p[i + k + 1]);
    }
  }

  lemma PathsJoin(g: Graph, p: seq<int>, q: seq<int>)
    requires IsPath(g, p) && IsPath(g, q) && p[|p| - 1] == q[0]
    ensures IsPath(g, p[..|p| - 1] + q)
  {
    var n := |p| - 1;
    var r := p[..n] + q;
    forall k | 0 <= k < |r| - 1 ensures Edge(g, r[k], r[k + 1]) {
      if k < n {
        assert Edge(g, p[k], p[k + 1]);
        assert r[k + 1] == p[k + 1];
      } else {
        assert Edge(g, q[k - n], q[k - n + 1]);
      }
    }
  }

  lemma ReachesSelf(g: Graph, a: int)
    ensures Reaches(g, a, a)
  {
    assert PathBetween(g, [a], a, a);
  }

  lemma EdgeThenReaches(g: Graph, a: int, b: int, c: int)
    requires Edge(g, a, b) && Reaches(g, b, c)
    ensures Reaches(g, a, c)
    ensures a == c ==> OnCycle(g, a)
  {
    var p :| PathBetween(g, p, b, c);
    assert IsPath(g, [a, b]);
    PathsJoin(g, [a, b], p);
    assert PathBetween(g, [a, b][..1] + p, a, c);
  }

  lemma DescendsStep(g: Graph, a: int, b: int, c: int)
    requires (a == b || Descends(g, a, b)) && Edge(g, b, c)
    ensures Descends(g, a, c)
  {
    assert IsPath(g, [b, c]);
    if a == b {
      assert PathBetween(g, [b, c], b, c);
    } else {
      var p :| PathBetween(g, p, a, b) && |p| >= 2;
      PathsJoin(g, p, [b, c]);
      assert PathBetween(g, p[..|p| - 1] + [b, c], a, c);
    }
  }

  /** What is reached from `a` is `a` itself or is reached from one of its dependencies. */
  lemma ReachesUnfolds(g: Graph, a: int, c: int)
    requires Reaches(g, a, c)
    ensures a == c || exists d :: Edge(g, a, d) && Reaches(g, d, c)
  {
    var p :| PathBetween(g, p, a, c);
    if |p| > 1 {
      assert Edge(g, p[0], p[1]);
      Subpath(g, p, 1, |p|);
      assert PathBetween(g, p[1..], p[1], c);
    }
  }

  lemma CycleUnfolds(g: Graph, a: int)
    requires OnCycle(g, a)
    ensures exists d :: Edge(g, a, d) && Reaches(g, d, a)
  {
    var p :| PathBetween(g, p, a, a) && |p| >= 2;
    assert Edge(g, p[0], p[1]);
    Subpath(g, p, 1, |p|);
    assert PathBetween(g, p[1..], p[1], a);
  }

  // ---- A stuck set contains a cycle ----

  ghost predicate DependsInto(g: Graph, i: int, s: set<int>) {
    i in g && exists d :: d in g[i].dependsOn && d in s
  }

  /** Where every member depends on a member, walks inside the set have every length. */
  lemma {:induction false} StuckWalk(g: Graph, s: set<int>, a: int, n: nat) returns (p: seq<int>)
    requires a in s
    requires forall i | i in s :: DependsInto(g, i, s)
    ensures IsPath(g, p) && |p| == n + 1 && forall k | 0 <= k < |p| :: p[k] in s
  {
    if n == 0 {
      p := [a];
    } else {
      var q := StuckWalk(g, s, a, n - 1);
      assert DependsInto(g, q[n - 1], s);
      var d :| d in g[q[n - 1]].dependsOn && d in s;
      p := q + [d];
      forall k | 0 <= k < |p| - 1 ensures Edge(g, p[k], p[k + 1]) {
        if k < |q| - 1 { assert Edge(g, q[k], q[k + 1]); }
      }
    }
  }

  /** The scheduler's stuck state: no remaining step is ready, so the remaining steps hold a cycle. */
  lemma StuckImpliesCycle(g: Graph, s: set<int>)
    requires s != {}
    requires forall i | i in s :: DependsInto(g, i, s)
    ensures Cyclic(g)
  {
    var a := Collections.Pick(s);
    var p := StuckWalk(g, s, a, |s|);
    Collections.Pigeonhole(p, s);
    var i, j :| 0 <= i < j < |p| && p[i] == p[j];
    Subpath(g, p, i, j + 1);
    assert PathBetween(g, p[i..j + 1], p[i], p[i]);
    assert OnCycle(g, p[i]);
  }

  // ---- Execution waves ----

  /** Where the first step (by index) that fails validation has a missing dependency. */
  ghost predicate MissingFound(g: Graph) {
    exists i :: i in g && HasMissing(g, i) && forall j | j in g && j < i :: j !in g[j].dependsOn
  }

  ghost predicate ByIndex(wave: seq<WorkflowStep>) {
    forall i, j | 0 <= i < j < |wave| :: wave[i].index < wave[j].index
  }

  /** The layered schedule: every step once, in the wave given by its longest dependency chain. */
  ghost predicate IsSchedule(g: Graph, waves: seq<seq<WorkflowStep>>) {
    && Sorted(waves)
    && (forall k, s | 0 <= k < |waves| && s in waves[k] ::
          s.index in g && g[s.index] == s && LongestChain(g, s.index, k))
    && (forall i | i in g :: exists k :: 0 <= k < |waves| && g[i] in waves[k])
  }

  /** The loop's local view: a step waits for earlier waves only, and for the wave just before its own. */
  ghost predicate Layered(g: Graph, level: map<int, nat>) {
    && level.Keys <= g.Keys
    && (forall i, d | i in level && d in g[i].dependsOn :: d in level && level[d] < level[i])
    && (forall i | i in level && level[i] > 0 ::
      exists d :: d in g[i].dependsOn && d in level && level[d] == level[i] - 1)
  }

  lemma {:induction false} ChainFitsLevel(g: Graph, level: map<int, nat>, p: seq<int>)
    requires Layered(g, level) && IsPath(g, p) && p[0] in level
    ensures |p| <= level[p[0]] + 1
    ensures p[|p| - 1] in level
    ensures |p| > 1 ==> level[p[|p| - 1]] < level[p[0]]
    decreases |p|
  {
    if |p| > 1 {
      assert Edge(g, p[0], p[1]);
      Subpath(g, p, 1, |p|);
      ChainFitsLevel(g, level, p[1..]);
    }
  }

  lemma {:induction false} LevelHasChain(g: Graph, level: map<int, nat>, i: int) returns (p: seq<int>)
    requires Layered(g, level) && i in level
    ensures PathFrom(g, p, i) && |p| == level[i] + 1
    decreases level[i]
  {
    if level[i] == 0 {
      p := [i];
    } else {
      var d :| d in g[i].dependsOn && d in level && level[d] == level[i] - 1;
      var q := LevelHasChain(g, level, d);
      p := [i] + q;
      forall k | 0 <= k < |p| - 1 ensures Edge(g, p[k], p[k + 1]) {
        if k > 0 { assert Edge(g, q[k - 1], q[k]); }
      }
    }
  }

  lemma LevelIsLongestChain(g: Graph, level: map<int, nat>, i: int)
    requires Layered(g, level) && i in level
    ensures LongestChain(g, i, level[i])
  {
    var p := LevelHasChain(g, level, i);
    assert PathFrom(g, p, i);
    forall q | PathFrom(g, q, i) ensures |q| <= level[i] + 1 {
      ChainFitsLevel(g, level, q);
    }
  }

  /** A chain around a cycle has no longest length. */
  lemma CycleHasNoLongestChain(g: Graph, a: int, n: nat)
    requires OnCycle(g, a)
    ensures !LongestChain(g, a, n)
  {
    if LongestChain(g, a, n) {
      var p :| PathBetween(g, p, a, a) && |p| >= 2;
      var q :| PathFrom(g, q, a) && |q| == n + 1;
      PathsJoin(g, p, q);
      assert PathFrom(g, p[..|p| - 1] + q, a);
    }
  }

  lemma ScheduledIsAcyclic(g: Graph, waves: seq<seq<WorkflowStep>>)
    requires KeyedByIndex(g) && IsSchedule(g, waves)
    ensures !Cyclic(g)
  {
    if a :| OnCycle(g, a) {
      assert a in g by {
        var p :| PathBetween(g, p, a, a) && |p| >= 2;
        assert Edge(g, p[0], p[1]);
      }
      var k :| 0 <= k < |waves| && g[a] in waves[k];
      CycleHasNoLongestChain(g, a, k);
    }
  }

  /** Any assignment of layers in which a step comes after everything it depends on. */
  ghost predicate IsLayering(g: Graph, layer: map<int, nat>) {
    layer.Keys == g.Keys && forall i, d | i in g && d in g[i].dependsOn :: d in g && layer[d] < layer[i]
  }

  lemma {:induction false} LayersDrop(g: Graph, layer: map<int, nat>, p: seq<int>)
    requires IsLayering(g, layer) && IsPath(g, p) && p[0] in g
    ensures layer[p[0]] >= |p| - 1
    decreases |p|
  {
    if |p| > 1 {
      assert Edge(g, p[0], p[1]);
      Subpath(g, p, 1, |p|);
      LayersDrop(g, layer, p[1..]);
    }
  }

  /** No layering, however chosen, places a step before its wave, so none has fewer layers. */
  lemma NoEarlierLayer(g: Graph, waves: seq<seq<WorkflowStep>>, layer: map<int, nat>, k: nat, s: WorkflowStep)
    requires IsSchedule(g, waves) && k < |waves| && s in waves[k]
    requires IsLayering(g, layer)
    ensures layer[s.index] >= k
  {
    assert LongestChain(g, s.index, k);
    var p :| PathFrom(g, p, s.index) && |p| == k + 1;
    LayersDrop(g, layer, p);
  }

  lemma LongestChainUnique(g: Graph, i: int, m: nat, n: nat)
    requires LongestChain(g, i, m) && LongestChain(g, i, n)
    ensures m == n
  {
    var p :| PathFrom(g, p, i) && |p| == m + 1;
    var q :| PathFrom(g, q, i) && |q| == n + 1;
  }

  lemma WaveMembers(g: Graph, a: seq<seq<WorkflowStep>>, b: seq<seq<WorkflowStep>>, k: nat, s: WorkflowStep)
    requires IsSchedule(g, a) && IsSchedule(g, b)
    requires k < |a| && s in a[k]
    ensures k < |b| && s in b[k]
  {
    assert g[s.index] == s;
    var n :| 0 <= n < |b| && g[s.index] in b[n];
    LongestChainUnique(g, s.index, k, n);
  }

  lemma {:induction false} SortedUnique(a: seq<WorkflowStep>, b: seq<WorkflowStep>)
    requires ByIndex(a) && ByIndex(b)
    requires forall s :: s in a <==> s in b
    ensures a == b
  {
    assert |a| > 0 ==> a[0] in b;
    assert |b| > 0 ==> b[0] in a;
    if |a| > 0 {
      assert a[0] in b;
      assert b[0] in a;
      assert a[0] == b[0];
      forall s ensures s in a[1..] <==> s in b[1..] {
        assert s in a[1..] ==> s in a && s != a[0];
        assert s in b[1..] ==> s in b && s != b[0];
        assert s in a && s != a[0] ==> s in a[1..];
        assert s in b && s != b[0] ==> s in b[1..];
      }
      SortedUnique(a[1..], b[1..]);
    }
  }

  /** One schedule per graph; with GraphIgnoresOrder, the same schedule for every order of the input. */
  lemma ScheduleUnique(g: Graph, a: seq<seq<WorkflowStep>>, b: seq<seq<WorkflowStep>>)
    requires IsSchedule(g, a) && IsSchedule(g, b)
    ensures a == b
  {
    forall k | 0 <= k < |a| ensures k < |b| && a[k] == b[k] {
      assert a[k] in a && a[k] != [];
      WaveMembers(g, a, b, k, a[k][0]);
      forall s ensures s in a[k] <==> s in b[k] {
        if s in a[k] { WaveMembers(g, a, b, k, s); }
        if s in b[k] { WaveMembers(g, b, a, k, s); }
      }
      SortedUnique(a[k], b[k]);
    }
    if |a| > 0 {
      assert a[|a| - 1] in a;
      WaveMembers(g, a, b, |a| - 1, a[|a| - 1][0]);
    }
    if |b| > 0 {
      assert b[|b| - 1] in b;
      WaveMembers(g, b, a, |b| - 1, b[|b| - 1][0]);
    }
  }

  // ---- The scheduler ----

  lemma {:induction false} HasLeast(s: set<int>) returns (m: int)
    requires s != {}
    ensures m in s && forall k | k in s :: m <= k
  {
    m := Collections.Pick(s);
    if s != {m} {
      var rest := s - {m};
      Collections.SameMembers(s, rest + {m});
      var n := HasLeast(rest);
      m := if n < m then n else m;
    }
  }

  /** `sorted` on distinct integers. */
  function SortedInts(s: set<int>): (r: seq<int>)
    ensures forall i, j | 0 <= i < j < |r| :: r[i] < r[j]
    ensures forall i :: i in r <==> i in s
  {
    if s == {} then []
    else
      assert exists m :: m in s && forall k | k in s :: m <= k by {
        var m := HasLeast(s);
      }
      var m :| m in s && forall k | k in s :: m <= k;
      [m] + SortedInts(s - {m})
  }

  ghost predicate Clean(g: Graph, i: int)
    requires i in g
  {
    !HasMissing(g, i) && i !in g[i].dependsOn
  }

  lemma MissingDependency(g: Graph, i: int, d: int)
    requires i in g && d in g[i].dependsOn && d !in g
    ensures HasMissing(g, i)
  {
  }

  ghost predicate InOrder(g: Graph, order: seq<int>) {
    && (forall i :: i in order <==> i in g)
    && (forall i, j | 0 <= i < j < |order| :: order[i] < order[j])
  }

  method CheckStep(g: Graph, step: WorkflowStep) returns (failure: Option<WorkflowError>)
    requires step.index in g && g[step.index] == step
    ensures failure.None? <==> Clean(g, step.index)
    ensures failure == Some(DependencyMissing) <==> HasMissing(g, step.index)
    ensures failure != Some(StepIndexDuplicate)
  {
    for d := 0 to |step.dependsOn|
      invariant forall e | e in step.dependsOn[..d] :: e in g
    {
      if step.dependsOn[d] !in g {
        MissingDependency(g, step.index, step.dependsOn[d]);
        return Some(DependencyMissing);
      }
    }
    assert step.dependsOn[..|step.dependsOn|] == step.dependsOn;
    return if step.index in step.dependsOn then Some(CycleDetected) else None;
  }

  method CheckDependencies(g: Graph) returns (failure: Option<WorkflowError>)
    requires KeyedByIndex(g)
    ensures failure.None? ==> Closed(g)
    ensures failure.Some? && MissingFound(g) ==> failure.value == DependencyMissing
    ensures failure.Some? && !MissingFound(g) ==> failure.value == CycleDetected && Cyclic(g)
  {
    var order := SortedInts(g.Keys);
    assert InOrder(g, order);
    for n := 0 to |order|
      invariant forall m | 0 <= m < n :: Clean(g, order[m])
    {
      failure := CheckStep(g, g[order[n]]);
      if failure.Some? {
        FirstFailure(g, order, n);
        return;
      }
    }
    AllClean(g, order);
    return None;
  }

  lemma AllClean(g: Graph, order: seq<int>)
    requires InOrder(g, order) && forall m | 0 <= m < |order| :: Clean(g, order[m])
    ensures Closed(g)
  {
    forall i | i in g ensures !HasMissing(g, i) {
      assert i in order;
      var m :| 0 <= m < |order| && order[m] == i;
    }
  }

  /** The first step that fails decides which error is raised. */
  lemma FirstFailure(g: Graph, order: seq<int>, n: nat)
    requires InOrder(g, order) && n < |order|
    requires forall m | 0 <= m < n :: Clean(g, order[m])
    requires !Clean(g, order[n])
    ensures MissingFound(g) <==> HasMissing(g, order[n])
    ensures HasMissing(g, order[n]) || Cyclic(g)
  {
    var a := order[n];
    if HasMissing(g, a) {
      forall j | j in g && j < a ensures j !in g[j].dependsOn {
        assert j in order;
        var m :| 0 <= m < |order| && order[m] == j;
      }
    } else {
      assert PathBetween(g, [a, a], a, a);
      assert OnCycle(g, a);
      forall i | i in g && HasMissing(g, i) ensures a < i {
        assert i in order;
        var m :| 0 <= m < |order| && order[m] == i;
      }
    }
  }

  /** A step that is ready: everything it depends on has completed. */
  predicate Ready(step: WorkflowStep, completed: set<int>) {
    forall d | d in step.dependsOn :: d in completed
  }

  method ReadySteps(remaining: Graph, completed: set<int>) returns (ready: seq<WorkflowStep>)
    requires KeyedByIndex(remaining)
    ensures ByIndex(ready) && ReadyAmong(remaining, completed, ready)
  {
    ready := [];
    var order := SortedInts(remaining.Keys);
    for n := 0 to |order|
      invariant ByIndex(ready)
      invariant forall s | s in ready :: s.index in remaining && remaining[s.index] == s && Ready(s, completed)
      invariant forall s | s in ready && n < |order| :: s.index < order[n]
      invariant forall m | 0 <= m < n && Ready(remaining[order[m]], completed) :: remaining[order[m]] in ready
    {
      var step := remaining[order[n]];
      if Ready(step, completed) {
        ready := ready + [step];
      }
    }
    forall i | i in remaining && Ready(remaining[i], completed) ensures remaining[i] in ready {
      var m :| 0 <= m < |order| && order[m] == i;
    }
  }

  ghost predicate Partition(g: Graph, completed: set<int>, remaining: Graph) {
    && (forall i :: i in g <==> i in completed || i in remaining)
    && (forall i | i in remaining :: i !in completed && remaining[i] == g[i])
  }

  /** The finished waves hold each completed step once, at its level. */
  ghost predicate Placed(g: Graph, waves: seq<seq<WorkflowStep>>, level: map<int, nat>) {
    && (forall i | i in level :: i in g && level[i] < |waves| && g[i] in waves[level[i]])
    && (forall k, s | 0 <= k < |waves| && s in waves[k] :: s.index in level && g[s.index] == s && level[s.index] == k)
  }

  ghost predicate WaitsFor(g: Graph, i: int, level: map<int, nat>, n: nat)
    requires i in g
  {
    exists d :: d in g[i].dependsOn && (d in level ==> level[d] == n)
  }

  ghost predicate Waiting(g: Graph, remaining: Graph, level: map<int, nat>, n: nat) {
    forall i | i in remaining && n > 0 :: i in g && WaitsFor(g, i, level, n - 1)
  }

  ghost predicate ReadyAmong(remaining: Graph, completed: set<int>, ready: seq<WorkflowStep>) {
    && (forall s | s in ready :: s.index in remaining && remaining[s.index] == s && Ready(s, completed))
    && (forall i | i in remaining && Ready(remaining[i], completed) :: remaining[i] in ready)
  }

  ghost function Indices(steps: seq<WorkflowStep>): set<int> {
    set s | s in steps :: s.index
  }

  ghost function Extend(level: map<int, nat>, ready: seq<WorkflowStep>, n: nat): map<int, nat> {
    map i | i in level.Keys + Indices(ready) :: if i in level then level[i] else n
  }

  lemma NewLevel(g: Graph, remaining: Graph, level: map<int, nat>, n: nat, ready: seq<WorkflowStep>, i: int)
    requires Partition(g, level.Keys, remaining) && Waiting(g, remaining, level, n)
    requires ReadyAmong(remaining, level.Keys, ready)
    requires i in Indices(ready)
    ensures i in g && forall d | d in g[i].dependsOn :: d in level
    ensures n > 0 ==> exists d :: d in g[i].dependsOn && d in level && level[d] == n - 1
  {
    var s :| s in ready && s.index == i;
    assert n > 0 ==> WaitsFor(g, i, level, n - 1);
  }

  lemma WaveKeepsLayers(g: Graph, remaining: Graph, level: map<int, nat>, n: nat, ready: seq<WorkflowStep>)
    requires Layered(g, level) && Partition(g, level.Keys, remaining) && Waiting(g, remaining, level, n)
    requires forall i | i in level :: level[i] < n
    requires ReadyAmong(remaining, level.Keys, ready)
    ensures Layered(g, Extend(level, ready, n))
  {
    var next := Extend(level, ready, n);
    forall i | i in next
      ensures i in g
      ensures forall d | d in g[i].dependsOn :: d in next && next[d] < next[i]
      ensures next[i] > 0 ==> exists d :: d in g[i].dependsOn && d in next && next[d] == next[i] - 1
    {
      if i in level {
        assert level[i] > 0 ==> exists d :: d in g[i].dependsOn && d in level && level[d] == level[i] - 1;
      } else {
        NewLevel(g, remaining, level, n, ready, i);
      }
    }
  }

  lemma WaveIsPlaced(g: Graph, waves: seq<seq<WorkflowStep>>, remaining: Graph, level: map<int, nat>,
                     ready: seq<WorkflowStep>)
    requires Placed(g, waves, level) && Partition(g, level.Keys, remaining)
    requires ReadyAmong(remaining, level.Keys, ready)
    ensures Placed(g, waves + [ready], Extend(level, ready, |waves|))
  {
    var next, after := Extend(level, ready, |waves|), waves + [ready];
    forall i | i in next ensures i in g && next[i] < |after| && g[i] in after[next[i]] {
      if i !in level {
        var s :| s in ready && s.index == i;
      }
    }
    forall k, s: WorkflowStep | 0 <= k < |after| && s in after[k]
      ensures s.index in next && g[s.index] == s && next[s.index] == k
    {
      if k < |waves| { assert s in waves[k]; }
    }
  }

  lemma WaveLeavesWaiting(g: Graph, remaining: Graph, level: map<int, nat>, n: nat, ready: seq<WorkflowStep>)
    requires KeyedByIndex(g) && Partition(g, level.Keys, remaining) && ReadyAmong(remaining, level.Keys, ready)
    ensures Partition(g, level.Keys + Indices(ready), remaining - Indices(ready))
    ensures Waiting(g, remaining - Indices(ready), Extend(level, ready, n), n + 1)
  {
    forall i | i in remaining - Indices(ready) ensures WaitsFor(g, i, Extend(level, ready, n), n) {
      assert !Ready(remaining[i], level.Keys);
      var d :| d in g[i].dependsOn && d !in level;
    }
  }

  lemma FinishedIsSchedule(g: Graph, waves: seq<seq<WorkflowStep>>, level: map<int, nat>)
    requires Layered(g, level) && Placed(g, waves, level) && Partition(g, level.Keys, map[])
    requires Sorted(waves)
    ensures IsSchedule(g, waves)
  {
    forall k, s | 0 <= k < |waves| && s in waves[k] ensures LongestChain(g, s.index, k) {
      LevelIsLongestChain(g, level, s.index);
    }
    forall i | i in g ensures exists k :: 0 <= k < |waves| && g[i] in waves[k] {
      assert i in level && g[i] in waves[level[i]];
    }
  }

  lemma RemainingKeyed(g: Graph, completed: set<int>, remaining: Graph)
    requires KeyedByIndex(g) && Partition(g, completed, remaining)
    ensures KeyedByIndex(remaining)
  {
  }

  lemma NothingReadyIsStuck(g: Graph, completed: set<int>, remaining: Graph)
    requires Closed(g) && remaining != map[]
    requires Partition(g, completed, remaining) && ReadyAmong(remaining, completed, [])
    ensures Cyclic(g)
  {
    forall i | i in remaining.Keys ensures DependsInto(g, i, remaining.Keys) {
      assert !Ready(remaining[i], completed);
      var d :| d in g[i].dependsOn && d !in completed;
      assert !HasMissing(g, i);
    }
    assert remaining.Keys != {};
    StuckImpliesCycle(g, remaining.Keys);
  }

  /** Everything the scheduling loop knows. */
  ghost predicate Progress(g: Graph, completed: set<int>, remaining: Graph, waves: seq<seq<WorkflowStep>>,
                           level: map<int, nat>) {
    && level.Keys == completed && Partition(g, completed, remaining)
    && Layered(g, level) && Placed(g, waves, level) && Waiting(g, remaining, level, |waves|)
    && Sorted(waves)
  }

  ghost predicate Sorted(waves: seq<seq<WorkflowStep>>) {
    forall wave | wave in waves :: wave != [] && ByIndex(wave)
  }

  lemma SortedAppend(waves: seq<seq<WorkflowStep>>, ready: seq<WorkflowStep>)
    requires Sorted(waves) && ready != [] && ByIndex(ready)
    ensures Sorted(waves + [ready])
  {
  }

  lemma AddWave(g: Graph, completed: set<int>, remaining: Graph, waves: seq<seq<WorkflowStep>>, level: map<int, nat>,
                ready: seq<WorkflowStep>)
    requires KeyedByIndex(g) && Progress(g, completed, remaining, waves, level)
    requires ready != [] && ByIndex(ready) && ReadyAmong(remaining, completed, ready)
    ensures Progress(g, completed + Indices(ready), remaining - Indices(ready), waves + [ready],
      Extend(level, ready, |waves|))
    ensures ready[0].index in remaining && ready[0].index in Indices(ready)
  {
    var next := Extend(level, ready, |waves|);
    assert Layered(g, next) by { WaveKeepsLayers(g, remaining, level, |waves|, ready); }
    assert Placed(g, waves + [ready], next) by { WaveIsPlaced(g, waves, remaining, level, ready); }
    assert Partition(g, completed + Indices(ready), remaining - Indices(ready))
        && Waiting(g, remaining - Indices(ready), next, |waves| + 1) by {
      WaveLeavesWaiting(g, remaining, level, |waves|, ready);
    }
    SortedAppend(waves, ready);
    assert ready[0] in ready;
  }

  method BuildWaves(g: Graph) returns (r: Option<seq<seq<WorkflowStep>>>)
    requires KeyedByIndex(g) && Closed(g)
    ensures r.Some? ==> IsSchedule(g, r.value)
    ensures r.None? <==> Cyclic(g)
  {
    var completed: set<int>, remaining, waves: seq<seq<WorkflowStep>> := {}, g, [];
    ghost var level: map<int, nat> := map[];
    while remaining != map[]
      invariant Progress(g, completed, remaining, waves, level)
      decreases remaining.Keys
    {
      RemainingKeyed(g, completed, remaining);
      var ready := ReadySteps(remaining, completed);
      if ready == [] {
        NothingReadyIsStuck(g, completed, remaining);
        return None;
      }
      AddWave(g, completed, remaining, waves, level, ready);
      level := Extend(level, ready, |waves|);
      waves := waves + [ready];
      completed := completed + (set s | s in ready :: s.index);
      remaining := remaining - (set s | s in ready :: s.index);
    }
    FinishedIsSchedule(g, waves, level);
    ScheduledIsAcyclic(g, waves);
    return Some(waves);
  }

  method ExecutionWaves(steps: seq<WorkflowStep>) returns (r: Result<seq<seq<WorkflowStep>>, WorkflowError>)
    ensures r == Err(StepIndexDuplicate) <==> !UniqueIndices(steps)
    ensures r == Err(DependencyMissing) <==> UniqueIndices(steps) && MissingFound(GraphOf(steps))
    ensures r == Err(CycleDetected) <==>
            UniqueIndices(steps) && !MissingFound(GraphOf(steps)) && Cyclic(GraphOf(steps))
    ensures r.Ok? ==> IsSchedule(GraphOf(steps), r.value)
  {
    var mapped := StepMap(steps);
    if mapped.Err? {
      return Err(mapped.error);
    }
    GraphKeyed(steps);
    var failure := CheckDependencies(mapped.value);
    if failure.Some? {
      return Err(failure.value);
    }
    var waves := BuildWaves(mapped.value);
    if waves.None? {
      return Err(CycleDetected);
    }
    return Ok(waves.value);
  }

  // ---- Ancestors by depth-first search ----

  ghost predicate ReachesMissing(g: Graph, a: int) {
    exists b :: Reaches(g, a, b) && b !in g
  }

  ghost predicate ReachesCycle(g: Graph, a: int) {
    exists b :: Reaches(g, a, b) && OnCycle(g, b)
  }

  /** The search finishes from `a`: neither a missing index nor a cycle lies downstream. */
  ghost predicate Resolvable(g: Graph, a: int) {
    !ReachesMissing(g, a) && !ReachesCycle(g, a)
  }

  /** A finishing order in which everything comes after all it depends on. */
  ghost predicate Finished(g: Graph, order: seq<int>) {
    forall k | 0 <= k < |order| :: order[k] in g && forall d | d in g[order[k]].dependsOn :: d in order[..k]
  }

  lemma PrefixGrows(order: seq<int>, m: nat, k: nat)
    requires m <= k <= |order|
    ensures forall a | a in order[..m] :: a in order[..k]
  {
    assert order[..k][..m] == order[..m];
  }

  lemma {:induction false} FinishedReach(g: Graph, order: seq<int>, k: nat, b: int)
    requires Finished(g, order) && k < |order| && Reaches(g, order[k], b)
    ensures b == order[k] || b in order[..k]
    decreases k
  {
    ReachesUnfolds(g, order[k], b);
    if b != order[k] {
      var d :| Edge(g, order[k], d) && Reaches(g, d, b);
      var m :| 0 <= m < k && order[..k][m] == d;
      FinishedReach(g, order, m, b);
      PrefixGrows(order, m, k);
    }
  }

  lemma FinishedNoCycle(g: Graph, order: seq<int>, k: nat)
    requires Finished(g, order) && k < |order|
    requires order[k] !in order[..k]
    ensures !OnCycle(g, order[k])
  {
    if OnCycle(g, order[k]) {
      CycleUnfolds(g, order[k]);
      var d :| Edge(g, order[k], d) && Reaches(g, d, order[k]);
      var m :| 0 <= m < k && order[..k][m] == d;
      PrefixGrows(order, m, k);
      FinishedReach(g, order, m, order[k]);
    }
  }

  lemma {:induction false} FirstOccurrence(order: seq<int>, a: int) returns (k: nat)
    requires a in order
    ensures k < |order| && order[k] == a && a !in order[..k]
  {
    var n := |order| - 1;
    if a in order[..n] {
      k := FirstOccurrence(order[..n], a);
      assert order[..n][..k] == order[..k];
    } else {
      k := n;
    }
  }

  lemma FinishedResolvable(g: Graph, order: seq<int>, a: int)
    requires Finished(g, order) && a in order
    ensures Resolvable(g, a)
    ensures forall b | Reaches(g, a, b) :: b in order
  {
    var k := FirstOccurrence(order, a);
    forall b | Reaches(g, a, b) ensures b in order && b in g && !OnCycle(g, b) {
      FinishedReach(g, order, k, b);
      var n := FirstOccurrence(order, b);
      FinishedNoCycle(g, order, n);
    }
  }

  /** The two mutable sets that the nested `visit` function closes over. */
  class AncestorSearch {
    const graph: Graph
    var result: set<int>
    var visiting: set<int>
    ghost var order: seq<int>

    constructor (graph: Graph)
      ensures Valid() && this.graph == graph && result == {} && visiting == {}
    {
      this.graph := graph;
      result, visiting, order := {}, {}, [];
    }

    ghost predicate Valid()
      reads this
    {
      && (forall i :: i in result <==> i in order)
      && Finished(graph, order)
      && visiting <= graph.Keys && visiting !! result
    }

    method Visit(index: int) returns (failure: Option<WorkflowError>)
      requires Valid()
      requires forall v | v in visiting :: Descends(graph, v, index)
      modifies this
      ensures failure.None? ==> Valid() && visiting == old(visiting) && Resolvable(graph, index)
      ensures failure.None? ==> forall b :: b in result <==> b in old(result) || Reaches(graph, index, b)
      ensures failure == Some(DependencyMissing) ==> ReachesMissing(graph, index)
      ensures failure == Some(CycleDetected) ==> ReachesCycle(graph, index)
      ensures failure.Some? ==> !Resolvable(graph, index) && failure.value != StepIndexDuplicate
      decreases graph.Keys - visiting
    {
      ReachesSelf(graph, index);
      if index in result {
        FinishedResolvable(graph, order, index);
        return None;
      }
      if index in visiting {
        return Some(CycleDetected);
      }
      if index !in graph {
        return Some(DependencyMissing);
      }
      var parent := graph[index];
      visiting := visiting + {index};
      ghost var before := result;
      for n := 0 to |parent.dependsOn|
        invariant Valid() && visiting == old(visiting) + {index}
        invariant forall b :: b in result <==> b in before || ReachedBy(graph, parent.dependsOn[..n], b)
      {
        var dependency := parent.dependsOn[n];
        StackDescends(graph, old(visiting), index, dependency);
        failure := Visit(dependency);
        if failure.Some? {
          FailureSpreads(graph, index, dependency);
          return;
        }
        ReachedByNext(graph, parent.dependsOn, n);
      }
      assert parent.dependsOn[..|parent.dependsOn|] == parent.dependsOn;
      CloseStep(graph, order, before, index);
      visiting := visiting - {index};
      result := result + {index};
      order := order + [index];
      FinishedResolvable(graph, order, index);
      return None;
    }
  }

  lemma StackDescends(g: Graph, stack: set<int>, index: int, dependency: int)
    requires forall v | v in stack :: Descends(g, v, index)
    requires Edge(g, index, dependency)
    ensures forall v | v in stack + {index} :: Descends(g, v, dependency)
  {
    forall v | v in stack + {index} ensures Descends(g, v, dependency) {
      DescendsStep(g, v, index, dependency);
    }
  }

  lemma FailureSpreads(g: Graph, index: int, dependency: int)
    requires Edge(g, index, dependency)
    ensures ReachesMissing(g, dependency) ==> ReachesMissing(g, index)
    ensures ReachesCycle(g, dependency) ==> ReachesCycle(g, index)
  {
    forall b | Reaches(g, dependency, b) ensures Reaches(g, index, b) {
      EdgeThenReaches(g, index, dependency, b);
    }
  }

  lemma ReachedByNext(g: Graph, roots: seq<int>, n: nat)
    requires n < |roots|
    ensures forall b :: ReachedBy(g, roots[..n + 1], b) <==> ReachedBy(g, roots[..n], b) || Reaches(g, roots[n], b)
  {
    assert roots[..n + 1] == roots[..n] + [roots[n]];
  }

  /** Once every dependency has been visited, the step itself may be appended. */
  lemma CloseStep(g: Graph, order: seq<int>, before: set<int>, index: int)
    requires index in g && Finished(g, order)
    requires forall b :: b in order <==> b in before || ReachedBy(g, g[index].dependsOn, b)
    ensures Finished(g, order + [index])
    ensures forall b :: b in order + [index] <==> b in before || Reaches(g, index, b)
  {
    forall d | d in g[index].dependsOn ensures d in order {
      ReachesSelf(g, d);
      assert ReachedBy(g, g[index].dependsOn, d);
    }
    var next := order + [index];
    forall k | 0 <= k < |next| ensures next[k] in g && forall d | d in g[next[k]].dependsOn :: d in next[..k] {
      assert next[..k] == order[..k];
    }
    forall b ensures Reaches(g, index, b) <==> b == index || ReachedBy(g, g[index].dependsOn, b) {
      ReachesSelf(g, index);
      if Reaches(g, index, b) {
        ReachesUnfolds(g, index, b);
      }
      if ReachedBy(g, g[index].dependsOn, b) {
        var d :| d in g[index].dependsOn && Reaches(g, d, b);
        EdgeThenReaches(g, index, d, b);
      }
    }
  }

  ghost predicate ReachedBy(g: Graph, roots: seq<int>, b: int) {
    exists d :: d in roots && Reaches(g, d, b)
  }

  /** The search over all direct dependencies of a step finishes. */
  ghost predicate AncestorsDefined(g: Graph, roots: seq<int>) {
    forall d | d in roots :: Resolvable(g, d)
  }

  method AncestorIndices(steps: seq<WorkflowStep>, step: WorkflowStep) returns (r: Result<seq<int>, WorkflowError>)
    ensures r == Err(StepIndexDuplicate) <==> !UniqueIndices(steps)
    ensures r.Ok? <==> UniqueIndices(steps) && AncestorsDefined(GraphOf(steps), step.dependsOn)
    ensures r.Ok? ==> forall i, j | 0 <= i < j < |r.value| :: r.value[i] < r.value[j]
    ensures r.Ok? ==> forall b :: b in r.value <==> ReachedBy(GraphOf(steps), step.dependsOn, b)
    ensures r == Err(DependencyMissing) ==> exists d :: d in step.dependsOn && ReachesMissing(GraphOf(steps), d)
    ensures r == Err(CycleDetected) ==> exists d :: d in step.dependsOn && ReachesCycle(GraphOf(steps), d)
  {
    var mapped := StepMap(steps);
    if mapped.Err? {
      return Err(mapped.error);
    }
    var g := mapped.value;
    var search := new AncestorSearch(g);
    for n := 0 to |step.dependsOn|
      invariant search.Valid() && search.graph == g && search.visiting == {} && fresh(search)
      invariant forall m | 0 <= m < n :: Resolvable(g, step.dependsOn[m])
      invariant forall b :: b in search.result <==> ReachedBy(g, step.dependsOn[..n], b)
    {
      var failure := search.Visit(step.dependsOn[n]);
      if failure.Some? {
        assert step.dependsOn[n] in step.dependsOn;
        return Err(failure.value);
      }
      ReachedByNext(g, step.dependsOn, n);
    }
    assert step.dependsOn[..|step.dependsOn|] == step.dependsOn;
    return Ok(SortedInts(search.result));
  }

  /** A scheduled graph answers for every step, and all ancestors sit in strictly earlier waves. */
  lemma AncestorsRunEarlier(g: Graph, waves: seq<seq<WorkflowStep>>, k: nat, s: WorkflowStep)
    requires KeyedByIndex(g) && IsSchedule(g, waves) && Closed(g)
    requires k < |waves| && s in waves[k]
    ensures AncestorsDefined(g, s.dependsOn)
    ensures forall b | ReachedBy(g, s.dependsOn, b) :: exists n :: 0 <= n < k && g[b] in waves[n]
  {
    ScheduledIsAcyclic(g, waves);
    forall d, b | d in s.dependsOn && Reaches(g, d, b)
      ensures b in g && !OnCycle(g, b)
      ensures exists n :: 0 <= n < k && g[b] in waves[n]
    {
      assert d in g[s.index].dependsOn && !HasMissing(g, s.index);
      ReachStaysInside(g, d, b);
      EdgeThenReaches(g, s.index, d, b);
      AncestorWave(g, waves, k, s, d, b);
    }
  }

  lemma ReachStaysInside(g: Graph, a: int, b: int)
    requires Closed(g) && a in g && Reaches(g, a, b)
    ensures b in g
  {
    var p :| PathBetween(g, p, a, b);
    if |p| > 1 {
      assert Edge(g, p[|p| - 2], p[|p| - 2 + 1]);
      assert !HasMissing(g, p[|p| - 2]);
    }
  }

  lemma AncestorWave(g: Graph, waves: seq<seq<WorkflowStep>>, k: nat, s: WorkflowStep, d: int, b: int)
    requires KeyedByIndex(g) && IsSchedule(g, waves) && k < |waves| && s in waves[k]
    requires Edge(g, s.index, d) && Reaches(g, d, b) && b in g
    ensures exists n :: 0 <= n < k && g[b] in waves[n]
  {
    var n :| 0 <= n < |waves| && g[b] in waves[n];
    assert LongestChain(g, g[b].index, n) && LongestChain(g, s.index, k);
    var p :| PathBetween(g, p, d, b);
    var q :| PathFrom(g, q, b) && |q| == n + 1;
    assert IsPath(g, [s.index, d]);
    PathsJoin(g, [s.index, d], p);
    PathsJoin(g, [s.index, d][..1] + p, q);
    assert PathFrom(g, ([s.index, d][..1] + p)[..|p|] + q, s.index);
  }
}
