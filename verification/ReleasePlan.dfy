/** The plan a release is requested, approved and executed against, and its fingerprint. */
module ReleasePlan {
  import opened Outcomes
  import opened DeploymentRegistry
  import Compat = CompatibilityService
  import Pipeline = ReleasePipeline

  datatype PlannedState = Unregistered | Known(state: Compat.State)

  datatype PlannedAdapter = PlannedAdapter(key: Compat.Key, state: PlannedState)

  datatype Plan = Plan(
    targetSlot: Slot, targetVersion: string, targetEndpoint: string,
    previousSlot: Option<Slot>, previousVersion: Option<string>,
    smokeUrl: bool, externalActuation: bool,
    adapters: seq<PlannedAdapter>)

  /** SHA-256 of the canonical plan body, taken to be injective. */
  datatype Fingerprint = Digest(body: Plan)

  datatype PlanError = UnknownTarget | EmptyAdapterSet | AdapterNotRegistered | MockAdapter | BlockedAdapter

  function StateOf(m: Compat.Matrix, key: Compat.Key): PlannedState {
    if key in m.rows then Known(m.rows[key]) else Unregistered
  }

  predicate Plannable(m: Compat.Matrix, registry: map<string, string>, id: string) {
    Pipeline.Installed(registry, id) && StateOf(m, Pipeline.KeyOf(registry, id)) != Known(Compat.Blocked)
  }

  /** The plan describes these tables and exactly these adapters, in order. */
  ghost predicate Describes(p: Plan, reg: Registry, m: Compat.Matrix, registry: map<string, string>,
                            smokeUrl: bool, external: bool, target: Slot, requested: seq<string>) {
    && target in reg && p.targetSlot == target
    && p.targetVersion == reg[target].version && p.targetEndpoint == reg[target].endpoint
    && p.previousSlot == ActiveSlot(reg)
    && p.previousVersion == (if ActiveSlot(reg).None? then None else Some(reg[ActiveSlot(reg).value].version))
    && p.smokeUrl == smokeUrl && p.externalActuation == external
    && |p.adapters| == |requested|
    && forall n | 0 <= n < |requested| ::
         && Plannable(m, registry, requested[n])
         && p.adapters[n] ==
           PlannedAdapter(Pipeline.KeyOf(registry, requested[n]), StateOf(m, Pipeline.KeyOf(registry, requested[n])))
  }

  function AdapterIds(adapters: seq<PlannedAdapter>): (r: seq<string>)
    ensures |r| == |adapters| && forall n | 0 <= n < |adapters| :: r[n] == adapters[n].key.adapter
  {
    if adapters == [] then [] else [adapters[0].key.adapter] + AdapterIds(adapters[1..])
  }

  /** The names stored in a plan are the set it was made for. */
  lemma DescribedIds(p: Plan, reg: Registry, m: Compat.Matrix, registry: map<string, string>,
                     smokeUrl: bool, external: bool, target: Slot, requested: seq<string>)
    requires Describes(p, reg, m, registry, smokeUrl, external, target, requested)
    ensures AdapterIds(p.adapters) == requested
  {
    forall n | 0 <= n < |requested| ensures AdapterIds(p.adapters)[n] == requested[n] {
      assert Plannable(m, registry, requested[n]);
    }
  }

  /** Why an adapter may not enter a plan. */
  function RefusalOf(m: Compat.Matrix, registry: map<string, string>, id: string): Option<PlanError> {
    if id !in registry then Some(AdapterNotRegistered)
    else if Compat.IsMock(registry[id]) then Some(MockAdapter)
    else if StateOf(m, Pipeline.KeyOf(registry, id)) == Known(Compat.Blocked) then Some(BlockedAdapter)
    else None
  }

  /** The first adapter that may not enter decides the error. */
  ghost predicate FirstRefusal(m: Compat.Matrix, registry: map<string, string>, requested: seq<string>, e: PlanError) {
    exists n :: 0 <= n < |requested| && RefusalOf(m, registry, requested[n]) == Some(e)
      && forall k | 0 <= k < n :: Plannable(m, registry, requested[k])
  }

  method PlanAdapters(service: Compat.CompatibilityService, requested: seq<string>)
      returns (r: Result<seq<PlannedAdapter>, PlanError>)
    ensures r.Ok? <==> forall id | id in requested :: Plannable(service.Tables(), service.registry, id)
    ensures r.Err? ==> FirstRefusal(service.Tables(), service.registry, requested, r.error)
    ensures r.Ok? ==> |r.value| == |requested|
    ensures r.Ok? ==> forall n | 0 <= n < |requested| ::
      && requested[n] in service.registry
      && r.value[n] == PlannedAdapter(Pipeline.KeyOf(service.registry, requested[n]),
                                      StateOf(service.Tables(), Pipeline.KeyOf(service.registry, requested[n])))
  {
    var adapters: seq<PlannedAdapter> := [];
    for n := 0 to |requested|
      invariant |adapters| == n
      invariant forall k | 0 <= k < n :: Plannable(service.Tables(), service.registry, requested[k])
      invariant forall k | 0 <= k < n ::
        adapters[k] == PlannedAdapter(Pipeline.KeyOf(service.registry, requested[k]),
                                      StateOf(service.Tables(), Pipeline.KeyOf(service.registry, requested[k])))
    {
      var id := requested[n];
      assert id in requested;
      if id !in service.registry {
        return Err(AdapterNotRegistered);
      }
      var key := Pipeline.KeyOf(service.registry, id);
      if Compat.IsMock(key.version) {
        return Err(MockAdapter);
      }
      var status := service.Get(key);
      var state := if status.Err? then Unregistered else Known(status.value.state);
      if state == Known(Compat.Blocked) {
        return Err(BlockedAdapter);
      }
      adapters := adapters + [PlannedAdapter(key, state)];
    }
    return Ok(adapters);
  }
}
