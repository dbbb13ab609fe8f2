/** The fail-closed release gate, and the manifest that is built once it opens. */
module ReleaseGate {
  import opened Outcomes
  import opened Artifacts
  import opened Collections

  datatype Reason =
    | TaskNotSucceeded(taskStatus: TaskStatus)
    | RequiredMissing(kind: Kind)
    | RequiredNotApproved(kind: Kind, status: ArtifactStatus)
    | Sha256Invalid(id: nat)
    | LatestRejected(kind: Kind)
    | HumanApprovalIncomplete

  datatype Decision = Decision(allowed: bool, reasons: seq<Reason>, selected: seq<nat>)

  function LowerHex(c: char): char {
    if 'A' <= c <= 'F' then c - 'A' + 'a' else c
  }

  /** The gate accepts either case. */
  predicate ShaAccepted(s: string) {
    |s| == 64 && forall c | c in s :: IsHexDigit(LowerHex(c))
  }

  // ---- When a reason is given ----

  /** The gate objects to the latest artifact of a required kind. */
  predicate RequiredReason(artifacts: seq<Artifact>, kind: Kind, r: Reason) {
    var latest := Latest(artifacts, kind);
    if latest.None? then r == RequiredMissing(kind)
    else
      var a := artifacts[latest.value];
      || (a.status != Approved && r == RequiredNotApproved(kind, a.status))
      || (!ShaAccepted(a.sha256) && r == Sha256Invalid(a.id))
  }

  ghost predicate HasUnapproved(artifacts: seq<Artifact>) {
    exists kind :: Latest(artifacts, kind).Some? && artifacts[Latest(artifacts, kind).value].status != Approved
  }

  ghost predicate ObjectsToLatest(contract: Contract, artifacts: seq<Artifact>, r: Reason) {
    || (r.LatestRejected? && Latest(artifacts, r.kind).Some? &&
      artifacts[Latest(artifacts, r.kind).value].status == Rejected)
    || (contract.approval == BeforePublish && r == HumanApprovalIncomplete && HasUnapproved(artifacts))
  }

  ghost predicate Given(contract: Contract, artifacts: seq<Artifact>, status: TaskStatus, r: Reason) {
    || (status != Succeeded && r == TaskNotSucceeded(status))
    || (exists kind :: kind in contract.required && RequiredReason(artifacts, kind, r))
    || ObjectsToLatest(contract, artifacts, r)
  }

  function SelectedIds(artifacts: seq<Artifact>, kinds: seq<Kind>): seq<nat> {
    if kinds == [] then []
    else
      var front := SelectedIds(artifacts, kinds[..|kinds| - 1]);
      var latest := Latest(artifacts, kinds[|kinds| - 1]);
      if latest.None? then front else front + [artifacts[latest.value].id]
  }

  /** The gate opens: every required kind is present, approved and intact, and nothing else objects. */
  ghost predicate Opens(contract: Contract, artifacts: seq<Artifact>, status: TaskStatus) {
    && status == Succeeded
    && (forall kind | kind in contract.required ::
          Latest(artifacts, kind).Some?
          && artifacts[Latest(artifacts, kind).value].status == Approved
          && ShaAccepted(artifacts[Latest(artifacts, kind).value].sha256))
    && (forall kind | Latest(artifacts, kind).Some? :: artifacts[Latest(artifacts, kind).value].status != Rejected)
    && (contract.approval == BeforePublish ==>
          forall kind | Latest(artifacts, kind).Some? :: artifacts[Latest(artifacts, kind).value].status == Approved)
  }

  lemma OpensWithoutReason(contract: Contract, artifacts: seq<Artifact>, status: TaskStatus)
    ensures Opens(contract, artifacts, status) <==> forall r :: !Given(contract, artifacts, status, r)
  {
    if forall r :: !Given(contract, artifacts, status, r) {
      assert !Given(contract, artifacts, status, TaskNotSucceeded(status));
      forall kind | kind in contract.required
        ensures Latest(artifacts, kind).Some?
        ensures artifacts[Latest(artifacts, kind).value].status == Approved
        ensures ShaAccepted(artifacts[Latest(artifacts, kind).value].sha256)
      {
        assert !RequiredReason(artifacts, kind, RequiredMissing(kind)) by {
          assert !Given(contract, artifacts, status, RequiredMissing(kind));
        }
        var a := artifacts[Latest(artifacts, kind).value];
        assert !Given(contract, artifacts, status, RequiredNotApproved(kind, a.status));
        assert !Given(contract, artifacts, status, Sha256Invalid(a.id));
      }
      forall kind | Latest(artifacts, kind).Some? ensures artifacts[Latest(artifacts, kind).value].status != Rejected {
        assert !Given(contract, artifacts, status, LatestRejected(kind));
      }
      assert !Given(contract, artifacts, status, HumanApprovalIncomplete);
    }
  }

  // ---- The gate ----

  /** First loop: the latest artifact of each kind, and the kinds in the order they were first seen. */
  method FoldLatest(artifacts: seq<Artifact>) returns (latest: map<Kind, nat>, order: seq<Kind>)
    ensures forall kind :: kind in latest <==> Latest(artifacts, kind).Some?
    ensures forall kind | kind in latest :: Latest(artifacts, kind) == Some(latest[kind])
    ensures forall kind :: kind in order <==> kind in latest
  {
    latest, order := map[], [];
    for n := 0 to |artifacts|
      invariant forall kind :: kind in latest <==> Latest(artifacts[..n], kind).Some?
      invariant forall kind | kind in latest :: Latest(artifacts[..n], kind) == Some(latest[kind])
      invariant forall kind :: kind in order <==> kind in latest
    {
      assert artifacts[..n + 1][..n] == artifacts[..n];
      var kind := artifacts[n].kind;
      if kind !in latest {
        latest, order := latest[kind := n], order + [kind];
      } else if artifacts[n].revision > artifacts[latest[kind]].revision {
        latest := latest[kind := n];
      }
    }
    assert artifacts[..|artifacts|] == artifacts;
  }

  method CheckRequired(required: seq<Kind>, artifacts: seq<Artifact>, latest: map<Kind, nat>)
      returns (reasons: seq<Reason>, selected: seq<nat>)
    requires forall kind :: kind in latest <==> Latest(artifacts, kind).Some?
    requires forall kind | kind in latest :: Latest(artifacts, kind) == Some(latest[kind])
    ensures forall r :: r in reasons <==> exists kind :: kind in required && RequiredReason(artifacts, kind, r)
    ensures selected == SelectedIds(artifacts, required)
  {
    reasons, selected := [], [];
    for n := 0 to |required|
      invariant forall r :: r in reasons <==> exists kind :: kind in required[..n] && RequiredReason(artifacts, kind, r)
      invariant selected == SelectedIds(artifacts, required[..n])
    {
      assert required[..n + 1] == required[..n] + [required[n]] && required[..n + 1][..n] == required[..n];
      ghost var before := reasons;
      var kind := required[n];
      if kind !in latest {
        reasons := reasons + [RequiredMissing(kind)];
      } else {
        var a := artifacts[latest[kind]];
        selected := selected + [a.id];
        if a.status != Approved {
          reasons := reasons + [RequiredNotApproved(kind, a.status)];
        }
        if !ShaAccepted(a.sha256) {
          reasons := reasons + [Sha256Invalid(a.id)];
        }
      }
      assert forall r :: r in reasons <==> r in before || RequiredReason(artifacts, kind, r);
    }
    assert required[..|required|] == required;
  }

  /** Third loop, and the demand for every latest artifact to be approved. */
  method CheckLatest(contract: Contract, artifacts: seq<Artifact>, latest: map<Kind, nat>, order: seq<Kind>)
      returns (reasons: seq<Reason>)
    requires forall kind :: kind in latest <==> Latest(artifacts, kind).Some?
    requires forall kind | kind in latest :: Latest(artifacts, kind) == Some(latest[kind])
    requires forall kind :: kind in order <==> kind in latest
    ensures forall r :: r in reasons <==> ObjectsToLatest(contract, artifacts, r)
  {
    reasons := [];
    for n := 0 to |order|
      invariant forall r ::
        r in reasons <==> (r.LatestRejected? && r.kind in order[..n] && artifacts[latest[r.kind]].status == Rejected)
    {
      if artifacts[latest[order[n]]].status == Rejected {
        reasons := reasons + [LatestRejected(order[n])];
      }
      assert order[..n + 1] == order[..n] + [order[n]];
    }
    assert order[..|order|] == order;
    if contract.approval == BeforePublish {
      var unapproved := exists kind :: kind in order && artifacts[latest[kind]].status != Approved;
      assert unapproved <==> HasUnapproved(artifacts);
      if unapproved {
        reasons := reasons + [HumanApprovalIncomplete];
      }
    }
  }

  method EvaluateReleaseGate(contract: Contract, artifacts: seq<Artifact>, status: TaskStatus) returns (d: Decision)
    ensures d.allowed <==> Opens(contract, artifacts, status)
    ensures forall r :: r in d.reasons <==> Given(contract, artifacts, status, r)
    ensures forall i, j | 0 <= i < j < |d.reasons| :: d.reasons[i] != d.reasons[j]
    ensures d.selected == SelectedIds(artifacts, contract.required)
  {
    var reasons: seq<Reason> := if status != Succeeded then [TaskNotSucceeded(status)] else [];
    var latest, order := FoldLatest(artifacts);
    var required, selected := CheckRequired(contract.required, artifacts, latest);
    var others := CheckLatest(contract, artifacts, latest, order);
    reasons := reasons + required + others;
    assert forall r :: r in reasons <==> Given(contract, artifacts, status, r);
    OpensWithoutReason(contract, artifacts, status);
    assert reasons != [] ==> reasons[0] in reasons;
    return Decision(reasons == [], Distinct(reasons), selected);
  }

  // ---- The manifest ----

  datatype ReleaseArtifact = ReleaseArtifact(id: nat, kind: Kind, revision: nat, sha256: string, producer: string)

  datatype Manifest = Manifest(projectId: string, taskId: string, artifacts: seq<ReleaseArtifact>)

  datatype ManifestError = NoArtifacts | MixedOwners | Unapproved

  /** The kinds in the order of their names. */
  function KindRank(kind: Kind): nat {
    match kind
    case Code => 0
    case Content => 1
    case Design => 2
    case Other => 3
    case ReleaseKind => 4
    case TestReport => 5
  }

  predicate ListedBefore(a: Artifact, b: Artifact) {
    || KindRank(a.kind) < KindRank(b.kind)
    || (a.kind == b.kind && a.revision < b.revision)
    || (a.kind == b.kind && a.revision == b.revision && a.id <= b.id)
  }

  function InsertListed(a: Artifact, values: seq<Artifact>): seq<Artifact> {
    if values == [] || ListedBefore(a, values[0]) then [a] + values else [values[0]] + InsertListed(a, values[1..])
  }

  function Listed(values: seq<Artifact>): seq<Artifact> {
    if values == [] then [] else InsertListed(values[0], Listed(values[1..]))
  }

  function EntryOf(a: Artifact): ReleaseArtifact {
    ReleaseArtifact(a.id, a.kind, a.revision, a.sha256, a.producer)
  }

  function Entries(values: seq<Artifact>): (r: seq<ReleaseArtifact>)
    ensures |r| == |values| && forall n | 0 <= n < |values| :: r[n] == EntryOf(values[n])
  {
    if values == [] then [] else [EntryOf(values[0])] + Entries(values[1..])
  }

  predicate OneOwner(values: seq<Artifact>) {
    forall a, b | a in values && b in values :: a.projectId == b.projectId && a.taskId == b.taskId
  }

  function BuildReleaseManifest(values: seq<Artifact>): Result<Manifest, ManifestError> {
    if values == [] then Err(NoArtifacts)
    else if !OneOwner(values) then Err(MixedOwners)
    else if exists a :: a in values && a.status != Approved then Err(Unapproved)
    else Ok(Manifest(values[0].projectId, values[0].taskId, Entries(Listed(values))))
  }

  ghost predicate ListedInOrder(values: seq<Artifact>) {
    forall i, j | 0 <= i < j < |values| :: ListedBefore(values[i], values[j])
  }

  lemma {:induction false} InsertListedSorts(a: Artifact, values: seq<Artifact>)
    requires ListedInOrder(values)
    ensures ListedInOrder(InsertListed(a, values))
    ensures multiset(InsertListed(a, values)) == multiset(values) + multiset{a}
  {
    if values != [] && !ListedBefore(a, values[0]) {
      var rest := InsertListed(a, values[1..]);
      InsertListedSorts(a, values[1..]);
      assert values == [values[0]] + values[1..];
      RankInjective(a.kind, values[0].kind);
      forall k | 0 <= k < |rest| ensures ListedBefore(values[0], rest[k]) {
        assert rest[k] in multiset(rest);
        assert rest[k] == a || rest[k] in values[1..];
      }
    }
  }

  lemma RankInjective(a: Kind, b: Kind)
    ensures KindRank(a) == KindRank(b) ==> a == b
  {
  }

  lemma {:induction false} ListedSorts(values: seq<Artifact>)
    ensures ListedInOrder(Listed(values)) && multiset(Listed(values)) == multiset(values)
  {
    if values != [] {
      ListedSorts(values[1..]);
      InsertListedSorts(values[0], Listed(values[1..]));
      assert values == [values[0]] + values[1..];
    }
  }

  ghost predicate EntriesInOrder(entries: seq<ReleaseArtifact>) {
    forall i, j | 0 <= i < j < |entries| ::
      KindRank(entries[i].kind) < KindRank(entries[j].kind) ||
        (entries[i].kind == entries[j].kind && entries[i].revision <= entries[j].revision)
  }

  lemma ListedEntriesInOrder(values: seq<Artifact>)
    requires ListedInOrder(values)
    ensures EntriesInOrder(Entries(values))
  {
    forall i, j | 0 <= i < j < |values| ensures ListedBefore(values[i], values[j]) {}
  }

  /** A manifest lists each artifact once, by kind, then revision. */
  lemma ManifestLists(values: seq<Artifact>)
    ensures BuildReleaseManifest(values).Ok? <==>
      values != [] && OneOwner(values) && forall a | a in values :: a.status == Approved
    ensures (BuildReleaseManifest(values).Ok? ==> var entries := BuildReleaseManifest(values).value.artifacts;
      multiset(entries) == multiset(Entries(values)) && EntriesInOrder(entries))
  {
    ListedSorts(values);
    ListedEntries(values);
    ListedEntriesInOrder(Listed(values));
  }

  lemma {:induction false} InsertedEntry(a: Artifact, values: seq<Artifact>)
    ensures multiset(Entries(InsertListed(a, values))) == multiset(Entries(values)) + multiset{EntryOf(a)}
  {
    if values == [] || ListedBefore(a, values[0]) {
      assert ([a] + values)[1..] == values;
    } else {
      InsertedEntry(a, values[1..]);
      assert ([values[0]] + InsertListed(a, values[1..]))[1..] == InsertListed(a, values[1..]);
    }
  }

  lemma {:induction false} ListedEntries(values: seq<Artifact>)
    ensures multiset(Entries(Listed(values))) == multiset(Entries(values))
  {
    if values != [] {
      ListedEntries(values[1..]);
      InsertedEntry(values[0], Listed(values[1..]));
    }
  }
}
