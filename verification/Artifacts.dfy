/** Task contracts, artifact rows and the latest revision of a kind. */
module Artifacts {
  import opened Outcomes

  datatype Kind = Content | Design | Code | TestReport | ReleaseKind | Other

  datatype ArtifactStatus = Draft | Generated | Testing | AwaitingReview | Approved | Rejected | Released | Superseded

  /** An artifact row; a task's artifacts are numbered in the order they are created. */
  datatype Artifact = Artifact(
    id: nat, projectId: string, taskId: string, kind: Kind, revision: nat,
    status: ArtifactStatus, sha256: string, producer: string, inputs: seq<nat>)

  datatype TaskStatus = Queued | Running | WaitingApproval | Succeeded | Failed | Blocked | Cancelled

  datatype ApprovalMode = NoApproval | BeforePublish

  datatype Contract = Contract(projectId: string, taskId: string, required: seq<Kind>, approval: ApprovalMode)

  predicate IsHexDigit(c: char) {
    ('0' <= c <= '9') || ('a' <= c <= 'f')
  }

  function Zeros(n: nat): (r: string)
    ensures |r| == n && forall k | 0 <= k < n :: r[k] == '0'
  {
    if n == 0 then "" else Zeros(n - 1) + ['0']
  }

  /** What the store returns as a digest: 64 lower-case hexadecimal digits. */
  predicate IsSha256(s: string) {
    |s| == 64 && forall c | c in s :: IsHexDigit(c)
  }

  type Sha256Hex = s: string | IsSha256(s) witness Zeros(64)

  function Kinds(artifacts: seq<Artifact>): set<Kind> {
    set a | a in artifacts :: a.kind
  }

  /** The gate's fold: the first artifact of the kind with the highest revision. */
  function Latest(artifacts: seq<Artifact>, kind: Kind): (r: Option<nat>)
    ensures r.Some? ==> r.value < |artifacts| && artifacts[r.value].kind == kind
    ensures r.Some? ==>
      forall n | 0 <= n < |artifacts| && artifacts[n].kind == kind ::
        artifacts[n].revision <= artifacts[r.value].revision
    ensures r.None? ==> forall n | 0 <= n < |artifacts| :: artifacts[n].kind != kind
  {
    if artifacts == [] then None
    else
      var n := |artifacts| - 1;
      var before := Latest(artifacts[..n], kind);
      if artifacts[n].kind == kind && (before.None? || artifacts[n].revision > artifacts[before.value].revision)
        then Some(n) else before
  }

  /** The services' query: ordered by revision descending, first row. */
  ghost predicate IsNewest(artifacts: seq<Artifact>, kind: Kind, id: nat) {
    && id < |artifacts| && artifacts[id].kind == kind
    && forall n | 0 <= n < |artifacts| && artifacts[n].kind == kind :: artifacts[n].revision <= artifacts[id].revision
  }

  /** Within a kind, later artifacts have higher revisions. */
  ghost predicate RevisionsGrow(artifacts: seq<Artifact>) {
    forall m, n | 0 <= m < n < |artifacts| && artifacts[m].kind == artifacts[n].kind ::
      artifacts[m].revision < artifacts[n].revision
  }

  /** Where revisions grow, the two ways to find the latest revision agree. */
  lemma LatestIsNewest(artifacts: seq<Artifact>, kind: Kind, id: nat)
    requires RevisionsGrow(artifacts)
    ensures Latest(artifacts, kind) == Some(id) <==> IsNewest(artifacts, kind, id)
  {
    if IsNewest(artifacts, kind, id) {
      assert Latest(artifacts, kind).Some?;
    }
  }
}
