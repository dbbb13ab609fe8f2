/** Qualify a whole set of adapters first, then promote the set in one transaction. */
module ReleasePipeline {
  import opened Outcomes
  import opened Collections
  import opened CompatibilityService

  datatype PipelineError =
    | AdapterNotRegistered(adapterId: string)
    | MockNotAllowed(adapterId: string)
    | QualificationError(adapterId: string)
    | PromotionError

  datatype ReleaseItem = ReleaseItem(key: Key, qualificationPassed: bool, promoted: bool)

  datatype ReleaseResult = ReleaseResult(
    passed: bool, promoted: bool, items: seq<ReleaseItem>, errors: seq<PipelineError>)

  function NonEmpty(ids: seq<string>): (r: seq<string>)
    ensures forall id :: id in r <==> id in ids && id != ""
  {
    if ids == [] then [] else (if ids[0] == "" then [] else [ids[0]]) + NonEmpty(ids[1..])
  }

  /** The de-duplicated, non-empty names of a release set. */
  function Requested(ids: seq<string>): seq<string> {
    Distinct(NonEmpty(ids))
  }

  predicate Installed(registry: map<string, string>, id: string) {
    id in registry && !IsMock(registry[id])
  }

  function KeyOf(registry: map<string, string>, id: string): Key
    requires id in registry
  {
    Key(id, registry[id])
  }

  ghost function QualifyAll(m: Matrix, registry: map<string, string>, ids: seq<string>,
                            answer: string -> Report): Matrix {
    if ids == [] then m
    else
      var last := ids[|ids| - 1];
      QualifyStep(QualifyAll(m, registry, ids[..|ids| - 1], answer), registry, last, answer(last))
  }

  ghost predicate AllInstalled(registry: map<string, string>, ids: seq<string>) {
    forall id | id in ids :: Installed(registry, id)
  }

  /** Every adapter of the set may be qualified and answers with a passing report. */
  ghost predicate AllPass(m: Matrix, registry: map<string, string>, ids: seq<string>, answer: string -> Report) {
    forall id | id in ids :: CanQualify(m, registry, id) && answer(id) == Reported(true)
  }

  /** The installed version has an entry whose latest evidence is passing. */
  ghost predicate Vouched(m: Matrix, registry: map<string, string>, id: string) {
    && id in registry && KeyOf(registry, id) in m.rows
    && Latest(m.quals, KeyOf(registry, id)) == Some(true)
  }

  // ---- What qualification can change ----

  /** No version is active afterwards that was not active before. */
  ghost predicate NoNewActive(before: Matrix, after: Matrix) {
    forall k | k in after.rows && after.rows[k] == Active :: k in before.rows && before.rows[k] == Active
  }

  ghost predicate SameEntry(before: Matrix, after: Matrix, key: Key) {
    && Latest(after.quals, key) == Latest(before.quals, key)
    && (key in after.rows <==> key in before.rows)
    && (key in before.rows ==> after.rows[key] == before.rows[key])
  }

  lemma StepTouchesOne(m: Matrix, registry: map<string, string>, id: string, outcome: Report, key: Key)
    requires key.adapter != id
    ensures SameEntry(m, QualifyStep(m, registry, id, outcome), key)
  {
    var after := QualifyStep(m, registry, id, outcome);
    if after.quals != m.quals {
      assert after.quals[..|after.quals| - 1] == m.quals;
    }
  }

  lemma StepRecords(m: Matrix, registry: map<string, string>, id: string, outcome: Report)
    requires CanQualify(m, registry, id) && outcome.Reported?
    ensures var after := QualifyStep(m, registry, id, outcome);
      && KeyOf(registry, id) in after.rows
      && Latest(after.quals, KeyOf(registry, id)) == Some(outcome.passed)
  {
  }

  lemma StepSound(m: Matrix, registry: map<string, string>, id: string, outcome: Report)
    requires Sound(m)
    ensures Sound(QualifyStep(m, registry, id, outcome))
    ensures NoNewActive(m, QualifyStep(m, registry, id, outcome))
  {
    if CanQualify(m, registry, id) && !outcome.RegistrationFailed? {
      ApplySound(m, RegisterTx(KeyOf(registry, id)));
      if outcome.Reported? {
        QualifiedSound(Registered(m, KeyOf(registry, id)), KeyOf(registry, id), outcome.passed);
      }
    }
  }

  lemma {:induction false} QualifyAllSound(m: Matrix, registry: map<string, string>, ids: seq<string>,
                            answer: string -> Report)
    requires Sound(m)
    ensures Sound(QualifyAll(m, registry, ids, answer))
    ensures NoNewActive(m, QualifyAll(m, registry, ids, answer))
  {
    if ids != [] {
      var front, last := ids[..|ids| - 1], ids[|ids| - 1];
      QualifyAllSound(m, registry, front, answer);
      StepSound(QualifyAll(m, registry, front, answer), registry, last, answer(last));
    }
  }

  lemma {:induction false} QualifyAllTouches(m: Matrix, registry: map<string, string>, ids: seq<string>,
                            answer: string -> Report, key: Key)
    requires key.adapter !in ids
    ensures SameEntry(m, QualifyAll(m, registry, ids, answer), key)
  {
    if ids != [] {
      var front, last := ids[..|ids| - 1], ids[|ids| - 1];
      assert last in ids && key.adapter !in front;
      QualifyAllTouches(m, registry, front, answer, key);
      StepTouchesOne(QualifyAll(m, registry, front, answer), registry, last, answer(last), key);
    }
  }

  lemma CanQualifyAfter(m: Matrix, registry: map<string, string>, front: seq<string>, id: string,
                        answer: string -> Report)
    requires id !in front
    ensures CanQualify(QualifyAll(m, registry, front, answer), registry, id) <==> CanQualify(m, registry, id)
  {
    if id in registry {
      QualifyAllTouches(m, registry, front, answer, KeyOf(registry, id));
    }
  }

  /** A set that passes is registered, and each member's latest evidence is passing. */
  lemma {:induction false} PassedSetIsQualified(m: Matrix, registry: map<string, string>, ids: seq<string>,
                            answer: string -> Report)
    requires AllPass(m, registry, ids, answer)
    requires forall i, j | 0 <= i < j < |ids| :: ids[i] != ids[j]
    ensures forall id | id in ids :: Vouched(QualifyAll(m, registry, ids, answer), registry, id)
  {
    if ids != [] {
      var front, last := ids[..|ids| - 1], ids[|ids| - 1];
      assert forall id | id in front :: id in ids;
      PassedSetIsQualified(m, registry, front, answer);
      var before := QualifyAll(m, registry, front, answer);
      assert last !in front && last in ids;
      CanQualifyAfter(m, registry, front, last, answer);
      StepRecords(before, registry, last, answer(last));
      forall id | id in ids && id != last
        ensures Vouched(QualifyAll(m, registry, ids, answer), registry, id)
      {
        assert id in front;
        StepTouchesOne(before, registry, last, answer(last), KeyOf(registry, id));
      }
    }
  }

  function Keys(registry: map<string, string>, ids: seq<string>): (r: seq<Key>)
    requires forall id | id in ids :: id in registry
    ensures |r| == |ids| && forall n | 0 <= n < |ids| :: r[n] == KeyOf(registry, ids[n])
  {
    if ids == [] then [] else [KeyOf(registry, ids[0])] + Keys(registry, ids[1..])
  }

  // ---- The pipeline ----

  function PreflightError(registry: map<string, string>, id: string): Option<PipelineError> {
    if id !in registry then Some(AdapterNotRegistered(id))
    else if IsMock(registry[id]) then Some(MockNotAllowed(id))
    else None
  }

  /** The adapters that may not be qualified, in order, each with its own error. */
  function PreflightErrors(registry: map<string, string>, ids: seq<string>): (r: seq<PipelineError>)
    ensures forall e :: e in r <==> exists id :: id in ids && PreflightError(registry, id) == Some(e)
  {
    if ids == [] then []
    else
      var front, error := PreflightErrors(registry, ids[..|ids| - 1]), PreflightError(registry, ids[|ids| - 1]);
      if error.Some? then front + [error.value] else front
  }

  predicate Answers(m: Matrix, registry: map<string, string>, id: string, answer: string -> Report) {
    CanQualify(m, registry, id) && answer(id).Reported?
  }

  /** The adapters whose qualification raised, in order. */
  function QualificationErrors(m: Matrix, registry: map<string, string>, ids: seq<string>,
                            answer: string -> Report): (r: seq<PipelineError>)
    ensures r == [] <==> forall id | id in ids :: Answers(m, registry, id, answer)
    ensures forall e ::
      e in r <==> exists id :: id in ids && !Answers(m, registry, id, answer) && e == QualificationError(id)
  {
    if ids == [] then []
    else
      var front, last := QualificationErrors(m, registry, ids[..|ids| - 1], answer), ids[|ids| - 1];
      if Answers(m, registry, last, answer) then front else front + [QualificationError(last)]
  }

  method Preflight(service: CompatibilityService, requested: seq<string>)
      returns (preflight: seq<string>, errors: seq<PipelineError>)
    ensures errors == PreflightErrors(service.registry, requested)
    ensures errors == [] <==> AllInstalled(service.registry, requested)
    ensures errors == [] ==> preflight == requested
  {
    preflight, errors := [], [];
    for n := 0 to |requested|
      invariant errors == PreflightErrors(service.registry, requested[..n])
      invariant errors == [] <==> AllInstalled(service.registry, requested[..n])
      invariant errors == [] ==> preflight == requested[..n]
    {
      assert requested[..n + 1] == requested[..n] + [requested[n]] && requested[..n + 1][..n] == requested[..n];
      assert requested[n] in requested[..n + 1];
      if requested[n] !in service.registry {
        errors := errors + [AdapterNotRegistered(requested[n])];
      } else if IsMock(service.registry[requested[n]]) {
        errors := errors + [MockNotAllowed(requested[n])];
      } else {
        preflight := preflight + [requested[n]];
      }
    }
    assert requested[..|requested|] == requested;
  }

  method QualifySet(service: CompatibilityService, ids: seq<string>, answer: string -> Report)
      returns (passing: map<string, bool>, errors: seq<PipelineError>)
    requires AllInstalled(service.registry, ids)
    requires forall i, j | 0 <= i < j < |ids| :: ids[i] != ids[j]
    modifies service
    ensures service.Tables() == QualifyAll(old(service.Tables()), service.registry, ids, answer)
    ensures forall id | id in ids :: id in passing <==> Answers(old(service.Tables()), service.registry, id, answer)
    ensures forall id | id in passing :: id in ids && answer(id) == Reported(passing[id])
    ensures errors == QualificationErrors(old(service.Tables()), service.registry, ids, answer)
    ensures errors == [] <==> forall id | id in ids :: id in passing
  {
    passing, errors := map[], [];
    ghost var m := service.Tables();
    for n := 0 to |ids|
      invariant service.Tables() == QualifyAll(m, service.registry, ids[..n], answer)
      invariant forall id | id in ids[..n] :: id in passing <==> Answers(m, service.registry, id, answer)
      invariant forall id | id in passing :: id in ids[..n] && answer(id) == Reported(passing[id])
      invariant errors == QualificationErrors(m, service.registry, ids[..n], answer)
    {
      var id := ids[n];
      assert ids[..n + 1] == ids[..n] + [id] && ids[..n + 1][..n] == ids[..n];
      assert id !in ids[..n];
      CanQualifyAfter(m, service.registry, ids[..n], id, answer);
      var result := service.QualifyCurrent(id, answer(id));
      if result.Err? {
        errors := errors + [QualificationError(id)];
      } else {
        passing := passing[id := result.value];
      }
    }
    assert ids[..|ids|] == ids;
  }

  method Run(service: CompatibilityService, adapterIds: seq<string>, answer: string -> Report, promote: bool,
             commits: bool, rereads: bool)
      returns (r: Option<ReleaseResult>)
    modifies service
    ensures r.None? <==> Requested(adapterIds) == []
    ensures r.None? ==> service.Tables() == old(service.Tables())
    ensures r.Some? ==>
      Outcome(old(service.Tables()), service.Tables(), service.registry, Requested(adapterIds), answer, promote,
        commits, rereads, r.value)
  {
    var requested := Requested(adapterIds);
    if requested == [] {
      return None;
    }
    var preflight, preflightErrors := Preflight(service, requested);
    if preflightErrors != [] {
      return Some(ReleaseResult(false, false, [], preflightErrors));
    }
    var result := QualifyAndPromote(service, requested, answer, promote, commits, rereads);
    return Some(result);
  }

  /** The set passed the preflight. */
  method QualifyAndPromote(service: CompatibilityService, requested: seq<string>, answer: string -> Report,
                           promote: bool, commits: bool, rereads: bool)
      returns (r: ReleaseResult)
    requires AllInstalled(service.registry, requested) && requested != []
    requires forall i, j | 0 <= i < j < |requested| :: requested[i] != requested[j]
    modifies service
    ensures Outcome(old(service.Tables()), service.Tables(), service.registry, requested, answer, promote, commits,
      rereads, r)
  {
    ghost var m := service.Tables();
    var passing, errors := QualifySet(service, requested, answer);
    var keys := Keys(service.registry, requested);
    var allPassed := errors == [] && forall id | id in requested :: id in passing && passing[id];
    PassTells(m, service.registry, requested, answer, passing);
    var promoted := false;
    if allPassed && promote {
      promoted := PromoteSet(service, m, requested, keys, answer, commits, rereads);
      if !promoted {
        errors := errors + [PromotionError];
        allPassed := false;
      }
    }
    QualifiedItems(m, service.registry, requested, answer, passing, promoted);
    return ReleaseResult(allPassed, promoted, Items(keys, passing, promoted), errors);
  }

  method PromoteSet(service: CompatibilityService, ghost m: Matrix, requested: seq<string>, keys: seq<Key>,
                    ghost answer: string -> Report, commits: bool, rereads: bool) returns (promoted: bool)
    requires AllPass(m, service.registry, requested, answer)
    requires requested != [] && forall i, j | 0 <= i < j < |requested| :: requested[i] != requested[j]
    requires keys == Keys(service.registry, requested)
    requires service.Tables() == QualifyAll(m, service.registry, requested, answer)
    modifies service
    ensures promoted == (commits && rereads)
    ensures service.Tables() == if commits then ActivatedAll(old(service.Tables()), keys) else old(service.Tables())
  {
    PassedSetPromotes(m, service.registry, requested, answer);
    var result := service.PromoteMany(keys, commits, rereads);
    return result.Ok?;
  }

  function Items(keys: seq<Key>, passing: map<string, bool>, promoted: bool): (r: seq<ReleaseItem>)
    ensures |r| == |keys| && forall n | 0 <= n < |keys| :: r[n].key == keys[n] && r[n].promoted == promoted
    ensures forall n | 0 <= n < |keys| ::
      r[n].qualificationPassed <==> keys[n].adapter in passing && passing[keys[n].adapter]
  {
    if keys == [] then []
    else
      var passed := keys[0].adapter in passing && passing[keys[0].adapter];
      [ReleaseItem(keys[0], passed, promoted)] + Items(keys[1..], passing, promoted)
  }

  /** One item per adapter, with what its own qualification said. */
  ghost predicate ItemsTell(m: Matrix, registry: map<string, string>, ids: seq<string>, answer: string -> Report,
                            promoted: bool, items: seq<ReleaseItem>)
    requires forall id | id in ids :: id in registry
  {
    |items| == |ids| && forall n | 0 <= n < |ids| ::
      items[n] == ReleaseItem(KeyOf(registry, ids[n]),
        CanQualify(m, registry, ids[n]) && answer(ids[n]) == Reported(true), promoted)
  }

  lemma PassTells(m: Matrix, registry: map<string, string>, ids: seq<string>, answer: string -> Report,
                  passing: map<string, bool>)
    requires forall id | id in ids :: id in passing <==> Answers(m, registry, id, answer)
    requires forall id | id in passing :: id in ids && answer(id) == Reported(passing[id])
    ensures AllPass(m, registry, ids, answer) <==> forall id | id in ids :: id in passing && passing[id]
  {
  }

  lemma QualifiedItems(m: Matrix, registry: map<string, string>, ids: seq<string>, answer: string -> Report,
                       passing: map<string, bool>, promoted: bool)
    requires forall id | id in ids :: id in registry
    requires forall id | id in ids :: id in passing <==> Answers(m, registry, id, answer)
    requires forall id | id in passing :: id in ids && answer(id) == Reported(passing[id])
    ensures ItemsTell(m, registry, ids, answer, promoted, Items(Keys(registry, ids), passing, promoted))
  {
  }

  /** Everything the pipeline promises about one run. */
  ghost predicate Outcome(before: Matrix, after: Matrix, registry: map<string, string>, requested: seq<string>,
                          answer: string -> Report, promote: bool, commits: bool, rereads: bool, r: ReleaseResult) {
    if !AllInstalled(registry, requested) then
      after == before && !r.passed && !r.promoted && r.items == [] && r.errors == PreflightErrors(registry, requested)
    else
      var qualified := QualifyAll(before, registry, requested, answer);
      var keys := Keys(registry, requested);
      var passes := AllPass(before, registry, requested, answer);
      && r.passed == (passes && (promote ==> commits && rereads))
      && r.promoted == (r.passed && promote)
      && after == (if passes && promote && commits then ActivatedAll(qualified, keys) else qualified)
      && ItemsTell(before, registry, requested, answer, r.promoted, r.items)
      && r.errors == QualificationErrors(before, registry, requested, answer)
                     + (if passes && promote && !(commits && rereads) then [PromotionError] else [])
  }

  /** After a passing qualification the atomic promotion has nothing left to object to. */
  lemma PassedSetPromotes(m: Matrix, registry: map<string, string>, ids: seq<string>, answer: string -> Report)
    requires AllPass(m, registry, ids, answer)
    requires forall i, j | 0 <= i < j < |ids| :: ids[i] != ids[j]
    ensures forall id | id in ids :: id in registry
    ensures Distinct(Keys(registry, ids)) == Keys(registry, ids)
    ensures SetError(QualifyAll(m, registry, ids, answer), Keys(registry, ids)).None?
  {
    PassedSetIsQualified(m, registry, ids, answer);
    var keys := Keys(registry, ids);
    forall k | k in keys ensures k in QualifyAll(m, registry, ids, answer).rows
                              && Latest(QualifyAll(m, registry, ids, answer).quals, k) == Some(true) {
      var n :| 0 <= n < |keys| && keys[n] == k;
      assert Vouched(QualifyAll(m, registry, ids, answer), registry, ids[n]);
    }
    SetErrorNone(QualifyAll(m, registry, ids, answer), keys);
    DistinctIsIdentity(keys);
  }
}
