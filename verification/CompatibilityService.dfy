/** The persistent adapter matrix: versions become active only on passing qualification evidence. */
module CompatibilityService {
  import opened Outcomes
  import opened Collections

  datatype State = Candidate | Active | Blocked

  datatype Key = Key(adapter: string, version: string)

  /** One row of the qualification table; the sequence order is the order of the row ids. */
  datatype Qualification = Qualification(key: Key, passed: bool)

  datatype Status = Status(key: Key, state: State, latestPassed: Option<bool>)

  datatype CompatibilityError =
    | NotRegistered
    | MockAdapter
    | BlockedVersion
    | QualificationRaised
    | EntryMissing(key: Key)
    | NotPromotable(key: Key)
    | EvidenceMissing(key: Key)
    | EvidenceFailed(key: Key)
    | CommitFailed
    | ReadFailed
    | GateFailed

  /** The committed content of the two tables. */
  datatype Matrix = Matrix(rows: map<Key, State>, quals: seq<Qualification>)

  predicate IsMock(version: string) {
    |version| >= 5 && version[..5] == "mock-"
  }

  function Latest(quals: seq<Qualification>, key: Key): Option<bool> {
    if quals == [] then None
    else
      var last := quals[|quals| - 1];
      if last.key == key then Some(last.passed) else Latest(quals[..|quals| - 1], key)
  }

  // ---- What each committed transaction does to the tables ----

  function Registered(m: Matrix, key: Key): Matrix {
    if key !in m.rows || m.rows[key] == Blocked then m.(rows := m.rows[key := Candidate]) else m
  }

  function Qualified(m: Matrix, key: Key, passed: bool): Matrix {
    Matrix(if key in m.rows && !passed then m.rows[key := Blocked] else m.rows,
           m.quals + [Qualification(key, passed)])
  }

  /** `qualify_current` gets as far as calling the adapter. */
  predicate CanQualify(m: Matrix, registry: map<string, string>, adapterId: string) {
    && adapterId in registry && !IsMock(registry[adapterId])
    && !(Key(adapterId, registry[adapterId]) in m.rows && m.rows[Key(adapterId, registry[adapterId])] == Blocked)
  }

  /** How far a qualification gets: the registration raises, the call or the second transaction does, or neither. */
  datatype Report = RegistrationFailed | CallFailed | Reported(passed: bool)

  /** Both transactions of `qualify_current`. */
  function QualifyStep(m: Matrix, registry: map<string, string>, adapterId: string, outcome: Report): Matrix {
    if !CanQualify(m, registry, adapterId) then m
    else
      var key := Key(adapterId, registry[adapterId]);
      match outcome
      case RegistrationFailed => m
      case CallFailed => Registered(m, key)
      case Reported(passed) => Qualified(Registered(m, key), key, passed)
  }

  function Demoted(view: map<Key, State>, key: Key, k: Key): State
    requires k in view
  {
    if k.adapter == key.adapter && k.version != key.version && view[k] == Active then Candidate else view[k]
  }

  function Evidence(m: Matrix, key: Key): Option<CompatibilityError> {
    match Latest(m.quals, key)
    case None => Some(EvidenceMissing(key))
    case Some(passed) => if passed then None else Some(EvidenceFailed(key))
  }

  function PromotionError(m: Matrix, key: Key): Option<CompatibilityError> {
    if key !in m.rows then Some(EntryMissing(key))
    else if m.rows[key] == Active then Some(NotPromotable(key))
    else Evidence(m, key)
  }

  /** The version becomes active and every other active version of its adapter a candidate. */
  ghost function Activated(m: Matrix, key: Key): Matrix {
    m.(rows := map k | k in m.rows.Keys + {key} ::
               if k == key then Active
               else if k.adapter == key.adapter && m.rows[k] == Active then Candidate
               else m.rows[k])
  }

  ghost function ActivatedAll(m: Matrix, targets: seq<Key>): (r: Matrix)
    ensures r.quals == m.quals
  {
    if targets == [] then m
    else Activated(ActivatedAll(m, targets[..|targets| - 1]), targets[|targets| - 1])
  }

  /** The first check that fails in the order the targets are examined. */
  function SetError(m: Matrix, targets: seq<Key>): Option<CompatibilityError> {
    if targets == [] then None
    else if targets[0] !in m.rows then Some(EntryMissing(targets[0]))
    else if Evidence(m, targets[0]).Some? then Evidence(m, targets[0])
    else SetError(m, targets[1..])
  }

  function BlockedRow(m: Matrix, key: Key): Matrix {
    if key in m.rows then m.(rows := m.rows[key := Blocked]) else m
  }

  // ---- The invariant ----

  ghost predicate SingleActive(m: Matrix) {
    forall k, l | k in m.rows && l in m.rows && k.adapter == l.adapter && m.rows[k] == Active && m.rows[l] == Active ::
      k == l
  }

  ghost predicate ActiveQualified(m: Matrix) {
    forall k | k in m.rows && m.rows[k] == Active :: Latest(m.quals, k) == Some(true)
  }

  ghost predicate Sound(m: Matrix) {
    SingleActive(m) && ActiveQualified(m)
  }

  datatype Transaction =
    | RegisterTx(key: Key)
    | QualifyTx(key: Key, passed: bool)
    | PromoteTx(key: Key)
    | PromoteManyTx(targets: seq<Key>)
    | BlockTx(key: Key)

  ghost function Apply(m: Matrix, tx: Transaction): Matrix {
    match tx
    case RegisterTx(key) => Registered(m, key)
    case QualifyTx(key, passed) => Qualified(m, key, passed)
    case PromoteTx(key) => if PromotionError(m, key).None? then Activated(m, key) else m
    case PromoteManyTx(targets) =>
      if SetError(m, Distinct(targets)).None? then ActivatedAll(m, Distinct(targets)) else m
    case BlockTx(key) => BlockedRow(m, key)
  }

  ghost function Run(m: Matrix, txs: seq<Transaction>): Matrix {
    if txs == [] then m else Apply(Run(m, txs[..|txs| - 1]), txs[|txs| - 1])
  }

  lemma ActivatedSound(m: Matrix, key: Key)
    requires Sound(m) && Latest(m.quals, key) == Some(true)
    ensures Sound(Activated(m, key))
  {
  }

  lemma {:induction false} SetErrorNone(m: Matrix, targets: seq<Key>)
    ensures SetError(m, targets).None? <==> forall t | t in targets :: t in m.rows && Latest(m.quals, t) == Some(true)
  {
    if targets != [] {
      SetErrorNone(m, targets[1..]);
      assert targets == [targets[0]] + targets[1..];
    }
  }

  lemma {:induction false} ActivatedAllSound(m: Matrix, targets: seq<Key>)
    requires Sound(m) && forall t | t in targets :: t in m.rows && Latest(m.quals, t) == Some(true)
    ensures Sound(ActivatedAll(m, targets))
    ensures ActivatedAll(m, targets).quals == m.quals && ActivatedAll(m, targets).rows.Keys == m.rows.Keys
  {
    if targets != [] {
      var n := |targets| - 1;
      ActivatedAllSound(m, targets[..n]);
      assert targets[n] in targets;
      ActivatedSound(ActivatedAll(m, targets[..n]), targets[n]);
    }
  }

  lemma ApplySound(m: Matrix, tx: Transaction)
    requires Sound(m)
    ensures Sound(Apply(m, tx))
  {
    match tx
    case RegisterTx(key) =>
    case QualifyTx(key, passed) => QualifiedSound(m, key, passed);
    case PromoteTx(key) => if PromotionError(m, key).None? { ActivatedSound(m, key); }
    case PromoteManyTx(targets) =>
      SetErrorNone(m, Distinct(targets));
      if SetError(m, Distinct(targets)).None? { ActivatedAllSound(m, Distinct(targets)); }
    case BlockTx(key) =>
  }

  lemma QualifiedSound(m: Matrix, key: Key, passed: bool)
    requires Sound(m)
    ensures Sound(Qualified(m, key, passed))
  {
    var next := Qualified(m, key, passed);
    assert next.quals[..|next.quals| - 1] == m.quals;
  }

  /** Over every interleaving of transactions: one active version per adapter, each on passing evidence. */
  lemma {:induction false} EveryRunIsSound(txs: seq<Transaction>)
    ensures Sound(Run(Matrix(map[], []), txs))
  {
    if txs != [] {
      EveryRunIsSound(txs[..|txs| - 1]);
      ApplySound(Run(Matrix(map[], []), txs[..|txs| - 1]), txs[|txs| - 1]);
    }
  }

  // ---- Promoting a set against promoting one by one ----

  /** `promote` on each target in turn, skipping one already active; None as soon as one raises. */
  ghost function PromotedEach(m: Matrix, targets: seq<Key>): Option<Matrix> {
    if targets == [] then Some(m)
    else
      var before := PromotedEach(m, targets[..|targets| - 1]);
      var t := targets[|targets| - 1];
      if before.None? then None
      else if t in before.value.rows && before.value.rows[t] == Active then before
      else if PromotionError(before.value, t).Some? then None
      else Some(Activated(before.value, t))
  }

  lemma {:induction false} SetErrorFront(m: Matrix, front: seq<Key>, t: Key)
    ensures SetError(m, front + [t]).None? <==>
      SetError(m, front).None? && t in m.rows && Latest(m.quals, t) == Some(true)
  {
    SetErrorNone(m, front);
    SetErrorNone(m, front + [t]);
    assert forall k :: k in front + [t] <==> k in front || k == t;
  }

  lemma ActivatedTwice(m: Matrix, t: Key)
    requires SingleActive(m) && t in m.rows && m.rows[t] == Active
    ensures Activated(m, t) == m
  {
    assert Activated(m, t).rows == m.rows;
  }

  /** The atomic promotion succeeds exactly when the one-by-one promotion does, with the same tables. */
  lemma {:induction false} PromoteManyIsPromoteEach(m: Matrix, targets: seq<Key>)
    requires Sound(m)
    ensures PromotedEach(m, targets) == if SetError(m, targets).None? then Some(ActivatedAll(m, targets)) else None
  {
    if targets != [] {
      var n := |targets| - 1;
      var front, t := targets[..n], targets[n];
      assert targets == front + [t];
      PromoteManyIsPromoteEach(m, front);
      SetErrorFront(m, front, t);
      if SetError(m, front).None? {
        SetErrorNone(m, front);
        ActivatedAllSound(m, front);
        var before := ActivatedAll(m, front);
        if t in before.rows && before.rows[t] == Active {
          ActivatedTwice(before, t);
        }
      }
    }
  }

  ghost predicate OnlyActive(m: Matrix, t: Key) {
    t in m.rows && forall k | k in m.rows && k.adapter == t.adapter :: (m.rows[k] == Active <==> k == t)
  }

  lemma ActivatedKeepsOthers(m: Matrix, key: Key, t: Key)
    requires OnlyActive(m, t) && t.adapter != key.adapter
    ensures OnlyActive(Activated(m, key), t)
  {
  }

  /** With one version per adapter in the set, each target ends as its adapter's only active version. */
  lemma {:induction false} ActivatedAllOutcome(m: Matrix, targets: seq<Key>)
    requires forall i, j | 0 <= i < j < |targets| :: targets[i].adapter != targets[j].adapter
    ensures forall t | t in targets :: OnlyActive(ActivatedAll(m, targets), t)
    ensures forall k | k in m.rows && (forall t | t in targets :: t.adapter != k.adapter) ::
              k in ActivatedAll(m, targets).rows && ActivatedAll(m, targets).rows[k] == m.rows[k]
  {
    if targets != [] {
      var n := |targets| - 1;
      var front, last := targets[..n], targets[n];
      ActivatedAllOutcome(m, front);
      var before := ActivatedAll(m, front);
      forall t | t in targets ensures OnlyActive(Activated(before, last), t) {
        if t != last {
          assert t in front;
          ActivatedKeepsOthers(before, last, t);
        }
      }
      assert forall t | t in front :: t in targets;
      assert last in targets;
    }
  }

  // ---- The service over its tables ----

  class CompatibilityService {
    var rows: map<Key, State>
    var quals: seq<Qualification>
    /** The adapters of this process: name to installed version. */
    const registry: map<string, string>

    constructor (registry: map<string, string>)
      ensures Tables() == Matrix(map[], []) && this.registry == registry
    {
      this.registry := registry;
      rows, quals := map[], [];
    }

    function Tables(): Matrix
      reads this
    {
      Matrix(rows, quals)
    }

    function Get(key: Key): Result<Status, CompatibilityError>
      reads this
    {
      if key !in rows then Err(EntryMissing(key)) else Ok(Status(key, rows[key], Latest(quals, key)))
    }

    /** `register_current` with the default state `candidate`, the only one any caller passes;
        `rereads` is false when the read after the commit raises. */
    method RegisterCurrent(adapterId: string, rereads: bool) returns (r: Result<Status, CompatibilityError>)
      modifies this
      ensures adapterId !in registry ==> r == Err(NotRegistered) && Tables() == old(Tables())
      ensures adapterId in registry ==> Tables() == Registered(old(Tables()), Key(adapterId, registry[adapterId]))
      ensures adapterId in registry ==>
        r == if rereads then Get(Key(adapterId, registry[adapterId])) else Err(ReadFailed)
      ensures r.Ok? <==> adapterId in registry && rereads
    {
      if adapterId !in registry {
        return Err(NotRegistered);
      }
      var key := Key(adapterId, registry[adapterId]);
      if key !in rows {
        rows := rows[key := Candidate];
      } else if rows[key] == Blocked {
        rows := rows[key := Candidate];
      }
      if !rereads {
        return Err(ReadFailed);
      }
      return Get(key);
    }

    method QualifyCurrent(adapterId: string, outcome: Report) returns (r: Result<bool, CompatibilityError>)
      modifies this
      ensures r.Ok? <==> CanQualify(old(Tables()), registry, adapterId) && outcome.Reported?
      ensures r.Ok? ==> outcome == Reported(r.value)
      ensures Tables() == QualifyStep(old(Tables()), registry, adapterId, outcome)
    {
      if adapterId !in registry {
        return Err(NotRegistered);
      }
      var key := Key(adapterId, registry[adapterId]);
      if IsMock(key.version) {
        return Err(MockAdapter);
      }
      if key in rows && rows[key] == Blocked {
        return Err(BlockedVersion);
      }
      if outcome.RegistrationFailed? {
        return Err(CommitFailed);
      }
      var _ := RegisterCurrent(adapterId, true);
      if outcome.CallFailed? {
        return Err(QualificationRaised);
      }
      quals := quals + [Qualification(key, outcome.passed)];
      if key in rows && !outcome.passed {
        rows := rows[key := Blocked];
      }
      return Ok(outcome.passed);
    }

    /** The inner loop of both promotions, on the transaction's own view of the rows. */
    method Demote(view: map<Key, State>, key: Key) returns (after: map<Key, State>)
      ensures after.Keys == view.Keys
      ensures forall k | k in view :: after[k] == Demoted(view, key, k)
    {
      after := view;
      var active := set k | k in view && k.adapter == key.adapter && view[k] == Active;
      while active != {}
        invariant after.Keys == view.Keys
        invariant active <= set k | k in view && k.adapter == key.adapter && view[k] == Active
        invariant forall k | k in view :: after[k] == if k in active then view[k] else Demoted(view, key, k)
        decreases active
      {
        var k :| k in active;
        if k.version != key.version {
          after := after[k := Candidate];
        }
        active := active - {k};
      }
    }

    method Promote(key: Key, rereads: bool) returns (r: Result<Status, CompatibilityError>)
      modifies this
      ensures Tables() == Apply(old(Tables()), PromoteTx(key))
      ensures r == match PromotionError(old(Tables()), key)
                   case Some(e) => Err(e)
                   case None => if rereads then Ok(Status(key, Active, Some(true))) else Err(ReadFailed)
    {
      if key !in rows {
        return Err(EntryMissing(key));
      }
      if rows[key] != Candidate && rows[key] != Blocked {
        return Err(NotPromotable(key));
      }
      var qualification := Latest(quals, key);
      if qualification.None? {
        return Err(EvidenceMissing(key));
      }
      if !qualification.value {
        return Err(EvidenceFailed(key));
      }
      var view := Demote(rows, key);
      ghost var before := Tables();
      rows := view[key := Active];
      assert rows == Activated(before, key).rows;
      if !rereads {
        return Err(ReadFailed);
      }
      return Get(key);
    }

    /** `commits` is false when the database refuses the commit, `rereads` when a read of the targets after it
        raises. */
    method PromoteMany(targets: seq<Key>, commits: bool, rereads: bool)
        returns (r: Result<seq<Status>, CompatibilityError>)
      modifies this
      ensures r.Ok? <==> targets == [] || (SetError(old(Tables()), Distinct(targets)).None? && commits && rereads)
      ensures Tables() == if SetError(old(Tables()), Distinct(targets)).None? && commits
                          then ActivatedAll(old(Tables()), Distinct(targets)) else old(Tables())
      ensures r.Err? ==> r.error == match SetError(old(Tables()), Distinct(targets))
                                    case Some(e) => e
                                    case None => if commits then ReadFailed else CommitFailed
      ensures r.Ok? ==> StatusesOf(Distinct(targets), r.value)
    {
      var normalized := Distinct(targets);
      if normalized == [] {
        return Ok([]);
      }
      var failure := CheckSet(normalized);
      if failure.Some? {
        return Err(failure.value);
      }
      SetErrorNone(Tables(), normalized);
      var view := ActivateSet(normalized);
      if !commits {
        return Err(CommitFailed);
      }
      assert targets != [];
      rows := view;
      if !rereads {
        return Err(ReadFailed);
      }
      var statuses := Statuses(normalized);
      return Ok(statuses);
    }

    /** First loop of the transaction: every target has an entry and passing evidence. */
    method CheckSet(targets: seq<Key>) returns (failure: Option<CompatibilityError>)
      ensures failure == SetError(Tables(), targets)
    {
      for n := 0 to |targets|
        invariant SetError(Tables(), targets) == SetError(Tables(), targets[n..])
      {
        if targets[n] !in rows {
          return Some(EntryMissing(targets[n]));
        }
        var qualification := Latest(quals, targets[n]);
        if qualification.None? {
          return Some(EvidenceMissing(targets[n]));
        }
        if !qualification.value {
          return Some(EvidenceFailed(targets[n]));
        }
        assert targets[n..][1..] == targets[n + 1..];
      }
      return None;
    }

    /** Second loop of the transaction, on its own view of the rows. */
    method ActivateSet(targets: seq<Key>) returns (view: map<Key, State>)
      requires forall t | t in targets :: t in rows
      ensures view == ActivatedAll(Tables(), targets).rows && view.Keys == rows.Keys
    {
      view := rows;
      for n := 0 to |targets|
        invariant view == ActivatedAll(Tables(), targets[..n]).rows
        invariant view.Keys == rows.Keys
      {
        assert targets[..n + 1][..n] == targets[..n];
        assert targets[n] in targets;
        var demoted := Demote(view, targets[n]);
        view := demoted[targets[n] := Active];
      }
      assert targets[..|targets|] == targets;
    }

    predicate StatusesOf(keys: seq<Key>, statuses: seq<Status>)
      reads this
    {
      |statuses| == |keys| && forall n | 0 <= n < |keys| :: Get(keys[n]) == Ok(statuses[n])
    }

    method Statuses(keys: seq<Key>) returns (statuses: seq<Status>)
      requires forall k | k in keys :: k in rows
      ensures StatusesOf(keys, statuses)
    {
      statuses := [];
      for n := 0 to |keys|
        invariant |statuses| == n && forall m | 0 <= m < n :: Get(keys[m]) == Ok(statuses[m])
      {
        assert keys[n] in keys;
        statuses := statuses + [Get(keys[n]).value];
      }
    }

    method Block(key: Key, rereads: bool) returns (r: Result<Status, CompatibilityError>)
      modifies this
      ensures Tables() == Apply(old(Tables()), BlockTx(key))
      ensures r == if key in old(rows) && !rereads then Err(ReadFailed) else Get(key)
      ensures r.Ok? <==> key in old(rows) && rereads
    {
      if key !in rows {
        return Err(EntryMissing(key));
      }
      rows := rows[key := Blocked];
      if !rereads {
        return Err(ReadFailed);
      }
      return Get(key);
    }

    /** The start-up gate over the adapters of this process. */
    method RequireActiveRegistry() returns (passes: bool)
      ensures passes <==> forall name | name in registry ::
        !IsMock(registry[name]) &&
          Get(Key(name, registry[name])) == Ok(Status(Key(name, registry[name]), Active, Some(true)))
    {
      passes := true;
      var names := registry.Keys;
      while names != {}
        invariant names <= registry.Keys
        invariant passes <==> forall name | name in registry && name !in names ::
          !IsMock(registry[name]) &&
            Get(Key(name, registry[name])) == Ok(Status(Key(name, registry[name]), Active, Some(true)))
        decreases names
      {
        var name :| name in names;
        names := names - {name};
        var key := Key(name, registry[name]);
        if IsMock(key.version) {
          passes := false;
        } else if Get(key).Err? {
          passes := false;
        } else {
          if Get(key).value.state != Active {
            passes := false;
          }
          if Get(key).value.latestPassed != Some(true) {
            passes := false;
          }
        }
      }
    }
  }
}
