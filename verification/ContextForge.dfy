/** Bounded context assembly: sort the candidates, then take greedily under an item and a byte budget. */
module ContextForge {
  import opened Outcomes
  import opened Collections

  type Content = seq<bv8>

  datatype Document = Document(scope: string, sourceId: string, content: Content, priority: real)

  /** SHA-256 of the encoded content, taken to be injective. */
  datatype Digest = Sha256(content: Content)

  datatype Item = Item(document: Document, digest: Digest, size: nat)

  datatype Reason =
    | ProviderNotRegistered
    | ProviderError
    | ScopeMismatch
    | MaxItemsExceeded
    | DuplicateContent
    | BudgetExceeded

  datatype Skip = Skip(scope: string, sourceId: Option<string>, reason: Reason)

  /** What a registered provider answers for its scope. */
  datatype Answer = Raised | Fetched(documents: seq<Document>)

  datatype Bundle = Bundle(
    items: seq<Item>, requested: seq<string>, missing: seq<string>,
    usedBytes: nat, budgetBytes: nat, truncated: bool, skipped: seq<Skip>)

  // ---- The sort order ----

  predicate StringBefore(a: string, b: string) {
    a == "" || (b != "" && (a[0] < b[0] || (a[0] == b[0] && StringBefore(a[1..], b[1..]))))
  }

  /** Higher priority first, then scope, then source id; ties either way. */
  predicate Before(a: Document, b: Document) {
    || a.priority > b.priority
    || (a.priority == b.priority && a.scope != b.scope && StringBefore(a.scope, b.scope))
    || (a.priority == b.priority && a.scope == b.scope && StringBefore(a.sourceId, b.sourceId))
  }

  lemma {:induction false} StringOrderTotal(a: string, b: string)
    ensures StringBefore(a, b) || StringBefore(b, a)
    ensures StringBefore(a, b) && StringBefore(b, a) ==> a == b
  {
    if a != "" && b != "" {
      StringOrderTotal(a[1..], b[1..]);
      if a[0] == b[0] && a[1..] == b[1..] {
        assert a == [a[0]] + a[1..] && b == [b[0]] + b[1..];
      }
    }
  }

  lemma {:induction false} StringOrderTransitive(a: string, b: string, c: string)
    requires StringBefore(a, b) && StringBefore(b, c)
    ensures StringBefore(a, c)
  {
    if a != "" && a[0] == b[0] && b[0] == c[0] {
      StringOrderTransitive(a[1..], b[1..], c[1..]);
    }
  }

  lemma BeforeTotal(a: Document, b: Document)
    ensures Before(a, b) || Before(b, a)
  {
    StringOrderTotal(a.scope, b.scope);
    StringOrderTotal(a.sourceId, b.sourceId);
  }

  lemma BeforeTransitive(a: Document, b: Document, c: Document)
    requires Before(a, b) && Before(b, c)
    ensures Before(a, c)
  {
    if a.priority == b.priority == c.priority {
      if a.scope == b.scope == c.scope {
        StringOrderTransitive(a.sourceId, b.sourceId, c.sourceId);
      } else if a.scope != b.scope && b.scope != c.scope {
        StringOrderTransitive(a.scope, b.scope, c.scope);
        StringOrderTotal(a.scope, b.scope);
      }
    }
  }

  ghost predicate InOrder(docs: seq<Document>) {
    forall i, j | 0 <= i < j < |docs| :: Before(docs[i], docs[j])
  }

  function Insert(d: Document, docs: seq<Document>): seq<Document> {
    if docs == [] || Before(d, docs[0]) then [d] + docs else [docs[0]] + Insert(d, docs[1..])
  }

  /** `list.sort`: stable, so of two equal keys the earlier document stays first. */
  function Sorted(docs: seq<Document>): seq<Document> {
    if docs == [] then [] else Insert(docs[0], Sorted(docs[1..]))
  }

  lemma {:induction false} InsertSorts(d: Document, docs: seq<Document>)
    requires InOrder(docs)
    ensures InOrder(Insert(d, docs))
    ensures multiset(Insert(d, docs)) == multiset(docs) + multiset{d}
  {
    if docs == [] {
    } else if Before(d, docs[0]) {
      forall k | 0 <= k < |docs| ensures Before(d, docs[k]) {
        if k > 0 { BeforeTransitive(d, docs[0], docs[k]); }
      }
    } else {
      BeforeTotal(d, docs[0]);
      var rest := Insert(d, docs[1..]);
      InsertSorts(d, docs[1..]);
      assert docs == [docs[0]] + docs[1..];
      forall k | 0 <= k < |rest| ensures Before(docs[0], rest[k]) {
        assert rest[k] in multiset(rest);
        assert rest[k] == d || rest[k] in docs[1..];
      }
    }
  }

  lemma {:induction false} SortedSorts(docs: seq<Document>)
    ensures InOrder(Sorted(docs)) && multiset(Sorted(docs)) == multiset(docs)
  {
    if docs != [] {
      SortedSorts(docs[1..]);
      InsertSorts(docs[0], Sorted(docs[1..]));
      assert docs == [docs[0]] + docs[1..];
    }
  }

  // ---- The greedy selection ----

  datatype Limits = Limits(budgetBytes: nat, maxItems: nat)

  datatype Rejection = Rejection(document: Document, reason: Reason)

  datatype Selection = Selection(chosen: seq<Document>, rejected: seq<Rejection>)

  function Bytes(docs: seq<Document>): nat {
    if docs == [] then 0 else Bytes(docs[..|docs| - 1]) + |docs[|docs| - 1].content|
  }

  predicate Holds(docs: seq<Document>, content: Content) {
    exists d :: d in docs && d.content == content
  }

  function Consider(limits: Limits, s: Selection, d: Document): Selection {
    if |s.chosen| >= limits.maxItems then s.(rejected := s.rejected + [Rejection(d, MaxItemsExceeded)])
    else if Holds(s.chosen, d.content) then s.(rejected := s.rejected + [Rejection(d, DuplicateContent)])
    else if Bytes(s.chosen) + |d.content| > limits.budgetBytes
      then s.(rejected := s.rejected + [Rejection(d, BudgetExceeded)])
    else s.(chosen := s.chosen + [d])
  }

  function Greedy(limits: Limits, docs: seq<Document>): Selection {
    if docs == [] then Selection([], [])
    else Consider(limits, Greedy(limits, docs[..|docs| - 1]), docs[|docs| - 1])
  }

  function Documents(rejected: seq<Rejection>): seq<Document> {
    if rejected == [] then [] else Documents(rejected[..|rejected| - 1]) + [rejected[|rejected| - 1].document]
  }

  ghost predicate DistinctContents(docs: seq<Document>) {
    forall i, j | 0 <= i < j < |docs| :: docs[i].content != docs[j].content
  }

  /** The bundle respects both budgets. */
  lemma {:induction false} SelectionIsBounded(limits: Limits, docs: seq<Document>)
    ensures Bytes(Greedy(limits, docs).chosen) <= limits.budgetBytes
    ensures |Greedy(limits, docs).chosen| <= limits.maxItems
  {
    if docs != [] {
      var front, d := docs[..|docs| - 1], docs[|docs| - 1];
      SelectionIsBounded(limits, front);
      assert (Greedy(limits, front).chosen + [d])[..|Greedy(limits, front).chosen|] == Greedy(limits, front).chosen;
    }
  }

  /** It repeats no content. */
  lemma {:induction false} SelectionIsDistinct(limits: Limits, docs: seq<Document>)
    ensures DistinctContents(Greedy(limits, docs).chosen)
  {
    if docs != [] {
      var s := Greedy(limits, docs[..|docs| - 1]);
      SelectionIsDistinct(limits, docs[..|docs| - 1]);
      assert forall k | 0 <= k < |s.chosen| :: s.chosen[k] in s.chosen;
    }
  }

  /** It keeps the candidates' order. */
  lemma {:induction false} SelectionKeepsOrder(limits: Limits, docs: seq<Document>)
    requires InOrder(docs)
    ensures InOrder(Greedy(limits, docs).chosen)
    ensures forall d | d in Greedy(limits, docs).chosen :: d in docs
  {
    if docs != [] {
      var front, d := docs[..|docs| - 1], docs[|docs| - 1];
      SelectionKeepsOrder(limits, front);
      assert docs == front + [d];
      var s := Greedy(limits, front);
      forall k | 0 <= k < |s.chosen| ensures Before(s.chosen[k], d) {
        assert s.chosen[k] in front;
        var n :| 0 <= n < |front| && front[n] == s.chosen[k];
        assert Before(docs[n], docs[|front|]);
      }
    }
  }

  lemma ConsiderAccounts(limits: Limits, s: Selection, d: Document)
    ensures var t := Consider(limits, s, d);
      multiset(t.chosen) + multiset(Documents(t.rejected)) ==
        multiset(s.chosen) + multiset(Documents(s.rejected)) + multiset{d}
  {
    var t := Consider(limits, s, d);
    if t.rejected != s.rejected {
      assert t.rejected[..|t.rejected| - 1] == s.rejected;
      assert Documents(t.rejected) == Documents(s.rejected) + [d];
      assert multiset(Documents(t.rejected)) == multiset(Documents(s.rejected)) + multiset{d};
    } else {
      assert t.chosen == s.chosen + [d];
    }
  }

  /** Every candidate is either in the bundle or skipped with a reason, exactly once. */
  lemma {:induction false} EveryCandidateIsAccounted(limits: Limits, docs: seq<Document>)
    ensures var s := Greedy(limits, docs);
      multiset(s.chosen) + multiset(Documents(s.rejected)) == multiset(docs)
  {
    if docs != [] {
      var front, d := docs[..|docs| - 1], docs[|docs| - 1];
      assert docs == front + [d];
      assert multiset(docs) == multiset(front) + multiset{d};
      EveryCandidateIsAccounted(limits, front);
      ConsiderAccounts(limits, Greedy(limits, front), d);
    }
  }

  /** The reason a document was skipped for still keeps it out of the finished bundle. */
  ghost predicate StillOut(limits: Limits, chosen: seq<Document>, r: Rejection) {
    match r.reason
    case MaxItemsExceeded => |chosen| >= limits.maxItems
    case DuplicateContent => Holds(chosen, r.document.content)
    case BudgetExceeded => Bytes(chosen) + |r.document.content| > limits.budgetBytes
    case _ => false
  }

  /** The bundle is maximal: no skipped document could be added without breaking a bound or repeating content. */
  lemma {:induction false} SelectionIsMaximal(limits: Limits, docs: seq<Document>)
    ensures forall r | r in Greedy(limits, docs).rejected :: StillOut(limits, Greedy(limits, docs).chosen, r)
  {
    if docs != [] {
      var front, d := docs[..|docs| - 1], docs[|docs| - 1];
      SelectionIsMaximal(limits, front);
      var s, t := Greedy(limits, front), Greedy(limits, docs);
      if t.chosen != s.chosen {
        assert t.chosen[..|t.chosen| - 1] == s.chosen;
        forall r | r in s.rejected ensures StillOut(limits, t.chosen, r) {
          if r.reason == DuplicateContent {
            var e :| e in s.chosen && e.content == r.document.content;
            assert e in t.chosen;
          }
        }
      }
    }
  }

  lemma {:induction false} UnchosenStaysOut(limits: Limits, docs: seq<Document>, d: Document)
    requires d in docs && !Holds(Greedy(limits, docs).chosen, d.content)
    ensures var s := Greedy(limits, docs);
      |s.chosen| >= limits.maxItems || Bytes(s.chosen) + |d.content| > limits.budgetBytes
  {
    var s := Greedy(limits, docs);
    EveryCandidateIsAccounted(limits, docs);
    assert d in multiset(docs);
    assert d !in s.chosen;
    assert d in multiset(Documents(s.rejected));
    RejectionOf(s.rejected, d);
    var r :| r in s.rejected && r.document == d;
    SelectionIsMaximal(limits, docs);
    assert StillOut(limits, s.chosen, r);
  }

  lemma {:induction false} RejectionOf(rejected: seq<Rejection>, d: Document)
    requires d in Documents(rejected)
    ensures exists r :: r in rejected && r.document == d
  {
    var n := |rejected| - 1;
    if rejected[n].document == d {
      assert rejected[n] in rejected;
    } else {
      RejectionOf(rejected[..n], d);
    }
  }

  /** Position `k` holds the first copy of its content. */
  ghost predicate FirstCopy(docs: seq<Document>, k: nat) {
    k < |docs| && forall j | 0 <= j < k :: docs[j].content != docs[k].content
  }

  /** Each content in the bundle is represented by its first copy in sort order. */
  lemma {:induction false} FirstCopiesAreChosen(limits: Limits, docs: seq<Document>, d: Document)
    requires d in Greedy(limits, docs).chosen
    ensures exists k: nat :: FirstCopy(docs, k) && docs[k] == d
  {
    var front, last := docs[..|docs| - 1], docs[|docs| - 1];
    var s, t := Greedy(limits, front), Greedy(limits, docs);
    if d in s.chosen {
      FirstCopiesAreChosen(limits, front, d);
      var k: nat :| FirstCopy(front, k) && front[k] == d;
      assert FirstCopy(docs, k);
    } else {
      assert d == last && t.chosen == s.chosen + [last];
      forall j | 0 <= j < |front| ensures docs[j].content != last.content {
        if docs[j].content == last.content {
          assert front[j] in front;
          UnchosenStaysOut(limits, front, front[j]);
        }
      }
      assert FirstCopy(docs, |front|);
    }
  }

  // ---- Gathering candidates ----

  function Matching(docs: seq<Document>, scope: string): seq<Document> {
    if docs == [] then []
    else
      var front, last := Matching(docs[..|docs| - 1], scope), docs[|docs| - 1];
      if last.scope == scope then front + [last] else front
  }

  function Mismatches(docs: seq<Document>, scope: string): seq<Skip> {
    if docs == [] then []
    else
      var front, last := Mismatches(docs[..|docs| - 1], scope), docs[|docs| - 1];
      if last.scope == scope then front else front + [Skip(scope, Some(last.sourceId), ScopeMismatch)]
  }

  function Truncated(docs: seq<Document>, count: nat): seq<Document> {
    if |docs| <= count then docs else docs[..count]
  }

  function Candidates(providers: map<string, Answer>, scopes: seq<string>, maxItems: nat): seq<Document> {
    if scopes == [] then []
    else
      var front, scope := Candidates(providers, scopes[..|scopes| - 1], maxItems), scopes[|scopes| - 1];
      if scope in providers && providers[scope].Fetched?
      then front + Matching(Truncated(providers[scope].documents, 2 * maxItems), scope)
      else front
  }

  function GatherSkips(providers: map<string, Answer>, scopes: seq<string>, maxItems: nat): seq<Skip> {
    if scopes == [] then []
    else
      var front, scope := GatherSkips(providers, scopes[..|scopes| - 1], maxItems), scopes[|scopes| - 1];
      front + if scope !in providers then [Skip(scope, None, ProviderNotRegistered)]
              else if providers[scope].Raised? then [Skip(scope, None, ProviderError)]
              else Mismatches(Truncated(providers[scope].documents, 2 * maxItems), scope)
  }

  lemma {:induction false} MatchingAre(docs: seq<Document>, scope: string)
    ensures |Matching(docs, scope)| <= |docs|
    ensures forall d :: d in Matching(docs, scope) <==> d in docs && d.scope == scope
    ensures forall s ::
      s in Mismatches(docs, scope) <==>
        exists d :: d in docs && d.scope != scope && s == Skip(scope, Some(d.sourceId), ScopeMismatch)
  {
    if docs != [] {
      MatchingAre(docs[..|docs| - 1], scope);
      assert docs == docs[..|docs| - 1] + [docs[|docs| - 1]];
    }
  }

  /** The values of a scope's provider that are looked at. */
  function Taken(providers: map<string, Answer>, scope: string, maxItems: nat): seq<Document> {
    if scope in providers && providers[scope].Fetched? then Truncated(providers[scope].documents, 2 * maxItems) else []
  }

  /** The candidates are exactly the values looked at that belong to the scope they were asked for. */
  lemma {:induction false} CandidatesAre(providers: map<string, Answer>, scopes: seq<string>, maxItems: nat)
    ensures forall d ::
      d in Candidates(providers, scopes, maxItems) <==> d.scope in scopes && d in Taken(providers, d.scope, maxItems)
  {
    if scopes != [] {
      var front, scope := scopes[..|scopes| - 1], scopes[|scopes| - 1];
      CandidatesAre(providers, front, maxItems);
      var here := Matching(Taken(providers, scope, maxItems), scope);
      MatchingAre(Taken(providers, scope, maxItems), scope);
      assert scopes == front + [scope];
      assert Candidates(providers, scopes, maxItems) == Candidates(providers, front, maxItems) + here;
      assert forall d: Document :: d.scope in scopes <==> d.scope in front || d.scope == scope;
      assert forall d :: d in here <==> d.scope == scope && d in Taken(providers, d.scope, maxItems);
    }
  }

  /** No scope contributes more than twice the item limit. */
  lemma {:induction false} CandidatesAreBounded(providers: map<string, Answer>, scopes: seq<string>, maxItems: nat)
    ensures |Candidates(providers, scopes, maxItems)| <= 2 * maxItems * |scopes|
  {
    if scopes != [] {
      var front, scope := scopes[..|scopes| - 1], scopes[|scopes| - 1];
      CandidatesAreBounded(providers, front, maxItems);
      MatchingAre(Taken(providers, scope, maxItems), scope);
      OneMore(2 * maxItems, |front|);
    }
  }

  lemma OneMore(a: nat, n: nat)
    ensures a * (n + 1) == a * n + a
  {
  }

  /** Why something of this scope is skipped while gathering. */
  ghost predicate SkippedOf(providers: map<string, Answer>, scope: string, maxItems: nat, s: Skip) {
    || (scope !in providers && s == Skip(scope, None, ProviderNotRegistered))
    || (scope in providers && providers[scope].Raised? && s == Skip(scope, None, ProviderError))
    || exists d ::
      d in Taken(providers, scope, maxItems) && d.scope != scope && s == Skip(scope, Some(d.sourceId), ScopeMismatch)
  }

  /** The skips are exactly the missing and failing providers and the values of the wrong scope. */
  lemma {:induction false} GatherSkipsAre(providers: map<string, Answer>, scopes: seq<string>, maxItems: nat)
    ensures forall s :: s in GatherSkips(providers, scopes, maxItems) <==>
      exists scope :: scope in scopes && SkippedOf(providers, scope, maxItems, s)
  {
    if scopes != [] {
      var front, scope := scopes[..|scopes| - 1], scopes[|scopes| - 1];
      GatherSkipsAre(providers, front, maxItems);
      MatchingAre(Taken(providers, scope, maxItems), scope);
      assert scopes == front + [scope];
      var here := if scope !in providers then [Skip(scope, None, ProviderNotRegistered)]
                  else if providers[scope].Raised? then [Skip(scope, None, ProviderError)]
                  else Mismatches(Truncated(providers[scope].documents, 2 * maxItems), scope);
      assert GatherSkips(providers, scopes, maxItems) == GatherSkips(providers, front, maxItems) + here;
      forall s ensures s in here <==> SkippedOf(providers, scope, maxItems, s) {}
    }
  }

  function Skips(rejected: seq<Rejection>): seq<Skip> {
    if rejected == [] then []
    else
      var last := rejected[|rejected| - 1];
      Skips(rejected[..|rejected| - 1]) + [Skip(last.document.scope, Some(last.document.sourceId), last.reason)]
  }

  function Items(docs: seq<Document>): (r: seq<Item>)
    ensures |r| == |docs|
    ensures forall n | 0 <= n < |docs| :: r[n] == Item(docs[n], Sha256(docs[n].content), |docs[n].content|)
  {
    if docs == [] then []
    else
      var last := docs[|docs| - 1];
      Items(docs[..|docs| - 1]) + [Item(last, Sha256(last.content), |last.content|)]
  }

  class ContextForge {
    const budgetBytes: nat
    const maxItems: nat
    var providers: map<string, Answer>

    constructor (budgetBytes: nat, maxItems: nat)
      ensures this.budgetBytes == (if budgetBytes < 1024 then 1024 else budgetBytes)
      ensures this.maxItems == (if maxItems < 1 then 1 else maxItems)
      ensures providers == map[]
    {
      this.budgetBytes := if budgetBytes < 1024 then 1024 else budgetBytes;
      this.maxItems := if maxItems < 1 then 1 else maxItems;
      providers := map[];
    }

    method Register(scope: string, provider: Answer) returns (accepted: bool)
      modifies this
      ensures accepted <==> scope != "" && scope !in old(providers)
      ensures providers == if accepted then old(providers)[scope := provider] else old(providers)
    {
      if scope == "" || scope in providers {
        return false;
      }
      providers := providers[scope := provider];
      return true;
    }

    method Gather(scopes: seq<string>) returns (candidates: seq<Document>, skipped: seq<Skip>)
      ensures candidates == Candidates(providers, scopes, maxItems)
      ensures skipped == GatherSkips(providers, scopes, maxItems)
    {
      candidates, skipped := [], [];
      for n := 0 to |scopes|
        invariant candidates == Candidates(providers, scopes[..n], maxItems)
        invariant skipped == GatherSkips(providers, scopes[..n], maxItems)
      {
        assert scopes[..n + 1][..n] == scopes[..n];
        var scope := scopes[n];
        if scope !in providers {
          skipped := skipped + [Skip(scope, None, ProviderNotRegistered)];
        } else if providers[scope].Raised? {
          skipped := skipped + [Skip(scope, None, ProviderError)];
        } else {
          var values := Truncated(providers[scope].documents, 2 * maxItems);
          ghost var taken, refused := candidates, skipped;
          for k := 0 to |values|
            invariant candidates == taken + Matching(values[..k], scope)
            invariant skipped == refused + Mismatches(values[..k], scope)
          {
            assert values[..k + 1][..k] == values[..k];
            if values[k].scope != scope {
              skipped := skipped + [Skip(scope, Some(values[k].sourceId), ScopeMismatch)];
            } else {
              candidates := candidates + [values[k]];
            }
          }
          assert values[..|values|] == values;
        }
      }
      assert scopes[..|scopes|] == scopes;
    }

    method Select(candidates: seq<Document>) returns (selected: seq<Item>, skipped: seq<Skip>, used: nat)
      ensures var s := Greedy(Limits(budgetBytes, maxItems), candidates);
        selected == Items(s.chosen) && skipped == Skips(s.rejected) && used == Bytes(s.chosen)
    {
      var seen: set<Digest> := {};
      selected, skipped, used := [], [], 0;
      ghost var s := Selection([], []);
      for n := 0 to |candidates|
        invariant s == Greedy(Limits(budgetBytes, maxItems), candidates[..n])
        invariant selected == Items(s.chosen) && skipped == Skips(s.rejected) && used == Bytes(s.chosen)
        invariant forall content :: Sha256(content) in seen <==> Holds(s.chosen, content)
      {
        assert candidates[..n + 1][..n] == candidates[..n];
        var document := candidates[n];
        ghost var before := s;
        s := Consider(Limits(budgetBytes, maxItems), s, document);
        var digest := Sha256(document.content);
        if |selected| >= maxItems {
          skipped := skipped + [Skip(document.scope, Some(document.sourceId), MaxItemsExceeded)];
        } else if digest in seen {
          skipped := skipped + [Skip(document.scope, Some(document.sourceId), DuplicateContent)];
        } else if used + |document.content| > budgetBytes {
          skipped := skipped + [Skip(document.scope, Some(document.sourceId), BudgetExceeded)];
        } else {
          HoldsAppend(before.chosen, document);
          seen := seen + {digest};
          used := used + |document.content|;
          selected := selected + [Item(document, digest, |document.content|)];
        }
        ConsiderProjects(Limits(budgetBytes, maxItems), before, document);
      }
      assert candidates[..|candidates|] == candidates;
    }

    method Assemble(scopes: seq<string>) returns (bundle: Bundle)
      ensures bundle.requested == Distinct(scopes)
      ensures bundle.missing == Missing(providers, bundle.requested)
      ensures bundle.budgetBytes == budgetBytes
      ensures var candidates := Sorted(Candidates(providers, bundle.requested, maxItems));
        var s := Greedy(Limits(budgetBytes, maxItems), candidates);
        && bundle.items == Items(s.chosen) && bundle.usedBytes == Bytes(s.chosen)
        && bundle.skipped == GatherSkips(providers, bundle.requested, maxItems) + Skips(s.rejected)
      ensures bundle.truncated <==> bundle.skipped != []
      ensures bundle.usedBytes <= budgetBytes && |bundle.items| <= maxItems
    {
      var requested := Distinct(scopes);
      var candidates, gathered := Gather(requested);
      candidates := Sorted(candidates);
      var selected, rejected, used := Select(candidates);
      SelectionIsBounded(Limits(budgetBytes, maxItems), candidates);
      return Bundle(selected, requested, Missing(providers, requested), used, budgetBytes, gathered + rejected != [],
        gathered + rejected);
    }
  }

  function Missing(providers: map<string, Answer>, scopes: seq<string>): (r: seq<string>)
    ensures forall s :: s in r <==> s in scopes && s !in providers
  {
    if scopes == [] then [] else (if scopes[0] in providers then [] else [scopes[0]]) + Missing(providers, scopes[1..])
  }

  /** What one turn of the selection adds to the bundle's own lists. */
  lemma ConsiderProjects(limits: Limits, s: Selection, d: Document)
    ensures var t := Consider(limits, s, d); t.chosen != s.chosen ==>
      Items(t.chosen) == Items(s.chosen) + [Item(d, Sha256(d.content), |d.content|)] &&
        Bytes(t.chosen) == Bytes(s.chosen) + |d.content|
    ensures var t := Consider(limits, s, d); t.rejected != s.rejected ==>
      Skips(t.rejected) == Skips(s.rejected) + [Skip(d.scope, Some(d.sourceId), t.rejected[|t.rejected| - 1].reason)]
  {
    assert (s.chosen + [d])[..|s.chosen|] == s.chosen;
    var t := Consider(limits, s, d);
    if t.rejected != s.rejected {
      assert t.rejected[..|s.rejected|] == s.rejected;
    }
  }

  lemma HoldsAppend(docs: seq<Document>, d: Document)
    ensures forall content :: Holds(docs + [d], content) <==> Holds(docs, content) || content == d.content
  {
    forall content ensures Holds(docs + [d], content) <==> Holds(docs, content) || content == d.content {
      if Holds(docs, content) {
        var e :| e in docs && e.content == content;
        assert e in docs + [d];
      }
      if content == d.content {
        assert d in docs + [d];
      }
    }
  }
}
