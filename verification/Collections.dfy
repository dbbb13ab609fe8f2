/** Facts about sets and sequences that the other modules share. */
module Collections {
  lemma Pick<T>(s: set<T>) returns (x: T)
    requires s != {}
    ensures x in s
  {
    x :| x in s;
  }

  lemma SameMembers<T>(a: set<T>, b: set<T>)
    requires forall x :: x in a <==> x in b
    ensures a == b
  {
  }

  lemma UpdatedTwice<K, V>(m: map<K, V>, k: K, a: V, b: V)
    ensures m[k := a][k := b] == m[k := b]
  {
  }

  lemma HasMember<T>(s: seq<T>)
    ensures s != [] ==> exists x :: x in s
  {
    if s != [] {
      assert s[0] in s;
    }
  }

  lemma {:induction false} SubsetSize<T>(a: set<T>, b: set<T>)
    requires a <= b
    ensures |a| <= |b|
    ensures |a| == |b| ==> a == b
  {
    if a != {} {
      var x :| x in a;
      SubsetSize(a - {x}, b - {x});
      assert |b - {x}| == |b| - 1;
      assert a == a - {x} + {x};
      assert b == b - {x} + {x};
    }
  }

  /** A sequence longer than the set its members come from repeats a member. */
  lemma {:induction false} Pigeonhole<T>(p: seq<T>, s: set<T>)
    requires forall k | 0 <= k < |p| :: p[k] in s
    requires |p| > |s|
    ensures exists i, j :: 0 <= i < j < |p| && p[i] == p[j]
  {
    var n := |p| - 1;
    if last :| 0 <= last < n && p[last] == p[n] {
    } else {
      var front := p[..n];
      assert |s - {p[n]}| == |s| - 1;
      forall k | 0 <= k < |front| ensures front[k] in s - {p[n]} {
        assert front[k] == p[k];
      }
      Pigeonhole(front, s - {p[n]});
      var i, j :| 0 <= i < j < |front| && front[i] == front[j];
      assert p[i] == p[j];
    }
  }

  /** `dict.fromkeys`: duplicates go, first positions stay. */
  function Distinct<T(==,!new)>(values: seq<T>): (r: seq<T>)
    ensures forall v :: v in r <==> v in values
    ensures forall i, j | 0 <= i < j < |r| :: r[i] != r[j]
    ensures values != [] ==> r != []
  {
    if values == [] then []
    else
      var front := Distinct(values[..|values| - 1]);
      var last := values[|values| - 1];
      if last in front then front else front + [last]
  }

  lemma {:induction false} DistinctIsIdentity<T(!new)>(values: seq<T>)
    requires forall i, j | 0 <= i < j < |values| :: values[i] != values[j]
    ensures Distinct(values) == values
  {
    if values != [] {
      var n := |values| - 1;
      DistinctIsIdentity(values[..n]);
      assert values == values[..n] + [values[n]];
    }
  }

  lemma {:induction false} CountsOnce<T>(a: seq<T>)
    requires forall i, j | 0 <= i < j < |a| :: a[i] != a[j]
    ensures forall x :: multiset(a)[x] <= 1
  {
    if a != [] {
      var n := |a| - 1;
      assert a == a[..n] + [a[n]];
      CountsOnce(a[..n]);
      assert a[n] !in a[..n];
    }
  }

  lemma CountsTwice<T>(b: seq<T>, i: nat, j: nat)
    requires i < j < |b| && b[i] == b[j]
    ensures multiset(b)[b[i]] >= 2
  {
    assert b == b[..j] + b[j..];
    assert b[i] in multiset(b[..j]) && b[j] in multiset(b[j..]);
  }

  /** Reordering repeats nothing that was not repeated. */
  lemma ReorderedIsDistinct<T>(a: seq<T>, b: seq<T>)
    requires forall i, j | 0 <= i < j < |a| :: a[i] != a[j]
    requires multiset(a) == multiset(b)
    ensures forall i, j | 0 <= i < j < |b| :: b[i] != b[j]
  {
    CountsOnce(a);
    forall i, j | 0 <= i < j < |b| ensures b[i] != b[j] {
      if b[i] == b[j] {
        CountsTwice(b, i, j);
      }
    }
  }
}
