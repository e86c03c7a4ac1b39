/** Stock result types shared by every component. */
module Common {
  datatype Option<+T> = None | Some(value: T)

  datatype Result<+T, +E> = Ok(value: T) | Err(error: E)

  /** Durations are in nanoseconds. */
  const NANOS_PER_MILLI := 1_000_000
  const NANOS_PER_SECOND := 1_000_000_000

  /** A finite set of at least one integer-scored key has a key with the least score. */
  lemma LeastKeyExists<K>(m: map<K, int>)
    requires m != map[]
    ensures exists k :: k in m && forall j :: j in m ==> m[k] <= m[j]
    decreases |m|
  {
    var k :| k in m;
    var rest := m - {k};
    if rest == map[] {
      assert forall j :: j in m ==> j == k || j in rest;
    } else {
      assert |rest| < |m|;
      LeastKeyExists(rest);
      var l :| l in rest && forall j :: j in rest ==> rest[l] <= rest[j];
      assert forall j :: j in m ==> j == k || j in rest;
      var best := if m[k] <= m[l] then k else l;
      assert best in m && forall j :: j in m ==> m[best] <= m[j];
    }
  }

  /** Cardinality is monotone in set inclusion, and strictly so for a proper subset. */
  lemma SubsetSize<T>(a: set<T>, b: set<T>)
    requires a <= b
    ensures |a| <= |b|
    ensures a != b ==> |a| < |b|
  {
    assert b == a + (b - a);
  }

  lemma AnyOf<T>(s: set<T>) returns (x: T)
    requires s != {}
    ensures x in s
  {
    x :| x in s;
  }

  /** A non-empty finite set of integers has a greatest element. */
  lemma Latest(s: set<int>) returns (x: int)
    requires s != {}
    ensures x in s && forall y :: y in s ==> y <= x
    decreases |s|
  {
    var a := AnyOf(s);
    var rest := s - {a};
    assert forall y :: y in s ==> y == a || y in rest;
    x := a;
    if rest != {} {
      var y := Latest(rest);
      x := if a < y then y else a;
    }
  }

  /** A number that names nothing yet, for a newly allocated object. */
  method FreshNumber(used: set<nat>) returns (n: nat)
    ensures n !in used
  {
    n := 0;
    var todo := used;
    while todo != {}
      invariant todo <= used
      invariant forall x :: x in used - todo ==> x < n
      decreases todo
    {
      var x := Pick(todo);
      var rest := todo - {x};
      assert used - rest == (used - todo) + {x};
      n := if x >= n then x + 1 else n;
      todo := rest;
    }
    assert used - todo == used;
  }

  method Pick(from: set<nat>) returns (x: nat)
    requires from != {}
    ensures x in from
  {
    ghost var y := AnyOf(from);
    assert y in from;
    x :| x in from;
  }
}
