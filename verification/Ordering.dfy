/** Strictly sorted listings of finite sets: they exist and there is only one. */
module Ordering {
  ghost predicate Sorted<T>(lt: (T, T) -> bool, s: seq<T>) {
    forall i, j :: 0 <= i < j < |s| ==> lt(s[i], s[j])
  }

  /** `lt` is a strict total order on the elements of `set`. */
  ghost predicate OrderOn<T>(lt: (T, T) -> bool, dom: set<T>) {
    && (forall x :: x in dom ==> !lt(x, x))
    && (forall x, y :: x in dom && y in dom && x != y ==> lt(x, y) || lt(y, x))
    && (forall x, y, z :: x in dom && y in dom && z in dom && lt(x, y) && lt(y, z) ==> lt(x, z))
  }

  function Elements<T>(s: seq<T>): set<T> {
    set x | x in s
  }

  function InsertSorted<T>(lt: (T, T) -> bool, x: T, s: seq<T>): seq<T> {
    if s == [] || lt(x, s[0]) then [x] + s else [s[0]] + InsertSorted(lt, x, s[1..])
  }

  lemma {:induction false} InsertKeepsSorted<T>(lt: (T, T) -> bool, x: T, s: seq<T>)
    requires OrderOn(lt, Elements(s) + {x}) && Sorted(lt, s) && x !in s
    ensures Sorted(lt, InsertSorted(lt, x, s))
    ensures Elements(InsertSorted(lt, x, s)) == Elements(s) + {x}
    ensures |InsertSorted(lt, x, s)| == |s| + 1
  {
    if s == [] {
    } else if lt(x, s[0]) {
      var r := [x] + s;
      forall i, j | 0 <= i < j < |r| ensures lt(r[i], r[j]) {
        if i == 0 && j > 1 {
          assert lt(s[0], s[j - 1]);
        }
      }
    } else {
      var rest := s[1..];
      assert Elements(s) == Elements(rest) + {s[0]};
      InsertKeepsSorted(lt, x, rest);
      var t := InsertSorted(lt, x, rest);
      var r := [s[0]] + t;
      forall i, j | 0 <= i < j < |r| ensures lt(r[i], r[j]) {
        if i == 0 {
          assert t[j - 1] in Elements(t);
          if t[j - 1] != x {
            var k :| 0 <= k < |rest| && rest[k] == t[j - 1];
            assert lt(s[0], s[k + 1]);
          }
        }
      }
      assert Elements(r) == Elements(t) + {s[0]};
    }
  }

  /** Two strictly sorted listings of the same elements are equal. */
  lemma {:induction false} SortedUnique<T>(lt: (T, T) -> bool, a: seq<T>, b: seq<T>)
    requires Sorted(lt, a) && Sorted(lt, b) && Elements(a) == Elements(b)
    requires OrderOn(lt, Elements(a))
    ensures a == b
  {
    assert b != [] ==> b[0] in Elements(b);
    if a != [] {
      assert a[0] in Elements(a) && a[0] in Elements(b);
      assert b != [] && b[0] in Elements(b) && b[0] in Elements(a);
      var i :| 0 <= i < |a| && a[i] == b[0];
      var j :| 0 <= j < |b| && b[j] == a[0];
      assert a[0] == b[0];
      TailElements(lt, a);
      TailElements(lt, b);
      SortedUnique(lt, a[1..], b[1..]);
    }
  }

  lemma TailElements<T>(lt: (T, T) -> bool, a: seq<T>)
    requires a != [] && Sorted(lt, a) && OrderOn(lt, Elements(a))
    ensures Elements(a[1..]) == Elements(a) - {a[0]}
  {
    assert a[0] in Elements(a);
    forall x ensures x in Elements(a[1..]) <==> x in Elements(a) - {a[0]} {
      if x in a[1..] {
        var i :| 0 <= i < |a[1..]| && a[1..][i] == x;
        assert a[i + 1] == x && lt(a[0], a[i + 1]);
      }
    }
  }

  /** A strictly sorted listing has no repetition. */
  lemma SortedDistinct<T>(lt: (T, T) -> bool, a: seq<T>)
    requires Sorted(lt, a) && OrderOn(lt, Elements(a))
    ensures forall i, j :: 0 <= i < j < |a| ==> a[i] != a[j]
    ensures |Elements(a)| == |a|
  {
    forall i, j | 0 <= i < j < |a| ensures a[i] != a[j] {
      assert a[i] in Elements(a);
    }
    if a != [] {
      TailElements(lt, a);
      assert a[0] in Elements(a);
      SortedDistinct(lt, a[1..]);
    }
  }

  /** The strictly sorted listing of a finite set. */
  ghost function Arrange<T>(lt: (T, T) -> bool, dom: set<T>): (s: seq<T>)
    requires OrderOn(lt, dom)
    ensures Sorted(lt, s) && Elements(s) == dom
    decreases |dom|
  {
    if dom == {} then []
    else
      var x :| x in dom;
      var rest := Arrange(lt, dom - {x});
      assert Elements(rest) + {x} == dom;
      InsertKeepsSorted(lt, x, rest);
      InsertSorted(lt, x, rest)
  }

  lemma ArrangeIsUnique<T>(lt: (T, T) -> bool, s: seq<T>)
    requires OrderOn(lt, Elements(s)) && Sorted(lt, s)
    ensures s == Arrange(lt, Elements(s))
  {
    SortedUnique(lt, s, Arrange(lt, Elements(s)));
  }
}
