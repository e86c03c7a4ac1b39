/** Runs of a step system: the state after a sequence of actions. */
module Runs {
  function Exec<S, A>(step: (S, A) -> S, s: S, actions: seq<A>): S
    decreases |actions|
  {
    if actions == [] then s else Exec(step, step(s, actions[0]), actions[1..])
  }

  /** Running two sequences one after the other is running their concatenation. */
  lemma {:induction false} Concat<S, A>(step: (S, A) -> S, s: S, xs: seq<A>, ys: seq<A>)
    ensures Exec(step, s, xs + ys) == Exec(step, Exec(step, s, xs), ys)
    decreases |xs|
  {
    if xs == [] {
      assert xs + ys == ys;
    } else {
      assert (xs + ys)[1..] == xs[1..] + ys;
      Concat(step, step(s, xs[0]), xs[1..], ys);
    }
  }

  lemma First<S, A>(step: (S, A) -> S, s: S, actions: seq<A>)
    requires actions != []
    ensures Exec(step, s, actions) == Exec(step, step(s, actions[0]), actions[1..])
  {
  }

  lemma One<S, A>(step: (S, A) -> S, s: S, a: A)
    ensures Exec(step, s, [a]) == step(s, a)
  {
    assert Exec(step, step(s, a), [a][1..]) == step(s, a);
  }

  /** One more action. */
  lemma Snoc<S, A>(step: (S, A) -> S, s: S, xs: seq<A>, a: A)
    ensures Exec(step, s, xs + [a]) == step(Exec(step, s, xs), a)
  {
    Concat(step, s, xs, [a]);
    One(step, Exec(step, s, xs), a);
  }

  // ----- short runs, step by step

  lemma Three<S, A>(step: (S, A) -> S, s: S, a: A, b: A, c: A)
    ensures Exec(step, s, [a, b, c]) == step(step(step(s, a), b), c)
  {
    var s1 := step(s, a);
    assert [a, b, c][1..] == [b, c] && [b, c][1..] == [c];
    First(step, s, [a, b, c]);
    First(step, s1, [b, c]);
    One(step, step(s1, b), c);
  }

  lemma Four<S, A>(step: (S, A) -> S, s: S, a: A, b: A, c: A, d: A)
    ensures Exec(step, s, [a, b, c, d]) == step(step(step(step(s, a), b), c), d)
  {
    assert [a, b, c, d][1..] == [b, c, d];
    First(step, s, [a, b, c, d]);
    Three(step, step(s, a), b, c, d);
  }

  lemma Five<S, A>(step: (S, A) -> S, s: S, a: A, b: A, c: A, d: A, e: A)
    ensures Exec(step, s, [a, b, c, d, e]) == step(step(step(step(step(s, a), b), c), d), e)
  {
    assert [a, b, c, d, e][1..] == [b, c, d, e];
    First(step, s, [a, b, c, d, e]);
    Four(step, step(s, a), b, c, d, e);
  }

  lemma Six<S, A>(step: (S, A) -> S, s: S, a: A, b: A, c: A, d: A, e: A, f: A)
    ensures Exec(step, s, [a, b, c, d, e, f]) == step(step(step(step(step(step(s, a), b), c), d), e), f)
  {
    assert [a, b, c, d, e, f][1..] == [b, c, d, e, f];
    First(step, s, [a, b, c, d, e, f]);
    Five(step, step(s, a), b, c, d, e, f);
  }
}
