/** Progress of the operation-log pipeline over every run: how often one message can be handled,
    and where it is when there is nothing left to do. */
module PipelineProgress {
  import opened Common
  import Runs
  import opened OperationLog
  import opened Pipeline
  import opened PipelineGuarantees

  /** The broker puts an unacknowledged copy of message `o` back: its channel is lost, or its
      consumer gives up on it. */
  ghost predicate PutsBack(s: State, a: Action, o: nat) {
    && (a.Lose? || (a.Nack? && a.reaches))
    && a.d < |s.works| && s.works[a.d].copy < |s.copies| && s.copies[s.works[a.d].copy].origin == o
  }

  /** No copy of message `o` is put back anywhere in a run; other messages' copies may be. */
  ghost predicate NeverPutBack(p: Params, s: State, actions: seq<Action>, o: nat)
    decreases |actions|
  {
    actions == [] || (!PutsBack(s, actions[0], o) && NeverPutBack(p, Step(p, s, actions[0]), actions[1..], o))
  }

  ghost predicate OfOrigin(s: State, d: nat, o: nat) {
    d < |s.works| && s.works[d].copy < |s.copies| && s.copies[s.works[d].copy].origin == o
  }

  /** A delivered copy stays with its one delivery until it is gone. */
  ghost predicate HandledOnce(s: State, o: nat) {
    && (forall d :: 0 <= d < |s.works| && OfOrigin(s, d, o) ==>
          s.copies[s.works[d].copy].place == Held(d) || s.copies[s.works[d].copy].place == Gone)
    && (forall d, e :: 0 <= d < |s.works| && 0 <= e < |s.works| && OfOrigin(s, d, o) && OfOrigin(s, e, o) ==>
          s.works[d].copy == s.works[e].copy ==> d == e)
  }

  ghost predicate Made(s: State, d: nat, j: nat) {
    d < |s.works| && s.works[d].child == Some(j) && j < |s.copies| && s.copies[j].parent == Some(s.works[d].copy)
  }

  /** Every republished copy is the child of a delivery. */
  ghost predicate ChildrenAreMade(s: State, o: nat) {
    forall j :: 0 <= j < |s.copies| && s.copies[j].origin == o && s.copies[j].parent.Some? ==> exists d: nat :: Made(s, d, j)
  }

  /** Deliveries keep their message. */
  lemma OriginStays(p: Params, s: State, a: Action, o: nat)
    requires Wired(p) && Inv(p, s)
    ensures |s.works| <= |Step(p, s, a).works|
    ensures forall d :: 0 <= d < |s.works| ==>
              OfOrigin(Step(p, s, a), d, o) == OfOrigin(s, d, o) && Step(p, s, a).works[d].copy == s.works[d].copy
  {
    var s' := Step(p, s, a);
    StepKeepsInv(p, s, a);
    forall d | 0 <= d < |s.works| ensures OfOrigin(s', d, o) == OfOrigin(s, d, o) {
      assert WorkOk(p, s, d);
      assert SameMessage(s.copies[s.works[d].copy], s'.copies[s.works[d].copy]);
    }
  }

  lemma DeliverKeepsHandledOnce(p: Params, s: State, i: nat, o: nat)
    requires Wired(p) && Inv(p, s) && HandledOnce(s, o) && i < |s.copies| && s.copies[i].place == Main
    ensures HandledOnce(Step(p, s, Deliver(i)), o)
  {
    OriginStays(p, s, Deliver(i), o);
    assert forall d :: 0 <= d < |s.works| && OfOrigin(s, d, o) ==> s.works[d].copy != i;
  }

  /** Where a delivered copy is after a step that neither delivers nor puts back. */
  lemma PlaceStays(p: Params, s: State, a: Action, o: nat, d: nat)
    requires Wired(p) && Inv(p, s) && HandledOnce(s, o) && !PutsBack(s, a, o) && !a.Deliver?
    requires d < |s.works| && OfOrigin(s, d, o) && s.works[d].copy < |Step(p, s, a).copies|
    ensures var q := Step(p, s, a).copies[s.works[d].copy].place; q == Held(d) || q == Gone
  {
  }

  lemma NoNewDelivery(p: Params, s: State, a: Action)
    requires !a.Deliver?
    ensures |Step(p, s, a).works| == |s.works|
  {
  }

  lemma HandledOnceFrame(s: State, s': State, o: nat)
    requires HandledOnce(s, o) && |s'.works| == |s.works|
    requires forall d :: 0 <= d < |s.works| ==>
               OfOrigin(s', d, o) == OfOrigin(s, d, o) && s'.works[d].copy == s.works[d].copy
    requires forall d :: 0 <= d < |s'.works| && OfOrigin(s', d, o) ==>
               s'.copies[s'.works[d].copy].place == Held(d) || s'.copies[s'.works[d].copy].place == Gone
    ensures HandledOnce(s', o)
  {
  }

  lemma StepKeepsHandledOnce(p: Params, s: State, a: Action, o: nat)
    requires Wired(p) && Inv(p, s) && HandledOnce(s, o) && !PutsBack(s, a, o)
    ensures HandledOnce(Step(p, s, a), o)
  {
    if a.Deliver? {
      if a.copy < |s.copies| && s.copies[a.copy].place == Main {
        DeliverKeepsHandledOnce(p, s, a.copy, o);
      }
    } else {
      var s' := Step(p, s, a);
      OriginStays(p, s, a, o);
      NoNewDelivery(p, s, a);
      forall d | 0 <= d < |s'.works| && OfOrigin(s', d, o)
        ensures s'.copies[s'.works[d].copy].place == Held(d) || s'.copies[s'.works[d].copy].place == Gone
      {
        PlaceStays(p, s, a, o, d);
      }
      HandledOnceFrame(s, s', o);
    }
  }

  lemma StepKeepsChildren(p: Params, s: State, a: Action, o: nat)
    requires Wired(p) && Inv(p, s) && ChildrenAreMade(s, o)
    ensures ChildrenAreMade(Step(p, s, a), o)
  {
    var s' := Step(p, s, a);
    StepKeepsInv(p, s, a);
    forall j | 0 <= j < |s'.copies| && s'.copies[j].origin == o && s'.copies[j].parent.Some?
      ensures exists d: nat :: Made(s', d, j)
    {
      if j < |s.copies| {
        assert SameMessage(s.copies[j], s'.copies[j]);
        var d: nat :| Made(s, d, j);
        MadeStays(p, s, a, d, j);
      } else {
        NewIsMade(p, s, a, j);
      }
    }
  }

  lemma MadeStays(p: Params, s: State, a: Action, d: nat, j: nat)
    requires Wired(p) && Inv(p, s) && Made(s, d, j)
    ensures Made(Step(p, s, a), d, j)
  {
    StepKeepsInv(p, s, a);
    assert WorkOk(p, s, d);
    assert SameMessage(s.copies[j], Step(p, s, a).copies[j]);
  }

  lemma NewIsMade(p: Params, s: State, a: Action, j: nat)
    requires |s.copies| <= j < |Step(p, s, a).copies| && Step(p, s, a).copies[j].parent.Some?
    ensures exists d: nat :: Made(Step(p, s, a), d, j)
  {
    assert a.Accept? && Made(Step(p, s, a), a.d, j);
  }

  lemma {:induction false} ExecKeepsChain(p: Params, s: State, actions: seq<Action>, o: nat)
    requires Wired(p) && Inv(p, s) && HandledOnce(s, o) && ChildrenAreMade(s, o) && NeverPutBack(p, s, actions, o)
    ensures var t := Exec(p, s, actions); Inv(p, t) && HandledOnce(t, o) && ChildrenAreMade(t, o)
    decreases |actions|
  {
    if actions != [] {
      StepKeepsInv(p, s, actions[0]);
      StepKeepsHandledOnce(p, s, actions[0], o);
      StepKeepsChildren(p, s, actions[0], o);
      ExecKeepsChain(p, Step(p, s, actions[0]), actions[1..], o);
    }
  }

  /** The copies of one message form a chain: one of each generation. */
  lemma {:induction false} OnePerGeneration(p: Params, s: State, o: nat, i: nat, j: nat)
    requires Inv(p, s) && HandledOnce(s, o) && ChildrenAreMade(s, o)
    requires i < |s.copies| && j < |s.copies| && s.copies[i].origin == o && s.copies[j].origin == o
    requires s.copies[i].generation == s.copies[j].generation
    ensures i == j
    decreases i
  {
    assert CopyOk(p, s, i) && CopyOk(p, s, j);
    if s.copies[i].parent.Some? && s.copies[j].parent.Some? {
      var d: nat :| Made(s, d, i);
      var e: nat :| Made(s, e, j);
      OnePerGeneration(p, s, o, s.works[d].copy, s.works[e].copy);
    }
  }

  /** The deliveries of message `o`. */
  ghost function Handlings(s: State, o: nat): set<nat> {
    set d: nat | d < |s.works| && OfOrigin(s, d, o)
  }

  /** Those of copies of a generation below n. */
  ghost function HandlingsBelow(s: State, o: nat, n: nat): set<nat> {
    set d: nat | d < |s.works| && OfOrigin(s, d, o) && s.copies[s.works[d].copy].generation < n
  }

  lemma {:induction false} AtMostOnePerGeneration(p: Params, s: State, o: nat, n: nat)
    requires Inv(p, s) && HandledOnce(s, o) && ChildrenAreMade(s, o)
    ensures |HandlingsBelow(s, o, n)| <= n
  {
    if n > 0 {
      AtMostOnePerGeneration(p, s, o, n - 1);
      var below, rest := HandlingsBelow(s, o, n), HandlingsBelow(s, o, n - 1);
      if below != rest {
        assert rest <= below;
        var d: nat :| d in below && d !in rest;
        forall e: nat | e in below && e !in rest ensures e == d {
          OnePerGeneration(p, s, o, s.works[d].copy, s.works[e].copy);
        }
        assert below == rest + {d};
      }
    } else {
      assert HandlingsBelow(s, o, 0) == {};
    }
  }

  /** A message published without a retry header, whose copies are never put back. */
  ghost predicate Steady(p: Params, actions: seq<Action>, o: nat) {
    var s := Exec(p, START, actions);
    && NeverPutBack(p, START, actions, o)
    && o < |s.copies| && s.copies[o].parent.None? && RETRY_HEADER !in s.copies[o].headers
  }

  /** Main result. Over every run, however publications, deliveries, database failures, late or
      refused confirmations, TTLs and other messages' failures are interleaved: a message whose
      copies are never put back is handled at most maxRetries + 1 times. */
  lemma HandlingsAreBounded(p: Params, actions: seq<Action>, o: nat)
    requires Wired(p) && Steady(p, actions, o)
    ensures |Handlings(Exec(p, START, actions), o)| <= p.maxRetries + 1
  {
    ExecKeepsChain(p, START, actions, o);
    var s := Exec(p, START, actions);
    assert CopyOk(p, s, o);
    forall d | d in Handlings(s, o) ensures d in HandlingsBelow(s, o, p.maxRetries + 1) {
      assert CopyOk(p, s, s.works[d].copy) && WorkOk(p, s, d);
    }
    assert Handlings(s, o) == HandlingsBelow(s, o, p.maxRetries + 1);
    AtMostOnePerGeneration(p, s, o, p.maxRetries + 1);
  }

  /** No copy of the message waits in the main or the retry queue or with a consumer. */
  ghost predicate NothingLeft(s: State, o: nat) {
    forall i :: 0 <= i < |s.copies| && s.copies[i].origin == o ==> s.copies[i].place.Dead? || s.copies[i].place.Gone?
  }

  /** Main result. Over every run at all: when no copy of a message waits any more, its event is
      in the database or one of its copies is in the DLQ. */
  lemma NothingLeftMeansSettled(p: Params, actions: seq<Action>, o: nat)
    requires Wired(p)
    ensures var s := Exec(p, START, actions);
            o < |s.copies| && s.copies[o].parent.None? && NothingLeft(s, o) ==> Settled(s, s.copies[o].body, o)
  {
    Reachable(p, actions);
    var s := Exec(p, START, actions);
    if o < |s.copies| && s.copies[o].parent.None? && NothingLeft(s, o) {
      assert CopyOk(p, s, o);
      Traceable(p, s, o);
      if !Recorded(s, o) {
        var j: nat :| StandsFor(s, j, o);
        assert s.copies[j].place == Dead;
      }
    }
  }
}
