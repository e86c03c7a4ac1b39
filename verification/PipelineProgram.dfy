/** The consumer's handling of a delivery and the confirming publisher, as the program runs
    them, with the broker and other consumers acting between their calls. */
module PipelineProgram {
  import opened Bits
  import opened Common
  import Runs
  import opened OperationLog
  import opened Pipeline

  /** Actions that are not delivery d's own. Losing the delivery's channel is not its own. */
  predicate Foreign(a: Action, d: nat) {
    (a.Handle? || a.Accept? || a.Confirm? || a.SendFails? || a.Ack? || a.Nack? || a.Crash?) ==> a.d != d
  }

  ghost predicate Spares(actions: seq<Action>, d: nat) {
    forall i :: 0 <= i < |actions| ==> Foreign(actions[i], d)
  }

  lemma ForeignSpares(p: Params, s: State, a: Action, d: nat)
    requires Foreign(a, d) && d < |s.works|
    ensures d < |Step(p, s, a).works| && Step(p, s, a).works[d] == s.works[d]
    ensures |Step(p, s, a).copies| >= |s.copies|
  {
  }

  /** Rows are only appended, and bodies and retry counts never change. */
  ghost predicate Keeps(s: State, s': State) {
    && s.rows <= s'.rows && |s.copies| <= |s'.copies|
    && forall i :: 0 <= i < |s.copies| ==>
         s'.copies[i].body == s.copies[i].body && RetryCount(s'.copies[i].headers) == RetryCount(s.copies[i].headers)
  }

  lemma StepKeeps(p: Params, s: State, a: Action)
    ensures Keeps(s, Step(p, s, a))
  {
    assert |RETRY_HEADER| != |DEATH_HEADER|;
  }

  lemma InsertedIsRecorded(b: Body, rows: seq<Row>, commit: Commit, platform: Platform)
    requires Process(b, rows, commit, platform).1.Stored?
    ensures Decodes(b)
    ensures forall later :: Process(b, rows, commit, platform).0 <= later ==> HasEvent(later, b.event.eventID)
  {
    var after := Process(b, rows, commit, platform).0;
    assert HasEvent(after, b.event.eventID) by {
      if !HasEvent(rows, b.event.eventID) {
        assert after[|rows|].eventID == b.event.eventID;
      }
    }
    var k :| 0 <= k < |after| && after[k].eventID == b.event.eventID;
    forall later | after <= later ensures HasEvent(later, b.event.eventID) {
      assert later[k] == after[k];
    }
  }

  class World {
    const p: Params
    var s: State

    /** The run so far. */
    ghost var history: seq<Action>

    ghost predicate Valid()
      reads this
    {
      s == Exec(p, START, history)
    }

    /** Delivery d stands at w in a run that extends `since`. */
    ghost predicate At(d: nat, w: Work, since: seq<Action>)
      reads this
    {
      Valid() && since <= history && d < |s.works| && s.works[d] == w && w.copy < |s.copies|
    }

    constructor (p: Params)
      ensures Valid() && this.p == p && s == START && history == []
    {
      this.p := p;
      s := START;
      history := [];
    }

    method Do(a: Action)
      requires Valid()
      modifies this
      ensures Valid() && s == Step(p, old(s), a) && history == old(history) + [a] && Keeps(old(s), s)
    {
      StepKeeps(p, s, a);
      Runs.Snoc(StepOf(p), START, history, a);
      s := Step(p, s, a);
      history := history + [a];
    }

    method Others(actions: seq<Action>, ghost d: nat, ghost w: Work)
      requires At(d, w, history) && Spares(actions, d)
      modifies this
      ensures At(d, w, old(history)) && Keeps(old(s), s)
    {
      for i := 0 to |actions|
        invariant At(d, w, old(history)) && Keeps(old(s), s)
      {
        ForeignSpares(p, s, actions[i], d);
        Do(actions[i]);
      }
    }
  }

  datatype Confirmation = Acked | Nacked | TimedOut

  /** What happens to one publication: whether the channel is up or can be recovered, whether
      the write succeeds, whether the broker took the message, and how the wait ends. */
  datatype Send = Send(before: seq<Action>, channelUp: bool, recovers: bool, writes: bool, taken: bool, wait: Confirmation)

  /** A publication is confirmed on an open publisher with a channel that works or can be recovered,
      if the write succeeds and the broker acknowledges it. */
  predicate Confirmed(closed: bool, hasChannel: bool, net: Send) {
    !closed && ((hasChannel && net.channelUp) || net.recovers) && net.writes && net.wait.Acked?
  }

  /** The newest copy is a new message with the event as its body, in the main queue. */
  ghost predicate Queued(s: State, event: Event, headers: Headers) {
    && s.copies != []
    && var c := s.copies[|s.copies| - 1];
       c.body.json && c.body.event == event && c.headers == headers && c.place == Main && c.parent.None?
  }

  class Publisher {
    const world: World
    var hasChannel: bool
    var closed: bool

    constructor (world: World)
      ensures this.world == world && hasChannel && !closed
    {
      this.world := world;
      hasChannel, closed := true, false;
    }

    method Close()
      modifies this
      ensures closed && hasChannel == (old(closed) && old(hasChannel))
    {
      if !closed {
        closed := true;
        hasChannel := false;
      }
    }

    /** Publishes a new event and waits for the confirmation. An invalid event is not sent. A
        confirmed one is in the main queue, as a message of its own with the event as its body. */
    method Publish(event: Event, headers: Headers, net: Send) returns (ok: bool)
      requires world.Valid() && Wired(world.p) && RETRY_HEADER !in headers
      modifies this, world
      ensures world.Valid() && old(world.history) <= world.history
      ensures ok <==> Valid(event) && Confirmed(old(closed), old(hasChannel), net)
      ensures ok ==> Queued(world.s, event, headers)
      ensures !Valid(event) || old(closed) ==> world.history == old(world.history) && hasChannel == old(hasChannel)
      ensures closed == old(closed)
    {
      if !Valid(event) || closed {
        return false;
      }
      if !hasChannel || !net.channelUp {
        hasChannel := net.recovers;
        if !net.recovers {
          return false;
        }
      }
      if !net.writes {
        hasChannel := false;
        if net.taken {
          world.Do(Action.Publish(event, headers));
        }
        return false;
      }
      if net.taken || net.wait.Acked? {
        ghost var before := world.s;
        Wiring(world.p);
        world.Do(Action.Publish(event, headers));
        assert world.s.copies[|before.copies|] == Copy(Body(true, event), headers, Main, |before.copies|, None, 0);
      }
      return net.wait.Acked?;
    }

    /** Publishes delivery d's message and waits for the broker's confirmation. It reports
        success only for a message the broker took and confirmed; on failure the broker may
        still have taken it, except that a closed publisher never sends anything. */
    method Republish(d: nat, dest: Dest, headers: Headers, net: Send) returns (ok: bool)
      requires d < |world.s.works|
      requires world.At(d, Work(world.s.works[d].copy, Sending, Some(dest), false, None), world.history)
      requires headers == Outgoing(world.s.copies[world.s.works[d].copy].headers, dest)
      requires Spares(net.before, d)
      modifies this, world
      ensures world.Valid() && old(world.history) <= world.history && d < |world.s.works|
      ensures var w, w' := old(world.s.works[d]), world.s.works[d];
              && w'.copy == w.copy && w'.copy < |world.s.copies| && w'.outgoing == Some(dest)
              && w'.phase == (if ok then Transferred else Refused)
              && (ok ==> w'.taken) && (w'.taken ==> ok || net.taken)
              && (w'.taken ==> (w'.child.Some? <==> Destination(world.p, dest).Some?))
      ensures ok <==> Confirmed(old(closed), old(hasChannel), net)
      ensures old(closed) ==> !world.s.works[d].taken && hasChannel == old(hasChannel)
      ensures closed == old(closed)
      ensures !closed ==> hasChannel == (((old(hasChannel) && net.channelUp) || net.recovers) && net.writes)
    {
      if closed {
        Fail(d, world.s.works[d]);
        return false;
      }
      world.Others(net.before, d, world.s.works[d]);
      if !hasChannel || !net.channelUp {
        hasChannel := false;
        if !net.recovers {
          Fail(d, world.s.works[d]);
          return false;
        }
        hasChannel := true;
      }
      if !net.writes {
        hasChannel := false;
        if net.taken {
          Take(d, dest);
        }
        Fail(d, world.s.works[d]);
        return false;
      }
      if net.taken || net.wait.Acked? {
        Take(d, dest);
      }
      if !net.wait.Acked? {
        Fail(d, world.s.works[d]);
        return false;
      }
      world.Do(Confirm(d));
      return true;
    }

    /** The broker takes the message. */
    method Take(d: nat, dest: Dest)
      requires d < |world.s.works|
      requires world.At(d, Work(world.s.works[d].copy, Sending, Some(dest), false, None), world.history)
      modifies world
      ensures world.Valid() && old(world.history) <= world.history && d < |world.s.works|
      ensures var w := world.s.works[d];
              && w == Work(old(world.s.works[d]).copy, Sending, Some(dest), true, w.child) && w.copy < |world.s.copies|
              && (w.child.Some? <==> Destination(world.p, dest).Some?)
    {
      world.Do(Accept(d));
    }

    /** The publication is reported as failed. */
    method Fail(d: nat, ghost w: Work)
      requires world.At(d, w, world.history) && w.phase == Sending
      modifies world
      ensures world.At(d, w.(phase := Refused), old(world.history))
    {
      world.Do(SendFails(d));
    }
  }

  datatype Disposition = Persisted | Retried | DeadLettered | Requeued

  /** What happens around the handling of one delivery. */
  datatype Weather = Weather(before: seq<Action>, commit: Commit, net: Send, beforeAck: seq<Action>, ackReaches: bool)

  ghost predicate SparesAll(e: Weather, d: nat) {
    Spares(e.before, d) && Spares(e.net.before, d) && Spares(e.beforeAck, d)
  }

  class Consumer {
    const world: World
    const publisher: Publisher

    constructor (world: World, publisher: Publisher)
      requires publisher.world == world
      ensures this.world == world && this.publisher == publisher
    {
      this.world := world;
      this.publisher := publisher;
    }

    /** Handles one delivery to its end by steps of the step system only. It is acknowledged
        after its event is in the database or after the broker has taken its republication,
        and put back otherwise. */
    method HandleDelivery(d: nat, e: Weather) returns (r: Disposition)
      requires publisher.world == world && SparesAll(e, d) && d < |world.s.works|
      requires world.At(d, Work(world.s.works[d].copy, Received, None, false, None), world.history)
      modifies world, publisher
      ensures world.Valid() && old(world.history) <= world.history
      ensures d < |world.s.works| && world.s.works[d].phase == Finished
      ensures var w := world.s.works[d];
              && w.copy == old(world.s.works[d].copy) && w.copy < |world.s.copies|
              && (r.Persisted? <==> w.outgoing.None?)
              && (r.Persisted? ==> Recorded(world.s, w.copy))
              && (r.Retried? ==> w.outgoing == Some(ToRetry) && w.taken)
              && (r.DeadLettered? ==> w.outgoing == Some(ToDead) && w.taken)
      ensures var c := old(world.s.copies[world.s.works[d].copy]);
              && (r.Persisted? <==> c.body.json && Retryable(world.p, c.body) && e.commit.Reported?)
              && (r.Retried? ==> Retryable(world.p, c.body) && RetryCount(c.headers) < world.p.maxRetries)
              && (r.DeadLettered? ==> !Retryable(world.p, c.body) || RetryCount(c.headers) >= world.p.maxRetries)
              && (r.Requeued? <==> !(c.body.json && Retryable(world.p, c.body) && e.commit.Reported?)
                                   && !Confirmed(old(publisher.closed), old(publisher.hasChannel), e.net))
      ensures e.ackReaches ==> world.s.copies[world.s.works[d].copy].place != Held(d)
    {
      var w := world.s.works[d];
      world.Others(e.before, d, w);
      var c := world.s.copies[w.copy];
      ghost var rowsBefore := world.s.rows;
      var (rows, result) := Process(c.body, world.s.rows, e.commit, world.p.platform);
      world.Do(Handle(d, e.commit));
      if result.Stored? {
        InsertedIsRecorded(c.body, rowsBefore, e.commit, world.p.platform);
        Acknowledge(d, e);
        return Persisted;
      }
      assert world.s.works[d] == Work(w.copy, Sending, Some(Verdict(world.p, c, result)), false, None);
      if !Valid(c.body.event) || result.PermanentError? {
        r := MoveToDeadLetter(d, c.headers, e);
      } else {
        r := RetryOrDeadLetter(d, c.headers, e);
      }
    }

    method Acknowledge(d: nat, e: Weather)
      requires world.Valid() && d < |world.s.works| && world.s.works[d].copy < |world.s.copies| && SparesAll(e, d)
      requires world.s.works[d].phase == Saved || world.s.works[d].phase == Transferred
      modifies world
      ensures world.At(d, old(world.s.works[d]).(phase := Finished), old(world.history))
      ensures Keeps(old(world.s), world.s)
      ensures e.ackReaches ==> Released(d)
    {
      world.Others(e.beforeAck, d, world.s.works[d]);
      world.Do(Ack(d, e.ackReaches));
    }

    method RetryOrDeadLetter(d: nat, delivered: Headers, e: Weather) returns (r: Disposition)
      requires publisher.world == world && SparesAll(e, d) && d < |world.s.works|
      requires world.At(d, Work(world.s.works[d].copy, Sending,
                                Some(if RetryCount(delivered) >= world.p.maxRetries then ToDead else ToRetry), false, None),
                        world.history)
      requires delivered == world.s.copies[world.s.works[d].copy].headers
      modifies world, publisher
      ensures world.Valid() && old(world.history) <= world.history && d < |world.s.works|
      ensures Settlement(d, old(world.s.works[d]), r)
      ensures r.Requeued? <==> !Confirmed(old(publisher.closed), old(publisher.hasChannel), e.net)
      ensures e.ackReaches ==> Released(d)
    {
      var count := RetryCount(delivered);
      if count >= world.p.maxRetries {
        r := MoveToDeadLetter(d, delivered, e);
        return;
      }
      var headers := CloneHeaders(delivered);
      headers := headers[RETRY_HEADER := Number(I32, WrapInt32(count + 1))];
      var sent := publisher.Republish(d, ToRetry, headers, e.net);
      r := Conclude(d, sent, Retried, e);
    }

    method MoveToDeadLetter(d: nat, delivered: Headers, e: Weather) returns (r: Disposition)
      requires publisher.world == world && SparesAll(e, d) && d < |world.s.works|
      requires world.At(d, Work(world.s.works[d].copy, Sending, Some(ToDead), false, None), world.history)
      requires delivered == world.s.copies[world.s.works[d].copy].headers
      modifies world, publisher
      ensures world.Valid() && old(world.history) <= world.history && d < |world.s.works|
      ensures Settlement(d, old(world.s.works[d]), r)
      ensures r.Requeued? <==> !Confirmed(old(publisher.closed), old(publisher.hasChannel), e.net)
      ensures e.ackReaches ==> Released(d)
    {
      var headers := CloneHeaders(delivered);
      headers := headers[ERROR_HEADER := Note("")];
      var sent := publisher.Republish(d, ToDead, headers, e.net);
      r := Conclude(d, sent, DeadLettered, e);
    }

    /** The broker no longer holds the copy for delivery d. */
    ghost predicate Released(d: nat)
      reads world
    {
      d < |world.s.works| && world.s.works[d].copy < |world.s.copies|
      && world.s.copies[world.s.works[d].copy].place != Held(d)
    }

    /** How a delivery that had to be republished ends. */
    ghost predicate Settlement(d: nat, before: Work, r: Disposition)
      reads world
    {
      && d < |world.s.works|
      && var w := world.s.works[d];
         && w.phase == Finished && w.copy == before.copy && w.copy < |world.s.copies| && w.outgoing == before.outgoing
         && (r.Requeued? || (w.taken && r == if w.outgoing == Some(ToRetry) then Retried else DeadLettered))
    }

    method Conclude(d: nat, sent: bool, moved: Disposition, e: Weather) returns (r: Disposition)
      requires world.Valid() && d < |world.s.works| && world.s.works[d].copy < |world.s.copies| && SparesAll(e, d)
      requires world.s.works[d].phase == if sent then Transferred else Refused
      modifies world
      ensures r == if sent then moved else Requeued
      ensures e.ackReaches ==> Released(d)
      ensures world.At(d, old(world.s.works[d]).(phase := Finished), old(world.history))
    {
      if !sent {
        world.Others(e.beforeAck, d, world.s.works[d]);
        world.Do(Nack(d, e.ackReaches));
        return Requeued;
      }
      Acknowledge(d, e);
      return moved;
    }
  }
}
