/** Reconnect, OpenChannel and Close as the program runs them, with other goroutines acting
    and the connection dropping between any two of their critical sections. */
module AmqpClientProgram {
  import opened Common
  import Runs
  import opened AmqpClient

  predicate Foreign(a: Action, t: nat) {
    a.ConnectionLost? || a.t != t
  }

  ghost predicate Spares(actions: seq<Action>, t: nat) {
    forall i :: 0 <= i < |actions| ==> Foreign(actions[i], t)
  }

  lemma ForeignSpares(s: State, a: Action, t: nat)
    requires Inv(s) && Foreign(a, t) && t in s.threads
    ensures t in Step(s, a).threads && Step(s, a).threads[t] == s.threads[t]
  {
  }

  /** Failed: the connection is live but opening the channel on it fails. */
  datatype ChannelOutcome = Opened(conn: nat) | Refused | Unavailable | Failed

  class Client {
    // the client's own fields, and reconnectMu's holder
    var conn: Option<nat>
    var closed: bool
    var holder: Option<nat>

    // the broker's side: live connections and all ever dialed
    var live: set<nat>
    var dialed: set<nat>

    // where the callers stand, and history
    var threads: map<nat, Phase>
    var discarded: set<nat>
    var hungUp: set<nat>
    ghost const first: nat
    ghost var history: seq<Action>

    function Now(): State
      reads this
    {
      State(conn, closed, live, dialed, holder, threads, discarded, hungUp)
    }

    ghost predicate Valid()
      reads this
    {
      Now() == Exec(Start(first), history)
    }

    ghost predicate At(t: nat, p: Phase, since: seq<Action>)
      reads this
    {
      Valid() && since <= history && t in threads && threads[t] == p
    }

    constructor (conn: nat)
      ensures Valid() && Now() == Start(conn) && history == []
    {
      this.conn, closed, holder := Some(conn), false, None;
      live, dialed := {conn}, {conn};
      threads, discarded, hungUp := map[], {}, {};
      first := conn;
      history := [];
    }

    /** What the program has just done is action `a` of the step system. */
    ghost method Note(a: Action)
      requires Now() == Step(Exec(Start(first), history), a)
      modifies this`history
      ensures Valid() && history == old(history) + [a]
    {
      Runs.Snoc(Step, Start(first), history, a);
      history := history + [a];
    }

    /** Other goroutines and the network. */
    method Others(actions: seq<Action>, ghost t: nat, ghost p: Phase)
      requires At(t, p, history) && Spares(actions, t)
      modifies this
      ensures At(t, p, old(history))
    {
      for i := 0 to |actions|
        invariant At(t, p, old(history))
      {
        ExecKeepsInv(Start(first), history);
        ForeignSpares(Now(), actions[i], t);
        Other(actions[i]);
      }
    }

    method Other(a: Action)
      requires Valid()
      modifies this
      ensures Valid() && Now() == Step(old(Now()), a) && history == old(history) + [a]
    {
      var s := Step(Now(), a);
      conn, closed, holder, live, dialed := s.conn, s.closed, s.holder, s.live, s.dialed;
      threads, discarded, hungUp := s.threads, s.discarded, s.hungUp;
      Note(a);
    }

    method OpenChannel(fails: bool) returns (r: ChannelOutcome)
      ensures r.Opened? || r.Failed? <==> CanOpenChannel(Now())
      ensures r.Opened? ==> conn == Some(r.conn) && !fails
      ensures r.Failed? ==> fails
      ensures r.Refused? <==> closed
    {
      if closed {
        return Refused;
      }
      if conn.None? || conn.value !in live {
        return Unavailable;
      }
      if fails {
        return Failed;
      }
      return Opened(conn.value);
    }

    /** Replaces a dead connection. The outcome is the one the run records; none means that
        another goroutine still holds reconnectMu. */
    method Reconnect(t: nat, before: seq<Action>, cancelled: bool, beforeDial: seq<Action>, dialFails: bool,
                     beforeSwap: seq<Action>, beforeDrop: seq<Action>) returns (r: Option<Outcome>)
      requires Valid() && t !in threads
      requires Spares(before, t) && Spares(beforeDial, t) && Spares(beforeSwap, t) && Spares(beforeDrop, t)
      modifies this
      ensures At(t, if r.Some? then Returned(r.value) else Reconnecting, old(history))
      ensures r == Some(ClientClosed) ==> closed
      ensures r == Some(Cancelled) ==> cancelled
      ensures r == Some(DialFailed) ==> dialFails
      ensures r == None ==> holder.Some?
    {
      threads := threads[t := Reconnecting];
      Note(CallReconnect(t));
      Others(before, t, Reconnecting);
      if holder.Some? {
        return None;
      }
      var looked := Look(t, cancelled);
      if looked.Some? {
        return looked;
      }
      var dialed;
      dialed := DialNew(t, beforeDial, dialFails);
      if dialed.None? {
        return Some(DialFailed);
      }
      var outcome := SwapIn(t, dialed.value, beforeSwap, beforeDrop);
      return Some(outcome);
    }

    /** The checks under the read lock, reconnectMu being taken. */
    method Look(t: nat, cancelled: bool) returns (r: Option<Outcome>)
      requires At(t, Reconnecting, history) && holder.None?
      modifies this
      ensures At(t, if r.Some? then Returned(r.value) else LockedToDial, old(history))
      ensures r == if closed then Some(ClientClosed)
                   else if Alive(Now(), conn) then Some(Done)
                   else if cancelled then Some(Cancelled)
                   else None
    {
      r := None;
      if closed {
        r := Some(ClientClosed);
      } else if conn.Some? && conn.value in live {
        r := Some(Done);
      } else if cancelled {
        r := Some(Cancelled);
      }
      if r.Some? {
        threads := threads[t := Returned(r.value)];
      } else {
        holder, threads := Some(t), threads[t := LockedToDial];
      }
      Note(Check(t, cancelled));
    }

    method DialNew(t: nat, others: seq<Action>, fails: bool) returns (c: Option<nat>)
      requires At(t, LockedToDial, history) && Spares(others, t)
      modifies this
      ensures At(t, if c.Some? then LockedWithConn(c.value) else Returned(DialFailed), old(history))
      ensures c.None? <==> fails
      ensures c.None? ==> holder.None?
    {
      Others(others, t, LockedToDial);
      c := None;
      if fails {
        holder, threads := None, threads[t := Returned(DialFailed)];
      } else {
        var id := FreshNumber(dialed);
        c := Some(id);
        live, dialed, threads := live + {id}, dialed + {id}, threads[t := LockedWithConn(id)];
      }
      Note(Dial(t, c));
    }

    method SwapIn(t: nat, c: nat, beforeSwap: seq<Action>, beforeDrop: seq<Action>) returns (r: Outcome)
      requires At(t, LockedWithConn(c), history) && Spares(beforeSwap, t) && Spares(beforeDrop, t)
      modifies this
      ensures At(t, Returned(r), old(history)) && holder.None?
      ensures r.Done? || (r.ClientClosed? && closed)
    {
      Others(beforeSwap, t, LockedWithConn(c));
      if closed {
        live, discarded := live - {c}, discarded + {c};
        holder, threads := None, threads[t := Returned(ClientClosed)];
        Note(Swap(t));
        return ClientClosed;
      }
      var previous := conn;
      conn, threads := Some(c), threads[t := LockedWithOld(conn)];
      Note(Swap(t));
      DropPrevious(t, previous, beforeDrop);
      return Done;
    }

    method DropPrevious(t: nat, previous: Option<nat>, others: seq<Action>)
      requires At(t, LockedWithOld(previous), history) && Spares(others, t)
      modifies this
      ensures At(t, Returned(Done), old(history)) && holder.None?
    {
      Others(others, t, LockedWithOld(previous));
      if previous.Some? && previous.value in live {
        live, hungUp := live - {previous.value}, hungUp + {previous.value};
      }
      holder, threads := None, threads[t := Returned(Done)];
      Note(DropOld(t));
    }

    /** Closes for good; closing again does nothing. */
    method Close(t: nat, before: seq<Action>, beforeHangUp: seq<Action>) returns (r: Option<Outcome>)
      requires Valid() && t !in threads && Spares(before, t) && Spares(beforeHangUp, t)
      modifies this
      ensures At(t, if r.Some? then Returned(r.value) else ClosingDown, old(history))
      ensures r.Some? ==> r.value.Done? && closed && !CanOpenChannel(Now())
      ensures r == None ==> holder.Some?
    {
      threads := threads[t := ClosingDown];
      Note(CallClose(t));
      Others(before, t, ClosingDown);
      if holder.Some? {
        return None;
      }
      var again, last := closed, conn;
      Mark(t);
      if !again {
        HangUpLast(t, last, beforeHangUp);
      }
      return Some(Done);
    }

    /** Under both locks, reconnectMu being taken. */
    method Mark(t: nat)
      requires At(t, ClosingDown, history) && holder.None?
      modifies this
      ensures closed && At(t, if old(closed) then Returned(Done) else LockedToHangUp(old(conn)), old(history))
    {
      if closed {
        threads := threads[t := Returned(Done)];
      } else {
        holder, closed, conn, threads := Some(t), true, None, threads[t := LockedToHangUp(conn)];
      }
      Note(MarkClosed(t));
    }

    method HangUpLast(t: nat, last: Option<nat>, others: seq<Action>)
      requires At(t, LockedToHangUp(last), history) && Spares(others, t)
      modifies this
      ensures At(t, Returned(Done), old(history)) && closed
    {
      Others(others, t, LockedToHangUp(last));
      ExecKeepsInv(Start(first), history);
      if last.Some? && last.value in live {
        live := live - {last.value};
      }
      holder, threads := None, threads[t := Returned(Done)];
      Note(HangUp(t));
    }
  }
}
