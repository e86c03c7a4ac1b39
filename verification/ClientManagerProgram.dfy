/** GetClient and Close as the program runs them, with other goroutines acting between any
    two of their critical sections. */
module ClientManagerProgram {
  import opened Common
  import Runs
  import opened ClientManager
  import opened Text

  ghost predicate Spares(actions: seq<Action>, t: nat) {
    forall i :: 0 <= i < |actions| ==> actions[i].t != t
  }

  /** A step changes nobody else's phase and never reopens the manager. */
  ghost predicate Spared(s: State, s': State, t: nat) {
    && (t in s'.threads) == (t in s.threads)
    && (t in s.threads ==> s'.threads[t] == s.threads[t])
    && (s.closed ==> s'.closed)
  }

  lemma LookupSparesOthers(s: State, a: Action, t: nat)
    requires a.t != t && a.FastPath?
    ensures Spared(s, Step(s, a), t)
  {
  }

  lemma ReserveSparesOthers(s: State, a: Action, t: nat)
    requires a.t != t && a.SlowPath?
    ensures Spared(s, Step(s, a), t)
  {
  }

  lemma CreationSparesOthers(s: State, a: Action, t: nat)
    requires a.t != t && (a.Dial? || a.Publish? || a.Wake? || a.Cancel?)
    ensures Spared(s, Step(s, a), t)
  {
  }

  lemma CloseSparesOthers(s: State, a: Action, t: nat)
    requires a.t != t && (a.Get? || a.CallClose? || a.Shut? || a.CloseOne?)
    ensures Spared(s, Step(s, a), t)
  {
  }

  lemma StepSparesOthers(s: State, a: Action, t: nat)
    requires a.t != t
    ensures Spared(s, Step(s, a), t)
  {
    if a.FastPath? {
      LookupSparesOthers(s, a, t);
    } else if a.SlowPath? {
      ReserveSparesOthers(s, a, t);
    } else if a.Dial? || a.Publish? || a.Wake? || a.Cancel? {
      CreationSparesOthers(s, a, t);
    } else {
      CloseSparesOthers(s, a, t);
    }
  }

  /** What can happen around one call of GetClient. `beforeWake` is what happens while it waits for
      another creation, `contextDone` says whether its context has ended by then, and `picksContext`
      which of the two ends the wait if both can. */
  datatype Weather = Weather(
    beforeFast: seq<Action>,
    beforeSlow: seq<Action>,
    beforeDial: seq<Action>, dialFails: bool,
    beforePublish: seq<Action>,
    beforeWake: seq<Action>, contextDone: bool, picksContext: bool)

  ghost predicate SparesAll(w: Weather, t: nat) {
    && Spares(w.beforeFast, t) && Spares(w.beforeSlow, t) && Spares(w.beforeDial, t)
    && Spares(w.beforePublish, t) && Spares(w.beforeWake, t)
  }

  /** Why GetClient has no connection; `Blocked` is a call that still waits. */
  datatype Refusal =
    | NilContext | EmptyName | NoRegistry
    | ManagerClosed | CreationFailed | JoinedFailed | ContextEnded | Blocked

  function ToOption(r: Result<nat, Refusal>): Option<nat> {
    if r.Ok? then Some(r.value) else None
  }

  class Manager {
    const hasRegistry: bool

    // the manager's own fields
    var conns: map<string, nat>
    var pending: map<string, nat>
    var closed: bool

    // the objects it shares: creations in flight or finished, and open connections
    var results: map<nat, Pending>
    var open: set<nat>

    // where the callers stand, and history
    var made: map<string, nat>
    var threads: map<nat, Phase>
    ghost var history: seq<Action>

    function Now(): State
      reads this
    {
      State(conns, pending, closed, results, open, made, threads)
    }

    ghost predicate Valid()
      reads this
    {
      Now() == Exec(INIT, history)
    }

    /** t stands at phase p of a run that extends `since`. */
    ghost predicate At(t: nat, p: Phase, since: seq<Action>)
      reads this
    {
      Valid() && since <= history && t in threads && threads[t] == p
    }

    /** t has returned `conn` for the service. */
    ghost predicate Has(t: nat, service: string, conn: Option<nat>, since: seq<Action>)
      reads this
    {
      && Valid() && since <= history && t in threads
      && threads[t].Returned? && threads[t].service == service && threads[t].result == conn
    }

    constructor (hasRegistry: bool)
      ensures Valid() && Now() == INIT && history == [] && this.hasRegistry == hasRegistry
    {
      this.hasRegistry := hasRegistry;
      conns, pending, closed := map[], map[], false;
      results, open := map[], {};
      made, threads, history := map[], map[], [];
    }

    /** What the program has just done is action `a` of the step system. */
    ghost method Note(a: Action)
      requires Now() == Step(Exec(INIT, history), a)
      modifies this`history
      ensures Valid() && history == old(history) + [a]
    {
      Runs.Snoc(Step, INIT, history, a);
      history := history + [a];
    }

    method Other(a: Action)
      requires Valid()
      modifies this
      ensures Valid() && Now() == Step(old(Now()), a) && history == old(history) + [a]
    {
      var s := Step(Now(), a);
      conns, pending, closed, results := s.conns, s.pending, s.closed, s.results;
      open, made, threads := s.open, s.made, s.threads;
      Note(a);
    }

    method Others(actions: seq<Action>, ghost t: nat)
      requires Valid() && Spares(actions, t) && t in threads
      modifies this
      ensures At(t, old(threads[t]), old(history))
      ensures old(closed) ==> closed
    {
      for i := 0 to |actions|
        invariant At(t, old(threads[t]), old(history))
        invariant old(closed) ==> closed
      {
        StepSparesOthers(Now(), actions[i], t);
        Other(actions[i]);
      }
    }

    /** The read-locked lookup. */
    method Lookup(t: nat, service: string, others: seq<Action>) returns (isClosed: bool, conn: Option<nat>)
      requires At(t, Looking(service), history) && Spares(others, t)
      modifies this
      ensures At(t, if isClosed then Returned(service, None, None)
                    else if conn.Some? then Returned(service, None, conn)
                    else Locking(service), old(history))
      ensures isClosed == closed && conn == if service in conns then Some(conns[service]) else None
    {
      Others(others, t);
      conn := if service in conns then Some(conns[service]) else None;
      isClosed := closed;
      var next := if isClosed then Returned(service, None, None)
                  else if conn.Some? then Returned(service, None, conn)
                  else Locking(service);
      threads := threads[t := next];
      Note(FastPath(t));
    }

    /** The locked second lookup, which joins or starts a creation. */
    method Reserve(t: nat, service: string, others: seq<Action>)
      returns (isClosed: bool, conn: Option<nat>, joined: Option<nat>, mine: nat)
      requires At(t, Locking(service), history) && Spares(others, t)
      modifies this
      ensures At(t, if isClosed then Returned(service, None, None)
                    else if conn.Some? then Returned(service, None, conn)
                    else if joined.Some? then Waiting(service, joined.value)
                    else Dialing(service, mine), old(history))
      ensures isClosed == closed
      ensures !isClosed && conn.None? ==>
                service in pending && pending[service] == if joined.Some? then joined.value else mine
    {
      Others(others, t);
      isClosed, conn, joined := closed, None, None;
      mine := FreshNumber(results.Keys);
      if closed {
        threads := threads[t := Returned(service, None, None)];
      } else if service in conns {
        conn := Some(conns[service]);
        threads := threads[t := Returned(service, None, conn)];
      } else if service in pending {
        joined := Some(pending[service]);
        threads := threads[t := Waiting(service, joined.value)];
      } else {
        results := results[mine := Pending(service, t, false, None)];
        pending := pending[service := mine];
        threads := threads[t := Dialing(service, mine)];
      }
      Note(SlowPath(t, mine));
    }

    /** Waits for the creation in flight; a wait that neither the creation nor the context has
        ended goes on. */
    method Wait(t: nat, service: string, on: nat, w: Weather) returns (r: Result<nat, Refusal>)
      requires At(t, Waiting(service, on), history) && Spares(w.beforeWake, t)
      modifies this
      ensures if r == Err(Blocked) then At(t, Waiting(service, on), old(history))
              else Has(t, service, ToOption(r), old(history))
      ensures on in results && results[on].service == service
      ensures results[on].done && !(w.contextDone && w.picksContext) ==>
                r == if results[on].conn.Some? then Ok(results[on].conn.value) else Err(JoinedFailed)
      ensures w.contextDone && (w.picksContext || !results[on].done) ==> r == Err(ContextEnded)
      ensures !w.contextDone && !results[on].done ==> r == Err(Blocked)
    {
      Others(w.beforeWake, t);
      assert on in results && results[on].service == service by {
        Reachable(history);
        assert ThreadOk(Now(), t);
      }
      if results[on].done && !(w.contextDone && w.picksContext) {
        var conn := results[on].conn;
        threads := threads[t := Returned(service, Some(on), conn)];
        Note(Wake(t));
        return if conn.Some? then Ok(conn.value) else Err(JoinedFailed);
      }
      if w.contextDone {
        threads := threads[t := Returned(service, None, None)];
        Note(Cancel(t));
        return Err(ContextEnded);
      }
      return Err(Blocked);
    }

    method NewClient(t: nat, service: string, mine: nat, others: seq<Action>, fails: bool) returns (conn: Option<nat>)
      requires At(t, Dialing(service, mine), history) && Spares(others, t)
      modifies this
      ensures At(t, Dialed(service, mine, conn), old(history))
      ensures conn.None? <==> fails
    {
      Others(others, t);
      conn := None;
      if !fails {
        var id := FreshNumber(open + made.Values);
        conn := Some(id);
        open, made := open + {id}, made[service := id];
      }
      threads := threads[t := Dialed(service, mine, conn)];
      Note(Dial(t, conn));
    }

    /** The locked hand-over of what was dialed. */
    method Deliver(t: nat, service: string, mine: nat, dialed: Option<nat>, others: seq<Action>) returns (conn: Option<nat>)
      requires At(t, Dialed(service, mine, dialed), history) && Spares(others, t)
      modifies this
      ensures At(t, Returned(service, Some(mine), conn), old(history))
      ensures conn == if closed then None else dialed
      ensures conn.Some? ==> service in conns && conns[service] == conn.value
    {
      Others(others, t);
      assert mine in results by {
        Reachable(history);
        assert Creates(Now(), t, service, mine);
      }
      conn := dialed;
      pending := pending - {service};
      if closed && conn.Some? {
        open := open - {conn.value};
        conn := None;
      } else if conn.Some? {
        conns := conns[service := conn.value];
      }
      results := results[mine := results[mine].(done := true, conn := conn)];
      threads := threads[t := Returned(service, Some(mine), conn)];
      Note(Publish(t));
    }

    /** Every refusal has its cause: the manager is closed, the call's own creation failed or was
        overtaken by Close, the joined creation did not give a connection, or the context ended. */
    ghost predicate Caused(r: Result<nat, Refusal>, service: string, w: Weather)
      reads this
    {
      match r
      case Ok(conn) => service in made && made[service] == conn
      case Err(ManagerClosed) => closed
      case Err(CreationFailed) => w.dialFails
      case Err(JoinedFailed) =>
        exists p :: p in results && results[p].service == service && results[p].done && results[p].conn.None?
      case Err(ContextEnded) => w.contextDone
      case Err(Blocked) => !w.contextDone && exists p :: p in results && results[p].service == service && !results[p].done
      case Err(_) => false
    }

    /** Returns the shared connection, or the reason why there is none; the run records the same. A
        call without a context, a name or a registry is refused before it touches the manager. */
    method GetClient(t: nat, hasContext: bool, name: string, w: Weather) returns (r: Result<nat, Refusal>)
      requires Valid() && t !in threads && SparesAll(w, t)
      modifies this
      ensures !hasContext || Blank(name) || !hasRegistry ==>
                Now() == old(Now()) && history == old(history)
                && r == Err(if !hasContext then NilContext else if Blank(name) then EmptyName else NoRegistry)
      ensures hasContext && !Blank(name) && hasRegistry ==>
                && Caused(r, TrimSpace(name), w)
                && (r != Err(Blocked) ==> Has(t, TrimSpace(name), ToOption(r), old(history)))
    {
      if !hasContext {
        return Err(NilContext);
      }
      var service := TrimSpace(name);
      if service == "" {
        return Err(EmptyName);
      }
      if !hasRegistry {
        return Err(NoRegistry);
      }
      threads := threads[t := Looking(service)];
      Note(Get(t, service));
      r := Find(t, service, w);
    }

    method Find(t: nat, service: string, w: Weather) returns (r: Result<nat, Refusal>)
      requires At(t, Looking(service), history) && SparesAll(w, t)
      modifies this
      ensures Caused(r, service, w)
      ensures Valid() && old(history) <= history
      ensures r != Err(Blocked) ==> Has(t, service, ToOption(r), old(history))
    {
      var isClosed, conn;
      isClosed, conn := Lookup(t, service, w.beforeFast);
      if isClosed {
        return Err(ManagerClosed);
      }
      if conn.Some? {
        ReturnedIsMade(t);
        return Ok(conn.value);
      }
      var joined, mine;
      isClosed, conn, joined, mine := Reserve(t, service, w.beforeSlow);
      if isClosed {
        return Err(ManagerClosed);
      }
      if conn.Some? {
        ReturnedIsMade(t);
        return Ok(conn.value);
      }
      if joined.Some? {
        r := Wait(t, service, joined.value, w);
        if r != Err(Blocked) {
          ReturnedIsMade(t);
        }
        return r;
      }
      r := Create(t, service, mine, w);
    }

    /** The call's own creation. */
    method Create(t: nat, service: string, mine: nat, w: Weather) returns (r: Result<nat, Refusal>)
      requires At(t, Dialing(service, mine), history) && SparesAll(w, t)
      modifies this
      ensures r.Ok? <==> !w.dialFails && !closed
      ensures r.Ok? ==> service in made && made[service] == r.value && service in conns && conns[service] == r.value
      ensures r.Err? ==> r.error == if w.dialFails then CreationFailed else ManagerClosed
      ensures Has(t, service, ToOption(r), old(history))
    {
      var dialed := NewClient(t, service, mine, w.beforeDial, w.dialFails);
      var conn := Deliver(t, service, mine, dialed, w.beforePublish);
      ReturnedIsMade(t);
      if dialed.None? {
        return Err(CreationFailed);
      }
      if conn.None? {
        return Err(ManagerClosed);
      }
      return Ok(conn.value);
    }

    lemma ReturnedIsMade(t: nat)
      requires Valid() && t in threads && threads[t].Returned?
      ensures threads[t].result.Some? ==>
                threads[t].service in made && made[threads[t].service] == threads[t].result.value
    {
      Reachable(history);
      assert ThreadOk(Now(), t);
    }

    method CloseNext(t: nat, left: map<string, nat>, others: seq<Action>) returns (rest: Option<map<string, nat>>)
      requires At(t, Closing(left), history) && Spares(others, t)
      modifies this
      ensures old(closed) ==> closed
      ensures rest.None? <==> left == map[]
      ensures rest.None? ==> At(t, Closed, old(history))
      ensures rest.Some? ==> At(t, Closing(rest.value), old(history)) && |rest.value| < |left|
      ensures rest.Some? ==> exists k :: k in left && rest.value == left - {k} && left[k] !in open
    {
      Others(others, t);
      if left == map[] {
        threads := threads[t := Closed];
        Note(CloseOne(t, ""));
        return None;
      }
      var service :| service in left;
      assert left.Keys == (left - {service}).Keys + {service};
      open := open - {left[service]};
      threads := threads[t := Closing(left - {service})];
      Note(CloseOne(t, service));
      return Some(left - {service});
    }

    /** Under the lock: mark the manager closed and take the connections out of the cache. */
    method TakeAll(t: nat, others: seq<Action>) returns (taken: Option<map<string, nat>>)
      requires At(t, ShuttingDown, history) && Spares(others, t)
      modifies this
      ensures closed && At(t, if taken.Some? then Closing(taken.value) else Closed, old(history))
      ensures taken.Some? ==> conns == map[]
      ensures old(closed) ==> taken.None?
    {
      Others(others, t);
      if closed {
        threads := threads[t := Closed];
        Note(Shut(t));
        return None;
      }
      taken := Some(conns);
      closed, conns := true, map[];
      threads := threads[t := Closing(taken.value)];
      Note(Shut(t));
    }

    /** Takes the connections out of the cache under the lock and closes them one by one. */
    method Close(t: nat, beforeShut: seq<Action>, between: seq<Action>)
      requires Valid() && t !in threads && Spares(beforeShut, t) && Spares(between, t)
      modifies this
      ensures closed && At(t, Closed, old(history))
    {
      threads := threads[t := ShuttingDown];
      Note(CallClose(t));
      var left := TakeAll(t, beforeShut);
      while left.Some?
        invariant closed
        invariant At(t, if left.Some? then Closing(left.value) else Closed, old(history))
        decreases if left.Some? then 1 + |left.value| else 0
      {
        left := CloseNext(t, left.value, between);
      }
    }
  }
}
