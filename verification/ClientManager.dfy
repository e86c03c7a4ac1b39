/** The gateway's shared gRPC connections: a double-checked, single-flight cache that races
    with Close. A step is one critical section under the manager's lock, or one action
    outside it (dialing, waiting, closing a connection). */
module ClientManager {
  import opened Common
  import Runs

  /** What waiters of a service's creation share; a missing connection is an error. */
  datatype Pending = Pending(service: string, creator: nat, done: bool, conn: Option<nat>)

  datatype Phase =
    | Looking(service: string)
    | Locking(service: string)
    | Waiting(service: string, on: nat)
    | Dialing(service: string, mine: nat)
    | Dialed(service: string, mine: nat, conn: Option<nat>)
    | Returned(service: string, via: Option<nat>, result: Option<nat>)
    | ShuttingDown
    | Closing(left: map<string, nat>)
    | Closed

  /** `made` is history: the connection that newClient made for a service. */
  datatype State = State(
    conns: map<string, nat>,
    pending: map<string, nat>,
    closed: bool,
    results: map<nat, Pending>,
    open: set<nat>,
    made: map<string, nat>,
    threads: map<nat, Phase>)

  const INIT := State(map[], map[], false, map[], {}, map[], map[])

  /** `id` and `conn` name objects not allocated before. */
  datatype Action =
    | Get(t: nat, service: string)
    | FastPath(t: nat)
    | SlowPath(t: nat, id: nat)
    | Dial(t: nat, conn: Option<nat>)
    | Publish(t: nat)
    | Wake(t: nat)
    | Cancel(t: nat)
    | CallClose(t: nat)
    | Shut(t: nat)
    | CloseOne(t: nat, service: string)

  function Move(s: State, t: nat, p: Phase): State {
    s.(threads := s.threads[t := p])
  }

  /** Under the read lock. */
  function FastStep(s: State, t: nat, service: string): State {
    if s.closed then Move(s, t, Returned(service, None, None))
    else if service in s.conns then Move(s, t, Returned(service, None, Some(s.conns[service])))
    else Move(s, t, Locking(service))
  }

  /** Under the lock: look again, join a creation in flight, or start one. */
  function SlowStep(s: State, t: nat, service: string, id: nat): State {
    if s.closed then Move(s, t, Returned(service, None, None))
    else if service in s.conns then Move(s, t, Returned(service, None, Some(s.conns[service])))
    else if service in s.pending then Move(s, t, Waiting(service, s.pending[service]))
    else if id in s.results then s
    else
      Move(s, t, Dialing(service, id)).(
        pending := s.pending[service := id],
        results := s.results[id := Pending(service, t, false, None)])
  }

  /** newClient, outside the lock. */
  function DialStep(s: State, t: nat, service: string, mine: nat, conn: Option<nat>): State {
    match conn
    case None => Move(s, t, Dialed(service, mine, None))
    case Some(c) =>
      if c in s.open || c in s.made.Values then s
      else Move(s, t, Dialed(service, mine, conn)).(open := s.open + {c}, made := s.made[service := c])
  }

  /** Under the lock: hand the connection to the cache, or close it if the manager closed. */
  function PublishStep(s: State, t: nat, service: string, mine: nat, conn: Option<nat>): State
    requires mine in s.results
  {
    var dropped := s.closed && conn.Some?;
    var result := if dropped then None else conn;
    Move(s, t, Returned(service, Some(mine), result)).(
      pending := s.pending - {service},
      open := if dropped then s.open - {conn.value} else s.open,
      conns := if !dropped && conn.Some? then s.conns[service := conn.value] else s.conns,
      results := s.results[mine := s.results[mine].(done := true, conn := result)])
  }

  /** Under the lock: take all connections out of the cache. */
  function ShutStep(s: State, t: nat): State {
    if s.closed then Move(s, t, Closed)
    else Move(s, t, Closing(s.conns)).(closed := true, conns := map[])
  }

  function CloseOneStep(s: State, t: nat, left: map<string, nat>, service: string): State {
    if left == map[] then Move(s, t, Closed)
    else if service !in left then s
    else Move(s, t, Closing(left - {service})).(open := s.open - {left[service]})
  }

  /** One step; an action that does not apply changes nothing. */
  function Step(s: State, a: Action): State {
    if (a.Get? || a.CallClose?) != (a.t !in s.threads) then s
    else if a.Get? then Move(s, a.t, Looking(a.service))
    else if a.CallClose? then Move(s, a.t, ShuttingDown)
    else
      var p := s.threads[a.t];
      match a
      case FastPath(t) => if p.Looking? then FastStep(s, t, p.service) else s
      case SlowPath(t, id) => if p.Locking? then SlowStep(s, t, p.service, id) else s
      case Dial(t, conn) => if p.Dialing? then DialStep(s, t, p.service, p.mine, conn) else s
      case Publish(t) => if p.Dialed? && p.mine in s.results then PublishStep(s, t, p.service, p.mine, p.conn) else s
      case Wake(t) =>
        if p.Waiting? && p.on in s.results && s.results[p.on].done
        then Move(s, t, Returned(p.service, Some(p.on), s.results[p.on].conn)) else s
      case Cancel(t) => if p.Waiting? then Move(s, t, Returned(p.service, None, None)) else s
      case Shut(t) => if p.ShuttingDown? then ShutStep(s, t) else s
      case CloseOne(t, service) => if p.Closing? then CloseOneStep(s, t, p.left, service) else s
      case Get(_, _) => s
      case CallClose(_) => s
  }

  function Exec(s: State, actions: seq<Action>): State {
    Runs.Exec(Step, s, actions)
  }

  // ----- invariants

  /** Who is responsible for closing a connection. */
  datatype Owner = Cache | Creator(t: nat) | Closer(t: nat)

  ghost predicate Owns(s: State, o: Owner, service: string, c: nat) {
    match o
    case Cache => service in s.conns && s.conns[service] == c
    case Creator(t) =>
      t in s.threads && s.threads[t].Dialed? && s.threads[t].service == service && s.threads[t].conn == Some(c)
    case Closer(t) =>
      t in s.threads && s.threads[t].Closing? && service in s.threads[t].left && s.threads[t].left[service] == c
  }

  /** Thread t is creating the connection of `service`. */
  ghost predicate Creates(s: State, t: nat, service: string, p: nat) {
    && t in s.threads && (s.threads[t].Dialing? || s.threads[t].Dialed?)
    && s.threads[t].service == service && s.threads[t].mine == p
  }

  /** Single flight: a pending entry exists exactly while one thread creates. */
  ghost predicate Flight(s: State) {
    && (forall k :: k in s.pending ==>
          && s.pending[k] in s.results
          && var p := s.results[s.pending[k]];
             p.service == k && !p.done && Creates(s, p.creator, k, s.pending[k]))
    && (forall t, k, p :: Creates(s, t, k, p) ==>
          k in s.pending && s.pending[k] == p && p in s.results && s.results[p].creator == t)
  }

  /** Owned connections are the open ones, each is the one made for its service, and no two
      owners hold connections of one service. */
  ghost predicate Ownership(s: State) {
    && (forall o, k, c :: Owns(s, o, k, c) ==> c in s.open && k in s.made && s.made[k] == c)
    && (forall o, o', k, c, c' :: Owns(s, o, k, c) && Owns(s, o', k, c') ==> o == o')
    && (forall c :: c in s.open ==> exists o, k :: Owns(s, o, k, c))
    && (forall k, k' :: k in s.made && k' in s.made && s.made[k] == s.made[k'] ==> k == k')
  }

  /** A creator that holds no connection. */
  ghost predicate Empty(p: Phase) {
    p.Dialing? || (p.Dialed? && p.conn.None?)
  }

  /** The cache is empty once closed; until then what was made is in the cache or in flight,
      and no empty-handed creator works for a service that has its connection. */
  ghost predicate Lifecycle(s: State) {
    && (s.closed ==> s.conns == map[])
    && (forall k :: k in s.made && !s.closed ==> k in s.conns || k in s.pending)
    && (forall t :: t in s.threads && Empty(s.threads[t]) ==> s.threads[t].service !in s.made)
    && (forall k :: k in s.conns ==> k !in s.pending)
    && (forall t :: t in s.threads && s.threads[t].Closing? ==> s.closed)
  }

  ghost predicate ResultOk(s: State, p: nat)
    requires p in s.results
  {
    var r := s.results[p];
    r.done ==>
      && (r.conn.Some? ==> r.service in s.made && s.made[r.service] == r.conn.value)
      && r.creator in s.threads && s.threads[r.creator] == Returned(r.service, Some(p), r.conn)
  }

  ghost predicate ThreadOk(s: State, t: nat)
    requires t in s.threads
  {
    match s.threads[t]
    case Waiting(service, on) => on in s.results && s.results[on].service == service
    case Returned(service, via, result) =>
      && (result.Some? ==> service in s.made && s.made[service] == result.value)
      && (via.Some? ==> via.value in s.results && s.results[via.value].done
                        && s.results[via.value].service == service && s.results[via.value].conn == result)
    case _ => true
  }

  ghost predicate Told(s: State) {
    && (forall p :: p in s.results ==> ResultOk(s, p))
    && (forall t :: t in s.threads ==> ThreadOk(s, t))
  }

  ghost predicate Inv(s: State) {
    Flight(s) && Ownership(s) && Lifecycle(s) && Told(s)
  }

  lemma FlightFrame(s: State, s': State)
    requires Flight(s) && s'.pending == s.pending && s'.results == s.results
    requires forall t, k, p :: Creates(s', t, k, p) <==> Creates(s, t, k, p)
    ensures Flight(s')
  {
  }

  lemma OwnershipFrame(s: State, s': State)
    requires Ownership(s) && s'.open == s.open && s'.made == s.made
    requires forall o, k, c: nat :: Owns(s', o, k, c) <==> Owns(s, o, k, c)
    ensures Ownership(s')
  {
    forall c | c in s'.open ensures exists o, k :: Owns(s', o, k, c) {
      var o, k :| Owns(s, o, k, c);
      assert Owns(s', o, k, c);
    }
  }

  /** A thread moves between phases that create and own nothing. */
  ghost predicate Idle(p: Phase) {
    !p.Dialing? && !p.Dialed? && !p.Closing?
  }

  /** Every finished result's creator keeps standing where it stands. */
  ghost predicate Unfinished(s: State, t: nat) {
    t in s.threads ==> !s.threads[t].Returned?
  }

  /** What a step of thread t leaves alone: other threads, history, and every creation's result
      but its own unfinished one. */
  ghost predicate Bystanders(s: State, s': State, t: nat, own: set<nat>) {
    && (forall u :: u in s'.threads && u != t ==> u in s.threads && s'.threads[u] == s.threads[u])
    && (forall u :: u in s.threads ==> u in s'.threads)
    && Unfinished(s, t)
    && (forall k :: k in s.made ==> k in s'.made && s'.made[k] == s.made[k])
    && (forall q :: q in s'.results && q !in own ==> q in s.results && s'.results[q] == s.results[q])
    && (forall q :: q in s.results ==> q in s'.results && s'.results[q].service == s.results[q].service)
    && (forall q :: q in own && q in s.results ==> !s.results[q].done)
  }

  lemma BystandersStayOk(s: State, s': State, t: nat, own: set<nat>)
    requires Bystanders(s, s', t, own) && Told(s)
    requires forall p :: p in s'.results && p in own ==> ResultOk(s', p)
    requires t in s'.threads ==> ThreadOk(s', t)
    ensures Told(s')
  {
    forall p | p in s'.results ensures ResultOk(s', p) {
      assert p !in own ==> ResultOk(s, p);
    }
    forall u | u in s'.threads ensures ThreadOk(s', u) {
      assert u != t ==> ThreadOk(s, u);
    }
  }

  lemma MoveKeepsFlight(s: State, t: nat, p: Phase)
    requires Flight(s) && (t in s.threads ==> Idle(s.threads[t])) && Idle(p)
    ensures Flight(Move(s, t, p))
  {
    FlightFrame(s, Move(s, t, p));
  }

  lemma MoveKeepsOwnership(s: State, t: nat, p: Phase)
    requires Ownership(s) && (t in s.threads ==> Idle(s.threads[t])) && Idle(p)
    ensures Ownership(Move(s, t, p))
  {
    OwnershipFrame(s, Move(s, t, p));
  }

  lemma MoveKeepsTold(s: State, t: nat, p: Phase)
    requires Told(s) && Unfinished(s, t) && ThreadOk(Move(s, t, p), t)
    ensures Told(Move(s, t, p))
  {
    BystandersStayOk(s, Move(s, t, p), t, {});
  }

  lemma MoveKeepsInv(s: State, t: nat, p: Phase)
    requires Inv(s) && Unfinished(s, t) && (t in s.threads ==> Idle(s.threads[t])) && Idle(p)
    requires ThreadOk(Move(s, t, p), t)
    ensures Inv(Move(s, t, p))
  {
    MoveKeepsFlight(s, t, p);
    MoveKeepsOwnership(s, t, p);
    MoveKeepsTold(s, t, p);
  }

  lemma ReserveKeepsFlight(s: State, t: nat, service: string, id: nat)
    requires Flight(s) && t in s.threads && s.threads[t] == Locking(service)
    requires !s.closed && service !in s.conns && service !in s.pending && id !in s.results
    ensures Flight(SlowStep(s, t, service, id))
  {
    var s' := SlowStep(s, t, service, id);
    assert Creates(s', t, service, id);
    forall u, k, q | Creates(s', u, k, q)
      ensures k in s'.pending && s'.pending[k] == q && q in s'.results && s'.results[q].creator == u
    {
      assert u != t ==> Creates(s, u, k, q);
    }
    forall k | k in s.pending ensures Creates(s', s.results[s.pending[k]].creator, k, s.pending[k]) {
      assert Creates(s, s.results[s.pending[k]].creator, k, s.pending[k]);
    }
  }

  lemma ReserveKeepsLifecycle(s: State, t: nat, service: string, id: nat)
    requires Lifecycle(s) && t in s.threads && s.threads[t] == Locking(service)
    requires !s.closed && service !in s.conns && service !in s.pending && id !in s.results
    ensures Lifecycle(SlowStep(s, t, service, id))
  {
    assert service !in s.made;
  }

  lemma ReserveKeepsTold(s: State, t: nat, service: string, id: nat)
    requires Told(s) && t in s.threads && s.threads[t] == Locking(service)
    requires !s.closed && service !in s.conns && service !in s.pending && id !in s.results
    ensures Told(SlowStep(s, t, service, id))
  {
    BystandersStayOk(s, SlowStep(s, t, service, id), t, {id});
  }

  lemma ReserveKeepsInv(s: State, t: nat, service: string, id: nat)
    requires Inv(s) && t in s.threads && s.threads[t] == Locking(service)
    requires !s.closed && service !in s.conns && service !in s.pending && id !in s.results
    ensures Inv(SlowStep(s, t, service, id))
  {
    ReserveKeepsFlight(s, t, service, id);
    OwnershipFrame(s, SlowStep(s, t, service, id));
    ReserveKeepsLifecycle(s, t, service, id);
    ReserveKeepsTold(s, t, service, id);
  }

  lemma DialKeepsOwnership(s: State, t: nat, service: string, mine: nat, c: nat)
    requires Flight(s) && Ownership(s) && Lifecycle(s) && t in s.threads && s.threads[t] == Dialing(service, mine)
    requires c !in s.open && c !in s.made.Values
    ensures Ownership(DialStep(s, t, service, mine, Some(c)))
  {
    var s' := DialStep(s, t, service, mine, Some(c));
    assert service !in s.made;
    assert forall o, k, d: nat :: Owns(s', o, k, d) <==>
      Owns(s, o, k, d) || (o == Creator(t) && k == service && d == c);
    forall d | d in s'.open ensures exists o, k :: Owns(s', o, k, d) {
      if d in s.open {
        var o, k :| Owns(s, o, k, d);
        assert Owns(s', o, k, d);
      } else {
        assert Owns(s', Creator(t), service, d);
      }
    }
  }

  lemma DialKeepsFlight(s: State, t: nat, service: string, mine: nat, conn: Option<nat>)
    requires Flight(s) && t in s.threads && s.threads[t] == Dialing(service, mine)
    ensures Flight(DialStep(s, t, service, mine, conn))
  {
    FlightFrame(s, DialStep(s, t, service, mine, conn));
  }

  lemma DialKeepsTold(s: State, t: nat, service: string, mine: nat, conn: Option<nat>)
    requires Flight(s) && Lifecycle(s) && Told(s) && t in s.threads && s.threads[t] == Dialing(service, mine)
    ensures Told(DialStep(s, t, service, mine, conn))
  {
    assert service !in s.made;
    var s' := DialStep(s, t, service, mine, conn);
    if s' != s {
      BystandersStayOk(s, s', t, {});
    }
  }

  lemma DialKeepsLifecycle(s: State, t: nat, service: string, mine: nat, conn: Option<nat>)
    requires Flight(s) && Lifecycle(s) && t in s.threads && s.threads[t] == Dialing(service, mine)
    ensures Lifecycle(DialStep(s, t, service, mine, conn))
  {
    var s' := DialStep(s, t, service, mine, conn);
    assert Creates(s, t, service, mine);
    forall u | u in s'.threads && Empty(s'.threads[u]) ensures s'.threads[u].service !in s'.made {
      assert Creates(s, u, s.threads[u].service, s.threads[u].mine);
    }
  }

  lemma DialKeepsInv(s: State, t: nat, service: string, mine: nat, conn: Option<nat>)
    requires Inv(s) && t in s.threads && s.threads[t] == Dialing(service, mine)
    ensures Inv(DialStep(s, t, service, mine, conn))
  {
    DialKeepsFlight(s, t, service, mine, conn);
    DialKeepsLifecycle(s, t, service, mine, conn);
    DialKeepsTold(s, t, service, mine, conn);
    if conn.Some? {
      if conn.value !in s.open && conn.value !in s.made.Values {
        DialKeepsOwnership(s, t, service, mine, conn.value);
      }
    } else {
      OwnershipFrame(s, DialStep(s, t, service, mine, conn));
    }
  }

  lemma PublishKeepsFlight(s: State, t: nat, service: string, mine: nat, conn: Option<nat>)
    requires Flight(s) && t in s.threads && s.threads[t] == Dialed(service, mine, conn) && mine in s.results
    ensures Flight(PublishStep(s, t, service, mine, conn))
  {
    var s' := PublishStep(s, t, service, mine, conn);
    assert Creates(s, t, service, mine);
    forall u, k, q | Creates(s', u, k, q)
      ensures k in s'.pending && s'.pending[k] == q && q in s'.results && s'.results[q].creator == u
    {
      assert Creates(s, u, k, q);
    }
    forall k | k in s'.pending
      ensures s'.pending[k] in s'.results && !s'.results[s'.pending[k]].done
      ensures Creates(s', s'.results[s'.pending[k]].creator, k, s'.pending[k])
    {
      assert Creates(s, s.results[s.pending[k]].creator, k, s.pending[k]);
    }
  }

  /** The creator's connection passes to the cache, or is closed if the manager is. */
  lemma PublishMovesOwnership(s: State, t: nat, service: string, mine: nat, conn: Option<nat>)
    requires Flight(s) && Lifecycle(s)
    requires t in s.threads && s.threads[t] == Dialed(service, mine, conn) && mine in s.results
    ensures var s' := PublishStep(s, t, service, mine, conn);
            forall o, k, c: nat :: Owns(s', o, k, c) <==>
              (Owns(s, o, k, c) && o != Creator(t)) || (!s.closed && o == Cache && k == service && conn == Some(c))
  {
    assert Creates(s, t, service, mine);
    assert service !in s.conns;
  }

  lemma PublishKeepsOwnership(s: State, t: nat, service: string, mine: nat, conn: Option<nat>)
    requires Flight(s) && Ownership(s) && Lifecycle(s)
    requires t in s.threads && s.threads[t] == Dialed(service, mine, conn) && mine in s.results
    ensures Ownership(PublishStep(s, t, service, mine, conn))
  {
    var s' := PublishStep(s, t, service, mine, conn);
    PublishMovesOwnership(s, t, service, mine, conn);
    assert conn.Some? ==> Owns(s, Creator(t), service, conn.value);
    forall c | c in s'.open ensures exists o, k :: Owns(s', o, k, c) {
      var o, k :| Owns(s, o, k, c);
      assert Owns(s', if o == Creator(t) then Cache else o, k, c);
    }
  }

  lemma PublishKeepsLifecycle(s: State, t: nat, service: string, mine: nat, conn: Option<nat>)
    requires Flight(s) && Lifecycle(s) && t in s.threads && s.threads[t] == Dialed(service, mine, conn) && mine in s.results
    ensures Lifecycle(PublishStep(s, t, service, mine, conn))
  {
    assert Creates(s, t, service, mine);
  }

  lemma PublishKeepsTold(s: State, t: nat, service: string, mine: nat, conn: Option<nat>)
    requires Flight(s) && Ownership(s) && Told(s)
    requires t in s.threads && s.threads[t] == Dialed(service, mine, conn) && mine in s.results
    ensures Told(PublishStep(s, t, service, mine, conn))
  {
    assert Creates(s, t, service, mine);
    assert conn.Some? ==> Owns(s, Creator(t), service, conn.value);
    BystandersStayOk(s, PublishStep(s, t, service, mine, conn), t, {mine});
  }

  lemma PublishKeepsInv(s: State, t: nat, service: string, mine: nat, conn: Option<nat>)
    requires Inv(s) && t in s.threads && s.threads[t] == Dialed(service, mine, conn) && mine in s.results
    ensures Inv(PublishStep(s, t, service, mine, conn))
  {
    PublishKeepsFlight(s, t, service, mine, conn);
    PublishKeepsOwnership(s, t, service, mine, conn);
    PublishKeepsLifecycle(s, t, service, mine, conn);
    PublishKeepsTold(s, t, service, mine, conn);
  }

  lemma ShutKeepsOwnership(s: State, t: nat)
    requires Ownership(s) && Lifecycle(s) && t in s.threads && s.threads[t].ShuttingDown? && !s.closed
    ensures Ownership(ShutStep(s, t)) && Lifecycle(ShutStep(s, t))
  {
    var s' := ShutStep(s, t);
    assert forall o, k, c: nat :: Owns(s', o, k, c) <==>
      if o == Cache then false else if o == Closer(t) then Owns(s, Cache, k, c) else Owns(s, o, k, c);
    forall c | c in s'.open ensures exists o, k :: Owns(s', o, k, c) {
      var o, k :| Owns(s, o, k, c);
      assert Owns(s', if o == Cache then Closer(t) else o, k, c);
    }
  }

  lemma ShutKeepsInv(s: State, t: nat)
    requires Inv(s) && t in s.threads && s.threads[t].ShuttingDown?
    ensures Inv(ShutStep(s, t))
  {
    var s' := ShutStep(s, t);
    if s.closed {
      MoveKeepsInv(s, t, Closed);
    } else {
      FlightFrame(s, s');
      ShutKeepsOwnership(s, t);
      BystandersStayOk(s, s', t, {});
    }
  }

  lemma CloseOneKeepsOwnership(s: State, t: nat, left: map<string, nat>, service: string)
    requires Ownership(s) && t in s.threads && s.threads[t] == Closing(left)
    ensures Ownership(CloseOneStep(s, t, left, service))
  {
    var s' := CloseOneStep(s, t, left, service);
    assert service in left ==> Owns(s, Closer(t), service, left[service]);
    if s' != s {
      assert forall o, k, c: nat :: Owns(s', o, k, c) <==> Owns(s, o, k, c) && !(o == Closer(t) && k == service);
      forall c | c in s'.open ensures exists o, k :: Owns(s', o, k, c) {
        var o, k :| Owns(s, o, k, c);
        assert Owns(s', o, k, c);
      }
    }
  }

  lemma CloseOneKeepsRest(s: State, t: nat, left: map<string, nat>, service: string)
    requires Flight(s) && Lifecycle(s) && t in s.threads && s.threads[t] == Closing(left)
    ensures Flight(CloseOneStep(s, t, left, service)) && Lifecycle(CloseOneStep(s, t, left, service))
  {
    FlightFrame(s, CloseOneStep(s, t, left, service));
  }

  lemma CloseOneKeepsTold(s: State, t: nat, left: map<string, nat>, service: string)
    requires Told(s) && t in s.threads && s.threads[t] == Closing(left)
    ensures Told(CloseOneStep(s, t, left, service))
  {
    var s' := CloseOneStep(s, t, left, service);
    if s' != s {
      BystandersStayOk(s, s', t, {});
    }
  }

  lemma CloseOneKeepsInv(s: State, t: nat, left: map<string, nat>, service: string)
    requires Inv(s) && t in s.threads && s.threads[t] == Closing(left)
    ensures Inv(CloseOneStep(s, t, left, service))
  {
    CloseOneKeepsOwnership(s, t, left, service);
    CloseOneKeepsRest(s, t, left, service);
    CloseOneKeepsTold(s, t, left, service);
  }

  lemma StepKeepsInv(s: State, a: Action)
    requires Inv(s)
    ensures Inv(Step(s, a))
  {
    if (a.Get? || a.CallClose?) == (a.t !in s.threads) {
      if a.Get? {
        MoveKeepsInv(s, a.t, Looking(a.service));
      } else if a.CallClose? {
        MoveKeepsInv(s, a.t, ShuttingDown);
      } else {
        LaterStepKeepsInv(s, a);
      }
    }
  }

  lemma FastKeepsInv(s: State, t: nat, service: string)
    requires Inv(s) && t in s.threads && s.threads[t] == Looking(service)
    ensures Inv(FastStep(s, t, service))
  {
    CachedConnIsMade(s, service);
    MoveKeepsInv(s, t, FastStep(s, t, service).threads[t]);
  }

  lemma SlowKeepsInv(s: State, t: nat, service: string, id: nat)
    requires Inv(s) && t in s.threads && s.threads[t] == Locking(service)
    ensures Inv(SlowStep(s, t, service, id))
  {
    if !s.closed && service !in s.conns && service !in s.pending {
      if id !in s.results {
        ReserveKeepsInv(s, t, service, id);
      }
    } else {
      CachedConnIsMade(s, service);
      MoveKeepsInv(s, t, SlowStep(s, t, service, id).threads[t]);
    }
  }

  lemma WakeKeepsInv(s: State, t: nat, service: string, on: nat)
    requires Inv(s) && t in s.threads && s.threads[t] == Waiting(service, on) && on in s.results && s.results[on].done
    ensures Inv(Move(s, t, Returned(service, Some(on), s.results[on].conn)))
  {
    assert ThreadOk(s, t) && ResultOk(s, on);
    MoveKeepsInv(s, t, Returned(service, Some(on), s.results[on].conn));
  }

  lemma LaterStepKeepsInv(s: State, a: Action)
    requires Inv(s) && !a.Get? && !a.CallClose? && a.t in s.threads
    ensures Inv(Step(s, a))
  {
    var p := s.threads[a.t];
    if a.FastPath? && p.Looking? {
      FastKeepsInv(s, a.t, p.service);
    } else if a.SlowPath? && p.Locking? {
      SlowKeepsInv(s, a.t, p.service, a.id);
    } else if a.Dial? && p.Dialing? {
      DialKeepsInv(s, a.t, p.service, p.mine, a.conn);
    } else if a.Publish? && p.Dialed? && p.mine in s.results {
      PublishKeepsInv(s, a.t, p.service, p.mine, p.conn);
    } else if a.Wake? && p.Waiting? && p.on in s.results && s.results[p.on].done {
      WakeKeepsInv(s, a.t, p.service, p.on);
    } else if a.Cancel? && p.Waiting? {
      MoveKeepsInv(s, a.t, Returned(p.service, None, None));
    } else if a.Shut? && p.ShuttingDown? {
      ShutKeepsInv(s, a.t);
    } else if a.CloseOne? && p.Closing? {
      CloseOneKeepsInv(s, a.t, p.left, a.service);
    } else {
      assert Step(s, a) == s;
    }
  }

  lemma CachedConnIsMade(s: State, service: string)
    requires Inv(s)
    ensures service in s.conns ==> service in s.made && s.made[service] == s.conns[service]
  {
    assert service in s.conns ==> Owns(s, Cache, service, s.conns[service]);
  }

  lemma {:induction false} ExecKeepsInv(s: State, actions: seq<Action>)
    requires Inv(s)
    ensures Inv(Exec(s, actions))
    decreases |actions|
  {
    if actions != [] {
      StepKeepsInv(s, actions[0]);
      ExecKeepsInv(Step(s, actions[0]), actions[1..]);
    }
  }

  lemma Reachable(actions: seq<Action>)
    ensures Inv(Exec(INIT, actions))
  {
    assert Inv(INIT) by {
      assert forall o, k, c: nat :: !Owns(INIT, o, k, c);
      assert forall t, k, p :: !Creates(INIT, t, k, p);
    }
    ExecKeepsInv(INIT, actions);
  }

  // ----- what callers rely on

  /** Main result. In every reachable state each open connection has exactly one owner: the
      cache, one creator still holding it, or one Close. */
  lemma OpenConnectionsHaveOneOwner(actions: seq<Action>, c: nat)
    ensures var s := Exec(INIT, actions);
            && (c in s.open <==> exists o, k :: Owns(s, o, k, c))
            && (forall o, k, o', k' :: Owns(s, o, k, c) && Owns(s, o', k', c) ==> o == o' && k == k')
  {
    Reachable(actions);
    var s := Exec(INIT, actions);
    forall o, k, o', k' | Owns(s, o, k, c) && Owns(s, o', k', c) ensures o == o' && k == k' {
      assert s.made[k] == c && s.made[k'] == c;
    }
  }

  ghost predicate Quiet(s: State) {
    forall t :: t in s.threads ==> s.threads[t].Returned? || s.threads[t].Closed?
  }

  /** Main result. Once the manager is closed and every call of GetClient and Close has
      returned, no connection is left open and no creation is pending. */
  lemma NothingLeaksAfterClose(actions: seq<Action>)
    ensures var s := Exec(INIT, actions); s.closed && Quiet(s) ==> s.open == {} && s.pending == map[]
  {
    Reachable(actions);
    var s := Exec(INIT, actions);
    if s.closed && Quiet(s) {
      assert forall o, k, c: nat :: !Owns(s, o, k, c);
      assert forall t, k, p :: !Creates(s, t, k, p);
    }
  }

  /** Main result. Creation is single-flight: a service has a pending entry exactly while one
      thread creates its connection, and never two. */
  lemma CreationIsSingleFlight(actions: seq<Action>, service: string, t: nat, t': nat, p: nat, p': nat)
    ensures var s := Exec(INIT, actions);
            && (service in s.pending <==> exists u, q :: Creates(s, u, service, q))
            && (Creates(s, t, service, p) && Creates(s, t', service, p') ==> t == t' && p == p')
  {
    Reachable(actions);
    var s := Exec(INIT, actions);
    if service in s.pending {
      assert Creates(s, s.results[s.pending[service]].creator, service, s.pending[service]);
    }
  }

  /** `made` records every success of newClient and is never overwritten, so over the manager's
      lifetime there is at most one per service. */
  lemma AtMostOneConnectionPerService(actions: seq<Action>, t: nat, conn: nat)
    ensures var s := Exec(INIT, actions);
            var s' := Step(s, Dial(t, Some(conn)));
            s' != s ==> s.threads[t].service !in s.made && s'.made == s.made[s.threads[t].service := conn]
  {
    Reachable(actions);
  }

  lemma StepKeepsMade(s: State, a: Action)
    requires Inv(s)
    ensures forall k :: k in s.made ==> k in Step(s, a).made && Step(s, a).made[k] == s.made[k]
  {
  }

  lemma {:induction false} MadeIsStable(s: State, actions: seq<Action>)
    requires Inv(s)
    ensures forall k :: k in s.made ==> k in Exec(s, actions).made && Exec(s, actions).made[k] == s.made[k]
    decreases |actions|
  {
    if actions != [] {
      var s' := Step(s, actions[0]);
      StepKeepsInv(s, actions[0]);
      StepKeepsMade(s, actions[0]);
      MadeIsStable(s', actions[1..]);
    }
  }

  /** Main result. Any two successful calls for a service, at any two moments of a run, return
      the same connection. */
  lemma AllCallersShareOneConnection(before: seq<Action>, after: seq<Action>, t: nat, u: nat)
    ensures var s := Exec(INIT, before);
            var s' := Exec(s, after);
            t in s.threads && u in s'.threads && s.threads[t].Returned? && s'.threads[u].Returned?
            && s.threads[t].service == s'.threads[u].service
            && s.threads[t].result.Some? && s'.threads[u].result.Some?
            ==> s.threads[t].result == s'.threads[u].result
  {
    Reachable(before);
    var s := Exec(INIT, before);
    ExecKeepsInv(s, after);
    MadeIsStable(s, after);
    var s' := Exec(s, after);
    assert t in s.threads ==> ThreadOk(s, t);
    assert u in s'.threads ==> ThreadOk(s', u);
  }

  /** Main result. A caller that was released through a creation, be it the creator or a
      waiter, returns exactly what the creator returned, and the creator has returned. */
  lemma WaitersGetTheCreatorsResult(actions: seq<Action>, t: nat)
    ensures var s := Exec(INIT, actions);
            t in s.threads && s.threads[t].Returned? && s.threads[t].via.Some? ==>
              var p := s.threads[t].via.value;
              && p in s.results && s.results[p].service == s.threads[t].service
              && s.results[p].creator in s.threads
              && s.threads[s.results[p].creator] == s.threads[t]
  {
    Reachable(actions);
    var s := Exec(INIT, actions);
    if t in s.threads && s.threads[t].Returned? && s.threads[t].via.Some? {
      assert ThreadOk(s, t) && ResultOk(s, s.threads[t].via.value);
    }
  }
}
