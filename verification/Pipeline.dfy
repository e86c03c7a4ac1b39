/** The operation-log pipeline as one step system: broker, consumers, retry publisher and
    database, with failure possible at every call. */
module Pipeline {
  import opened Common
  import Runs
  import opened OperationLog
  import T = Topology

  datatype Params = Params(cfg: T.Config, broker: T.Broker, maxRetries: nat, platform: Platform)

  /** The consumer and publisher declared their topology on a broker of their own; the count
      fits the int32 header. */
  ghost predicate Wired(p: Params) {
    && T.Declared(p.broker, p.cfg) && p.broker.bindings == T.Own(p.cfg) && T.DistinctExchanges(p.cfg)
    && p.maxRetries < 0x8000_0000
  }

  datatype Dest = ToMain | ToRetry | ToDead

  /** Where a copy is: in a queue, delivered as delivery d and not acknowledged, or gone. */
  datatype Place = Main | Held(d: nat) | Retry | Dead | Gone

  /** One physical copy of a message. `origin` is the copy it was first published as, `parent`
      the copy it was republished from, `generation` the number of republications. */
  datatype Copy = Copy(
    body: Body, headers: Headers, place: Place,
    origin: nat, parent: Option<nat>, generation: nat)

  datatype Phase = Received | Saved | Sending | Transferred | Refused | Finished

  /** The handling of one delivery. `outgoing` is where it republishes to, `taken` whether the
      broker has accepted that publication, and `child` the copy this created. */
  datatype Work = Work(copy: nat, phase: Phase, outgoing: Option<Dest>, taken: bool, child: Option<nat>)

  datatype State = State(copies: seq<Copy>, works: seq<Work>, rows: seq<Row>)

  const START := State([], [], [])

  /** `reaches`: the acknowledgement arrives at the broker. */
  datatype Action =
    | Publish(event: Event, headers: Headers)
    | ForeignPublish(body: Body, headers: Headers)
    | Deliver(copy: nat)
    | Handle(d: nat, commit: Commit)
    | Accept(d: nat)
    | Confirm(d: nat)
    | SendFails(d: nat)
    | Ack(d: nat, reaches: bool)
    | Nack(d: nat, reaches: bool)
    | Expire(copy: nat)
    | Lose(d: nat)
    | Crash(d: nat)

  /** The queue that the broker routes a publication to. A publication that reaches no queue is
      confirmed all the same: it is not mandatory. */
  function Destination(p: Params, dest: Dest): Option<Place> {
    var (exchange, key) :=
      match dest
      case ToMain => (p.cfg.exchange, p.cfg.routingKey)
      case ToRetry => (p.cfg.retryExchange, p.cfg.retryRoutingKey)
      case ToDead => (p.cfg.deadLetterExchange, p.cfg.deadLetterRoutingKey);
    PlaceOf(p, T.Route(p.broker, exchange, key))
  }

  function PlaceOf(p: Params, queues: set<string>): Option<Place> {
    if queues == {p.cfg.queue} then Some(Main)
    else if queues == {p.cfg.retryQueue} then Some(Retry)
    else if queues == {p.cfg.deadLetterQueue} then Some(Dead)
    else None
  }

  /** Where handleDelivery sends a message it could not process. */
  function Verdict(p: Params, c: Copy, r: HandlerResult): Dest {
    if !Valid(c.body.event) || r.PermanentError? then ToDead
    else if RetryCount(c.headers) >= p.maxRetries then ToDead
    else ToRetry
  }

  function Outgoing(h: Headers, dest: Dest): Headers {
    if dest.ToRetry? then NextRetry(h) else h[ERROR_HEADER := Note("")]
  }

  function AddRoot(p: Params, s: State, body: Body, headers: Headers): State {
    match Destination(p, ToMain)
    case Some(place) => s.(copies := s.copies + [Copy(body, headers, place, |s.copies|, None, 0)])
    case None => s
  }

  function SetWork(s: State, d: nat, w: Work): State
    requires d < |s.works|
  {
    s.(works := s.works[d := w])
  }

  function SetPlace(s: State, i: nat, place: Place): State
    requires i < |s.copies|
  {
    s.(copies := s.copies[i := s.copies[i].(place := place)])
  }

  /** Move the copy of delivery d if the broker still holds it for that delivery. */
  function Release(s: State, d: nat, place: Place): State
    requires d < |s.works|
  {
    var i := s.works[d].copy;
    if i < |s.copies| && s.copies[i].place == Held(d) then SetPlace(s, i, place) else s
  }

  function HandleStep(p: Params, s: State, d: nat, commit: Commit): State
    requires d < |s.works| && s.works[d].copy < |s.copies|
  {
    var w := s.works[d];
    var c := s.copies[w.copy];
    var (rows, r) := Process(c.body, s.rows, commit, p.platform);
    SetWork(s.(rows := rows), d,
            if r.Stored? then w.(phase := Saved) else w.(phase := Sending, outgoing := Some(Verdict(p, c, r))))
  }

  /** The broker takes the republished message; this may even happen after the publisher has
      given up waiting for the confirmation. */
  function AcceptStep(p: Params, s: State, d: nat): State
    requires d < |s.works| && s.works[d].copy < |s.copies| && s.works[d].outgoing.Some?
  {
    var w := s.works[d];
    var c := s.copies[w.copy];
    match Destination(p, w.outgoing.value)
    case None => SetWork(s, d, w.(taken := true))
    case Some(place) =>
      var child := Copy(c.body, Outgoing(c.headers, w.outgoing.value), place, c.origin, Some(w.copy), c.generation + 1);
      SetWork(s.(copies := s.copies + [child]), d, w.(taken := true, child := Some(|s.copies|)))
  }

  /** One step; an action that does not apply changes nothing. */
  function Step(p: Params, s: State, a: Action): State {
    match a
    case Publish(event, headers) =>
      if Valid(event) && RETRY_HEADER !in headers then AddRoot(p, s, Body(true, event), headers) else s
    case ForeignPublish(body, headers) => AddRoot(p, s, body, headers)
    case Deliver(i) =>
      if i < |s.copies| && s.copies[i].place == Main then
        SetPlace(s, i, Held(|s.works|)).(works := s.works + [Work(i, Received, None, false, None)])
      else s
    case Handle(d, commit) =>
      if d < |s.works| && s.works[d].phase == Received && s.works[d].copy < |s.copies|
      then HandleStep(p, s, d, commit) else s
    case Accept(d) =>
      if d < |s.works| && s.works[d].outgoing.Some? && !s.works[d].taken && s.works[d].copy < |s.copies|
      then AcceptStep(p, s, d) else s
    case Confirm(d) =>
      if d < |s.works| && s.works[d].phase == Sending && s.works[d].taken
      then SetWork(s, d, s.works[d].(phase := Transferred)) else s
    case SendFails(d) =>
      if d < |s.works| && s.works[d].phase == Sending then SetWork(s, d, s.works[d].(phase := Refused)) else s
    case Ack(d, reaches) =>
      if d < |s.works| && (s.works[d].phase == Saved || s.works[d].phase == Transferred) then
        SetWork(if reaches then Release(s, d, Gone) else s, d, s.works[d].(phase := Finished))
      else s
    case Nack(d, reaches) =>
      if d < |s.works| && s.works[d].phase == Refused then
        SetWork(if reaches then Release(s, d, Main) else s, d, s.works[d].(phase := Finished))
      else s
    case Expire(i) =>
      if i < |s.copies| && s.copies[i].place == Retry then
        var c := s.copies[i].(headers := s.copies[i].headers[DEATH_HEADER := Table]);
        var place := PlaceOf(p, T.AfterTTL(p.broker, p.cfg.retryQueue));
        s.(copies := s.copies[i := c.(place := if place.Some? then place.value else Gone)])
      else s
    case Lose(d) => if d < |s.works| then Release(s, d, Main) else s
    case Crash(d) => if d < |s.works| then SetWork(s, d, s.works[d].(phase := Finished)) else s
  }

  function StepOf(p: Params): (State, Action) -> State {
    (s, a) => Step(p, s, a)
  }

  function Exec(p: Params, s: State, actions: seq<Action>): State {
    Runs.Exec(StepOf(p), s, actions)
  }

  /** What the declared topology makes of the three publications and of the retry TTL. */
  lemma Wiring(p: Params)
    requires Wired(p)
    ensures Destination(p, ToMain) == Some(Main) && Destination(p, ToRetry) == Some(Retry)
    ensures Destination(p, ToDead) == Some(Dead)
    ensures PlaceOf(p, T.AfterTTL(p.broker, p.cfg.retryQueue)) == Some(Main)
  {
    T.RoutingGraph(p.broker, p.cfg);
    var main, retry, dead := p.cfg.queue, p.cfg.retryQueue, p.cfg.deadLetterQueue;
    assert main != retry && main != dead && retry != dead;
    assert main in {main} && retry in {retry} && dead in {dead};
    assert {retry} != {main} && {dead} != {main} && {dead} != {retry};
  }

  // ----- invariants

  /** The message of copy i is in the database under its event ID. */
  ghost predicate Recorded(s: State, i: nat)
    requires i < |s.copies|
  {
    Decodes(s.copies[i].body) && HasEvent(s.rows, s.copies[i].body.event.eventID)
  }

  ghost predicate IsChild(s: State, j: nat, i: nat) {
    i < j < |s.copies| && s.copies[j].parent == Some(i)
  }

  /** A copy leaves the broker only when its event is recorded or a copy of it exists. */
  ghost predicate CopyOk(p: Params, s: State, i: nat)
    requires i < |s.copies|
  {
    var c := s.copies[i];
    && (c.place.Gone? ==> Recorded(s, i) || exists j: nat :: IsChild(s, j, i))
    && (c.place.Held? ==> c.place.d < |s.works| && s.works[c.place.d].copy == i)
    && c.origin <= i && s.copies[c.origin].parent.None?
    && (c.parent.None? ==> c.origin == i && c.generation == 0 && !c.place.Dead? && !c.place.Retry?)
    && (c.parent.Some? ==>
          c.parent.value < i
          && var q := s.copies[c.parent.value];
             q.body == c.body && q.origin == c.origin && c.generation == q.generation + 1 && !q.place.Dead?)
    && CountOk(p, s, i)
  }

  /** The retry count follows the generation; only the last republication goes to the DLQ, and
      only for a reason. */
  ghost predicate CountOk(p: Params, s: State, i: nat)
    requires i < |s.copies| && s.copies[i].origin < |s.copies|
  {
    var c := s.copies[i];
    && (RETRY_HEADER !in s.copies[c.origin].headers ==>
          c.generation == RetryCount(c.headers) + (if c.place.Dead? then 1 else 0) && RetryCount(c.headers) <= p.maxRetries)
    && (c.place.Dead? ==> HasReason(p, c))
    && (c.parent.Some? && !c.place.Dead? ==> Retryable(p, c.body))
  }

  /** A failure to process the message may pass: its event is valid, and if it decodes its
      administrator ID fits. */
  ghost predicate Retryable(p: Params, b: Body) {
    Valid(b.event) && (b.json ==> b.event.adminID <= p.platform.maxUint)
  }

  ghost predicate HasReason(p: Params, c: Copy) {
    !Retryable(p, c.body) || RetryCount(c.headers) >= p.maxRetries
  }

  ghost predicate WorkOk(p: Params, s: State, d: nat)
    requires d < |s.works|
  {
    var w := s.works[d];
    && w.copy < |s.copies|
    && !s.copies[w.copy].place.Dead? && !s.copies[w.copy].place.Retry?
    && (w.phase == Saved ==> Recorded(s, w.copy))
    && (w.phase == Transferred || w.child.Some? ==> w.taken)
    && (w.taken ==> w.child.Some? && IsChild(s, w.child.value, w.copy))
    && (w.outgoing == Some(ToRetry) ==> !HasReason(p, s.copies[w.copy]))
    && (w.outgoing == Some(ToDead) ==> HasReason(p, s.copies[w.copy]))
    && w.outgoing != Some(ToMain)
  }

  /** Delivery d has been handled, and its valid event maps to the row. */
  ghost predicate Wrote(p: Params, s: State, d: nat, row: Row) {
    && d < |s.works| && s.works[d].phase != Received && s.works[d].copy < |s.copies|
    && var b := s.copies[s.works[d].copy].body;
       Decodes(b) && RowOf(b.event, p.platform.omitsZero) == row
  }

  ghost predicate RowOk(p: Params, s: State, k: nat)
    requires k < |s.rows|
  {
    exists d: nat :: Wrote(p, s, d, s.rows[k])
  }

  ghost predicate Inv(p: Params, s: State) {
    && (forall i :: 0 <= i < |s.copies| ==> CopyOk(p, s, i))
    && (forall d :: 0 <= d < |s.works| ==> WorkOk(p, s, d))
    && (forall k :: 0 <= k < |s.rows| ==> RowOk(p, s, k))
    && UniqueEvents(s.rows)
  }

  /** Copies keep their identity and retry count, only a new copy is ever in the retry queue or
      the DLQ, deliveries keep their copy, and rows stay as written. */
  ghost predicate Grows(s: State, s': State) {
    && |s.copies| <= |s'.copies|
    && (forall i :: 0 <= i < |s.copies| ==> SameMessage(s.copies[i], s'.copies[i]))
    && |s.works| <= |s'.works|
    && (forall d :: 0 <= d < |s.works| ==>
          s'.works[d].copy == s.works[d].copy && (s'.works[d].phase == Received ==> s.works[d].phase == Received))
    && s.rows <= s'.rows
  }

  ghost predicate SameMessage(c: Copy, c': Copy) {
    && c'.body == c.body && c'.origin == c.origin && c'.parent == c.parent && c'.generation == c.generation
    && RetryCount(c'.headers) == RetryCount(c.headers)
    && (RETRY_HEADER in c'.headers <==> RETRY_HEADER in c.headers)
    && (c'.place.Dead? <==> c.place.Dead?) && (c'.place.Retry? ==> c.place.Retry?)
  }

  lemma RecordedStays(s: State, s': State, i: nat)
    requires Grows(s, s') && i < |s.copies| && Recorded(s, i)
    ensures Recorded(s', i)
  {
    var k :| 0 <= k < |s.rows| && s.rows[k].eventID == s.copies[i].body.event.eventID;
    assert s'.rows[k] == s.rows[k];
  }

  lemma CopyFrame(p: Params, s: State, s': State, i: nat)
    requires Grows(s, s') && i < |s.copies| && CopyOk(p, s, i)
    requires s'.copies[i].place.Gone? ==> s.copies[i].place.Gone? || Recorded(s', i) || exists j: nat :: IsChild(s', j, i)
    requires s'.copies[i].place.Held? ==>
               s'.copies[i].place.d < |s'.works| && s'.works[s'.copies[i].place.d].copy == i
    ensures CopyOk(p, s', i)
  {
    assert SameMessage(s.copies[i], s'.copies[i]);
    var o := s.copies[i].origin;
    assert SameMessage(s.copies[o], s'.copies[o]);
    if s.copies[i].parent.Some? {
      var q := s.copies[i].parent.value;
      assert SameMessage(s.copies[q], s'.copies[q]);
    }
    if s.copies[i].place.Gone? {
      if Recorded(s, i) {
        RecordedStays(s, s', i);
      } else {
        var j: nat :| IsChild(s, j, i);
        assert SameMessage(s.copies[j], s'.copies[j]) && IsChild(s', j, i);
      }
    }
  }

  lemma WorkFrame(p: Params, s: State, s': State, d: nat)
    requires Grows(s, s') && d < |s.works| && WorkOk(p, s, d)
    requires s'.works[d] == s.works[d].(phase := s'.works[d].phase)
    requires s'.works[d].phase == Saved ==> s.works[d].phase == Saved || Recorded(s', s.works[d].copy)
    requires s'.works[d].phase == Transferred ==> s.works[d].taken
    ensures WorkOk(p, s', d)
  {
    var i := s.works[d].copy;
    assert SameMessage(s.copies[i], s'.copies[i]);
    if s.works[d].child.Some? {
      var j := s.works[d].child.value;
      assert IsChild(s, j, i) && SameMessage(s.copies[j], s'.copies[j]) && IsChild(s', j, i);
    }
    if s.works[d].phase == Saved {
      RecordedStays(s, s', i);
    }
  }

  lemma RowFrame(p: Params, s: State, s': State, k: nat)
    requires Grows(s, s') && k < |s.rows| && RowOk(p, s, k)
    ensures RowOk(p, s', k)
  {
    var d: nat :| Wrote(p, s, d, s.rows[k]);
    assert SameMessage(s.copies[s.works[d].copy], s'.copies[s.works[d].copy]);
    assert Wrote(p, s', d, s'.rows[k]);
  }

  /** All copies but `i0` keep their place and all works but `d0` stay as they are. */
  lemma RestStays(p: Params, s: State, s': State, i0: int, d0: int)
    requires Inv(p, s) && Grows(s, s')
    requires forall i :: 0 <= i < |s.copies| && i != i0 ==> s'.copies[i].place == s.copies[i].place
    requires forall d :: 0 <= d < |s.works| && d != d0 ==> s'.works[d] == s.works[d]
    ensures forall i :: 0 <= i < |s.copies| && i != i0 ==> CopyOk(p, s', i)
    ensures forall d :: 0 <= d < |s.works| && d != d0 ==> WorkOk(p, s', d)
    ensures forall k :: 0 <= k < |s.rows| ==> RowOk(p, s', k)
  {
    forall i | 0 <= i < |s.copies| && i != i0 ensures CopyOk(p, s', i) {
      assert CopyOk(p, s, i);
      CopyFrame(p, s, s', i);
    }
    forall d | 0 <= d < |s.works| && d != d0 ensures WorkOk(p, s', d) {
      assert WorkOk(p, s, d);
      WorkFrame(p, s, s', d);
    }
    forall k | 0 <= k < |s.rows| ensures RowOk(p, s', k) {
      assert RowOk(p, s, k);
      RowFrame(p, s, s', k);
    }
  }

  /** Steps that only change the phase of one work item and the place of its copy. */
  lemma PhaseKeepsInv(p: Params, s: State, d: nat, place: Option<Place>, phase: Phase)
    requires Inv(p, s) && d < |s.works|
    requires place.Some? ==> place.value == Main || place.value == Gone
    requires place == Some(Gone) ==> s.works[d].phase == Saved || s.works[d].phase == Transferred
    requires phase == Saved ==> s.works[d].phase == Saved
    requires phase == Transferred ==> s.works[d].taken
    requires phase == Received ==> s.works[d].phase == Received
    ensures var s' := SetWork(if place.Some? then Release(s, d, place.value) else s, d, s.works[d].(phase := phase));
            Inv(p, s') && Grows(s, s')
  {
    var s' := SetWork(if place.Some? then Release(s, d, place.value) else s, d, s.works[d].(phase := phase));
    var n := s.works[d].copy;
    assert WorkOk(p, s, d);
    assert Grows(s, s');
    RestStays(p, s, s', n, d);
    assert CopyOk(p, s, n);
    if place == Some(Gone) && s.works[d].phase == Saved {
      RecordedStays(s, s', n);
    } else if place == Some(Gone) {
      var j := s.works[d].child.value;
      assert IsChild(s, j, n) && IsChild(s', j, n);
    }
    CopyFrame(p, s, s', n);
    WorkFrame(p, s, s', d);
  }

  lemma RootKeepsInv(p: Params, s: State, body: Body, headers: Headers)
    requires Wired(p) && Inv(p, s)
    ensures var s' := AddRoot(p, s, body, headers);
            Inv(p, s') && Grows(s, s')
  {
    Wiring(p);
    var s' := AddRoot(p, s, body, headers);
    assert Grows(s, s');
    RestStays(p, s, s', -1, -1);
    assert s'.copies[|s.copies|] == Copy(body, headers, Main, |s.copies|, None, 0);
  }

  lemma DeliverKeepsInv(p: Params, s: State, i: nat)
    requires Inv(p, s) && i < |s.copies| && s.copies[i].place == Main
    ensures var s' := Step(p, s, Deliver(i)); Inv(p, s') && Grows(s, s')
  {
    var s' := Step(p, s, Deliver(i));
    assert Grows(s, s');
    RestStays(p, s, s', i, -1);
    assert CopyOk(p, s, i);
    CopyFrame(p, s, s', i);
  }

  lemma HandleKeepsInv(p: Params, s: State, d: nat, commit: Commit)
    requires Inv(p, s) && d < |s.works| && s.works[d].phase == Received && s.works[d].copy < |s.copies|
    ensures var s' := HandleStep(p, s, d, commit); Inv(p, s') && Grows(s, s')
  {
    var s' := HandleStep(p, s, d, commit);
    var w := s.works[d];
    var c := s.copies[w.copy];
    assert WorkOk(p, s, d);
    assert Grows(s, s');
    RestStays(p, s, s', -1, d);
    if s'.rows != s.rows {
      assert s'.rows == s.rows + [RowOf(c.body.event, p.platform.omitsZero)];
      assert Wrote(p, s', d, s'.rows[|s.rows|]);
    }
    if s'.works[d].phase == Saved {
      assert HasEvent(s'.rows, c.body.event.eventID) by {
        if !HasEvent(s.rows, c.body.event.eventID) {
          assert s'.rows[|s.rows|].eventID == c.body.event.eventID;
        }
      }
    }
    assert WorkOk(p, s', d);
  }

  lemma AcceptKeepsInv(p: Params, s: State, d: nat)
    requires Wired(p) && Inv(p, s)
    requires d < |s.works| && s.works[d].copy < |s.copies| && s.works[d].outgoing.Some? && !s.works[d].taken
    ensures var s' := AcceptStep(p, s, d); Inv(p, s') && Grows(s, s')
  {
    Wiring(p);
    var s' := AcceptStep(p, s, d);
    var w := s.works[d];
    assert WorkOk(p, s, d) && CopyOk(p, s, w.copy);
    assert Grows(s, s');
    RestStays(p, s, s', -1, d);
    var j := |s.copies|;
    assert IsChild(s', j, w.copy);
    ChildOk(p, s, d);
    AcceptedWorkOk(p, s, d);
  }

  lemma AcceptedWorkOk(p: Params, s: State, d: nat)
    requires Wired(p) && Inv(p, s)
    requires d < |s.works| && s.works[d].copy < |s.copies| && s.works[d].outgoing.Some? && !s.works[d].taken
    ensures WorkOk(p, AcceptStep(p, s, d), d)
  {
    Wiring(p);
    assert WorkOk(p, s, d);
    assert IsChild(AcceptStep(p, s, d), |s.copies|, s.works[d].copy);
    if Recorded(s, s.works[d].copy) {
      RecordedStays(s, AcceptStep(p, s, d), s.works[d].copy);
    }
  }

  lemma ChildOk(p: Params, s: State, d: nat)
    requires Wired(p) && Inv(p, s)
    requires d < |s.works| && s.works[d].copy < |s.copies| && s.works[d].outgoing.Some? && !s.works[d].taken
    ensures |AcceptStep(p, s, d).copies| == |s.copies| + 1 && CopyOk(p, AcceptStep(p, s, d), |s.copies|)
  {
    Wiring(p);
    var s' := AcceptStep(p, s, d);
    var w := s.works[d];
    assert WorkOk(p, s, d) && CopyOk(p, s, w.copy);
    var c, c' := s.copies[w.copy], s'.copies[|s.copies|];
    assert |RETRY_HEADER| != |ERROR_HEADER|;
    if w.outgoing == Some(ToRetry) && RETRY_HEADER !in s.copies[c.origin].headers {
      NextRetryAddsOne(c.headers, p.maxRetries);
    }
    assert CountOk(p, s', |s.copies|);
  }

  lemma ExpireKeepsInv(p: Params, s: State, i: nat)
    requires Wired(p) && Inv(p, s) && i < |s.copies| && s.copies[i].place == Retry
    ensures var s' := Step(p, s, Expire(i)); Inv(p, s') && Grows(s, s')
  {
    Wiring(p);
    var s' := Step(p, s, Expire(i));
    assert |RETRY_HEADER| != |DEATH_HEADER|;
    assert Grows(s, s');
    RestStays(p, s, s', i, -1);
    assert CopyOk(p, s, i);
    CopyFrame(p, s, s', i);
  }

  lemma StepKeepsInv(p: Params, s: State, a: Action)
    requires Wired(p) && Inv(p, s)
    ensures Inv(p, Step(p, s, a)) && Grows(s, Step(p, s, a))
  {
    if Step(p, s, a) != s {
      match a
      case Publish(event, headers) => RootKeepsInv(p, s, Body(true, event), headers);
      case ForeignPublish(body, headers) => RootKeepsInv(p, s, body, headers);
      case Deliver(i) => DeliverKeepsInv(p, s, i);
      case Handle(d, commit) => HandleKeepsInv(p, s, d, commit);
      case Accept(d) => AcceptKeepsInv(p, s, d);
      case Confirm(d) => PhaseKeepsInv(p, s, d, None, Transferred);
      case SendFails(d) => PhaseKeepsInv(p, s, d, None, Refused);
      case Ack(d, reaches) => PhaseKeepsInv(p, s, d, if reaches then Some(Gone) else None, Finished);
      case Nack(d, reaches) => PhaseKeepsInv(p, s, d, if reaches then Some(Main) else None, Finished);
      case Expire(i) => ExpireKeepsInv(p, s, i);
      case Lose(d) =>
        assert WorkOk(p, s, d);
        PhaseKeepsInv(p, s, d, Some(Main), s.works[d].phase);
        assert SetWork(Release(s, d, Main), d, s.works[d]) == Release(s, d, Main);
      case Crash(d) => PhaseKeepsInv(p, s, d, None, Finished);
    }
  }

  lemma GrowsTransitive(a: State, b: State, c: State)
    requires Grows(a, b) && Grows(b, c)
    ensures Grows(a, c)
  {
    forall i | 0 <= i < |a.copies| ensures SameMessage(a.copies[i], c.copies[i]) {
      assert SameMessage(a.copies[i], b.copies[i]) && SameMessage(b.copies[i], c.copies[i]);
    }
  }

  lemma GrowsReflexive(s: State)
    ensures Grows(s, s)
  {
  }

  lemma {:induction false} ExecKeepsInv(p: Params, s: State, actions: seq<Action>)
    requires Wired(p) && Inv(p, s)
    ensures Inv(p, Exec(p, s, actions)) && Grows(s, Exec(p, s, actions))
    decreases |actions|
  {
    if actions == [] {
      GrowsReflexive(s);
    } else {
      var s' := Step(p, s, actions[0]);
      StepKeepsInv(p, s, actions[0]);
      ExecKeepsInv(p, s', actions[1..]);
      GrowsTransitive(s, s', Exec(p, s', actions[1..]));
    }
  }

  lemma Reachable(p: Params, actions: seq<Action>)
    requires Wired(p)
    ensures Inv(p, Exec(p, START, actions))
  {
    ExecKeepsInv(p, START, actions);
  }
}
