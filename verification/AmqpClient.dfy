/** The shared AMQP connection: reconnecting and closing under two locks, while the connection
    may drop at any moment. */
module AmqpClient {
  import opened Common
  import Runs

  /** How a call of Reconnect or Close ends. */
  datatype Outcome = Done | ClientClosed | Cancelled | DialFailed

  /** Where a goroutine inside Reconnect or Close is; `Locked...` phases hold reconnectMu. */
  datatype Phase =
    | Reconnecting
    | LockedToDial
    | LockedWithConn(conn: nat)
    | LockedWithOld(previous: Option<nat>)
    | ClosingDown
    | LockedToHangUp(last: Option<nat>)
    | Returned(outcome: Outcome)

  /** `discarded` and `hungUp` are history: connections closed by Reconnect's second closed
      check, and live old connections closed after a swap. */
  datatype State = State(
    conn: Option<nat>, closed: bool,
    live: set<nat>, dialed: set<nat>,
    holder: Option<nat>, threads: map<nat, Phase>,
    discarded: set<nat>, hungUp: set<nat>)

  datatype Action =
    | CallReconnect(t: nat)
    | Check(t: nat, cancelled: bool)
    | Dial(t: nat, result: Option<nat>)
    | Swap(t: nat)
    | DropOld(t: nat)
    | CallClose(t: nat)
    | MarkClosed(t: nat)
    | HangUp(t: nat)
    | ConnectionLost(conn: nat)

  /** NewClient starts with one live connection. */
  function Start(first: nat): State {
    State(Some(first), false, {first}, {first}, None, map[], {}, {})
  }

  function Move(s: State, t: nat, p: Phase): State {
    s.(threads := s.threads[t := p])
  }

  /** Leave, releasing reconnectMu. */
  function Leave(s: State, t: nat, outcome: Outcome): State {
    Move(s, t, Returned(outcome)).(holder := None)
  }

  predicate Alive(s: State, conn: Option<nat>) {
    conn.Some? && conn.value in s.live
  }

  /** OpenChannel succeeds, under the read lock, only on a live connection of an open client. */
  predicate CanOpenChannel(s: State) {
    !s.closed && Alive(s, s.conn)
  }

  function Step(s: State, a: Action): State {
    match a
    case CallReconnect(t) => if t in s.threads then s else Move(s, t, Reconnecting)
    case Check(t, cancelled) =>
      if t !in s.threads || s.threads[t] != Reconnecting || s.holder.Some? then s
      else if s.closed then Move(s, t, Returned(ClientClosed))
      else if Alive(s, s.conn) then Move(s, t, Returned(Done))
      else if cancelled then Move(s, t, Returned(Cancelled))
      else Move(s, t, LockedToDial).(holder := Some(t))
    case Dial(t, result) =>
      if t !in s.threads || s.threads[t] != LockedToDial then s
      else if result.None? then Leave(s, t, DialFailed)
      else if result.value in s.dialed then s
      else
        Move(s, t, LockedWithConn(result.value)).(
          live := s.live + {result.value}, dialed := s.dialed + {result.value})
    case Swap(t) =>
      if t !in s.threads || !s.threads[t].LockedWithConn? then s
      else
        var c := s.threads[t].conn;
        if s.closed then Leave(s, t, ClientClosed).(live := s.live - {c}, discarded := s.discarded + {c})
        else Move(s, t, LockedWithOld(s.conn)).(conn := Some(c))
    case DropOld(t) =>
      if t !in s.threads || !s.threads[t].LockedWithOld? then s
      else
        var previous := s.threads[t].previous;
        if Alive(s, previous) then
          Leave(s, t, Done).(live := s.live - {previous.value}, hungUp := s.hungUp + {previous.value})
        else Leave(s, t, Done)
    case CallClose(t) => if t in s.threads then s else Move(s, t, ClosingDown)
    case MarkClosed(t) =>
      if t !in s.threads || s.threads[t] != ClosingDown || s.holder.Some? then s
      else if s.closed then Move(s, t, Returned(Done))
      else Move(s, t, LockedToHangUp(s.conn)).(holder := Some(t), closed := true, conn := None)
    case HangUp(t) =>
      if t !in s.threads || !s.threads[t].LockedToHangUp? then s
      else
        var c := s.threads[t].last;
        Leave(s, t, Done).(live := if c.Some? then s.live - {c.value} else s.live)
    case ConnectionLost(c) => s.(live := s.live - {c})
  }

  function Exec(s: State, actions: seq<Action>): State {
    Runs.Exec(Step, s, actions)
  }

  // ----- invariants

  predicate Locked(p: Phase) {
    p.LockedToDial? || p.LockedWithConn? || p.LockedWithOld? || p.LockedToHangUp?
  }

  /** The connection a phase is responsible for besides the client's own. */
  function InHand(p: Phase): Option<nat> {
    match p
    case LockedWithConn(c) => Some(c)
    case LockedToHangUp(c) => c
    case _ => None
  }

  ghost predicate Inv(s: State) {
    && s.live <= s.dialed
    && (forall t :: t in s.threads && Locked(s.threads[t]) ==> s.holder == Some(t))
    && (s.holder.Some? ==> s.holder.value in s.threads && Locked(s.threads[s.holder.value]))
    && (s.closed ==> s.conn.None?)
    && (s.conn.Some? ==> s.conn.value in s.dialed)
    && (forall c :: c in s.live ==>
          s.conn == Some(c) || (s.holder.Some? && InHand(s.threads[s.holder.value]) == Some(c)))
    && (s.holder.Some? ==>
          match s.threads[s.holder.value]
          case LockedToDial => !s.closed && !Alive(s, s.conn)
          case LockedWithConn(c) => !s.closed && !Alive(s, s.conn) && c in s.dialed
          case LockedWithOld(previous) => !s.closed && !Alive(s, previous) && (previous.Some? ==> previous.value in s.dialed)
          case LockedToHangUp(_) => s.closed
          case _ => true)
    && s.discarded == {} && s.hungUp == {}
  }

  lemma StepKeepsInv(s: State, a: Action)
    requires Inv(s)
    ensures Inv(Step(s, a))
    ensures s.closed ==> Step(s, a).closed && Step(s, a).dialed == s.dialed
  {
  }

  lemma {:induction false} ExecKeepsInv(s: State, actions: seq<Action>)
    requires Inv(s)
    ensures Inv(Exec(s, actions))
    ensures s.closed ==> Exec(s, actions).closed && Exec(s, actions).dialed == s.dialed
    decreases |actions|
  {
    if actions != [] {
      StepKeepsInv(s, actions[0]);
      ExecKeepsInv(Step(s, actions[0]), actions[1..]);
    }
  }

  lemma OneLive(s: State)
    requires Inv(s)
    ensures forall c, d :: c in s.live && d in s.live ==> c == d
  {
  }

  /** Main result. Over every interleaving of Reconnect, Close and connection loss: at most one
      connection is live; once the client is closed no connection is ever dialed again and no
      channel can be opened; when in addition no call is under way, none is live; and neither
      Reconnect's second closed check nor its closing of a live old connection ever happens. */
  lemma AtMostOneConnection(first: nat, before: seq<Action>, after: seq<Action>)
    ensures var s := Exec(Start(first), before);
            var t := Exec(s, after);
            && (forall c, d :: c in t.live && d in t.live ==> c == d)
            && (s.closed ==> t.closed && t.dialed == s.dialed && !CanOpenChannel(t))
            && (t.closed && t.holder.None? ==> t.live == {})
            && t.discarded == {} && t.hungUp == {}
  {
    ExecKeepsInv(Start(first), before);
    var s := Exec(Start(first), before);
    ExecKeepsInv(s, after);
    OneLive(Exec(s, after));
  }

  /** An open client that lost its connection gets a new one from one undisturbed Reconnect,
      and one that did not keeps the connection it has. */
  lemma ReconnectRestores(first: nat, actions: seq<Action>, t: nat, dialed: nat)
    ensures var s := Exec(Start(first), actions);
            !s.closed && s.holder.None? && t !in s.threads && dialed !in s.dialed ==>
              var r := Exec(s, [CallReconnect(t), Check(t, false), Dial(t, Some(dialed)), Swap(t), DropOld(t)]);
              CanOpenChannel(r) && (if Alive(s, s.conn) then r.conn == s.conn else r.conn == Some(dialed))
  {
    var s := Exec(Start(first), actions);
    ExecKeepsInv(Start(first), actions);
    Runs.Five(Step, s, CallReconnect(t), Check(t, false), Dial(t, Some(dialed)), Swap(t), DropOld(t));
  }
}
