/** Concurrent first-login creation over eight user shards and one global identity index.
    Each database call is one atomic step; any number of callers interleave. */
module UserStore {
  import opened Common
  import Runs
  import opened Sharding

  /** A user row; `profile` stands for the columns creation does not look at. */
  datatype User = User(id: int, subject: string, createdAt: int, profile: string)

  /** A row of the global index, whose key is the subject and whose user ID is unique. */
  datatype Entry = Entry(userID: int, table: int)

  datatype Outcome = Success(user: User, created: bool) | Failure

  /** Where a caller of FindOrCreateBySubject is. `again` marks the lookup after a failed
      transaction. */
  datatype Phase =
    | ReadingIndex(again: bool)
    | ReadingShard(entry: Entry, again: bool)
    | Creating
    | Done(outcome: Outcome)

  datatype Caller = Caller(user: User, phase: Phase)

  /** `creators` is history: which caller's transaction inserted a subject. */
  datatype Store = Store(
    index: map<string, Entry>,
    shards: seq<map<int, User>>,
    callers: map<nat, Caller>,
    creators: map<string, nat>)

  const EMPTY := Store(map[], seq(TABLE_COUNT, i => map[]), map[], map[])

  /** A transaction commits, aborts for an outside reason, or commits without the caller
      learning of it. */
  datatype Commit = Reported | Aborted | Unreported

  datatype Action =
    | Call(caller: nat, user: User)
    | ReadIndex(caller: nat, fails: bool)
    | ReadShard(caller: nat, fails: bool)
    | Transact(caller: nat, commit: Commit)

  /** Where a lookup that found nothing leads, and where a broken one does. */
  function NotFound(again: bool): Phase { if again then Done(Failure) else Creating }

  /** The two inserts of the creating transaction: a row in the shard and one in the index. */
  function Insert(s: Store, user: User): Option<Store> {
    var route := TableIndex(user.id);
    if route.Err? || route.value >= |s.shards| then None
    else if user.id in s.shards[route.value] then None
    else if user.subject in s.index || (exists k :: k in s.index && s.index[k].userID == user.id) then None
    else
      Some(s.(shards := s.shards[route.value := s.shards[route.value][user.id := user]],
              index := s.index[user.subject := Entry(user.id, route.value)]))
  }

  function Move(s: Store, caller: nat, phase: Phase): Store
    requires caller in s.callers
  {
    s.(callers := s.callers[caller := s.callers[caller].(phase := phase)])
  }

  /** One atomic step; an action that does not apply changes nothing. */
  function Step(s: Store, a: Action): Store {
    match a
    case Call(c, user) =>
      if c in s.callers then s else s.(callers := s.callers[c := Caller(user, ReadingIndex(false))])
    case ReadIndex(c, fails) =>
      if c !in s.callers || !s.callers[c].phase.ReadingIndex? then s
      else
        var Caller(user, phase) := s.callers[c];
        if fails then Move(s, c, Done(Failure))
        else if user.subject !in s.index then Move(s, c, NotFound(phase.again))
        else
          var entry := s.index[user.subject];
          if 0 <= entry.table < |s.shards| then Move(s, c, ReadingShard(entry, phase.again))
          else Move(s, c, Done(Failure))
    case ReadShard(c, fails) =>
      if c !in s.callers || !s.callers[c].phase.ReadingShard? then s
      else
        var ReadingShard(entry, again) := s.callers[c].phase;
        if fails || !(0 <= entry.table < |s.shards|) then Move(s, c, Done(Failure))
        else if entry.userID !in s.shards[entry.table] then Move(s, c, NotFound(again))
        else Move(s, c, Done(Success(s.shards[entry.table][entry.userID], false)))
    case Transact(c, commit) =>
      if c !in s.callers || s.callers[c].phase != Creating then s
      else
        var user := s.callers[c].user;
        var inserted := Insert(s, user);
        if commit.Aborted? || inserted.None? then Move(s, c, ReadingIndex(true))
        else
          var s' := inserted.value.(creators := s.creators[user.subject := c]);
          Move(s', c, if commit.Reported? then Done(Success(user, true)) else ReadingIndex(true))
  }

  function Exec(s: Store, actions: seq<Action>): Store {
    Runs.Exec(Step, s, actions)
  }

  // ----- invariants

  /** The index and the shards describe the same users: every index entry has its row, and
      every row has its entry, in the shard its ID routes to. */
  ghost predicate Agree(s: Store) {
    && |s.shards| == TABLE_COUNT
    && (forall k :: k in s.index ==>
          var e := s.index[k];
          && e.userID > 0 && e.table == e.userID % TABLE_COUNT
          && e.userID in s.shards[e.table] && s.shards[e.table][e.userID].subject == k)
    && (forall t, id {:trigger id in s.shards[t]} :: 0 <= t < TABLE_COUNT && id in s.shards[t] ==>
          var row := s.shards[t][id];
          && row.id == id && id > 0 && t == id % TABLE_COUNT
          && row.subject in s.index && s.index[row.subject] == Entry(id, t))
  }

  ghost predicate HasRow(s: Store, user: User) {
    && |s.shards| == TABLE_COUNT
    && user.subject in s.index && s.index[user.subject] == Entry(user.id, user.id % TABLE_COUNT)
    && user.id in s.shards[user.id % TABLE_COUNT] && s.shards[user.id % TABLE_COUNT][user.id] == user
  }

  ghost predicate CallerOk(s: Store, c: nat)
    requires c in s.callers
  {
    var Caller(user, phase) := s.callers[c];
    match phase
    case ReadingShard(entry, _) => user.subject in s.index && s.index[user.subject] == entry
    case Done(Success(found, created)) =>
      && found.subject == user.subject && HasRow(s, found)
      && (created ==> found == user && user.subject in s.creators && s.creators[user.subject] == c)
    case _ => true
  }

  ghost predicate Inv(s: Store) {
    && Agree(s)
    && s.creators.Keys == s.index.Keys
    && forall c :: c in s.callers ==> CallerOk(s, c)
  }

  /** Rows and index entries are only ever added. */
  ghost predicate Grows(s: Store, s': Store) {
    && |s.shards| == |s'.shards|
    && (forall k :: k in s.index ==> k in s'.index && s'.index[k] == s.index[k])
    && (forall k :: k in s.creators ==> k in s'.creators && s'.creators[k] == s.creators[k])
    && (forall t, id {:trigger id in s.shards[t]} :: 0 <= t < |s.shards| && id in s.shards[t] ==>
          id in s'.shards[t] && s'.shards[t][id] == s.shards[t][id])
  }

  lemma InsertKeeps(s: Store, user: User)
    requires Agree(s) && Insert(s, user).Some?
    ensures var s' := Insert(s, user).value;
            Agree(s') && HasRow(s', user) && Grows(s, s') && user.subject !in s.index
            && s'.index.Keys == s.index.Keys + {user.subject}
            && s'.callers == s.callers && s'.creators == s.creators
  {
    var s' := Insert(s, user).value;
    forall k | k in s'.index ensures k == user.subject || (k in s.index && s'.index[k] == s.index[k]) {
    }
    forall t, id | 0 <= t < TABLE_COUNT && id in s'.shards[t]
      ensures (id == user.id && t == id % TABLE_COUNT) || (id in s.shards[t] && s'.shards[t][id] == s.shards[t][id])
    {
    }
  }

  lemma MoveKeepsInv(s: Store, c: nat, phase: Phase)
    requires Inv(s) && c in s.callers && CallerOk(Move(s, c, phase), c)
    ensures Inv(Move(s, c, phase)) && Grows(s, Move(s, c, phase))
  {
    var s' := Move(s, c, phase);
    forall d | d in s'.callers ensures CallerOk(s', d) {
      if d != c {
        assert CallerOk(s, d) && s'.callers[d] == s.callers[d];
      }
    }
  }

  lemma CallerStaysOk(s: Store, s': Store, c: nat)
    requires c in s.callers && CallerOk(s, c) && Grows(s, s')
    requires c in s'.callers && s'.callers[c] == s.callers[c]
    ensures CallerOk(s', c)
  {
    match s.callers[c].phase
    case Done(Success(found, _)) => assert found.id in s.shards[found.id % TABLE_COUNT];
    case _ =>
  }

  lemma InsertKeepsInv(s: Store, c: nat)
    requires Inv(s) && c in s.callers && s.callers[c].phase.Creating? && Insert(s, s.callers[c].user).Some?
    ensures var s' := Insert(s, s.callers[c].user).value.(creators := s.creators[s.callers[c].user.subject := c]);
            Inv(s') && Grows(s, s') && HasRow(s', s.callers[c].user)
  {
    var user := s.callers[c].user;
    InsertKeeps(s, user);
    var s' := Insert(s, user).value.(creators := s.creators[user.subject := c]);
    assert Grows(s, s');
    forall d | d in s'.callers ensures CallerOk(s', d) {
      CallerStaysOk(s, s', d);
    }
  }

  lemma CommitKeepsInv(s: Store, c: nat, phase: Phase)
    requires Inv(s) && c in s.callers && s.callers[c].phase.Creating? && Insert(s, s.callers[c].user).Some?
    requires phase == ReadingIndex(true) || phase == Done(Success(s.callers[c].user, true))
    ensures var user := s.callers[c].user;
            var s' := Move(Insert(s, user).value.(creators := s.creators[user.subject := c]), c, phase);
            Inv(s') && Grows(s, s')
  {
    InsertKeepsInv(s, c);
    MoveKeepsInv(Insert(s, s.callers[c].user).value.(creators := s.creators[s.callers[c].user.subject := c]), c, phase);
  }

  lemma TransactKeepsInv(s: Store, c: nat, commit: Commit)
    requires Inv(s)
    ensures var s' := Step(s, Transact(c, commit)); Inv(s') && Grows(s, s')
  {
    if c in s.callers && s.callers[c].phase.Creating? {
      var user := s.callers[c].user;
      if commit.Aborted? || Insert(s, user).None? {
        MoveKeepsInv(s, c, ReadingIndex(true));
      } else {
        CommitKeepsInv(s, c, if commit.Reported? then Done(Success(user, true)) else ReadingIndex(true));
      }
    }
  }

  lemma ReadShardKeepsInv(s: Store, c: nat, fails: bool)
    requires Inv(s)
    ensures var s' := Step(s, ReadShard(c, fails)); Inv(s') && Grows(s, s')
  {
    if c in s.callers && s.callers[c].phase.ReadingShard? {
      assert CallerOk(s, c);
      MoveKeepsInv(s, c, Step(s, ReadShard(c, fails)).callers[c].phase);
    }
  }

  lemma StepKeepsInv(s: Store, a: Action)
    requires Inv(s)
    ensures Inv(Step(s, a)) && Grows(s, Step(s, a))
  {
    match a
    case Call(c, user) =>
      forall d | d in Step(s, a).callers ensures CallerOk(Step(s, a), d) {
        if d in s.callers {
          assert CallerOk(s, d);
        }
      }
    case ReadIndex(c, fails) =>
      if c in s.callers && s.callers[c].phase.ReadingIndex? {
        MoveKeepsInv(s, c, Step(s, a).callers[c].phase);
      }
    case ReadShard(c, fails) => ReadShardKeepsInv(s, c, fails);
    case Transact(c, commit) => TransactKeepsInv(s, c, commit);
  }

  lemma {:induction false} ExecKeepsInv(s: Store, actions: seq<Action>)
    requires Inv(s)
    ensures Inv(Exec(s, actions)) && Grows(s, Exec(s, actions))
    decreases |actions|
  {
    if actions != [] {
      StepKeepsInv(s, actions[0]);
      ExecKeepsInv(Step(s, actions[0]), actions[1..]);
    }
  }

  lemma EmptyInv()
    ensures Inv(EMPTY)
  {
  }

  ghost predicate Succeeded(s: Store, c: nat, subject: string) {
    c in s.callers && s.callers[c].user.subject == subject
    && s.callers[c].phase.Done? && s.callers[c].phase.outcome.Success?
  }

  /** Main result. After any interleaving of calls, aborts, lost races and commits whose
      report is lost: all callers that succeeded for a subject hold the same user, at most
      one of them was told it created it, and index and shards agree row for row. */
  lemma AllCallersAgree(actions: seq<Action>, c: nat, d: nat, subject: string)
    ensures var s := Exec(EMPTY, actions);
            && Agree(s)
            && (Succeeded(s, c, subject) && Succeeded(s, d, subject) ==>
                  var o, p := s.callers[c].phase.outcome, s.callers[d].phase.outcome;
                  && o.user == p.user && o.user.subject == subject
                  && (o.created && p.created ==> c == d))
  {
    EmptyInv();
    ExecKeepsInv(EMPTY, actions);
    var s := Exec(EMPTY, actions);
    if Succeeded(s, c, subject) && Succeeded(s, d, subject) {
      assert CallerOk(s, c) && CallerOk(s, d);
    }
  }

  /** Exactly when the creating transaction goes through: the ID routes, the subject has no
      user yet, and the ID is new in its shard. The unique user ID of the index adds nothing. */
  lemma InsertCondition(s: Store, user: User)
    requires Agree(s)
    ensures Insert(s, user).Some? <==>
              user.id > 0 && user.subject !in s.index && user.id !in s.shards[user.id % TABLE_COUNT]
  {
  }

  /** Main result. Whoever looks after the subject is in the index gets its row: the loser of
      the race, and the winner whose commit report was lost. */
  lemma LookupFindsWinner(s: Store, c: nat)
    requires Inv(s) && c in s.callers && s.callers[c].phase.ReadingIndex? && s.callers[c].user.subject in s.index
    ensures var s' := Exec(s, [ReadIndex(c, false), ReadShard(c, false)]);
            Succeeded(s', c, s.callers[c].user.subject) && !s'.callers[c].phase.outcome.created
  {
    var s1 := Step(s, ReadIndex(c, false));
    StepKeepsInv(s, ReadIndex(c, false));
    assert [ReadIndex(c, false), ReadShard(c, false)][1..] == [ReadShard(c, false)];
    Runs.One(Step, s1, ReadShard(c, false));
    assert CallerOk(s1, c);
  }

  // ----- lookup by ID

  predicate HitsID(s: Store, id: int, hit: Option<string>) {
    match hit
    case Some(k) => k in s.index && s.index[k].userID == id
    case None => forall k :: k in s.index ==> s.index[k].userID != id
  }

  /** Looking up by ID goes through the index, yet finds exactly the row that the ID routes to. */
  lemma ByIDFindsTheRoutedRow(s: Store, id: int, hit: Option<string>)
    requires Agree(s) && HitsID(s, id, hit)
    ensures hit.Some? <==> id > 0 && id in s.shards[id % TABLE_COUNT]
    ensures hit.Some? ==> s.index[hit.value] == Entry(id, id % TABLE_COUNT)
                          && s.shards[id % TABLE_COUNT][id].subject == hit.value
  {
    if id > 0 && id in s.shards[id % TABLE_COUNT] {
      var k := s.shards[id % TABLE_COUNT][id].subject;
      assert s.index[k] == Entry(id, id % TABLE_COUNT);
    }
  }

  // ----- one caller among others

  ghost predicate Spares(actions: seq<Action>, c: nat) {
    forall i :: 0 <= i < |actions| ==> actions[i].caller != c
  }

  lemma {:induction false} OthersKeepCaller(s: Store, actions: seq<Action>, c: nat)
    requires Spares(actions, c)
    ensures (c in Exec(s, actions).callers) == (c in s.callers)
    ensures c in s.callers ==> Exec(s, actions).callers[c] == s.callers[c]
    decreases |actions|
  {
    if actions != [] {
      OthersKeepCaller(Step(s, actions[0]), actions[1..], c);
    }
  }

  /** Others run, then `c` makes one call. */
  lemma OthersThen(s: Store, others: seq<Action>, c: nat, a: Action)
    requires Inv(s) && Spares(others, c)
    ensures var mid := Exec(s, others);
            && Exec(s, others + [a]) == Step(mid, a)
            && Inv(mid) && Inv(Step(mid, a))
            && |mid.shards| == TABLE_COUNT
            && (c in mid.callers) == (c in s.callers)
            && (c in s.callers ==> mid.callers[c] == s.callers[c])
  {
    Runs.Snoc(Step, s, others, a);
    ExecKeepsInv(s, others);
    StepKeepsInv(Exec(s, others), a);
    OthersKeepCaller(s, others, c);
  }
}
