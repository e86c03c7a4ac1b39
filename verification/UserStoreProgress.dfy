/** Progress of first-login creation: with distinct IDs nothing but a failing database call can
    make FindOrCreateBySubject fail. */
module UserStoreProgress {
  import opened Common
  import Runs
  import opened Sharding
  import opened UserStore
  import S = Snowflake
  import R = SnowflakeRuns

  /** Every indexed subject was inserted by a caller, with that caller's user. */
  ghost predicate Credited(s: Store) {
    forall k :: k in s.creators ==>
      s.creators[k] in s.callers && s.callers[s.creators[k]].user.subject == k && HasRow(s, s.callers[s.creators[k]].user)
  }

  ghost predicate KeepsCallers(s: Store, s': Store) {
    forall c :: c in s.callers ==> c in s'.callers && s'.callers[c].user == s.callers[c].user
  }

  lemma StepKeepsCallers(s: Store, a: Action)
    ensures KeepsCallers(s, Step(s, a))
  {
    if a.Transact? && a.caller in s.callers && s.callers[a.caller].phase == Creating {
      var inserted := Insert(s, s.callers[a.caller].user);
      assert inserted.Some? ==> inserted.value.callers == s.callers;
    }
  }

  lemma RowStays(s: Store, s': Store, user: User)
    requires Grows(s, s') && HasRow(s, user)
    ensures HasRow(s', user)
  {
    assert user.id in s.shards[user.id % TABLE_COUNT];
  }

  lemma CreditStays(s: Store, s': Store, k: string)
    requires Credited(s) && Grows(s, s') && KeepsCallers(s, s') && k in s.creators
    ensures k in s'.creators && s'.creators[k] in s'.callers
    ensures s'.callers[s'.creators[k]].user.subject == k && HasRow(s', s'.callers[s'.creators[k]].user)
  {
    RowStays(s, s', s.callers[s.creators[k]].user);
  }

  /** Only a creating transaction that goes through adds a subject, and credits its caller. */
  lemma NewCredit(s: Store, a: Action, k: string)
    requires Inv(s) && k in Step(s, a).creators && k !in s.creators
    ensures var s' := Step(s, a);
            s'.creators[k] in s'.callers && s'.callers[s'.creators[k]].user.subject == k
            && HasRow(s', s'.callers[s'.creators[k]].user)
  {
    InsertKeeps(s, s.callers[a.caller].user);
  }

  lemma StepKeepsCredited(s: Store, a: Action)
    requires Inv(s) && Credited(s)
    ensures Credited(Step(s, a))
  {
    var s' := Step(s, a);
    StepKeepsInv(s, a);
    StepKeepsCallers(s, a);
    forall k | k in s'.creators
      ensures s'.creators[k] in s'.callers && s'.callers[s'.creators[k]].user.subject == k
              && HasRow(s', s'.callers[s'.creators[k]].user)
    {
      if k in s.creators {
        CreditStays(s, s', k);
      } else {
        NewCredit(s, a, k);
      }
    }
  }

  /** Callers bring positive IDs, and no two the same: what NextID gives them. */
  ghost predicate DistinctIds(s: Store) {
    && (forall c :: c in s.callers ==> s.callers[c].user.id > 0)
    && (forall c, d :: c in s.callers && d in s.callers && c != d ==> s.callers[c].user.id != s.callers[d].user.id)
  }

  /** With distinct IDs the creating transaction fails of itself exactly when the subject has a
      user already, so a lost race always leaves a winner to find. */
  lemma OnlyTheSubjectConflicts(s: Store, c: nat)
    requires Inv(s) && Credited(s) && DistinctIds(s) && c in s.callers
    ensures Insert(s, s.callers[c].user).Some? <==> s.callers[c].user.subject !in s.index
  {
    var user := s.callers[c].user;
    InsertCondition(s, user);
    if user.id in s.shards[user.id % TABLE_COUNT] {
      var k := s.shards[user.id % TABLE_COUNT][user.id].subject;
      assert k in s.index && k in s.creators;
      assert s.creators[k] == c;
    }
  }

  // ----- where distinct IDs come from

  /** The call of NextID that gave a caller its ID: which instance, and which call on it. */
  datatype Draw = Draw(node: nat, call: nat)

  /** Instances with their clock readings, none of which makes IDs repeat. */
  ghost predicate ValidRuns(runs: map<nat, seq<S.Tick>>) {
    forall n: nat :: n in runs ==>
      n < S.NODE_LIMIT && R.Playable(S.Fresh(n), runs[n]) && (R.ClockNeverBack(runs[n]) || R.BelowCapacity(runs[n]))
  }

  ghost predicate Gave(runs: map<nat, seq<S.Tick>>, d: Draw, id: int)
    requires ValidRuns(runs)
  {
    d.node in runs && d.call < |runs[d.node]| && R.Results(S.Fresh(d.node), runs[d.node])[d.call] == Ok(id)
  }

  /** Main result. Callers that took their IDs from different calls of NextID, on any number of
      instances with different node IDs, have distinct IDs; the one ID that cannot be routed is
      zero. */
  lemma GeneratedIdsAreDistinct(s: Store, runs: map<nat, seq<S.Tick>>, draws: map<nat, Draw>)
    requires ValidRuns(runs)
    requires forall c :: c in s.callers ==> c in draws && Gave(runs, draws[c], s.callers[c].user.id)
    requires forall c, d :: c in s.callers && d in s.callers && c != d ==> draws[c] != draws[d]
    ensures DistinctIds(s) <==> forall c :: c in s.callers ==> s.callers[c].user.id != 0
  {
    forall c, d | c in s.callers && d in s.callers && c != d ensures s.callers[c].user.id != s.callers[d].user.id {
      var a, b := draws[c], draws[d];
      assert Gave(runs, a, s.callers[c].user.id) && Gave(runs, b, s.callers[d].user.id);
      if a.node == b.node {
        R.IdsStrictlyIncrease(a.node, runs[a.node]);
      } else {
        R.NodesNeverCollide(a.node, runs[a.node], b.node, runs[b.node]);
      }
    }
    forall c | c in s.callers ensures s.callers[c].user.id >= 0 {
      assert Gave(runs, draws[c], s.callers[c].user.id);
      R.ResultsCarryNode(S.Fresh(draws[c].node), runs[draws[c].node]);
    }
  }

  // ----- one undisturbed call

  /** What a call relies on while others run. */
  ghost predicate Sound(s: Store, c: nat, user: User) {
    Inv(s) && Credited(s) && c in s.callers && s.callers[c].user == user
  }

  /** Where an undisturbed call of `c` stands after each of its steps. */
  ghost predicate MayCreate(s: Store, c: nat, user: User)
    requires c in s.callers
  {
    s.callers[c].phase.Creating? || Succeeded(s, c, user.subject)
  }

  ghost predicate MayLookAgain(s: Store, c: nat, user: User)
    requires c in s.callers
  {
    (s.callers[c].phase == ReadingIndex(true) && user.subject in s.index) || Succeeded(s, c, user.subject)
  }

  lemma OthersKeepSound(s: Store, others: seq<Action>, c: nat, user: User, a: Action)
    requires Sound(s, c, user) && Spares(others, c)
    ensures var mid := Exec(s, others);
            && Sound(mid, c, user) && Sound(Step(mid, a), c, user) && Grows(s, mid)
            && mid.callers[c] == s.callers[c]
            && Exec(s, others + [a]) == Step(mid, a)
            && KeepsCallers(mid, Step(mid, a))
    decreases |others|
  {
    OthersThen(s, others, c, a);
    ExecKeepsInv(s, others);
    ExecKeepsCredited(s, others);
    var mid := Exec(s, others);
    StepKeepsCredited(mid, a);
    StepKeepsCallers(mid, a);
  }

  lemma {:induction false} ExecKeepsCredited(s: Store, actions: seq<Action>)
    requires Inv(s) && Credited(s)
    ensures Credited(Exec(s, actions)) && KeepsCallers(s, Exec(s, actions))
    decreases |actions|
  {
    if actions != [] {
      StepKeepsInv(s, actions[0]);
      StepKeepsCredited(s, actions[0]);
      StepKeepsCallers(s, actions[0]);
      ExecKeepsCredited(Step(s, actions[0]), actions[1..]);
    }
  }

  /** Others run, then `c` reads the shard that its index query named. */
  lemma ShardRead(s: Store, others: seq<Action>, c: nat, user: User)
    requires Sound(s, c, user) && Spares(others, c)
    ensures var t := Exec(s, others + [ReadShard(c, false)]);
            && Sound(t, c, user)
            && (s.callers[c].phase.ReadingShard? ==> Succeeded(t, c, user.subject))
            && (!s.callers[c].phase.ReadingShard? ==> t.callers[c] == s.callers[c])
  {
    OthersKeepSound(s, others, c, user, ReadShard(c, false));
    assert CallerOk(Exec(s, others), c);
  }

  /** Others run, then `c` reads the index. */
  lemma IndexRead(s: Store, others: seq<Action>, c: nat, user: User)
    requires Sound(s, c, user) && Spares(others, c)
    ensures var t := Exec(s, others + [ReadIndex(c, false)]);
            && Sound(t, c, user)
            && (s.callers[c].phase == ReadingIndex(false) ==> t.callers[c].phase.ReadingShard? || t.callers[c].phase.Creating?)
            && (s.callers[c].phase == ReadingIndex(true) && user.subject in s.index ==> t.callers[c].phase.ReadingShard?)
            && (!s.callers[c].phase.ReadingIndex? ==> t.callers[c] == s.callers[c])
  {
    OthersKeepSound(s, others, c, user, ReadIndex(c, false));
    IndexStep(Exec(s, others), c, user);
  }

  lemma IndexStep(s: Store, c: nat, user: User)
    requires Agree(s) && c in s.callers && s.callers[c].user == user
    ensures var t := Step(s, ReadIndex(c, false));
            && c in t.callers
            && (s.callers[c].phase == ReadingIndex(false) ==> t.callers[c].phase.ReadingShard? || t.callers[c].phase.Creating?)
            && (s.callers[c].phase == ReadingIndex(true) && user.subject in s.index ==> t.callers[c].phase.ReadingShard?)
            && (!s.callers[c].phase.ReadingIndex? ==> t.callers[c] == s.callers[c])
  {
  }

  /** Others run, then `c` tries to create its user. */
  lemma Transacted(s: Store, others: seq<Action>, c: nat, user: User, commit: Commit)
    requires Sound(s, c, user) && Spares(others, c) && MayCreate(s, c, user) && !commit.Aborted?
    requires DistinctIds(Exec(s, others + [Transact(c, commit)]))
    ensures var t := Exec(s, others + [Transact(c, commit)]);
            Sound(t, c, user) && MayLookAgain(t, c, user)
  {
    OthersKeepSound(s, others, c, user, Transact(c, commit));
    DistinctEarlier(Exec(s, others), Step(Exec(s, others), Transact(c, commit)));
    TransactStep(Exec(s, others), c, user, commit);
  }

  lemma DistinctEarlier(s: Store, s': Store)
    requires KeepsCallers(s, s') && DistinctIds(s')
    ensures DistinctIds(s)
  {
  }

  lemma TransactStep(s: Store, c: nat, user: User, commit: Commit)
    requires Sound(s, c, user) && MayCreate(s, c, user) && !commit.Aborted? && DistinctIds(s)
    ensures var s' := Step(s, Transact(c, commit)); c in s'.callers && MayLookAgain(s', c, user)
  {
    if s.callers[c].phase.Creating? {
      if Insert(s, user).Some? {
        CommitStep(s, c, user, commit);
      } else {
        LostStep(s, c, commit);
        OnlyTheSubjectConflicts(s, c);
        AgainAfterLoss(s, c);
      }
    } else {
      NothingToCreate(s, c, commit);
    }
  }

  lemma NothingToCreate(s: Store, c: nat, commit: Commit)
    requires c in s.callers && !s.callers[c].phase.Creating?
    ensures Step(s, Transact(c, commit)) == s
  {
  }

  lemma LostStep(s: Store, c: nat, commit: Commit)
    requires c in s.callers && s.callers[c].phase.Creating? && Insert(s, s.callers[c].user).None?
    ensures Step(s, Transact(c, commit)) == Move(s, c, ReadingIndex(true))
  {
  }

  lemma AgainAfterLoss(s: Store, c: nat)
    requires c in s.callers && s.callers[c].user.subject in s.index
    ensures MayLookAgain(Move(s, c, ReadingIndex(true)), c, s.callers[c].user)
  {
  }

  lemma CommitStep(s: Store, c: nat, user: User, commit: Commit)
    requires Inv(s) && c in s.callers && s.callers[c] == Caller(user, Creating)
    requires Insert(s, user).Some? && !commit.Aborted?
    ensures var s' := Step(s, Transact(c, commit)); c in s'.callers && MayLookAgain(s', c, user)
  {
    InsertKeeps(s, user);
  }

  /** The database calls of one undisturbed call; those that the call does not make are no-ops. */
  ghost function CallScript(c: nat, user: User, commit: Commit, o: seq<seq<Action>>): seq<seq<Action>>
    requires |o| == 5
  {
    [[Call(c, user)],
     o[0] + [ReadIndex(c, false)], o[1] + [ReadShard(c, false)],
     o[2] + [Transact(c, commit)],
     o[3] + [ReadIndex(c, false)], o[4] + [ReadShard(c, false)]]
  }

  ghost function ExecAll(s: Store, parts: seq<seq<Action>>): Store
    decreases |parts|
  {
    if parts == [] then s else ExecAll(Exec(s, parts[0]), parts[1..])
  }

  lemma {:induction false} ExecAllKeepsCallers(s: Store, parts: seq<seq<Action>>)
    requires Inv(s) && Credited(s)
    ensures KeepsCallers(s, ExecAll(s, parts))
    decreases |parts|
  {
    if parts != [] {
      ExecKeepsInv(s, parts[0]);
      ExecKeepsCredited(s, parts[0]);
      ExecAllKeepsCallers(Exec(s, parts[0]), parts[1..]);
    }
  }

  /** Main result. When IDs are distinct, a call whose own database calls all work succeeds, in
      whatever way other callers' steps, failures and lost reports fall between them, and even if
      the report of its own commit is lost. */
  lemma UndisturbedCallSucceeds(before: seq<Action>, c: nat, user: User, commit: Commit, o: seq<seq<Action>>)
    requires |o| == 5 && !commit.Aborted? && forall i :: 0 <= i < 5 ==> Spares(o[i], c)
    requires c !in Exec(EMPTY, before).callers
    requires DistinctIds(ExecAll(Exec(EMPTY, before), CallScript(c, user, commit, o)))
    ensures Succeeded(ExecAll(Exec(EMPTY, before), CallScript(c, user, commit, o)), c, user.subject)
  {
    EmptyInv();
    ExecKeepsInv(EMPTY, before);
    ExecKeepsCredited(EMPTY, before);
    var s, p := Exec(EMPTY, before), CallScript(c, user, commit, o);
    var s0 := Exec(s, p[0]);
    assert Exec(Step(s, Call(c, user)), p[0][1..]) == Step(s, Call(c, user));
    StepKeepsInv(s, Call(c, user));
    StepKeepsCredited(s, Call(c, user));
    IndexRead(s0, o[0], c, user);
    var s1 := Exec(s0, p[1]);
    ShardRead(s1, o[1], c, user);
    var s2 := Exec(s1, p[2]);
    var s3 := Exec(s2, p[3]);
    ScriptParts(s, p);
    FromTransaction(s2, p, s3, c, user, commit, o);
  }

  lemma ScriptParts(s: Store, p: seq<seq<Action>>)
    requires |p| == 6
    ensures ExecAll(s, p) == ExecAll(Exec(Exec(Exec(s, p[0]), p[1]), p[2]), p[3..])
    ensures forall t {:trigger ExecAll(t, p[3..])} :: ExecAll(t, p[3..]) == Exec(Exec(Exec(t, p[3]), p[4]), p[5])
  {
    assert p[1..][1..] == p[2..] && p[2..][1..] == p[3..];
    assert ExecAll(Exec(s, p[0]), p[1..]) == ExecAll(Exec(Exec(s, p[0]), p[1]), p[2..]);
    assert p[3..][1..] == p[4..] && p[4..][1..] == p[5..] && p[5..][1..] == [];
    forall t ensures ExecAll(t, p[3..]) == Exec(Exec(Exec(t, p[3]), p[4]), p[5]) {
      assert ExecAll(Exec(t, p[3]), p[4..]) == ExecAll(Exec(Exec(t, p[3]), p[4]), p[5..]);
      assert ExecAll(Exec(Exec(t, p[3]), p[4]), p[5..]) == ExecAll(Exec(Exec(Exec(t, p[3]), p[4]), p[5]), []);
    }
  }

  /** From the creating transaction on. */
  lemma FromTransaction(s: Store, p: seq<seq<Action>>, t: Store, c: nat, user: User, commit: Commit, o: seq<seq<Action>>)
    requires Sound(s, c, user) && MayCreate(s, c, user) && !commit.Aborted?
    requires |o| == 5 && (forall i :: 0 <= i < 5 ==> Spares(o[i], c)) && p == CallScript(c, user, commit, o)
    requires t == Exec(s, p[3]) && DistinctIds(Exec(Exec(t, p[4]), p[5]))
    ensures Succeeded(Exec(Exec(t, p[4]), p[5]), c, user.subject)
  {
    ExecKeepsInv(s, p[3]);
    ExecKeepsCredited(s, p[3]);
    ExecKeepsInv(t, p[4]);
    ExecKeepsCredited(t, p[4]);
    ExecKeepsCredited(Exec(t, p[4]), p[5]);
    Transacted(s, o[2], c, user, commit);
    IndexRead(t, o[3], c, user);
    ShardRead(Exec(t, p[4]), o[4], c, user);
  }
}
