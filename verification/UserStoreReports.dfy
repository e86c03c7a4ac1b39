/** What first-login creation tells its callers, over every run: who succeeds, who is told to have
    created the user, and who only reads. */
module UserStoreReports {
  import opened Common
  import Runs
  import opened Sharding
  import opened UserStore
  import opened UserStoreProgress

  // ----- success

  /** A database call of `c` fails: a query, or a transaction aborted while nobody has the subject. */
  ghost predicate Hinders(s: Store, a: Action, c: nat) {
    a.caller == c && c in s.callers &&
    match a
    case ReadIndex(_, fails) => fails
    case ReadShard(_, fails) => fails
    case Transact(_, commit) => commit.Aborted? && s.callers[c].user.subject !in s.index
    case Call(_, _) => false
  }

  ghost predicate Unhindered(s: Store, actions: seq<Action>, c: nat)
    decreases |actions|
  {
    actions == [] || (!Hinders(s, actions[0], c) && Unhindered(Step(s, actions[0]), actions[1..], c))
  }

  /** `c` has not failed, and looks again only for a subject that is there. */
  ghost predicate Hopeful(s: Store, c: nat) {
    c in s.callers ==>
      && s.callers[c].phase != Done(Failure)
      && (s.callers[c].phase == ReadingIndex(true) ==> s.callers[c].user.subject in s.index)
  }

  lemma ReadKeepsHope(s: Store, a: Action, c: nat)
    requires Inv(s) && Hopeful(s, c) && a.caller == c && !Hinders(s, a, c) && !a.Transact?
    ensures Hopeful(Step(s, a), c)
  {
    assert c in s.callers ==> CallerOk(s, c);
  }

  lemma TransactKeepsHope(s: Store, c: nat, commit: Commit)
    requires Inv(s) && Credited(s) && DistinctIds(s) && c in s.callers && s.callers[c].phase.Creating?
    requires commit.Aborted? ==> s.callers[c].user.subject in s.index
    ensures Hopeful(Step(s, Transact(c, commit)), c)
  {
    var user := s.callers[c].user;
    if commit.Aborted? {
      assert Step(s, Transact(c, commit)) == Move(s, c, ReadingIndex(true));
    } else if Insert(s, user).None? {
      LostStep(s, c, commit);
      OnlyTheSubjectConflicts(s, c);
    } else {
      CommitStep(s, c, user, commit);
    }
  }

  lemma OwnStepKeepsHope(s: Store, a: Action, c: nat)
    requires Inv(s) && Credited(s) && DistinctIds(s) && Hopeful(s, c) && a.caller == c && !Hinders(s, a, c)
    ensures Hopeful(Step(s, a), c)
  {
    if a.Transact? {
      if c in s.callers && s.callers[c].phase.Creating? {
        TransactKeepsHope(s, c, a.commit);
      } else {
        assert Step(s, a) == s;
      }
    } else {
      ReadKeepsHope(s, a, c);
    }
  }

  lemma OtherStepKeepsHope(s: Store, a: Action, c: nat)
    requires Inv(s) && Hopeful(s, c) && a.caller != c
    ensures Hopeful(Step(s, a), c)
  {
    StepKeepsInv(s, a);
    OthersKeepCaller(s, [a], c);
    Runs.One(Step, s, a);
  }

  lemma StepKeepsHope(s: Store, a: Action, c: nat)
    requires Inv(s) && Credited(s) && DistinctIds(s) && Hopeful(s, c) && !Hinders(s, a, c)
    ensures Hopeful(Step(s, a), c)
  {
    if a.caller == c {
      OwnStepKeepsHope(s, a, c);
    } else {
      OtherStepKeepsHope(s, a, c);
    }
  }

  /** Main result. With distinct IDs, over every run: a finished call none of whose own database calls
      failed has succeeded. A transaction aborted for any reason still counts as a success if
      somebody has created the subject by then. */
  lemma {:induction false} UnhinderedCallsSucceed(s: Store, actions: seq<Action>, c: nat)
    requires Inv(s) && Credited(s) && Hopeful(s, c) && Unhindered(s, actions, c)
    requires DistinctIds(Exec(s, actions))
    ensures var t := Exec(s, actions);
            c in t.callers && t.callers[c].phase.Done? ==> t.callers[c].phase.outcome.Success?
    decreases |actions|
  {
    if actions == [] {
      assert Hopeful(s, c);
    } else {
      var s' := Step(s, actions[0]);
      StepKeepsInv(s, actions[0]);
      StepKeepsCredited(s, actions[0]);
      ExecKeepsCredited(s, actions);
      DistinctEarlier(s, Exec(s, actions));
      StepKeepsHope(s, actions[0], c);
      UnhinderedCallsSucceed(s', actions[1..], c);
    }
  }

  /** The own actions of `c` in a trace: queries fail only if `broken`, and the commit is as given. */
  ghost predicate Honest(actions: seq<Action>, c: nat, broken: bool, commit: Commit) {
    forall i :: 0 <= i < |actions| && actions[i].caller == c ==>
      match actions[i]
      case ReadIndex(_, fails) => fails ==> broken
      case ReadShard(_, fails) => fails ==> broken
      case Transact(_, outcome) => outcome == commit
      case Call(_, _) => true
  }

  lemma HonestConcat(xs: seq<Action>, ys: seq<Action>, c: nat, broken: bool, commit: Commit)
    requires Honest(xs, c, broken, commit) && Honest(ys, c, broken, commit)
    ensures Honest(xs + ys, c, broken, commit)
  {
  }

  lemma SparesIsHonest(others: seq<Action>, a: Action, c: nat, broken: bool, commit: Commit)
    requires Spares(others, c) && Honest([a], c, broken, commit)
    ensures Honest(others + [a], c, broken, commit)
  {
    assert Honest(others, c, broken, commit);
    HonestConcat(others, [a], c, broken, commit);
  }

  lemma {:induction false} HonestIsUnhindered(s: Store, actions: seq<Action>, c: nat, commit: Commit)
    requires Honest(actions, c, false, commit) && !commit.Aborted?
    ensures Unhindered(s, actions, c)
    decreases |actions|
  {
    if actions != [] {
      HonestIsUnhindered(Step(s, actions[0]), actions[1..], c, commit);
    }
  }

  // ----- who is told to have created the user

  /** The creator of a subject is done, and knows. */
  ghost predicate Told(s: Store, c: nat) {
    forall k :: k in s.creators && s.creators[k] == c ==>
      c in s.callers && s.callers[c].phase == Done(Success(s.callers[c].user, true))
  }

  lemma CommitKeepsTold(s: Store, d: nat, commit: Commit, c: nat)
    requires Told(s, c) && Transact(d, commit) != Transact(c, Unreported) && !commit.Aborted?
    requires d in s.callers && s.callers[d].phase.Creating? && Insert(s, s.callers[d].user).Some?
    ensures Told(Step(s, Transact(d, commit)), c)
  {
    var inserted := Insert(s, s.callers[d].user).value;
    assert inserted.callers == s.callers && inserted.creators == s.creators;
  }

  lemma StepKeepsTold(s: Store, a: Action, c: nat)
    requires Told(s, c) && a != Transact(c, Unreported)
    ensures Told(Step(s, a), c)
  {
    if a.Transact? && !a.commit.Aborted? && a.caller in s.callers && s.callers[a.caller].phase.Creating?
       && Insert(s, s.callers[a.caller].user).Some? {
      CommitKeepsTold(s, a.caller, a.commit, c);
    }
  }

  /** Main result. Over every run a caller whose transaction inserted the user is told that it
      created it, unless the report of that very commit was lost. */
  lemma {:induction false} CreatorIsTold(s: Store, actions: seq<Action>, c: nat)
    requires Told(s, c) && Transact(c, Unreported) !in actions
    ensures Told(Exec(s, actions), c)
    decreases |actions|
  {
    if actions != [] {
      StepKeepsTold(s, actions[0], c);
      CreatorIsTold(Step(s, actions[0]), actions[1..], c);
    }
  }

  // ----- who only reads

  /** `c` has not come, or is on its first lookup, or done without having created anything. */
  ghost predicate OnlyReads(s: Store, c: nat, k: string) {
    c in s.callers && s.callers[c].user.subject == k ==>
      match s.callers[c].phase
      case ReadingIndex(again) => !again
      case ReadingShard(_, again) => !again
      case Creating => false
      case Done(o) => o.Success? ==> !o.created
  }

  lemma StepKeepsReading(s: Store, a: Action, c: nat, k: string)
    requires Inv(s) && k in s.index && OnlyReads(s, c, k)
    ensures OnlyReads(Step(s, a), c, k)
  {
    if a.caller == c {
      assert c in s.callers ==> CallerOk(s, c);
    } else {
      OthersKeepCaller(s, [a], c);
      Runs.One(Step, s, a);
    }
  }

  /** Main result. Over every run a call for a subject that already has a user never opens a
      transaction and never reports a creation. */
  lemma {:induction false} ExistingUsersAreOnlyRead(s: Store, actions: seq<Action>, c: nat, k: string)
    requires Inv(s) && k in s.index && OnlyReads(s, c, k)
    ensures OnlyReads(Exec(s, actions), c, k)
    decreases |actions|
  {
    if actions != [] {
      StepKeepsInv(s, actions[0]);
      StepKeepsReading(s, actions[0], c, k);
      ExistingUsersAreOnlyRead(Step(s, actions[0]), actions[1..], c, k);
    }
  }
}
