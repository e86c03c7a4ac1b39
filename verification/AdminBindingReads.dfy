/** What a binding request hands out is a row it read, over every run. */
module AdminBindingReads {
  import opened Common
  import Runs
  import opened AdminBinding

  /** After the first n actions row `id` was `admin`, up to its subject. */
  ghost predicate RowAt(actions: seq<Action>, n: nat, id: nat, admin: Admin) {
    && n <= |actions|
    && var s := Exec(EMPTY, actions[..n]);
       id in s.admins && s.admins[id].(subject := admin.subject) == admin
  }

  ghost predicate WasRow(actions: seq<Action>, id: nat, admin: Admin) {
    exists n: nat :: RowAt(actions, n, id, admin)
  }

  /** What a caller holds or was given it has read. */
  ghost predicate HasRead(actions: seq<Action>, w: Caller) {
    match w.phase
    case Binding(id, read) => WasRow(actions, id, read)
    case Done(Found(id, admin)) => WasRow(actions, id, admin)
    case _ => true
  }

  lemma RowStaysRead(actions: seq<Action>, a: Action, w: Caller)
    requires HasRead(actions, w)
    ensures HasRead(actions + [a], w)
  {
    forall id, admin | WasRow(actions, id, admin) ensures WasRow(actions + [a], id, admin) {
      var n: nat :| RowAt(actions, n, id, admin);
      assert (actions + [a])[..n] == actions[..n];
      assert RowAt(actions + [a], n, id, admin);
    }
  }

  /** A query reads the row as it is now. */
  lemma RowIsNow(actions: seq<Action>, a: Action, id: nat)
    requires id in Exec(EMPTY, actions).admins
    ensures WasRow(actions + [a], id, Exec(EMPTY, actions).admins[id])
  {
    assert (actions + [a])[..|actions|] == actions;
    assert RowAt(actions + [a], |actions|, id, Exec(EMPTY, actions).admins[id]);
  }

  lemma SubjectDoesNotMatter(actions: seq<Action>, id: nat, admin: Admin, subject: Option<string>)
    requires WasRow(actions, id, admin)
    ensures WasRow(actions, id, admin.(subject := subject))
  {
    var n: nat :| RowAt(actions, n, id, admin);
    assert RowAt(actions, n, id, admin.(subject := subject));
  }

  lemma OwnStepReads(actions: seq<Action>, a: Action, c: nat)
    requires !Administrative(a) && a.caller == c
    requires var s := Exec(EMPTY, actions); c in s.callers ==> HasRead(actions, s.callers[c])
    ensures var s' := Step(Exec(EMPTY, actions), a); c in s'.callers ==> HasRead(actions + [a], s'.callers[c])
  {
    var s := Exec(EMPTY, actions);
    if c in s.callers {
      RowStaysRead(actions, a, s.callers[c]);
      if a.Bind? && s.callers[c].phase.Binding? {
        SubjectDoesNotMatter(actions + [a], s.callers[c].phase.id, s.callers[c].phase.read, Some(s.callers[c].subject));
      } else if (a.QuerySubject? || a.QueryName? || a.Recheck?) && a.hit.Some? && a.hit.value in s.admins {
        RowIsNow(actions, a, a.hit.value);
      }
    }
  }

  lemma OtherStepReads(actions: seq<Action>, a: Action, c: nat)
    requires Administrative(a) || a.caller != c
    requires var s := Exec(EMPTY, actions); c in s.callers ==> HasRead(actions, s.callers[c])
    ensures var s' := Step(Exec(EMPTY, actions), a); c in s'.callers ==> HasRead(actions + [a], s'.callers[c])
  {
    var s := Exec(EMPTY, actions);
    assert c in Step(s, a).callers ==> c in s.callers && Step(s, a).callers[c] == s.callers[c];
    if c in s.callers {
      RowStaysRead(actions, a, s.callers[c]);
    }
  }

  /** Main result. Over every run the administrator a request was given is, up to the subject, what
      that row was at some moment of the run. */
  lemma {:induction false} ReturnedRecordWasRead(actions: seq<Action>, c: nat)
    ensures var s := Exec(EMPTY, actions); c in s.callers ==> HasRead(actions, s.callers[c])
    decreases |actions|
  {
    if actions != [] {
      var init, a := actions[..|actions| - 1], actions[|actions| - 1];
      assert actions == init + [a];
      ReturnedRecordWasRead(init, c);
      Runs.Snoc(Step, EMPTY, init, a);
      if Administrative(a) || a.caller != c {
        OtherStepReads(init, a, c);
      } else {
        OwnStepReads(init, a, c);
      }
    }
  }
}
