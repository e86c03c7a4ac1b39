/** What racing binders of one subject get: the loser path returns the winner's administrator,
    except to a request that looks for the name after the winner has bound it. */
module AdminBindingProgress {
  import opened Common
  import Runs
  import opened AdminBinding

  // ----- names

  ghost predicate UniqueNames(s: State) {
    forall i, j :: i in s.admins && j in s.admins && s.admins[i].username == s.admins[j].username ==> i == j
  }

  lemma StepKeepsNames(s: State, a: Action)
    requires UniqueNames(s)
    ensures UniqueNames(Step(s, a))
  {
    if a.Bind? && a.caller in s.callers && s.callers[a.caller].phase.Binding? {
      var id := s.callers[a.caller].phase.id;
      assert forall i :: i in Step(s, a).admins ==> i in s.admins && Step(s, a).admins[i].username == s.admins[i].username;
    }
  }

  lemma {:induction false} ExecKeepsNames(s: State, actions: seq<Action>)
    requires UniqueNames(s)
    ensures UniqueNames(Exec(s, actions))
    decreases |actions|
  {
    if actions != [] {
      StepKeepsNames(s, actions[0]);
      ExecKeepsNames(Step(s, actions[0]), actions[1..]);
    }
  }

  // ----- one request among racers

  /** The administrator with the request's username, which no other subject owns and no other
      administrator's subject is. */
  datatype Goal = Goal(id: nat, subject: string, username: string)

  ghost predicate Open(s: State, g: Goal) {
    && g.id != 0 && g.subject != "" && g.username != ""
    && g.id in s.admins && !s.admins[g.id].deleted && s.admins[g.id].username == g.username
    && (s.admins[g.id].subject.None? || s.admins[g.id].subject == Some(g.subject))
    && forall j :: j in s.admins && HasSubject(s.admins[j], g.subject) ==> j == g.id
  }

  /** An action that takes the goal away from everybody, or a failing call of `c` itself. */
  ghost predicate Disturbs(s: State, a: Action, c: nat, g: Goal) {
    match a
    case UpdateAdmin(id, _, _) => id == g.id
    case DeleteAdmin(id) => id == g.id
    case CreateAdmin(_, admin) => admin.subject == Some(g.subject)
    case QuerySubject(d, _, fails) => d == c && fails
    case QueryName(d, _, fails) => d == c && fails
    case Recheck(d, _, fails) => d == c && fails
    case Bind(d, commit) =>
      || (d == c && commit.Aborted?)
      || (d in s.callers && s.callers[d].phase.Binding?
          && (s.callers[d].subject == g.subject) != (s.callers[d].phase.id == g.id))
    case Call(_, _, _) => false
  }

  ghost predicate Undisturbed(s: State, actions: seq<Action>, c: nat, g: Goal)
    decreases |actions|
  {
    actions == [] || (!Disturbs(s, actions[0], c, g) && Undisturbed(Step(s, actions[0]), actions[1..], c, g))
  }

  /** `c` did not find its subject, and looks for the name only after another request has bound
      the subject to it. */
  ghost predicate TooLate(s: State, a: Action, c: nat, g: Goal) {
    && a == QueryName(c, Some(g.id), false)
    && c in s.callers && s.callers[c].phase == FindingName
    && g.id in s.admins && s.admins[g.id].subject == Some(g.subject)
  }

  ghost predicate EverTooLate(s: State, actions: seq<Action>, c: nat, g: Goal)
    decreases |actions|
  {
    actions != [] && (TooLate(s, actions[0], c, g) || EverTooLate(Step(s, actions[0]), actions[1..], c, g))
  }

  /** Where `c` can stand as long as it was not too late. */
  ghost predicate OnTrack(s: State, c: nat, g: Goal)
    requires c in s.callers && g.id in s.admins
  {
    && s.callers[c].subject == g.subject && s.callers[c].username == g.username
    && match s.callers[c].phase
       case Binding(id, _) => id == g.id
       case Rechecking => s.admins[g.id].subject == Some(g.subject)
       case Done(o) => o.Found? && o.id == g.id
       case _ => true
  }

  lemma StepKeepsOpen(s: State, a: Action, c: nat, g: Goal)
    requires Inv(s) && Open(s, g) && !Disturbs(s, a, c, g)
    ensures Open(Step(s, a), g)
    ensures s.admins[g.id].subject == Some(g.subject) ==> Step(s, a).admins[g.id].subject == Some(g.subject)
  {
  }

  /** Other requests do not move `c`. */
  lemma OthersKeepTrack(s: State, a: Action, c: nat, g: Goal)
    requires Inv(s) && Open(s, g) && !Disturbs(s, a, c, g) && c in s.callers && OnTrack(s, c, g)
    requires Administrative(a) || a.caller != c
    ensures c in Step(s, a).callers && OnTrack(Step(s, a), c, g)
  {
    StepKeepsOpen(s, a, c, g);
  }

  lemma OwnStepKeepsTrack(s: State, a: Action, c: nat, g: Goal)
    requires UniqueNames(s) && Open(s, g) && !Disturbs(s, a, c, g) && c in s.callers && OnTrack(s, c, g)
    requires !Administrative(a) && a.caller == c && !TooLate(s, a, c, g)
    ensures c in Step(s, a).callers && g.id in Step(s, a).admins && OnTrack(Step(s, a), c, g)
  {
  }

  lemma TooLateIsRefused(s: State, a: Action, c: nat, g: Goal)
    requires Open(s, g) && c in s.callers && OnTrack(s, c, g) && TooLate(s, a, c, g)
    ensures c in Step(s, a).callers && Step(s, a).callers[c].phase == Done(Refused)
  {
  }

  /** A finished request for the goal was given it if and only if it was not too late. */
  ghost predicate Judged(w: Caller, g: Goal, late: bool) {
    w.subject == g.subject && w.username == g.username && w.phase.Done? ==>
      && (w.phase.outcome.Found? <==> !late)
      && (w.phase.outcome.Found? ==> w.phase.outcome.id == g.id)
  }

  lemma StepKeepsTrack(s: State, a: Action, c: nat, g: Goal)
    requires Inv(s) && UniqueNames(s) && Open(s, g) && !Disturbs(s, a, c, g) && !TooLate(s, a, c, g)
    requires c in s.callers && OnTrack(s, c, g)
    ensures c in Step(s, a).callers && g.id in Step(s, a).admins && OnTrack(Step(s, a), c, g)
  {
    StepKeepsOpen(s, a, c, g);
    if Administrative(a) || a.caller != c {
      OthersKeepTrack(s, a, c, g);
    } else {
      OwnStepKeepsTrack(s, a, c, g);
    }
  }

  /** `c` has not begun or is on track: it ends as found unless it comes too late. */
  lemma {:induction false} Verdict(s: State, actions: seq<Action>, c: nat, g: Goal)
    requires Inv(s) && UniqueNames(s) && Open(s, g) && Undisturbed(s, actions, c, g)
    requires c in s.callers ==> OnTrack(s, c, g)
    ensures var t := Exec(s, actions);
            c in t.callers ==> Judged(t.callers[c], g, EverTooLate(s, actions, c, g))
    decreases |actions|
  {
    if actions != [] {
      var a, rest := actions[0], actions[1..];
      var s' := Step(s, a);
      StepKeepsInv(s, a);
      StepKeepsNames(s, a);
      StepKeepsOpen(s, a, c, g);
      if TooLate(s, a, c, g) {
        TooLateIsRefused(s, a, c, g);
        RefusedStays(s', rest, c);
      } else if c in s.callers {
        StepKeepsTrack(s, a, c, g);
        Verdict(s', rest, c, g);
      } else if c in s'.callers && !OnTrack(s', c, g) {
        StrangerStarts(s, a, c, g);
        IdentityStays(s', rest, c);
      } else {
        Verdict(s', rest, c, g);
      }
    }
  }

  lemma StrangerStarts(s: State, a: Action, c: nat, g: Goal)
    requires c !in s.callers && c in Step(s, a).callers && g.id in Step(s, a).admins && !OnTrack(Step(s, a), c, g)
    ensures Step(s, a).callers[c].subject != g.subject || Step(s, a).callers[c].username != g.username
  {
  }

  lemma RefusedStays(s: State, actions: seq<Action>, c: nat)
    requires Inv(s) && c in s.callers && s.callers[c].phase == Done(Refused)
    ensures c in Exec(s, actions).callers && Exec(s, actions).callers[c].phase == Done(Refused)
  {
    ExecKeepsInv(s, actions);
  }

  lemma {:induction false} IdentityStays(s: State, actions: seq<Action>, c: nat)
    requires c in s.callers
    ensures var t := Exec(s, actions);
            c in t.callers && t.callers[c].subject == s.callers[c].subject && t.callers[c].username == s.callers[c].username
    decreases |actions|
  {
    if actions != [] {
      IdentityStays(Step(s, actions[0]), actions[1..], c);
    }
  }

  /** Main result. From every reachable state in which an administrator of the request's name is
      free or already its own, over every undisturbed interleaving with any number of other
      requests for the same subject: a finished request was given that administrator if and only
      if it did not come too late. */
  lemma RacersAreFoundUnlessTooLate(before: seq<Action>, actions: seq<Action>, c: nat, g: Goal)
    requires Open(Exec(EMPTY, before), g) && c !in Exec(EMPTY, before).callers
    requires Undisturbed(Exec(EMPTY, before), actions, c, g)
    ensures var s := Exec(EMPTY, before);
            var t := Exec(s, actions);
            c in t.callers ==> Judged(t.callers[c], g, EverTooLate(s, actions, c, g))
  {
    ExecKeepsInv(EMPTY, before);
    ExecKeepsNames(EMPTY, before);
    Verdict(Exec(EMPTY, before), actions, c, g);
  }

  /** `c` has not come, or is on its first lookup, or was given the goal there. */
  ghost predicate FoundAtOnce(s: State, c: nat, g: Goal) {
    c in s.callers && s.callers[c].subject == g.subject ==>
      match s.callers[c].phase
      case FindingSubject => true
      case Done(o) => o.Found? && o.id == g.id
      case _ => false
  }

  lemma StepKeepsFoundAtOnce(s: State, a: Action, c: nat, g: Goal)
    requires Inv(s) && Open(s, g) && s.admins[g.id].subject == Some(g.subject) && !Disturbs(s, a, c, g)
    requires FoundAtOnce(s, c, g)
    ensures FoundAtOnce(Step(s, a), c, g)
  {
  }

  /** Main result. Over every undisturbed run a request whose subject is bound already is given its
      administrator by its first lookup; the name is not looked at. */
  lemma {:induction false} BoundSubjectsAreFoundAtOnce(s: State, actions: seq<Action>, c: nat, g: Goal)
    requires Inv(s) && Open(s, g) && s.admins[g.id].subject == Some(g.subject) && Undisturbed(s, actions, c, g)
    requires FoundAtOnce(s, c, g)
    ensures FoundAtOnce(Exec(s, actions), c, g)
    decreases |actions|
  {
    if actions != [] {
      StepKeepsInv(s, actions[0]);
      StepKeepsOpen(s, actions[0], c, g);
      StepKeepsFoundAtOnce(s, actions[0], c, g);
      BoundSubjectsAreFoundAtOnce(Step(s, actions[0]), actions[1..], c, g);
    }
  }

  const FREE := Admin("root", None, "", false)
  const FREE_ONLY := State(map[1 := FREE], map[])
  const BOTH_LOOKED :=
    State(map[1 := FREE], map[0 := Caller("x", "root", FindingName), 1 := Caller("x", "root", FindingName)])

  lemma BothLook()
    ensures Exec(EMPTY, [CreateAdmin(1, FREE)]) == FREE_ONLY
    ensures Exec(FREE_ONLY, [Call(0, "x", "root"), QuerySubject(0, None, false), Call(1, "x", "root"),
                             QuerySubject(1, None, false)]) == BOTH_LOOKED
  {
    Runs.One(Step, EMPTY, CreateAdmin(1, FREE));
    Runs.Four(Step, FREE_ONLY, Call(0, "x", "root"), QuerySubject(0, None, false), Call(1, "x", "root"),
              QuerySubject(1, None, false));
    var s1 := Step(FREE_ONLY, Call(0, "x", "root"));
    var s2 := Step(s1, QuerySubject(0, None, false));
    assert s2 == State(map[1 := FREE], map[0 := Caller("x", "root", FindingName)]);
    var s3 := Step(s2, Call(1, "x", "root"));
    assert Step(s3, QuerySubject(1, None, false)) == BOTH_LOOKED;
  }

  /** Two requests of one person: the first one looks for the name after the second has bound it
      to their subject, and is refused. */
  lemma LateRacerIsRefused()
    ensures var t := Exec(BOTH_LOOKED, [QueryName(1, Some(1), false), Bind(1, Reported), QueryName(0, Some(1), false)]);
            && 1 in t.admins && t.admins[1].subject == Some("x")
            && 1 in t.callers && t.callers[1].phase.Done? && t.callers[1].phase.outcome.Found?
            && 0 in t.callers && t.callers[0] == Caller("x", "root", Done(Refused))
  {
    Runs.Three(Step, BOTH_LOOKED, QueryName(1, Some(1), false), Bind(1, Reported), QueryName(0, Some(1), false));
    var s1 := Step(BOTH_LOOKED, QueryName(1, Some(1), false));
    assert s1 == Move(BOTH_LOOKED, 1, Binding(1, FREE));
    var s2 := Step(s1, Bind(1, Reported));
    assert s2.admins == map[1 := FREE.(subject := Some("x"))] && s2.callers[0].phase == FindingName;
    assert Step(s2, QueryName(0, Some(1), false)) == Move(s2, 0, Done(Refused));
  }
}
