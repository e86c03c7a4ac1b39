/** The administrator repository and the binding request as the program runs them, with other
    requests and administration running between its database calls. */
module AdminBindingProgram {
  import opened Common
  import Runs
  import opened AdminBinding

  datatype DbError = RecordNotFound | Broken

  class AdminTable {
    var admins: map<nat, Admin>

    // where the callers stand
    var callers: map<nat, Caller>

    function Now(): State
      reads this
    {
      State(admins, callers)
    }

    constructor ()
      ensures Now() == EMPTY
    {
      admins, callers := map[], map[];
    }

    method Others(actions: seq<Action>)
      modifies this
      ensures Now() == Exec(old(Now()), actions)
    {
      for i := 0 to |actions|
        invariant Now() == Exec(old(Now()), actions[..i])
      {
        assert actions[..i + 1] == actions[..i] + [actions[i]];
        Runs.Snoc(Step, old(Now()), actions[..i], actions[i]);
        var s := Step(Now(), actions[i]);
        admins, callers := s.admins, s.callers;
      }
      assert actions[..|actions|] == actions;
    }

    method Stand(c: nat, phase: Phase)
      requires c in callers
      modifies this`callers
      ensures Now() == Move(old(Now()), c, phase)
    {
      callers := callers[c := callers[c].(phase := phase)];
    }

    method FirstBySubject(subject: string) returns (hit: Option<nat>)
      ensures HitsSubject(Now(), subject, hit)
    {
      if id :| id in admins && !admins[id].deleted && HasSubject(admins[id], subject) {
        return Some(id);
      }
      return None;
    }

    method FirstByName(username: string) returns (hit: Option<nat>)
      ensures HitsName(Now(), username, hit)
    {
      if id :| id in admins && !admins[id].deleted && admins[id].username == username {
        return Some(id);
      }
      return None;
    }

    /** UPDATE ... SET keycloak_subject WHERE id = ? AND keycloak_subject IS NULL: a unique-key
        violation is an error, and otherwise the number of affected rows is reported. */
    method UpdateSubject(id: nat, subject: string) returns (r: Result<nat, DbError>)
      modifies this`admins
      ensures r.Err? ==> admins == old(admins) && exists j :: j in admins && HasSubject(admins[j], subject)
      ensures r == Ok(0) ==> admins == old(admins) && (id !in admins || admins[id].deleted || admins[id].subject.Some?)
      ensures r.Ok? && r.value != 0 ==>
                r.value == 1 && id in old(admins) && !old(admins)[id].deleted && old(admins)[id].subject.None?
                && (forall j :: j in old(admins) ==> !HasSubject(old(admins)[j], subject))
                && admins == old(admins)[id := old(admins)[id].(subject := Some(subject))]
    {
      if id !in admins || admins[id].deleted || admins[id].subject.Some? {
        return Ok(0);
      }
      if j :| j in admins && HasSubject(admins[j], subject) {
        return Err(Broken);
      }
      admins := admins[id := admins[id].(subject := Some(subject))];
      return Ok(1);
    }
  }

  /** What happens around the four database calls of one request. */
  datatype Weather = Weather(
    before: seq<Action>, subjectFails: bool,
    beforeName: seq<Action>, nameFails: bool,
    beforeBind: seq<Action>, commit: Commit,
    beforeRecheck: seq<Action>, recheckFails: bool)

  /** The own actions of `c` in a trace fail exactly where they are made to. */
  ghost predicate Honest(actions: seq<Action>, c: nat, w: Weather) {
    forall i :: 0 <= i < |actions| && !Administrative(actions[i]) && actions[i].caller == c ==>
      match actions[i]
      case QuerySubject(_, _, fails) => fails == w.subjectFails
      case QueryName(_, _, fails) => fails == w.nameFails
      case Bind(_, commit) => commit == w.commit
      case Recheck(_, _, fails) => fails == w.recheckFails
      case _ => true
  }

  lemma HonestConcat(xs: seq<Action>, ys: seq<Action>, c: nat, w: Weather)
    requires Honest(xs, c, w) && Honest(ys, c, w)
    ensures Honest(xs + ys, c, w)
  {
  }

  lemma SparesIsHonest(others: seq<Action>, a: Action, c: nat, w: Weather)
    requires Spares(others, c) && Honest([a], c, w)
    ensures Honest(others + [a], c, w)
  {
    assert Honest(others, c, w);
    HonestConcat(others, [a], c, w);
  }

  class GetAdminInfoService {
    const table: AdminTable

    constructor (table: AdminTable)
      ensures this.table == table
    {
      this.table := table;
    }

    method FindByKeycloakSubject(c: nat, subject: string, others: seq<Action>, fails: bool, again: bool, ghost w: Weather)
      returns (r: Result<(nat, Admin), DbError>, ghost trace: seq<Action>)
      requires Spares(others, c) && c in table.callers && table.callers[c].subject == subject
      requires table.callers[c].phase == if again then Rechecking else FindingSubject
      requires again ==> subject != ""
      requires fails == if again then w.recheckFails else w.subjectFails
      modifies table
      ensures table.Now() == Exec(old(table.Now()), trace)
      ensures c in table.callers
      ensures table.callers[c] == old(table.Now()).callers[c].(phase :=
                match r
                case Ok((id, admin)) => Done(Found(id, admin))
                case Err(RecordNotFound) => if again then Done(Refused) else FindingName
                case Err(Broken) => Done(Refused))
      ensures r == Err(RecordNotFound) ==> subject != "" && HitsSubject(table.Now(), subject, None)
      ensures r == Err(Broken) <==> fails || subject == ""
      ensures r.Ok? ==> r.value.0 in table.admins && table.admins[r.value.0] == r.value.1
                        && HitsSubject(table.Now(), subject, Some(r.value.0))
      ensures Honest(trace, c, w)
    {
      ghost var s0 := table.Now();
      table.Others(others);
      var hit := table.FirstBySubject(subject);
      ghost var a := if again then Recheck(c, hit, fails) else QuerySubject(c, hit, fails);
      OthersThen(s0, others, c, a);
      trace := others + [a];
      SparesIsHonest(others, a, c, w);
      if fails || subject == "" {
        table.Stand(c, Done(Refused));
        return Err(Broken), trace;
      }
      if hit.None? {
        table.Stand(c, if again then Done(Refused) else FindingName);
        return Err(RecordNotFound), trace;
      }
      r := Ok((hit.value, table.admins[hit.value]));
      table.Stand(c, Done(Found(hit.value, table.admins[hit.value])));
    }

    method FindByUsername(c: nat, username: string, others: seq<Action>, fails: bool, ghost w: Weather)
      returns (r: Result<(nat, Admin), DbError>, ghost trace: seq<Action>)
      requires Spares(others, c) && c in table.callers && table.callers[c].username == username
      requires table.callers[c].phase == FindingName && fails == w.nameFails
      modifies table
      ensures table.Now() == Exec(old(table.Now()), trace)
      ensures c in table.callers
      ensures table.callers[c] == old(table.Now()).callers[c].(phase :=
                match r
                case Ok((id, admin)) => if admin.subject.Some? then Done(Refused) else Binding(id, admin)
                case Err(_) => Done(Refused))
      ensures r == Err(RecordNotFound) ==> HitsName(table.Now(), username, None)
      ensures r == Err(Broken) <==> fails || username == ""
      ensures r.Ok? ==> r.value.0 in table.admins && table.admins[r.value.0] == r.value.1
                        && HitsName(table.Now(), username, Some(r.value.0))
      ensures Honest(trace, c, w)
    {
      ghost var s0 := table.Now();
      table.Others(others);
      var hit := table.FirstByName(username);
      OthersThen(s0, others, c, QueryName(c, hit, fails));
      trace := others + [QueryName(c, hit, fails)];
      SparesIsHonest(others, QueryName(c, hit, fails), c, w);
      if fails || username == "" {
        table.Stand(c, Done(Refused));
        return Err(Broken), trace;
      }
      if hit.None? {
        table.Stand(c, Done(Refused));
        return Err(RecordNotFound), trace;
      }
      var admin := table.admins[hit.value];
      r := Ok((hit.value, admin));
      table.Stand(c, if admin.subject.Some? then Done(Refused) else Binding(hit.value, admin));
    }

    method BindKeycloakSubject(c: nat, id: nat, subject: string, others: seq<Action>, commit: Commit, ghost w: Weather)
      returns (bound: bool, ghost trace: seq<Action>)
      requires Spares(others, c) && c in table.callers && table.callers[c].subject == subject
      requires table.callers[c].phase.Binding? && table.callers[c].phase.id == id && commit == w.commit
      modifies table
      ensures table.Now() == Exec(old(table.Now()), trace)
      ensures c in table.callers
      ensures table.callers[c] == old(table.Now()).callers[c].(phase :=
                if bound then Done(Found(id, old(table.Now()).callers[c].phase.read.(subject := Some(subject)))) else Rechecking)
      ensures bound <==> commit.Reported? && ConditionalBind(Exec(old(table.Now()), others), id, subject).Some?
      ensures Honest(trace, c, w)
    {
      OthersThen(table.Now(), others, c, Bind(c, commit));
      trace := others + [Bind(c, commit)];
      SparesIsHonest(others, Bind(c, commit), c, w);
      table.Others(others);
      bound := false;
      if id != 0 && subject != "" && !commit.Aborted? {
        var rows := table.UpdateSubject(id, subject);
        bound := rows == Ok(1) && commit.Reported?;
      }
      var admin := table.callers[c].phase.read.(subject := Some(subject));
      table.Stand(c, if bound then Done(Found(id, admin)) else Rechecking);
    }

    /** Whatever the others do between its calls, the request takes only steps of the step system,
        its own calls fail exactly where they are made to, and it returns the outcome recorded there. */
    method FindAndBindAdmin(c: nat, subject: string, username: string, w: Weather)
      returns (r: Outcome, ghost trace: seq<Action>)
      requires c !in table.callers
      requires Spares(w.before, c) && Spares(w.beforeName, c) && Spares(w.beforeBind, c) && Spares(w.beforeRecheck, c)
      modifies table
      ensures table.Now() == Exec(old(table.Now()), trace) && Honest(trace, c, w)
      ensures c in table.callers && table.callers[c] == Caller(subject, username, Done(r))
    {
      ghost var s0 := table.Now();
      table.callers := table.callers[c := Caller(subject, username, FindingSubject)];
      ghost var t;
      trace := [Call(c, subject, username)];
      Runs.One(Step, s0, trace[0]);
      var admin;
      admin, t := FindByKeycloakSubject(c, subject, w.before, w.subjectFails, false, w);
      Runs.Concat(Step, s0, trace, t);
      HonestConcat(trace, t, c, w);
      trace := trace + t;
      if admin.Ok? {
        return Found(admin.value.0, admin.value.1), trace;
      }
      if admin.error != RecordNotFound {
        return Refused, trace;
      }
      r, t := BindByName(c, subject, username, w);
      Runs.Concat(Step, s0, trace, t);
      HonestConcat(trace, t, c, w);
      trace := trace + t;
    }

    /** The migration of an administrator found by name. */
    method BindByName(c: nat, subject: string, username: string, w: Weather) returns (r: Outcome, ghost trace: seq<Action>)
      requires c in table.callers && table.callers[c] == Caller(subject, username, FindingName) && subject != ""
      requires Spares(w.beforeName, c) && Spares(w.beforeBind, c) && Spares(w.beforeRecheck, c)
      modifies table
      ensures table.Now() == Exec(old(table.Now()), trace) && Honest(trace, c, w)
      ensures c in table.callers && table.callers[c] == Caller(subject, username, Done(r))
    {
      ghost var s0 := table.Now();
      ghost var t;
      var admin;
      admin, trace := FindByUsername(c, username, w.beforeName, w.nameFails, w);
      if admin.Err? || admin.value.1.subject.Some? {
        return Refused, trace;
      }
      var id, read := admin.value.0, admin.value.1;
      var bound;
      bound, t := BindKeycloakSubject(c, id, subject, w.beforeBind, w.commit, w);
      Runs.Concat(Step, s0, trace, t);
      HonestConcat(trace, t, c, w);
      trace := trace + t;
      if bound {
        return Found(id, read.(subject := Some(subject))), trace;
      }
      admin, t := FindByKeycloakSubject(c, subject, w.beforeRecheck, w.recheckFails, true, w);
      Runs.Concat(Step, s0, trace, t);
      HonestConcat(trace, t, c, w);
      trace := trace + t;
      return if admin.Ok? then Found(admin.value.0, admin.value.1) else Refused, trace;
    }
  }
}
