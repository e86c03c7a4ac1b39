/** One-time binding of Keycloak subjects to local administrators: an optimistic protocol of
    single database calls, interleaved with other binders and with administration. */
module AdminBinding {
  import opened Common
  import Runs

  /** A soft-deleted row stays in the table and in its unique indexes. */
  datatype Admin = Admin(username: string, subject: Option<string>, profile: string, deleted: bool)

  datatype Outcome = Found(id: nat, admin: Admin) | Refused

  datatype Phase =
    | FindingSubject
    | FindingName
    | Binding(id: nat, read: Admin)
    | Rechecking
    | Done(outcome: Outcome)

  datatype Caller = Caller(subject: string, username: string, phase: Phase)

  datatype State = State(admins: map<nat, Admin>, callers: map<nat, Caller>)

  const EMPTY := State(map[], map[])

  datatype Commit = Reported | Aborted | Unreported

  /** `hit` is the row a query returned, if any; an action whose `hit` is not what the query
      would return, or that does not apply, changes nothing. */
  datatype Action =
    | Call(caller: nat, subject: string, username: string)
    | QuerySubject(caller: nat, hit: Option<nat>, fails: bool)
    | QueryName(caller: nat, hit: Option<nat>, fails: bool)
    | Bind(caller: nat, commit: Commit)
    | Recheck(caller: nat, hit: Option<nat>, fails: bool)
    | CreateAdmin(id: nat, admin: Admin)
    | UpdateAdmin(id: nat, username: string, profile: string)
    | DeleteAdmin(id: nat)

  predicate HasSubject(a: Admin, subject: string) { a.subject == Some(subject) }

  predicate HitsSubject(s: State, subject: string, hit: Option<nat>) {
    match hit
    case Some(id) => id in s.admins && !s.admins[id].deleted && HasSubject(s.admins[id], subject)
    case None => forall id :: id in s.admins ==> s.admins[id].deleted || !HasSubject(s.admins[id], subject)
  }

  predicate HitsName(s: State, username: string, hit: Option<nat>) {
    match hit
    case Some(id) => id in s.admins && !s.admins[id].deleted && s.admins[id].username == username
    case None => forall id :: id in s.admins ==> s.admins[id].deleted || s.admins[id].username != username
  }

  /** UPDATE ... SET keycloak_subject WHERE id = ? AND keycloak_subject IS NULL, under the
      unique index on the subject. */
  function ConditionalBind(s: State, id: nat, subject: string): Option<State> {
    if id == 0 || subject == "" || id !in s.admins || s.admins[id].deleted || s.admins[id].subject.Some? then None
    else if exists j :: j in s.admins && HasSubject(s.admins[j], subject) then None
    else Some(s.(admins := s.admins[id := s.admins[id].(subject := Some(subject))]))
  }

  function Move(s: State, c: nat, phase: Phase): State
    requires c in s.callers
  {
    s.(callers := s.callers[c := s.callers[c].(phase := phase)])
  }

  function Step(s: State, a: Action): State {
    match a
    case Call(c, subject, username) =>
      if c in s.callers then s else s.(callers := s.callers[c := Caller(subject, username, FindingSubject)])
    case QuerySubject(c, hit, fails) =>
      if c !in s.callers || s.callers[c].phase != FindingSubject then s
      else if fails || s.callers[c].subject == "" then Move(s, c, Done(Refused))
      else if !HitsSubject(s, s.callers[c].subject, hit) then s
      else if hit.Some? then Move(s, c, Done(Found(hit.value, s.admins[hit.value])))
      else Move(s, c, FindingName)
    case QueryName(c, hit, fails) =>
      if c !in s.callers || s.callers[c].phase != FindingName then s
      else if fails || s.callers[c].username == "" then Move(s, c, Done(Refused))
      else if !HitsName(s, s.callers[c].username, hit) then s
      else if hit.None? || s.admins[hit.value].subject.Some? then Move(s, c, Done(Refused))
      else Move(s, c, Binding(hit.value, s.admins[hit.value]))
    case Bind(c, commit) =>
      if c !in s.callers || !s.callers[c].phase.Binding? then s
      else
        var Caller(subject, _, Binding(id, read)) := s.callers[c];
        var bound := ConditionalBind(s, id, subject);
        if commit.Aborted? || bound.None? then Move(s, c, Rechecking)
        else
          Move(bound.value, c,
               if commit.Reported? then Done(Found(id, read.(subject := Some(subject)))) else Rechecking)
    case Recheck(c, hit, fails) =>
      if c !in s.callers || s.callers[c].phase != Rechecking then s
      else if fails then Move(s, c, Done(Refused))
      else if !HitsSubject(s, s.callers[c].subject, hit) then s
      else if hit.Some? then Move(s, c, Done(Found(hit.value, s.admins[hit.value])))
      else Move(s, c, Done(Refused))
    case CreateAdmin(id, admin) =>
      if id in s.admins || (exists j :: j in s.admins && s.admins[j].username == admin.username) then s
      else if admin.subject.Some? && exists j :: j in s.admins && HasSubject(s.admins[j], admin.subject.value) then s
      else s.(admins := s.admins[id := admin])
    case UpdateAdmin(id, username, profile) =>
      if id == 0 || id !in s.admins || s.admins[id].deleted then s
      else if exists j :: j in s.admins && j != id && s.admins[j].username == username then s
      else s.(admins := s.admins[id := s.admins[id].(username := username, profile := profile)])
    case DeleteAdmin(id) =>
      if id == 0 || id !in s.admins then s
      else s.(admins := s.admins[id := s.admins[id].(deleted := true)])
  }

  function Exec(s: State, actions: seq<Action>): State {
    Runs.Exec(Step, s, actions)
  }

  // ----- invariants

  ghost predicate Injective(s: State) {
    forall i, j ::
      i in s.admins && j in s.admins && s.admins[i].subject.Some? && s.admins[i].subject == s.admins[j].subject
      ==> i == j
  }

  ghost predicate CallerOk(s: State, c: nat)
    requires c in s.callers
  {
    var Caller(subject, username, phase) := s.callers[c];
    match phase
    case Binding(id, read) =>
      id in s.admins && read.username == username && read.subject.None? && !read.deleted
    case Done(Found(id, admin)) =>
      admin.subject == Some(subject) && id in s.admins && s.admins[id].subject == Some(subject) && !admin.deleted
    case _ => true
  }

  ghost predicate Inv(s: State) {
    Injective(s) && forall c :: c in s.callers ==> CallerOk(s, c)
  }

  /** Rows stay, deleted ones deleted; a bound subject stays bound as it is and only an administrator
      that is not deleted gets one; and finished callers stay finished. */
  ghost predicate SetOnce(s: State, s': State) {
    && (forall id :: id in s.admins ==> id in s'.admins)
    && (forall id :: id in s.admins && s.admins[id].deleted ==> s'.admins[id].deleted)
    && (forall id :: id in s.admins && (s.admins[id].subject.Some? || s.admins[id].deleted) ==>
          s'.admins[id].subject == s.admins[id].subject)
    && (forall c :: c in s.callers ==> c in s'.callers && s'.callers[c].subject == s.callers[c].subject)
    && (forall c :: c in s.callers && s.callers[c].phase.Done? ==> s'.callers[c] == s.callers[c])
  }

  lemma MoveKeepsInv(s: State, c: nat, phase: Phase)
    requires Inv(s) && c in s.callers && !s.callers[c].phase.Done? && CallerOk(Move(s, c, phase), c)
    ensures Inv(Move(s, c, phase)) && SetOnce(s, Move(s, c, phase))
  {
    var s' := Move(s, c, phase);
    forall d | d in s'.callers ensures CallerOk(s', d) {
      assert d != c ==> CallerOk(s, d);
    }
  }

  /** Changes to rows that bind no second owner and unbind nobody. */
  lemma RowsKeepInv(s: State, s': State)
    requires Inv(s) && s'.callers == s.callers && Injective(s') && SetOnce(s, s')
    ensures Inv(s')
  {
    forall c | c in s'.callers ensures CallerOk(s', c) {
      assert CallerOk(s, c);
    }
  }

  lemma BindKeepsInv(s: State, c: nat, commit: Commit)
    requires Inv(s)
    ensures var s' := Step(s, Bind(c, commit)); Inv(s') && SetOnce(s, s')
  {
    if c in s.callers && s.callers[c].phase.Binding? {
      var Caller(subject, _, Binding(id, read)) := s.callers[c];
      var bound := ConditionalBind(s, id, subject);
      if commit.Aborted? || bound.None? {
        MoveKeepsInv(s, c, Rechecking);
      } else {
        RowsKeepInv(s, bound.value);
        MoveKeepsInv(bound.value, c,
                     if commit.Reported? then Done(Found(id, read.(subject := Some(subject)))) else Rechecking);
      }
    }
  }

  lemma QueryKeepsInv(s: State, a: Action)
    requires Inv(s) && (a.QuerySubject? || a.QueryName? || a.Recheck?)
    ensures Inv(Step(s, a)) && SetOnce(s, Step(s, a))
  {
    var s' := Step(s, a);
    if s' != s {
      var c := a.caller;
      assert s' == Move(s, c, s'.callers[c].phase);
      MoveKeepsInv(s, c, s'.callers[c].phase);
    }
  }

  lemma AdministrationKeepsInv(s: State, a: Action)
    requires Inv(s) && (a.CreateAdmin? || a.UpdateAdmin? || a.DeleteAdmin?)
    ensures Inv(Step(s, a)) && SetOnce(s, Step(s, a))
  {
    assert Injective(Step(s, a)) && SetOnce(s, Step(s, a));
    RowsKeepInv(s, Step(s, a));
  }

  lemma StepKeepsInv(s: State, a: Action)
    requires Inv(s)
    ensures Inv(Step(s, a)) && SetOnce(s, Step(s, a))
  {
    match a
    case Call(c, subject, username) =>
      if c !in s.callers {
        var s' := Step(s, a);
        forall d | d in s'.callers ensures CallerOk(s', d) {
          assert d in s.callers ==> CallerOk(s, d);
        }
      }
    case Bind(c, commit) => BindKeepsInv(s, c, commit);
    case QuerySubject(_, _, _) => QueryKeepsInv(s, a);
    case QueryName(_, _, _) => QueryKeepsInv(s, a);
    case Recheck(_, _, _) => QueryKeepsInv(s, a);
    case CreateAdmin(_, _) => AdministrationKeepsInv(s, a);
    case UpdateAdmin(_, _, _) => AdministrationKeepsInv(s, a);
    case DeleteAdmin(_) => AdministrationKeepsInv(s, a);
  }

  lemma {:induction false} ExecKeepsInv(s: State, actions: seq<Action>)
    requires Inv(s)
    ensures Inv(Exec(s, actions)) && SetOnce(s, Exec(s, actions))
    decreases |actions|
  {
    if actions != [] {
      StepKeepsInv(s, actions[0]);
      ExecKeepsInv(Step(s, actions[0]), actions[1..]);
    }
  }

  ghost predicate Succeeded(s: State, c: nat) {
    c in s.callers && s.callers[c].phase.Done? && s.callers[c].phase.outcome.Found?
  }

  /** Main result. Over every interleaving of binders, creations, updates and deletions: no
      two administrators share a subject; a subject once bound is never changed by anything
      that follows; a caller is given an administrator only if that administrator is, and
      from then on stays, bound to the caller's subject; and two callers get the same
      administrator exactly when they present the same subject. */
  lemma BindingIsSetOnce(before: seq<Action>, after: seq<Action>, c: nat, d: nat)
    ensures var s := Exec(EMPTY, before);
            var t := Exec(s, after);
            && Injective(t) && SetOnce(s, t)
            && (Succeeded(s, c) ==>
                  var o := s.callers[c].phase.outcome;
                  && o.admin.subject == Some(s.callers[c].subject) && !o.admin.deleted
                  && o.id in t.admins && t.admins[o.id].subject == Some(s.callers[c].subject))
            && (Succeeded(t, c) && Succeeded(t, d) ==>
                  (t.callers[c].phase.outcome.id == t.callers[d].phase.outcome.id
                   <==> t.callers[c].subject == t.callers[d].subject))
  {
    ExecKeepsInv(EMPTY, before);
    var s := Exec(EMPTY, before);
    ExecKeepsInv(s, after);
    var t := Exec(s, after);
    assert Succeeded(s, c) ==> CallerOk(s, c);
    assert Succeeded(t, c) ==> CallerOk(t, c);
    assert Succeeded(t, d) ==> CallerOk(t, d);
  }

  // ----- one caller among others

  predicate Administrative(a: Action) { a.CreateAdmin? || a.UpdateAdmin? || a.DeleteAdmin? }

  ghost predicate Spares(actions: seq<Action>, c: nat) {
    forall i :: 0 <= i < |actions| ==> Administrative(actions[i]) || actions[i].caller != c
  }

  lemma {:induction false} OthersKeepCaller(s: State, actions: seq<Action>, c: nat)
    requires Spares(actions, c) && c in s.callers
    ensures c in Exec(s, actions).callers && Exec(s, actions).callers[c] == s.callers[c]
    decreases |actions|
  {
    if actions != [] {
      OthersKeepCaller(Step(s, actions[0]), actions[1..], c);
    }
  }

  lemma OthersThen(s: State, others: seq<Action>, c: nat, a: Action)
    requires Spares(others, c) && c in s.callers
    ensures Exec(s, others + [a]) == Step(Exec(s, others), a)
    ensures c in Exec(s, others).callers && Exec(s, others).callers[c] == s.callers[c]
  {
    Runs.Snoc(Step, s, others, a);
    OthersKeepCaller(s, others, c);
  }
}
