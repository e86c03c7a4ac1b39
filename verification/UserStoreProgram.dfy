/** The user repository as the program runs it, with other callers running between its
    database calls. */
module UserStoreProgram {
  import opened Common
  import Runs
  import opened Sharding
  import opened UserStore
  import opened UserStoreProgress
  import opened UserStoreReports

  datatype DbError = RecordNotFound | Broken

  class Database {
    // the tables
    var index: map<string, Entry>
    var shards: seq<map<int, User>>

    // where the callers stand, and history
    var callers: map<nat, Caller>
    var creators: map<string, nat>

    function Now(): Store
      reads this
    {
      Store(index, shards, callers, creators)
    }

    constructor ()
      ensures Now() == EMPTY
    {
      index, shards, callers, creators := map[], seq(TABLE_COUNT, i => map[]), map[], map[];
    }

    /** Other callers' database calls, in the order the database serves them. */
    method Others(actions: seq<Action>)
      modifies this
      ensures Now() == Exec(old(Now()), actions)
    {
      for i := 0 to |actions|
        invariant Now() == Exec(old(Now()), actions[..i])
      {
        assert actions[..i + 1] == actions[..i] + [actions[i]];
        Runs.Snoc(Step, old(Now()), actions[..i], actions[i]);
        var s := Step(Now(), actions[i]);
        index, shards, callers, creators := s.index, s.shards, s.callers, s.creators;
      }
      assert actions[..|actions|] == actions;
    }

    method Stand(c: nat, phase: Phase)
      requires c in callers
      modifies this`callers
      ensures Now() == Move(old(Now()), c, phase)
    {
      callers := callers[c := callers[c].(phase := phase)];
    }

    method Begin(c: nat, user: User)
      requires c !in callers
      modifies this
      ensures Now() == Step(old(Now()), Call(c, user))
    {
      callers := callers[c := Caller(user, ReadingIndex(false))];
    }

    method FirstIdentity(c: nat, subject: string, fails: bool) returns (r: Result<Entry, DbError>)
      requires c in callers && callers[c].phase.ReadingIndex? && callers[c].user.subject == subject && Agree(Now())
      modifies this
      ensures Now() == Step(old(Now()), ReadIndex(c, fails))
      ensures r == if fails then Err(Broken)
                   else if subject in old(index) then Ok(old(index)[subject]) else Err(RecordNotFound)
    {
      var again := callers[c].phase.again;
      if fails {
        Stand(c, Done(Failure));
        return Err(Broken);
      }
      if subject !in index {
        Stand(c, NotFound(again));
        return Err(RecordNotFound);
      }
      Stand(c, ReadingShard(index[subject], again));
      return Ok(index[subject]);
    }

    method FirstIdentityByID(id: int) returns (hit: Option<string>)
      ensures HitsID(Now(), id, hit)
    {
      if k :| k in index && index[k].userID == id {
        return Some(k);
      }
      return None;
    }

    method FirstUser(c: nat, table: int, id: int, fails: bool) returns (r: Result<User, DbError>)
      requires 0 <= table < |shards|
      requires c in callers && callers[c].phase.ReadingShard? && callers[c].phase.entry == Entry(id, table)
      modifies this
      ensures Now() == Step(old(Now()), ReadShard(c, fails))
      ensures r == if fails then Err(Broken)
                   else if id in old(shards)[table] then Ok(old(shards)[table][id]) else Err(RecordNotFound)
    {
      if fails {
        Stand(c, Done(Failure));
        return Err(Broken);
      }
      if id !in shards[table] {
        Stand(c, NotFound(callers[c].phase.again));
        return Err(RecordNotFound);
      }
      r := Ok(shards[table][id]);
      Stand(c, Done(Success(r.value, false)));
    }

    /** INSERT into a shard, under its primary key. */
    method InsertUser(table: nat, user: User) returns (ok: bool)
      requires table < |shards|
      modifies this`shards
      ensures ok <==> user.id !in old(shards)[table]
      ensures shards == if ok then old(shards)[table := old(shards)[table][user.id := user]] else old(shards)
    {
      ok := user.id !in shards[table];
      if ok {
        shards := shards[table := shards[table][user.id := user]];
      }
    }

    /** INSERT into the index, under its primary key and its unique user ID. */
    method InsertIdentity(subject: string, entry: Entry) returns (ok: bool)
      modifies this`index
      ensures ok <==> subject !in old(index) && !exists k :: k in old(index) && old(index)[k].userID == entry.userID
      ensures index == if ok then old(index)[subject := entry] else old(index)
    {
      var taken := FirstIdentityByID(entry.userID);
      ok := subject !in index && taken.None?;
      if ok {
        index := index[subject := entry];
      }
    }

    /** The creating transaction: both inserts or, rolled back, neither. True if it is reported
        committed. */
    method CreateBoth(c: nat, user: User, commit: Commit) returns (committed: bool)
      requires c in callers && callers[c] == Caller(user, Creating) && |shards| == TABLE_COUNT
      modifies this
      ensures Now() == Step(old(Now()), Transact(c, commit))
      ensures committed <==> commit.Reported? && Insert(old(Now()), user).Some?
    {
      var savedIndex, savedShards := index, shards;
      var route := TableIndex(user.id);
      var ok := route.Ok?;
      if ok {
        ok := InsertUser(route.value, user);
      }
      if ok {
        ok := InsertIdentity(user.subject, Entry(user.id, route.value));
      }
      if !ok || commit.Aborted? {
        index, shards := savedIndex, savedShards;
        Stand(c, ReadingIndex(true));
        return false;
      }
      creators := creators[user.subject := c];
      committed := commit.Reported?;
      Stand(c, if committed then Done(Success(user, true)) else ReadingIndex(true));
    }
  }

  /** What happens around one FindBySubject: who runs before each query, and which fail. */
  datatype Weather = Weather(before: seq<Action>, indexFails: bool, between: seq<Action>, shardFails: bool)

  predicate Troubled(w: Weather) { w.indexFails || w.shardFails }

  class UserRepository {
    const db: Database

    constructor (db: Database)
      ensures this.db == db
    {
      this.db := db;
    }

    /** Reads the index by user ID, then the shard it names, with others running before each
        query. A row found is the one stored where the ID routes; a row stored before the call is
        always found; and only a failing query breaks the lookup. */
    method FindByID(id: int, w: Weather) returns (r: Result<User, DbError>)
      requires Inv(db.Now())
      modifies db
      ensures Inv(db.Now()) && Grows(old(db.Now()), db.Now())
      ensures r.Ok? ==> id > 0 && id in db.shards[id % TABLE_COUNT] && r.value == db.shards[id % TABLE_COUNT][id]
      ensures r == Err(RecordNotFound) ==> id <= 0 || id !in old(db.shards)[id % TABLE_COUNT]
      ensures r == Err(Broken) ==> Troubled(w)
      ensures w.indexFails ==> r == Err(Broken)
      ensures w.shardFails ==> !r.Ok?
    {
      ExecKeepsInv(db.Now(), w.before);
      db.Others(w.before);
      if w.indexFails {
        return Err(Broken);
      }
      var hit := db.FirstIdentityByID(id);
      ByIDFindsTheRoutedRow(db.Now(), id, hit);
      if hit.None? {
        return Err(RecordNotFound);
      }
      var identity := db.index[hit.value];
      ExecKeepsInv(db.Now(), w.between);
      db.Others(w.between);
      if w.shardFails {
        return Err(Broken);
      }
      if identity.userID !in db.shards[identity.table] {
        return Err(RecordNotFound);
      }
      return Ok(db.shards[identity.table][identity.userID]);
    }

    /** The index query of a lookup, with the router's check of the table it names. */
    method FindIdentity(c: nat, subject: string, others: seq<Action>, fails: bool)
      returns (r: Result<Entry, DbError>)
      requires c in db.callers && db.callers[c].user.subject == subject && db.callers[c].phase.ReadingIndex?
      requires Inv(db.Now()) && Spares(others, c)
      modifies db
      ensures db.Now() == Exec(old(db.Now()), others + [ReadIndex(c, fails)]) && Inv(db.Now())
      ensures c in db.callers && db.callers[c].user == old(db.Now()).callers[c].user
      ensures var again := old(db.Now()).callers[c].phase.again;
              db.callers[c].phase ==
              match r
              case Ok(entry) => ReadingShard(entry, again)
              case Err(RecordNotFound) => NotFound(again)
              case Err(Broken) => Done(Failure)
      ensures r.Ok? ==> 0 <= r.value.table < TABLE_COUNT
      ensures r == Err(Broken) <==> fails
    {
      OthersThen(db.Now(), others, c, ReadIndex(c, fails));
      db.Others(others);
      r := db.FirstIdentity(c, subject, fails);
      if r.Ok? && !(0 <= r.value.table < TABLE_COUNT) {
        r := Err(Broken);
      }
    }

    /** The shard query of a lookup. */
    method FindUser(c: nat, entry: Entry, others: seq<Action>, fails: bool) returns (r: Result<User, DbError>)
      requires c in db.callers && db.callers[c].phase.ReadingShard? && db.callers[c].phase.entry == entry
      requires 0 <= entry.table < TABLE_COUNT && Inv(db.Now()) && Spares(others, c)
      modifies db
      ensures db.Now() == Exec(old(db.Now()), others + [ReadShard(c, fails)]) && Inv(db.Now())
      ensures c in db.callers && db.callers[c].user == old(db.Now()).callers[c].user
      ensures db.callers[c].phase ==
              match r
              case Ok(user) => Done(Success(user, false))
              case Err(RecordNotFound) => NotFound(old(db.Now()).callers[c].phase.again)
              case Err(Broken) => Done(Failure)
      ensures r.Err? ==> r.error == if fails then Broken else RecordNotFound
    {
      OthersThen(db.Now(), others, c, ReadShard(c, fails));
      db.Others(others);
      r := db.FirstUser(c, entry.table, entry.userID, fails);
    }

    method FindBySubject(c: nat, subject: string, w: Weather, ghost broken: bool, ghost commit: Commit)
      returns (r: Result<User, DbError>, ghost trace: seq<Action>)
      requires c in db.callers && db.callers[c].user.subject == subject && db.callers[c].phase.ReadingIndex?
      requires Inv(db.Now()) && Spares(w.before, c) && Spares(w.between, c) && (Troubled(w) ==> broken)
      modifies db
      ensures db.Now() == Exec(old(db.Now()), trace) && Inv(db.Now())
      ensures c in db.callers && db.callers[c].user == old(db.callers)[c].user
      ensures db.callers[c].phase ==
              match r
              case Ok(user) => Done(Success(user, false))
              case Err(RecordNotFound) => NotFound(old(db.callers)[c].phase.again)
              case Err(Broken) => Done(Failure)
      ensures r == Err(Broken) ==> Troubled(w)
      ensures Honest(trace, c, broken, commit)
    {
      ghost var s0 := db.Now();
      trace := w.before + [ReadIndex(c, w.indexFails)];
      SparesIsHonest(w.before, ReadIndex(c, w.indexFails), c, broken, commit);
      var identity := FindIdentity(c, subject, w.before, w.indexFails);
      if identity.Err? {
        return Err(identity.error), trace;
      }
      ghost var more := w.between + [ReadShard(c, w.shardFails)];
      SparesIsHonest(w.between, ReadShard(c, w.shardFails), c, broken, commit);
      HonestConcat(trace, more, c, broken, commit);
      Runs.Concat(Step, s0, trace, more);
      r := FindUser(c, identity.value, w.between, w.shardFails);
      trace := trace + more;
    }

    method Create(c: nat, user: User, others: seq<Action>, commit: Commit) returns (committed: bool)
      requires Inv(db.Now()) && c in db.callers && db.callers[c] == Caller(user, Creating) && Spares(others, c)
      modifies db
      ensures db.Now() == Exec(old(db.Now()), others + [Transact(c, commit)]) && Inv(db.Now())
      ensures c in db.callers
      ensures db.callers[c] == Caller(user, if committed then Done(Success(user, true)) else ReadingIndex(true))
      ensures committed <==> commit.Reported? && Insert(Exec(old(db.Now()), others), user).Some?
    {
      OthersThen(db.Now(), others, c, Transact(c, commit));
      db.Others(others);
      committed := db.CreateBoth(c, user, commit);
    }

    /** The program takes only steps of the step system, whatever the others do meanwhile, and
        returns what the step system recorded; its own database calls fail only where they are made
        to. With distinct IDs it then succeeds. */
    method FindOrCreateBySubject(c: nat, user: User, first: Weather, before: seq<Action>, commit: Commit, second: Weather)
      returns (r: Outcome, ghost trace: seq<Action>)
      requires Inv(db.Now()) && c !in db.callers
      requires Spares(first.before, c) && Spares(first.between, c) && Spares(before, c)
      requires Spares(second.before, c) && Spares(second.between, c)
      modifies db
      ensures db.Now() == Exec(old(db.Now()), trace) && Inv(db.Now())
      ensures c in db.callers && db.callers[c] == Caller(user, Done(r))
      ensures Honest(trace, c, Troubled(first) || Troubled(second), commit)
      ensures Credited(old(db.Now())) && DistinctIds(db.Now()) ==>
                (!Troubled(first) && !Troubled(second) && !commit.Aborted? ==> r.Success?)
    {
      ghost var s0 := db.Now();
      ghost var broken := Troubled(first) || Troubled(second);
      db.Begin(c, user);
      StepKeepsInv(s0, Call(c, user));
      Runs.One(Step, s0, Call(c, user));
      ghost var t1;
      var existing;
      existing, t1 := FindBySubject(c, user.subject, first, broken, commit);
      trace := [Call(c, user)] + t1;
      HonestConcat([Call(c, user)], t1, c, broken, commit);
      Runs.Concat(Step, s0, [Call(c, user)], t1);
      if existing.Ok? {
        r := Success(existing.value, false);
      } else if existing.error != RecordNotFound {
        r := Failure;
      } else {
        ghost var t2;
        r, t2 := CreateOrFind(c, user, before, commit, second, broken);
        HonestConcat(trace, t2, c, broken, commit);
        Runs.Concat(Step, s0, trace, t2);
        trace := trace + t2;
      }
      SucceedsUnlessBroken(s0, trace, c, broken, commit);
    }

    /** From the transaction on. */
    method CreateOrFind(c: nat, user: User, before: seq<Action>, commit: Commit, second: Weather, ghost broken: bool)
      returns (r: Outcome, ghost trace: seq<Action>)
      requires Inv(db.Now()) && c in db.callers && db.callers[c] == Caller(user, Creating)
      requires Spares(before, c) && Spares(second.before, c) && Spares(second.between, c) && (Troubled(second) ==> broken)
      modifies db
      ensures db.Now() == Exec(old(db.Now()), trace) && Inv(db.Now())
      ensures c in db.callers && db.callers[c] == Caller(user, Done(r))
      ensures Honest(trace, c, broken, commit)
      ensures r.Success? && r.created ==> commit.Reported? && r.user == user
    {
      ghost var s0 := db.Now();
      trace := before + [Transact(c, commit)];
      SparesIsHonest(before, Transact(c, commit), c, broken, commit);
      var committed := Create(c, user, before, commit);
      if committed {
        return Success(user, true), trace;
      }
      ghost var t;
      var existing;
      existing, t := FindBySubject(c, user.subject, second, broken, commit);
      HonestConcat(trace, t, c, broken, commit);
      Runs.Concat(Step, s0, trace, t);
      trace := trace + t;
      return if existing.Ok? then Success(existing.value, false) else Failure, trace;
    }
  }

  lemma SucceedsUnlessBroken(s: Store, trace: seq<Action>, c: nat, broken: bool, commit: Commit)
    requires Inv(s) && c !in s.callers && Honest(trace, c, broken, commit)
    ensures var t := Exec(s, trace);
            Credited(s) && DistinctIds(t) && !broken && !commit.Aborted? && c in t.callers && t.callers[c].phase.Done?
            ==> t.callers[c].phase.outcome.Success?
  {
    if Credited(s) && DistinctIds(Exec(s, trace)) && !broken && !commit.Aborted? {
      HonestIsUnhindered(s, trace, c, commit);
      UnhinderedCallsSucceed(s, trace, c);
    }
  }
}
