/** The administrator's user list: one ordered listing across all shards, cut into pages. */
module UserPages {
  import opened Bits
  import opened Common
  import opened Ordering
  import opened Sharding
  import opened UserStore
  import opened UserStoreProgram

  const DEFAULT_PAGE_SIZE := 20
  const MAX_PAGE_SIZE := 100

  datatype PageError = InvalidArgument | InvalidPagination | QueryFailed

  /** ORDER BY created_at DESC, id DESC. */
  predicate Before(u: User, v: User) {
    u.createdAt > v.createdAt || (u.createdAt == v.createdAt && u.id > v.id)
  }

  function Rows(shard: map<int, User>): set<User> {
    set id | id in shard :: shard[id]
  }

  /** The rows of shards 0..n-1. */
  function AllRows(shards: seq<map<int, User>>, n: nat): set<User>
    requires n <= |shards|
  {
    if n == 0 then {} else AllRows(shards, n - 1) + Rows(shards[n - 1])
  }

  function SumCounts(shards: seq<map<int, User>>, n: nat): nat
    requires n <= |shards|
  {
    if n == 0 then 0 else SumCounts(shards, n - 1) + |shards[n - 1]|
  }

  /** `u` is stored where its ID routes, in one of shards 0..n-1. */
  ghost predicate StoredBelow(s: Store, u: User, n: nat)
    requires |s.shards| == TABLE_COUNT
  {
    var t := u.id % TABLE_COUNT;
    t < n && u.id in s.shards[t] && s.shards[t][u.id] == u
  }

  lemma RowsOfShard(s: Store, t: nat)
    requires Agree(s) && t < TABLE_COUNT
    ensures forall u :: u in Rows(s.shards[t]) <==> StoredBelow(s, u, t + 1) && !StoredBelow(s, u, t)
    ensures |Rows(s.shards[t])| == |s.shards[t]|
  {
    var shard := s.shards[t];
    forall u ensures u in Rows(shard) <==> StoredBelow(s, u, t + 1) && !StoredBelow(s, u, t) {
      if u in Rows(shard) {
        var id :| id in shard && shard[id] == u;
        assert id in s.shards[t];
      }
    }
    forall id | id in shard ensures shard[id].id == id {
      assert id in s.shards[t];
    }
    RowCount(shard);
  }

  lemma {:induction false} RowsOfShards(s: Store, n: nat)
    requires Agree(s) && n <= TABLE_COUNT
    ensures forall u :: u in AllRows(s.shards, n) <==> StoredBelow(s, u, n)
    ensures |AllRows(s.shards, n)| == SumCounts(s.shards, n)
  {
    if n > 0 {
      RowsOfShards(s, n - 1);
      RowsOfShard(s, n - 1);
      AddShard(s, n, AllRows(s.shards, n - 1), Rows(s.shards[n - 1]));
    }
  }

  lemma AddShard(s: Store, n: nat, before: set<User>, rows: set<User>)
    requires |s.shards| == TABLE_COUNT && 0 < n <= TABLE_COUNT
    requires forall u :: u in before <==> StoredBelow(s, u, n - 1)
    requires forall u :: u in rows <==> StoredBelow(s, u, n) && !StoredBelow(s, u, n - 1)
    ensures forall u :: u in before + rows <==> StoredBelow(s, u, n)
    ensures |before + rows| == |before| + |rows|
  {
    assert before !! rows;
    forall u ensures u in before + rows <==> StoredBelow(s, u, n) {
      assert StoredBelow(s, u, n - 1) ==> StoredBelow(s, u, n);
    }
  }

  lemma {:induction false} RowCount(shard: map<int, User>)
    requires forall id :: id in shard ==> shard[id].id == id
    ensures |Rows(shard)| == |shard|
    decreases |shard|
  {
    if shard == map[] {
      assert Rows(shard) == {};
    } else {
      var id := AnyOf(shard.Keys);
      var rest := shard - {id};
      assert shard.Keys == rest.Keys + {id};
      RowCount(rest);
      forall u ensures u in Rows(shard) <==> u in Rows(rest) + {shard[id]} {
        if u in Rows(shard) {
          var j :| j in shard && shard[j] == u;
          assert j == id || j in rest;
        }
      }
      assert Rows(shard) == Rows(rest) + {shard[id]};
      assert shard[id] !in Rows(rest);
    }
  }

  lemma DistinctIdsAreOrdered(users: set<User>)
    requires forall u, v :: u in users && v in users && u != v ==> u.id != v.id
    ensures OrderOn(Before, users)
  {
  }

  lemma RowsAreOrdered(s: Store)
    requires Agree(s)
    ensures OrderOn(Before, AllRows(s.shards, TABLE_COUNT))
  {
    var all := AllRows(s.shards, TABLE_COUNT);
    RowsOfShards(s, TABLE_COUNT);
    forall u, v | u in all && v in all && u != v ensures u.id != v.id {
      assert StoredBelow(s, u, TABLE_COUNT) && StoredBelow(s, v, TABLE_COUNT);
    }
    DistinctIdsAreOrdered(all);
  }

  /** The listing of all users in the query's order. */
  ghost function Listing(s: Store): seq<User>
    requires Agree(s)
  {
    RowsAreOrdered(s);
    Arrange(Before, AllRows(s.shards, TABLE_COUNT))
  }

  /** The store determines the listing: it is the only strictly sorted sequence of exactly the
      stored rows, it repeats none, and its length is the sum of the shard counts. */
  lemma ListingIsUnique(s: Store, l: seq<User>)
    requires Agree(s)
    ensures l == Listing(s) <==> Sorted(Before, l) && forall u :: u in l <==> StoredBelow(s, u, TABLE_COUNT)
    ensures l == Listing(s) ==>
              |l| == SumCounts(s.shards, TABLE_COUNT) && forall i, j :: 0 <= i < j < |l| ==> l[i] != l[j]
  {
    RowsAreOrdered(s);
    RowsOfShards(s, TABLE_COUNT);
    var all := AllRows(s.shards, TABLE_COUNT);
    if l == Listing(s) {
      assert Elements(l) == all;
      SortedDistinct(Before, l);
      forall u ensures u in l <==> u in all {
        assert u in l <==> u in Elements(l);
      }
    } else if Sorted(Before, l) && forall u :: u in l <==> StoredBelow(s, u, TABLE_COUNT) {
      assert Elements(l) == all;
      ArrangeIsUnique(Before, l);
    }
  }

  /** The listing shows exactly the subjects that have an identity entry. */
  lemma ListingShowsEveryone(s: Store)
    requires Agree(s)
    ensures forall k :: k in s.index <==> exists i :: 0 <= i < |Listing(s)| && Listing(s)[i].subject == k
  {
    var l := Listing(s);
    ListingIsUnique(s, l);
    forall k | k in s.index ensures exists i :: 0 <= i < |l| && l[i].subject == k {
      var row := s.shards[s.index[k].table][s.index[k].userID];
      assert row.id == s.index[k].userID;
      assert StoredBelow(s, row, TABLE_COUNT);
      assert row in l;
    }
    forall i | 0 <= i < |l| ensures l[i].subject in s.index {
      assert l[i] in l;
    }
  }

  /** The newest user comes first, and of users created at one moment the one with the larger ID. */
  lemma NewestFirst(s: Store, i: nat, j: nat)
    requires Agree(s) && i < j < |Listing(s)|
    ensures var u, v := Listing(s)[i], Listing(s)[j];
            u.createdAt > v.createdAt || (u.createdAt == v.createdAt && u.id > v.id)
  {
    ListingIsUnique(s, Listing(s));
  }

  function Min(a: int, b: int): int { if a < b then a else b }

  /** LIMIT limit OFFSET offset. */
  function Slice(l: seq<User>, offset: nat, limit: nat): seq<User> {
    l[Min(offset, |l|)..Min(offset + limit, |l|)]
  }

  /** Users are only added, so a later listing shows everybody an earlier one shows. */
  lemma ListingGrows(s: Store, s': Store)
    requires Agree(s) && Agree(s') && Grows(s, s')
    ensures forall u :: u in Listing(s) ==> u in Listing(s')
    ensures |Listing(s)| <= |Listing(s')|
  {
    var l, l' := Listing(s), Listing(s');
    ListingIsUnique(s, l);
    ListingIsUnique(s', l');
    forall u | u in l ensures u in l' {
      assert StoredBelow(s, u, TABLE_COUNT);
      assert u.id in s.shards[u.id % TABLE_COUNT];
    }
    RowsAreOrdered(s);
    RowsAreOrdered(s');
    SortedDistinct(Before, l);
    SortedDistinct(Before, l');
    SubsetSize(Elements(l), Elements(l'));
  }

  /** What happens around the two queries: who runs before each, and which fail. */
  datatype ListWeather = ListWeather(before: seq<Action>, countFails: bool, between: seq<Action>, listFails: bool)

  /** Counts the users, then lists them, with others running before each query: the total is that
      of the first moment and the slice is of the listing at the second. */
  method List(db: Database, offset: int, limit: int, w: ListWeather)
    returns (r: Result<(seq<User>, nat), PageError>, ghost counted: Store, ghost listed: Store)
    requires Inv(db.Now())
    modifies db
    ensures counted == Exec(old(db.Now()), w.before) && listed == Exec(counted, w.between)
    ensures Inv(counted) && Inv(listed) && Grows(counted, listed) && Inv(db.Now())
    ensures r == if offset < 0 || limit <= 0 then Err(InvalidPagination)
                 else if w.countFails || w.listFails then Err(QueryFailed)
                 else Ok((Slice(Listing(listed), offset, limit), |Listing(counted)|))
  {
    counted := Exec(db.Now(), w.before);
    listed := Exec(counted, w.between);
    ExecKeepsInv(db.Now(), w.before);
    ExecKeepsInv(counted, w.between);
    if offset < 0 || limit <= 0 {
      return Err(InvalidPagination), counted, listed;
    }
    db.Others(w.before);
    if w.countFails {
      return Err(QueryFailed), counted, listed;
    }
    var total := SumCounts(db.shards, TABLE_COUNT);
    ListingIsUnique(counted, Listing(counted));
    db.Others(w.between);
    if w.listFails {
      return Err(QueryFailed), counted, listed;
    }
    var sorted := SortRows(db);
    return Ok((Slice(sorted, offset, limit), total)), counted, listed;
  }

  /** The union of the shards, sorted row by row. */
  method SortRows(db: Database) returns (sorted: seq<User>)
    requires Agree(db.Now())
    ensures sorted == Listing(db.Now())
  {
    RowsAreOrdered(db.Now());
    var all := AllRows(db.shards, TABLE_COUNT);
    var todo := all;
    sorted := [];
    while todo != {}
      invariant todo <= all
      invariant Sorted(Before, sorted) && Elements(sorted) == all - todo
      decreases todo
    {
      var u :| u in todo;
      InsertKeepsSorted(Before, u, sorted);
      sorted := InsertSorted(Before, u, sorted);
      todo := todo - {u};
    }
    ArrangeIsUnique(Before, sorted);
    assert Elements(sorted) == all;
  }

  /** Missing values take their defaults; page and page size are int32. */
  function NormalizePage(request: Option<(int, int)>): Result<(int, int), PageError> {
    match request
    case None => Ok((1, DEFAULT_PAGE_SIZE))
    case Some((page, pageSize)) =>
      var p := if page == 0 then 1 else page;
      var k := if pageSize == 0 then DEFAULT_PAGE_SIZE else pageSize;
      if p < 1 || k < 1 || k > MAX_PAGE_SIZE then Err(InvalidArgument) else Ok((p, k))
  }

  datatype UserInfo = UserInfo(id: int, createdAt: int, profile: string)

  function ToProto(u: User): UserInfo {
    UserInfo(u.id, u.createdAt, u.profile)
  }

  datatype UserList = UserList(users: seq<UserInfo>, total: nat, page: int, pageSize: int)

  method GetUserList(db: Database, request: Option<(int, int)>, w: ListWeather)
    returns (r: Result<UserList, PageError>, ghost counted: Store, ghost listed: Store)
    requires Inv(db.Now())
    requires request.Some? ==> -0x8000_0000 <= request.value.0 < 0x8000_0000 && -0x8000_0000 <= request.value.1 < 0x8000_0000
    modifies db
    ensures counted == Exec(old(db.Now()), w.before) && listed == Exec(counted, w.between)
    ensures Inv(counted) && Inv(listed) && Grows(counted, listed)
    ensures var page := Page(|Listing(counted)|, Listing(listed), request);
            r == if page.Ok? && (w.countFails || w.listFails) then Err(QueryFailed) else page
  {
    counted := Exec(db.Now(), w.before);
    listed := Exec(counted, w.between);
    ExecKeepsInv(db.Now(), w.before);
    ExecKeepsInv(counted, w.between);
    var normal := NormalizePage(request);
    if normal.Err? {
      return Err(normal.error), counted, listed;
    }
    var (page, pageSize) := normal.value;
    var offset := WrapInt32((page - 1) * pageSize);
    var rows;
    rows, counted, listed := List(db, offset, pageSize, w);
    if rows.Err? {
      return Err(rows.error), counted, listed;
    }
    var infos := ToProtos(rows.value.0);
    return Ok(UserList(infos, rows.value.1, page, pageSize)), counted, listed;
  }

  method ToProtos(users: seq<User>) returns (infos: seq<UserInfo>)
    ensures infos == Infos(users)
  {
    infos := [];
    for i := 0 to |users|
      invariant infos == Infos(users[..i])
    {
      assert users[..i + 1][..i] == users[..i];
      infos := infos + [ToProto(users[i])];
    }
    assert users[..|users|] == users;
  }

  function Infos(users: seq<User>): (infos: seq<UserInfo>)
    ensures |infos| == |users| && forall i :: 0 <= i < |users| ==> infos[i] == ToProto(users[i])
  {
    if users == [] then [] else Infos(users[..|users| - 1]) + [ToProto(users[|users| - 1])]
  }

  /** The page a request gets from the ordered listing, and the total it is told. */
  ghost function Page(total: nat, l: seq<User>, request: Option<(int, int)>): Result<UserList, PageError> {
    var normal := NormalizePage(request);
    if normal.Err? then Err(normal.error)
    else
      var (page, pageSize) := normal.value;
      var offset := WrapInt32((page - 1) * pageSize);
      if offset < 0 then Err(InvalidPagination)
      else Ok(UserList(Infos(Slice(l, offset, pageSize)), total, page, pageSize))
  }

  /** The pages 1..n of size k put together. */
  ghost function Pages(l: seq<User>, n: nat, k: nat): seq<User> {
    if n == 0 then [] else Pages(l, n - 1, k) + Slice(l, (n - 1) * k, k)
  }

  /** Main result. The pages of any size cut the listing into consecutive pieces: page after
      page nothing is skipped, nothing repeated, and enough pages give every user. */
  lemma {:induction false} PagesPartition(l: seq<User>, n: nat, k: nat)
    requires k >= 1
    ensures Pages(l, n, k) == l[..Min(n * k, |l|)]
    ensures n * k >= |l| ==> Pages(l, n, k) == l
  {
    if n > 0 {
      PagesPartition(l, n - 1, k);
      var from := (n - 1) * k;
      assert from + k == n * k;
      assert 0 <= from by {
        MulNat(n - 1, k);
      }
      assert l[..Min(from, |l|)] + l[Min(from, |l|)..Min(from + k, |l|)] == l[..Min(from + k, |l|)];
    }
    assert l[..|l|] == l;
  }

  lemma MulNat(a: nat, b: nat)
    ensures a * b >= 0
  {
  }

  lemma WrapExact(x: int)
    requires 0 <= x
    ensures WrapInt32(x) < 0x8000_0000
    ensures WrapInt32(x) == x <==> x < 0x8000_0000
  {
  }

  /** Main result. A valid request gets the page it asks for exactly when the 32-bit offset
      does not overflow, or overflows to a non-negative offset past the last user anyway. */
  lemma PageIsRight(s: Store, page: int, pageSize: int)
    requires Agree(s)
    requires 1 <= page < 0x8000_0000 && 1 <= pageSize <= MAX_PAGE_SIZE
    ensures var l, offset := Listing(s), (page - 1) * pageSize;
            offset >= 0
            && (Page(|l|, l, Some((page, pageSize))) == Ok(UserList(Infos(Slice(l, offset, pageSize)), |l|, page, pageSize))
                <==> offset < 0x8000_0000 || WrapInt32(offset) >= |l|)
  {
    MulNat(page - 1, pageSize);
    var offset := (page - 1) * pageSize;
    WrapExact(offset);
    if WrapInt32(offset) >= 0 && WrapInt32(offset) != offset {
      SlicesDiffer(s, WrapInt32(offset), offset, pageSize);
    }
  }

  /** What a request without values asks for, and which requests are invalid. */
  lemma RequestMeaning(page: int, pageSize: int)
    ensures NormalizePage(None) == NormalizePage(Some((1, 20)))
    ensures NormalizePage(Some((0, pageSize))) == NormalizePage(Some((1, pageSize)))
    ensures NormalizePage(Some((page, 0))) == NormalizePage(Some((page, 20)))
    ensures page != 0 && pageSize != 0 ==>
              NormalizePage(Some((page, pageSize))) ==
              if 1 <= page && 1 <= pageSize <= 100 then Ok((page, pageSize)) else Err(InvalidArgument)
  {
  }

  /** Main result. A valid request whose offset fits shows users number offset, offset + 1, ... of the
      listing, as many as the page holds or are left, with the total and the page asked for. */
  lemma PageShows(total: nat, l: seq<User>, page: int, pageSize: int)
    requires 1 <= page && 1 <= pageSize <= 100 && (page - 1) * pageSize < 0x8000_0000
    ensures var offset := (page - 1) * pageSize;
            var r := Page(total, l, Some((page, pageSize)));
            && 0 <= offset
            && r.Ok? && r.value.total == total && r.value.page == page && r.value.pageSize == pageSize
            && |r.value.users| == (if offset >= |l| then 0 else if |l| - offset < pageSize then |l| - offset else pageSize)
            && forall i :: 0 <= i < |r.value.users| ==>
                 && r.value.users[i].id == l[offset + i].id
                 && r.value.users[i].createdAt == l[offset + i].createdAt
                 && r.value.users[i].profile == l[offset + i].profile
  {
    MulNat(page - 1, pageSize);
    WrapExact((page - 1) * pageSize);
  }

  /** Pages at different offsets differ, unless both are past the end. */
  lemma SlicesDiffer(s: Store, w: nat, offset: nat, limit: nat)
    requires Agree(s) && w < offset && limit >= 1
    ensures Infos(Slice(Listing(s), w, limit)) == Infos(Slice(Listing(s), offset, limit)) <==> w >= |Listing(s)|
  {
    var l := Listing(s);
    var wrong, right := Slice(l, w, limit), Slice(l, offset, limit);
    if w < |l| {
      assert Infos(wrong)[0] == ToProto(l[w]);
      if right != [] {
        IdsDiffer(s, w, offset);
        assert Infos(right)[0] == ToProto(l[offset]);
      }
    } else {
      assert wrong == [] && right == [];
    }
  }

  lemma IdsDiffer(s: Store, i: nat, j: nat)
    requires Agree(s) && i < |Listing(s)| && j < |Listing(s)| && i != j
    ensures Listing(s)[i].id != Listing(s)[j].id
  {
    var l := Listing(s);
    ListingIsUnique(s, l);
    assert l[i] in l && l[j] in l && l[i] != l[j];
    assert StoredBelow(s, l[i], TABLE_COUNT) && StoredBelow(s, l[j], TABLE_COUNT);
  }

  /** Page 42949674 of size 100 wraps to offset 4: it shows users from the first page. */
  lemma OverflowShowsEarlierUsers(l: seq<User>)
    requires 4 < |l| < 0x8000_0000
    ensures var r := Page(|l|, l, Some((42949674, 100)));
            r.Ok? && r.value.users == Infos(Slice(l, 4, 100)) && r.value.users[0] == ToProto(l[4])
  {
    assert (42949674 - 1) * 100 == 4294967300;
  }
}
