/** Whole runs of the limiter on one key under a fixed rule, compared with a
    limiter that never forgets an admission. */
module RateLimiterHistory {
  import opened Common
  import opened RateLimiter

  /** The key after a sequence of calls. */
  ghost function Run(calls: seq<Call>, r: Rule): Key {
    if calls == [] then NO_KEY
    else Script(Run(calls[..|calls| - 1], r), calls[|calls| - 1], r).0
  }

  ghost function ReplyAt(calls: seq<Call>, i: nat, r: Rule): Reply
    requires i < |calls|
  {
    Script(Run(calls[..i], r), calls[i], r).1
  }

  // ----- the reference limiter

  /** Every admission ever made, by request ID, and the call that made the latest one. */
  datatype Log = Log(admitted: map<string, int>, latest: Option<Call>)

  /** The admissions in the window (now - window, now]. */
  ghost function InWindow(log: Log, c: Call, r: Rule): set<string> {
    set id | id in log.admitted && c.now - r.window < log.admitted[id] <= c.now
  }

  ghost function FullHistory(calls: seq<Call>, r: Rule): Log {
    if calls == [] then Log(map[], None)
    else
      var log := FullHistory(calls[..|calls| - 1], r);
      var c := calls[|calls| - 1];
      if |InWindow(log, c, r)| < r.limit then Log(log.admitted[c.id := c.now], Some(c)) else log
  }

  /** The script answers call `i` as the reference limiter would: admitted exactly when
      fewer than `limit` admissions lie in the window, with the exact count. */
  ghost predicate AnswersExactly(calls: seq<Call>, i: nat, r: Rule)
    requires i < |calls|
  {
    var live := |InWindow(FullHistory(calls[..i], r), calls[i], r)|;
    && ReplyAt(calls, i, r).allowed == (live < r.limit)
    && ReplyAt(calls, i, r).count == if live < r.limit then live + 1 else live
  }

  ghost predicate FreshIds(calls: seq<Call>) {
    forall i, j :: 0 <= i < j < |calls| ==> calls[i].id != calls[j].id
  }

  ghost predicate Monotone(calls: seq<Call>) {
    forall i, j :: 0 <= i < j < |calls| ==> calls[i].now <= calls[j].now
  }

  /** At call `c` the server has expired the key although the latest admission
      is still inside the window by the gateway's clock. */
  ghost predicate ExpiresEarly(log: Log, c: Call, r: Rule) {
    log.latest.Some? && c.clock - log.latest.value.clock > r.window > c.now - log.latest.value.now
  }

  // ----- refinement

  /** The key holds exactly the admissions a later call may still have to count. */
  ghost predicate Refines(k: Key, log: Log, seen: int, r: Rule) {
    && (forall id :: id in k.members ==> id in log.admitted && k.members[id] == log.admitted[id])
    && (forall id :: id in log.admitted ==> log.admitted[id] <= seen)
    && (forall id :: id in log.admitted && log.admitted[id] > seen - r.window ==> id in k.members)
    && (log.latest.None? ==> log.admitted == map[])
    && (log.latest.Some? ==>
          var a := log.latest.value;
          && a.id in log.admitted && log.admitted[a.id] == a.now
          && (forall id :: id in log.admitted ==> log.admitted[id] <= a.now)
          && (k.members != map[] ==> k.deadline == a.clock + r.window))
  }

  /** One call, from a key that refines the full history: the count is exact unless the
      key expires early, and then it is wrong. */
  lemma StepExact(k: Key, log: Log, seen: int, c: Call, r: Rule)
    requires ValidRule(r) && Refines(k, log, seen, r) && seen <= c.now
    ensures ExpiresEarly(log, c, r) ==> Kept(k, c, r) == map[] && InWindow(log, c, r) != {}
    ensures !ExpiresEarly(log, c, r) ==> Kept(k, c, r).Keys == InWindow(log, c, r)
  {
    var kept := Kept(k, c, r);
    if ExpiresEarly(log, c, r) {
      var a := log.latest.value;
      assert a.id in InWindow(log, c, r);
      assert k.members != map[] by {
        assert a.id in k.members;
      }
    } else {
      forall id ensures id in kept <==> id in InWindow(log, c, r) {
        if id in InWindow(log, c, r) {
          assert id in k.members;
          assert k.members != map[];
        }
      }
    }
  }

  lemma StepRefines(k: Key, log: Log, seen: int, c: Call, r: Rule)
    requires ValidRule(r) && Refines(k, log, seen, r) && seen <= c.now
    requires c.id !in log.admitted && !ExpiresEarly(log, c, r)
    ensures var log' := if |InWindow(log, c, r)| < r.limit then Log(log.admitted[c.id := c.now], Some(c)) else log;
            Refines(Script(k, c, r).0, log', c.now, r)
  {
    StepExact(k, log, seen, c, r);
    var kept := Kept(k, c, r);
    assert |kept| == |kept.Keys|;
    assert kept != map[] ==> k.members != map[] by {
      if kept != map[] {
        var id :| id in kept;
        assert id in k.members;
      }
    }
  }

  ghost predicate EarlyAt(calls: seq<Call>, i: nat, r: Rule)
    requires i < |calls|
  {
    ExpiresEarly(FullHistory(calls[..i], r), calls[i], r)
  }

  ghost predicate NeverExpiresEarly(calls: seq<Call>, r: Rule) {
    forall i :: 0 <= i < |calls| ==> !EarlyAt(calls, i, r)
  }

  ghost predicate AlwaysExact(calls: seq<Call>, r: Rule) {
    forall i :: 0 <= i < |calls| ==> AnswersExactly(calls, i, r)
  }

  /** Only IDs of calls are ever logged. */
  lemma {:induction false} LoggedIds(calls: seq<Call>, r: Rule)
    ensures forall id :: id in FullHistory(calls, r).admitted ==> exists i :: 0 <= i < |calls| && calls[i].id == id
  {
    if calls != [] {
      var init := calls[..|calls| - 1];
      LoggedIds(init, r);
      forall id | id in FullHistory(calls, r).admitted ensures exists i :: 0 <= i < |calls| && calls[i].id == id {
        if id in FullHistory(init, r).admitted {
          var i :| 0 <= i < |init| && init[i].id == id;
          assert calls[i].id == id;
        } else {
          assert calls[|calls| - 1].id == id;
        }
      }
    }
  }

  lemma {:induction false} RunRefines(calls: seq<Call>, seen: int, r: Rule)
    requires ValidRule(r) && FreshIds(calls) && Monotone(calls) && NeverExpiresEarly(calls, r)
    requires forall i :: 0 <= i < |calls| ==> calls[i].now <= seen
    ensures Refines(Run(calls, r), FullHistory(calls, r), seen, r)
  {
    if calls != [] {
      var n := |calls| - 1;
      var init, c := calls[..n], calls[n];
      forall i | 0 <= i < n ensures !EarlyAt(init, i, r) {
        assert init[..i] == calls[..i];
        assert !EarlyAt(calls, i, r);
      }
      assert !EarlyAt(calls, n, r);
      RunRefines(init, c.now, r);
      LoggedIds(init, r);
      assert c.id !in FullHistory(init, r).admitted;
      StepRefines(Run(init, r), FullHistory(init, r), c.now, c, r);
    }
  }

  lemma PrefixRefines(calls: seq<Call>, i: nat, r: Rule)
    requires ValidRule(r) && FreshIds(calls) && Monotone(calls) && i < |calls|
    requires forall j :: 0 <= j < i ==> !EarlyAt(calls, j, r)
    ensures Refines(Run(calls[..i], r), FullHistory(calls[..i], r), calls[i].now, r)
  {
    forall j | 0 <= j < i ensures !EarlyAt(calls[..i], j, r) {
      assert calls[..i][..j] == calls[..j];
      assert !EarlyAt(calls, j, r);
    }
    RunRefines(calls[..i], calls[i].now, r);
  }

  /** A single call is exact if and only if the key does not expire early. */
  lemma CallExactness(calls: seq<Call>, i: nat, r: Rule)
    requires ValidRule(r) && FreshIds(calls) && Monotone(calls) && i < |calls|
    requires forall j :: 0 <= j < i ==> !EarlyAt(calls, j, r)
    ensures AnswersExactly(calls, i, r) <==> !EarlyAt(calls, i, r)
  {
    PrefixRefines(calls, i, r);
    var k, log, c := Run(calls[..i], r), FullHistory(calls[..i], r), calls[i];
    StepExact(k, log, c.now, c, r);
    assert |Kept(k, c, r)| == |Kept(k, c, r).Keys|;
    if ExpiresEarly(log, c, r) {
      SubsetSize({}, InWindow(log, c, r));
    }
  }

  /** Main result. With a non-decreasing gateway clock the pruned and expiring sorted set
      answers every call as the never-forgetting limiter does if and only if the server
      never expires the key while the latest admission is inside the window. */
  lemma RefinesFullHistory(calls: seq<Call>, r: Rule)
    requires ValidRule(r) && FreshIds(calls) && Monotone(calls)
    ensures AlwaysExact(calls, r) <==> NeverExpiresEarly(calls, r)
  {
    if NeverExpiresEarly(calls, r) {
      forall i | 0 <= i < |calls| ensures AnswersExactly(calls, i, r) {
        CallExactness(calls, i, r);
      }
    }
    if AlwaysExact(calls, r) {
      ExactNeverEarly(calls, |calls|, r);
    }
  }

  lemma {:induction false} ExactNeverEarly(calls: seq<Call>, n: nat, r: Rule)
    requires ValidRule(r) && FreshIds(calls) && Monotone(calls) && AlwaysExact(calls, r) && n <= |calls|
    ensures forall j :: 0 <= j < n ==> !EarlyAt(calls, j, r)
  {
    if n > 0 {
      ExactNeverEarly(calls, n - 1, r);
      CallExactness(calls, n - 1, r);
    }
  }

  /** The server clock runs no faster than the gateway's between any two calls:
      the delay from reading the clock to running the script never grows. */
  ghost predicate DelayNeverGrows(calls: seq<Call>) {
    forall i, j :: 0 <= i < j < |calls| ==> calls[j].clock - calls[j].now <= calls[i].clock - calls[i].now
  }

  lemma {:induction false} LatestIsACall(calls: seq<Call>, r: Rule)
    ensures FullHistory(calls, r).latest.Some? ==> FullHistory(calls, r).latest.value in calls
  {
    if calls != [] {
      LatestIsACall(calls[..|calls| - 1], r);
    }
  }

  /** In particular PEXPIRE is invisible when the two clocks advance together. */
  lemma ExpiryInvisible(calls: seq<Call>, r: Rule)
    requires ValidRule(r) && FreshIds(calls) && Monotone(calls) && DelayNeverGrows(calls)
    ensures AlwaysExact(calls, r)
  {
    forall i | 0 <= i < |calls| ensures !EarlyAt(calls, i, r) {
      LatestIsACall(calls[..i], r);
    }
    RefinesFullHistory(calls, r);
  }

  /** A window below one millisecond is cut down to none: nothing is kept, every call is admitted. */
  lemma {:induction false} NoWindowNoLimit(calls: seq<Call>, r: Rule)
    requires r.limit >= 1 && r.window == 0
    ensures Run(calls, r) == NO_KEY
    ensures forall i :: 0 <= i < |calls| ==> ReplyAt(calls, i, r) == Reply(true, 1, 0)
  {
    if calls != [] {
      var n := |calls| - 1;
      NoWindowNoLimit(calls[..n], r);
      assert Kept(NO_KEY, calls[n], r) == map[];
      forall i | 0 <= i < |calls| ensures ReplyAt(calls, i, r) == Reply(true, 1, 0) {
        if i < n {
          assert calls[..n][..i] == calls[..i];
          assert ReplyAt(calls[..n], i, r) == Reply(true, 1, 0);
        }
      }
    }
  }

  /** Two calls 10 ms apart by the gateway's clock, the second delayed 1 ms more on its way
      to the server: the key is gone and a limit of one admits both. */
  lemma GrowingDelayAdmitsTwice()
    ensures var calls := [Call(0, 0, "a"), Call(10, 12, "b")];
            var r := Rule(1, 11);
            Monotone(calls) && ReplyAt(calls, 0, r).allowed && ReplyAt(calls, 1, r).allowed
  {
    var calls := [Call(0, 0, "a"), Call(10, 12, "b")];
    var r := Rule(1, 11);
    assert calls[..0] == [] && calls[..1] == [calls[0]] && calls[..1][..0] == [];
    assert After(map[], -11) == map[] && After(map[], -1) == map[];
    assert Script(NO_KEY, calls[0], r) == (Key(map["a" := 0], 11), Reply(true, 1, 0)) by {
      assert Kept(NO_KEY, calls[0], r) == map[];
    }
    assert Run(calls[..1], r) == Key(map["a" := 0], 11);
    assert Kept(Run(calls[..1], r), calls[1], r) == map[];
  }
}
