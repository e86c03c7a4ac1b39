/** What the limiter tells its callers: the retry delay and the remaining count are exact,
    and clock skew costs no more than the skew. */
module RateLimiterPromises {
  import opened Bits
  import opened Common
  import opened RateLimiter
  import opened RateLimiterHistory
  import opened Text

  // ----- exact retry delay

  lemma {:induction false} NeverOverLimit(calls: seq<Call>, r: Rule)
    requires ValidRule(r)
    ensures |Run(calls, r).members| <= r.limit
  {
    if calls != [] {
      var init, c := calls[..|calls| - 1], calls[|calls| - 1];
      NeverOverLimit(init, r);
      KeptNoLarger(Run(init, r), c, r);
    }
  }

  lemma KeptNoLarger(k: Key, c: Call, r: Rule)
    ensures |Kept(k, c, r)| <= |k.members|
  {
    SubsetSize(Kept(k, c, r).Keys, k.members.Keys);
    assert |Kept(k, c, r)| == |Kept(k, c, r).Keys| && |k.members| == |k.members.Keys|;
  }

  /** The situation shared by the promises: a run on which the limiter is exact. */
  ghost predicate Settled(calls: seq<Call>, r: Rule) {
    ValidRule(r) && r.window >= 1 && FreshIds(calls) && Monotone(calls) && NeverExpiresEarly(calls, r)
  }

  /** A denial finds exactly `limit` admissions in the window, all inside it, and the
      delay is the time the oldest of them has left. */
  lemma DenialMeaning(calls: seq<Call>, i: nat, r: Rule) returns (oldest: string)
    requires Settled(calls, r) && i < |calls| && !ReplyAt(calls, i, r).allowed
    ensures var log := FullHistory(calls[..i], r);
            var live := InWindow(log, calls[i], r);
            && |live| == r.limit
            && (forall id :: id in log.admitted ==> log.admitted[id] <= calls[i].now)
            && oldest in live
            && (forall id :: id in live ==> log.admitted[oldest] <= log.admitted[id])
            && ReplyAt(calls, i, r).retryAfter == r.window - (calls[i].now - log.admitted[oldest])
  {
    var k, log, c := Run(calls[..i], r), FullHistory(calls[..i], r), calls[i];
    PrefixRefines(calls, i, r);
    assert !EarlyAt(calls, i, r);
    StepExact(k, log, c.now, c, r);
    NeverOverLimit(calls[..i], r);
    KeptNoLarger(k, c, r);
    var kept := Kept(k, c, r);
    assert |kept| == |kept.Keys|;
    assert kept != map[];
    LeastKeyExists(kept);
    oldest :| oldest in kept && forall id :: id in kept ==> kept[oldest] <= kept[id];
    assert Oldest(kept) == kept[oldest];
    assert forall id :: id in InWindow(log, c, r) ==> id in kept && kept[id] == log.admitted[id];
  }

  lemma AnswerFor(calls: seq<Call>, i: nat, r: Rule)
    requires Settled(calls, r) && i < |calls|
    ensures AnswersExactly(calls, i, r)
    ensures calls[..i + 1][..i] == calls[..i]
    ensures FullHistory(calls[..i + 1], r) ==
            (var log := FullHistory(calls[..i], r);
             if ReplyAt(calls, i, r).allowed then Log(log.admitted[calls[i].id := calls[i].now], Some(calls[i])) else log)
  {
    RefinesFullHistory(calls, r);
    assert calls[..i + 1][..i] == calls[..i];
  }

  /** The window of `c` is full and `oldest` is its oldest admission. */
  ghost predicate FullFrom(log: Log, c: Call, oldest: string, r: Rule) {
    && oldest in log.admitted
    && |InWindow(log, c, r)| >= r.limit
    && forall id :: id in InWindow(log, c, r) ==> log.admitted[oldest] <= log.admitted[id]
  }

  /** Before the oldest admission leaves it, a full window stays full. */
  lemma StaysFull(log: Log, c: Call, d: Call, oldest: string, r: Rule)
    requires FullFrom(log, c, oldest, r) && c.now <= d.now < log.admitted[oldest] + r.window
    ensures |InWindow(log, d, r)| >= r.limit
  {
    SubsetSize(InWindow(log, c, r), InWindow(log, d, r));
  }

  /** Until the promised delay is over every call is denied and nothing is logged. */
  lemma {:induction false} DeniedUntil(calls: seq<Call>, i: nat, n: nat, log: Log, oldest: string, r: Rule)
    requires Monotone(calls) && i < n <= |calls|
    requires log == FullHistory(calls[..i], r) && FullFrom(log, calls[i], oldest, r)
    requires forall k :: i < k < n ==> calls[k].now < log.admitted[oldest] + r.window
    ensures FullHistory(calls[..n], r) == log
  {
    var m := n - 1;
    assert calls[..n][..m] == calls[..m];
    if m > i {
      DeniedUntil(calls, i, m, log, oldest, r);
      StaysFull(log, calls[i], calls[m], oldest, r);
    }
  }

  /** Main result. After a denial with delay w, w lies in 1..window, every later call before
      the delay is over is denied, and the first call once it is over is admitted. */
  lemma RetryAfterIsExact(calls: seq<Call>, i: nat, j: nat, r: Rule)
    requires Settled(calls, r) && i < j < |calls| && !ReplyAt(calls, i, r).allowed
    requires forall k :: i < k < j ==> calls[k].now < calls[i].now + ReplyAt(calls, i, r).retryAfter
    ensures 1 <= ReplyAt(calls, i, r).retryAfter <= r.window
    ensures ReplyAt(calls, j, r).allowed <==> calls[j].now >= calls[i].now + ReplyAt(calls, i, r).retryAfter
  {
    var oldest := DenialMeaning(calls, i, r);
    var log := FullHistory(calls[..i], r);
    DeniedUntil(calls, i, j, log, oldest, r);
    AnswerFor(calls, j, r);
    var live, later := InWindow(log, calls[i], r), InWindow(log, calls[j], r);
    if calls[j].now >= log.admitted[oldest] + r.window {
      assert later <= live - {oldest};
      SubsetSize(later, live - {oldest});
      SubsetSize(live - {oldest}, live);
    } else {
      StaysFull(log, calls[i], calls[j], oldest, r);
    }
  }

  /** The header never tells a client to come back too early, nor a second too late, if and only
      if rounding up does not overflow, within a second of the longest Duration. */
  lemma HeaderCoversDelay(retryAfter: int)
    requires retryAfter >= 1 && IsInt64(retryAfter * NANOS_PER_MILLI)
    ensures var seconds := RetryAfterSeconds(retryAfter * NANOS_PER_MILLI);
            retryAfter <= seconds * 1000 < retryAfter + 1000
            <==> IsInt64(retryAfter * NANOS_PER_MILLI + NANOS_PER_SECOND - 1)
  {
    var d := retryAfter * NANOS_PER_MILLI;
    var up := d + NANOS_PER_SECOND - 1;
    if IsInt64(up) {
      assert WrapInt64(up) == up;
      assert d <= up / NANOS_PER_SECOND * NANOS_PER_SECOND < d + NANOS_PER_SECOND;
    } else {
      assert WrapInt64(up) < 0;
    }
  }

  /** With any clocks and any key, a denied caller is told to wait until the oldest counted entry
      leaves the window, never less than a millisecond. */
  lemma DelayUntilOldestLeaves(k: Key, c: Call, r: Rule) returns (oldest: string)
    requires ValidRule(r) && !Script(k, c, r).1.allowed
    ensures oldest in k.members && c.clock <= k.deadline
    ensures forall id :: id in k.members && k.members[id] > c.now - r.window ==> k.members[oldest] <= k.members[id]
    ensures c.now + Script(k, c, r).1.retryAfter == k.members[oldest] + r.window
    ensures Script(k, c, r).1.retryAfter >= 1
  {
    var kept := Kept(k, c, r);
    assert kept != map[];
    LeastKeyExists(kept);
    oldest :| oldest in kept && forall id :: id in kept ==> kept[oldest] <= kept[id];
    assert Oldest(kept) == kept[oldest];
    assert forall id :: id in k.members && k.members[id] > c.now - r.window ==> id in kept;
  }

  /** An admission tells its caller to wait for nothing, whatever the key holds. */
  lemma AdmissionHasNoDelay(k: Key, c: Call, r: Rule)
    ensures Script(k, c, r).1.allowed ==> Script(k, c, r).1.retryAfter == 0
    ensures !Script(k, c, r).1.allowed <==> |Kept(k, c, r)| >= r.limit
  {
  }

  /** A client is never told to come back at once. */
  lemma HeaderIsPositive(duration: int)
    ensures RetryAfterSeconds(duration) >= 1
    ensures duration <= 0 ==> RetryAfterSeconds(duration) == 1
  {
  }

  // ----- exact remaining count

  /** The admissions that call k finds in its window. */
  ghost function FoundBy(calls: seq<Call>, k: nat, r: Rule): set<string>
    requires k < |calls|
  {
    InWindow(FullHistory(calls[..k], r), calls[k], r)
  }

  /** No admission in the window at `from` leaves it before `until`. */
  ghost predicate Outlasts(log: Log, from: int, until: int, r: Rule) {
    forall id :: id in log.admitted && log.admitted[id] > from - r.window ==>
      log.admitted[id] > until - r.window
  }

  /** What is in the window at any moment in between is what is in it at `until`. */
  lemma WindowStays(log: Log, from: int, c: Call, until: Call, r: Rule)
    requires Outlasts(log, from, until.now, r) && from <= c.now <= until.now
    requires forall id :: id in log.admitted ==> log.admitted[id] <= c.now
    ensures InWindow(log, c, r) == InWindow(log, until, r)
  {
  }

  lemma LoggedBefore(calls: seq<Call>, i: nat, r: Rule)
    requires Settled(calls, r) && i < |calls|
    ensures forall id :: id in FullHistory(calls[..i], r).admitted ==>
              FullHistory(calls[..i], r).admitted[id] <= calls[i].now
    ensures calls[i].id !in FullHistory(calls[..i], r).admitted
  {
    PrefixRefines(calls, i, r);
    LoggedIds(calls[..i], r);
  }

  /** Call i is admitted, its admission and those in its window stay in the window up to `until`,
      and so does every call before n. */
  ghost predicate Lasting(calls: seq<Call>, i: nat, n: nat, until: int, r: Rule) {
    && i < n <= |calls| && ReplyAt(calls, i, r).allowed
    && until < calls[i].now + r.window
    && (forall id :: id in InWindow(FullHistory(calls[..i], r), calls[i], r) ==>
          until < FullHistory(calls[..i], r).admitted[id] + r.window)
    && (forall k :: i <= k < n ==> calls[k].now <= until)
  }

  lemma {:induction false} NoneLeaves(calls: seq<Call>, i: nat, n: nat, until: int, r: Rule)
    requires Settled(calls, r) && Lasting(calls, i, n, until, r)
    ensures Outlasts(FullHistory(calls[..n], r), calls[i].now, until, r)
  {
    var m := n - 1;
    AnswerFor(calls, m, r);
    if m > i {
      NoneLeaves(calls, i, m, until, r);
    } else {
      LoggedBefore(calls, i, r);
    }
  }

  /** An admitted call adds itself to what is in the window at `until`, and nothing else. */
  lemma AdmissionCounts(calls: seq<Call>, m: nat, until: Call, r: Rule)
    requires Settled(calls, r) && m < |calls| && calls[m].now <= until.now < calls[m].now + r.window
    ensures |InWindow(FullHistory(calls[..m + 1], r), until, r)| ==
            |InWindow(FullHistory(calls[..m], r), until, r)| + (if ReplyAt(calls, m, r).allowed then 1 else 0)
  {
    AnswerFor(calls, m, r);
    LoggedBefore(calls, m, r);
    if ReplyAt(calls, m, r).allowed {
      AddedToWindow(FullHistory(calls[..m], r), calls[m], until, r);
    }
  }

  lemma AddedToWindow(log: Log, c: Call, until: Call, r: Rule)
    requires c.id !in log.admitted && c.now <= until.now < c.now + r.window
    ensures |InWindow(Log(log.admitted[c.id := c.now], Some(c)), until, r)| == |InWindow(log, until, r)| + 1
  {
    assert InWindow(Log(log.admitted[c.id := c.now], Some(c)), until, r) == InWindow(log, until, r) + {c.id};
  }

  /** What call m finds in its window is what of it is there at `until`. */
  lemma FoundAtUntil(calls: seq<Call>, i: nat, m: nat, until: Call, r: Rule)
    requires Settled(calls, r) && i <= m && Lasting(calls, i, m + 1, until.now, r)
    ensures FoundBy(calls, m, r) == InWindow(FullHistory(calls[..m], r), until, r)
  {
    LoggedBefore(calls, m, r);
    if m > i {
      NoneLeaves(calls, i, m, until.now, r);
      WindowStays(FullHistory(calls[..m], r), calls[i].now, calls[m], until, r);
    }
  }

  /** The number of admissions in the window after calls i..n-1, as long as none leaves it. */
  lemma {:induction false} WindowCount(calls: seq<Call>, i: nat, n: nat, until: Call, r: Rule)
    requires Settled(calls, r) && Lasting(calls, i, n, until.now, r)
    ensures var total := ReplyAt(calls, i, r).count + (n - 1 - i);
            |InWindow(FullHistory(calls[..n], r), until, r)| == if total <= r.limit then total else r.limit
  {
    var m := n - 1;
    RefinesFullHistory(calls, r);
    assert AnswersExactly(calls, m, r);
    FoundAtUntil(calls, i, m, until, r);
    AdmissionCounts(calls, m, until, r);
    if m > i {
      WindowCount(calls, i, m, until, r);
    }
  }

  /** Main result. `Remaining` is exact: until an admission leaves the window, of the calls that
      follow, whenever they come, exactly the next limit - count are admitted. */
  lemma RemainingIsExact(calls: seq<Call>, i: nat, j: nat, until: int, r: Rule)
    requires Settled(calls, r) && i < j < |calls| && Lasting(calls, i, j + 1, until, r)
    ensures ReplyAt(calls, j, r).allowed <==> j - i <= r.limit - ReplyAt(calls, i, r).count
  {
    var end := Call(until, 0, "");
    WindowCount(calls, i, j, end, r);
    FoundAtUntil(calls, i, j, end, r);
    AnswerFor(calls, j, r);
  }

  /** A call finds at most one admission more in the window than the call before it found. */
  lemma WindowGrowsByOne(calls: seq<Call>, k: nat, r: Rule)
    requires Settled(calls, r) && k + 1 < |calls|
    ensures |FoundBy(calls, k + 1, r)| <= |FoundBy(calls, k, r)| + 1
  {
    AnswerFor(calls, k, r);
    LoggedBefore(calls, k, r);
    SubsetSize(FoundBy(calls, k + 1, r), FoundBy(calls, k, r) + {calls[k].id});
  }

  lemma {:induction false} WindowGrows(calls: seq<Call>, i: nat, j: nat, r: Rule)
    requires Settled(calls, r) && i <= j < |calls|
    ensures |FoundBy(calls, j, r)| <= |FoundBy(calls, i, r)| + (j - i)
    decreases j
  {
    if j > i {
      WindowGrows(calls, i, j - 1, r);
      WindowGrowsByOne(calls, j - 1, r);
    }
  }

  /** Main result. `Remaining` is kept for ever: the next limit - count calls are admitted however
      late they come. */
  lemma RemainingIsKept(calls: seq<Call>, i: nat, j: nat, r: Rule)
    requires Settled(calls, r) && i < j < |calls| && ReplyAt(calls, i, r).allowed
    requires j - i <= r.limit - ReplyAt(calls, i, r).count
    ensures ReplyAt(calls, j, r).allowed
  {
    AnswerFor(calls, i, r);
    AnswerFor(calls, j, r);
    WindowGrows(calls, i, j, r);
  }

  // ----- clock skew

  /** Gateways whose clocks differ: a reading is at most d behind any earlier one, and the
      server expires no key that saw an admission less than window - d ago by the
      gateways' clocks. */
  ghost predicate Skewed(calls: seq<Call>, d: int, r: Rule) {
    forall i, j :: 0 <= i < j < |calls| ==>
      && calls[i].clock <= calls[j].clock
      && calls[j].now >= calls[i].now - d
      && (calls[j].clock - calls[i].clock > r.window ==> calls[j].now - calls[i].now >= r.window - d)
  }

  /** Admissions with a reading in [from, from + length). */
  ghost function AdmittedIn(calls: seq<Call>, from: int, length: int, r: Rule): set<int> {
    set i | 0 <= i < |calls| && ReplyAt(calls, i, r).allowed && from <= calls[i].now < from + length
  }

  /** An admission stays in the key as long as no later call prunes or expires it. */
  lemma {:induction false} Survives(calls: seq<Call>, y: nat, n: nat, r: Rule)
    requires ValidRule(r) && r.window > 0 && FreshIds(calls) && y < n <= |calls| && ReplyAt(calls, y, r).allowed
    requires forall i, j :: 0 <= i < j < |calls| ==> calls[i].clock <= calls[j].clock
    requires forall z :: y < z < n ==>
               calls[z].now - r.window < calls[y].now && calls[z].clock <= calls[y].clock + r.window
    ensures var k := Run(calls[..n], r);
            calls[y].id in k.members && k.members[calls[y].id] == calls[y].now && k.deadline >= calls[y].clock + r.window
  {
    var m := n - 1;
    assert calls[..n][..m] == calls[..m];
    if m > y {
      Survives(calls, y, m, r);
      assert calls[y].id in Kept(Run(calls[..m], r), calls[m], r);
      assert calls[m].id != calls[y].id;
    }
  }

  /** The admissions of a span that precede its last one are all still counted by it. */
  lemma SpanIsKept(calls: seq<Call>, x: nat, y: nat, d: int, r: Rule)
    requires ValidRule(r) && 0 <= d < r.window && FreshIds(calls) && Skewed(calls, d, r)
    requires y < x < |calls| && ReplyAt(calls, y, r).allowed
    requires -(r.window - d) < calls[x].now - calls[y].now < r.window - d
    ensures calls[y].id in Kept(Run(calls[..x], r), calls[x], r)
  {
    assert calls[x].clock <= calls[y].clock + r.window;
    forall z | y < z < x ensures calls[z].now - r.window < calls[y].now && calls[z].clock <= calls[y].clock + r.window {
      assert calls[z].clock <= calls[x].clock && calls[x].now >= calls[z].now - d;
    }
    Survives(calls, y, x, r);
  }

  /** Distinct calls with IDs in a set are no more than the set. */
  lemma CallsFit(calls: seq<Call>, s: set<int>, ids: set<string>)
    requires FreshIds(calls) && forall y :: y in s ==> 0 <= y < |calls| && calls[y].id in ids
    ensures |s| <= |ids|
  {
    Distinct(calls, s);
    SubsetSize(set y | y in s :: calls[y].id, ids);
  }

  /** Main result. With readings skewed by at most d, every span of length window - d holds
      at most `limit` admissions, over every sequence of calls. */
  lemma SkewBound(calls: seq<Call>, from: int, d: int, r: Rule)
    requires ValidRule(r) && 0 <= d < r.window && FreshIds(calls) && Skewed(calls, d, r)
    ensures |AdmittedIn(calls, from, r.window - d, r)| <= r.limit
  {
    var span := AdmittedIn(calls, from, r.window - d, r);
    if span != {} {
      var x := Latest(span);
      var kept := Kept(Run(calls[..x], r), calls[x], r);
      forall y | y in span - {x} ensures calls[y].id in kept.Keys {
        SpanIsKept(calls, x, y, d, r);
      }
      CallsFit(calls, span - {x}, kept.Keys);
      assert |kept| == |kept.Keys|;
    }
  }

  // ----- windows below one millisecond

  ghost predicate AdmitsAll(calls: seq<Call>, r: Rule) {
    forall i :: 0 <= i < |calls| ==> ReplyAt(calls, i, r).allowed
  }

  ghost function UpTo(n: nat): (s: set<int>)
    ensures |s| == n && forall y :: y in s <==> 0 <= y < n
  {
    if n == 0 then {} else UpTo(n - 1) + {n - 1}
  }

  /** Calls made and admitted all at once are all still in the key. */
  lemma BurstIsKept(calls: seq<Call>, r: Rule)
    requires ValidRule(r) && r.window > 0 && FreshIds(calls) && AdmitsAll(calls, r)
    requires forall i :: 0 <= i < |calls| ==> calls[i].now == 0 && calls[i].clock == 0
    ensures |Run(calls, r).members| >= |calls|
  {
    var members := Run(calls, r).members;
    assert calls[..|calls|] == calls;
    forall y | 0 <= y < |calls| ensures calls[y].id in members {
      Survives(calls, y, |calls|, r);
    }
    CallsFit(calls, UpTo(|calls|), members.Keys);
    assert |members| == |members.Keys|;
  }

  /** More calls than the limit, all at once, are not all admitted. */
  lemma BurstIsDenied(calls: seq<Call>, r: Rule)
    requires ValidRule(r) && r.window > 0 && FreshIds(calls) && |calls| > r.limit
    requires forall i :: 0 <= i < |calls| ==> calls[i].now == 0 && calls[i].clock == 0
    ensures !AdmitsAll(calls, r)
  {
    if AdmitsAll(calls, r) {
      BurstIsKept(calls, r);
      NeverOverLimit(calls, r);
    }
  }

  /** `Allow` accepts every positive window, in nanoseconds, but one shorter than a millisecond
      limits nothing, and only such a one. */
  lemma ShortWindowLimitsNothing(limit: int, nanos: int)
    requires limit >= 1 && nanos >= 1
    ensures (forall calls :: FreshIds(calls) ==> AdmitsAll(calls, Rule(limit, nanos / NANOS_PER_MILLI)))
            <==> nanos < NANOS_PER_MILLI
  {
    var r := Rule(limit, nanos / NANOS_PER_MILLI);
    if nanos < NANOS_PER_MILLI {
      forall calls | FreshIds(calls) ensures AdmitsAll(calls, r) {
        NoWindowNoLimit(calls, r);
      }
    } else {
      var calls := seq(limit + 1, i requires 0 <= i <= limit => Call(0, 0, Itoa(i)));
      forall i, j | 0 <= i < j < |calls| ensures calls[i].id != calls[j].id {
        if Itoa(i) == Itoa(j) {
          ItoaInjective(i, j);
        }
      }
      BurstIsDenied(calls, r);
    }
  }

  lemma Distinct(calls: seq<Call>, s: set<int>)
    requires FreshIds(calls) && forall y :: y in s ==> 0 <= y < |calls|
    ensures |set y | y in s :: calls[y].id| == |s|
    decreases |s|
  {
    if s != {} {
      var x := Latest(s);
      Distinct(calls, s - {x});
      var rest := set y | y in s - {x} :: calls[y].id;
      assert (set y | y in s :: calls[y].id) == rest + {calls[x].id};
      assert calls[x].id !in rest;
    }
  }

  /** It suffices that the gateways' offsets from the server clock lie within d of each other. */
  lemma BoundedOffsetIsSkewed(calls: seq<Call>, d: int, r: Rule)
    requires forall i, j :: 0 <= i < j < |calls| ==> calls[i].clock <= calls[j].clock
    requires forall i, j :: 0 <= i < |calls| && 0 <= j < |calls| ==>
               (calls[i].clock - calls[i].now) - (calls[j].clock - calls[j].now) <= d
    ensures Skewed(calls, d, r)
  {
    forall i, j | 0 <= i < j < |calls|
      ensures calls[j].now >= calls[i].now - d
      ensures calls[j].clock - calls[i].clock > r.window ==> calls[j].now - calls[i].now >= r.window - d
    {
      assert (calls[j].clock - calls[j].now) - (calls[i].clock - calls[i].now) <= d;
    }
  }

  const TIGHT_RULE := Rule(2, 10)
  const TIGHT_CALLS := [Call(0, 0, "a"), Call(0, 0, "b"), Call(10, 10, "c"), Call(7, 10, "d")]

  lemma TightKeys()
    ensures Run(TIGHT_CALLS[..0], TIGHT_RULE) == NO_KEY
    ensures Run(TIGHT_CALLS[..1], TIGHT_RULE) == Key(map["a" := 0], 10)
    ensures Run(TIGHT_CALLS[..2], TIGHT_RULE) == Key(map["a" := 0, "b" := 0], 10)
    ensures Run(TIGHT_CALLS[..3], TIGHT_RULE) == Key(map["c" := 10], 20)
  {
    var a, b, c := TIGHT_CALLS[0], TIGHT_CALLS[1], TIGHT_CALLS[2];
    var r := TIGHT_RULE;
    assert TIGHT_CALLS[..0] == [] && TIGHT_CALLS[..1] == [a] && TIGHT_CALLS[..2] == [a, b] && TIGHT_CALLS[..3] == [a, b, c];
    assert [a][..0] == [] && [a, b][..1] == [a] && [a, b, c][..2] == [a, b];
    assert Kept(NO_KEY, a, r) == map[];
    assert Run([a], r) == Key(map["a" := 0], 10);
    assert Kept(Key(map["a" := 0], 10), b, r) == map["a" := 0];
    assert Run([a, b], r) == Key(map["a" := 0, "b" := 0], 10);
    assert Kept(Key(map["a" := 0, "b" := 0], 10), c, r) == map[];
  }

  lemma TightCallsAreSkewed()
    ensures FreshIds(TIGHT_CALLS) && Skewed(TIGHT_CALLS, 3, TIGHT_RULE)
  {
    forall i, j | 0 <= i < j < 4 ensures TIGHT_CALLS[i].id != TIGHT_CALLS[j].id {
      assert TIGHT_CALLS[i].id[0] != TIGHT_CALLS[j].id[0];
    }
  }

  /** The bound is tight: with d = 3, a span one millisecond longer than window - d can
      hold more than `limit` admissions. */
  lemma SkewBoundIsTight()
    ensures FreshIds(TIGHT_CALLS) && Skewed(TIGHT_CALLS, 3, TIGHT_RULE)
    ensures AdmittedIn(TIGHT_CALLS, 0, TIGHT_RULE.window - 3 + 1, TIGHT_RULE) == {0, 1, 3}
  {
    TightCallsAreSkewed();
    TightKeys();
    var r := TIGHT_RULE;
    assert Kept(NO_KEY, TIGHT_CALLS[0], r) == map[];
    assert Kept(Key(map["a" := 0], 10), TIGHT_CALLS[1], r) == map["a" := 0];
    assert Kept(Key(map["c" := 10], 20), TIGHT_CALLS[3], r) == map["c" := 10];
    assert ReplyAt(TIGHT_CALLS, 0, r).allowed && ReplyAt(TIGHT_CALLS, 1, r).allowed && ReplyAt(TIGHT_CALLS, 3, r).allowed;
  }
}
