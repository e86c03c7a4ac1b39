/** The runtime configuration: a watch loop that publishes valid versions to a store. */
module RuntimeConfig {
  import opened Common
  import opened Bits

  /** Durations are missing when they do not parse; `rest` stands for the fields copied as they are. */
  datatype Config = Config(version: int, window: Option<int>, redisTimeout: Option<int>, limit: int, rest: string)

  datatype Snapshot = Snapshot(version: int, window: int, redisTimeout: int, limit: int, rest: string)

  function BuildSnapshot(c: Config): Option<Snapshot> {
    if c.window.None? || c.window.value <= 0 then None
    else if c.redisTimeout.None? || c.redisTimeout.value <= 0 then None
    else Some(Snapshot(c.version, c.window.value, c.redisTimeout.value, c.limit, c.rest))
  }

  /** What one blocking query brings: an error, or an index and a body that may not parse. */
  datatype Event = WatchError | Value(index: nat, config: Option<Config>)

  // ----- what the store should show, read off the events

  /** The largest index seen. */
  function MaxIndex(events: seq<Event>): nat {
    if events == [] then 0
    else
      var before := MaxIndex(events[..|events| - 1]);
      match events[|events| - 1]
      case Value(index, _) => if index > before then index else before
      case WatchError => before
  }

  /** Event i is a valid configuration under an index larger than all before it. */
  predicate Publishes(events: seq<Event>, i: nat)
    requires i < |events|
  {
    && events[i].Value? && events[i].index > MaxIndex(events[..i])
    && events[i].config.Some? && BuildSnapshot(events[i].config.value).Some?
  }

  predicate LastPublished(events: seq<Event>, i: nat) {
    i < |events| && Publishes(events, i) && forall j :: i < j < |events| ==> !Publishes(events, j)
  }

  /** Watch errors since the last publication. */
  function ErrorsSince(events: seq<Event>): nat {
    if events == [] then 0
    else
      var n := |events| - 1;
      if Publishes(events, n) then 0
      else ErrorsSince(events[..n]) + (if events[n].WatchError? then 1 else 0)
  }

  /** Seconds: doubled with every error, 30 at most. */
  function Delay(errors: nat): int {
    if Pow2(errors) > 30 then 30 else Pow2(errors)
  }

  /** A configuration is published exactly if both durations parse and are positive, and then field by
      field. */
  lemma SnapshotMeaning(c: Config)
    ensures BuildSnapshot(c).Some? <==>
              c.window.Some? && c.window.value > 0 && c.redisTimeout.Some? && c.redisTimeout.value > 0
    ensures BuildSnapshot(c).Some? ==> Shows(BuildSnapshot(c).value, c)
  {
  }

  ghost predicate Shows(s: Snapshot, c: Config) {
    && s.version == c.version && Some(s.window) == c.window && Some(s.redisTimeout) == c.redisTimeout
    && s.limit == c.limit && s.rest == c.rest
  }

  /** The wait index is the largest index of any event, or zero. */
  lemma {:induction false} MaxIndexMeaning(events: seq<Event>)
    ensures forall i :: 0 <= i < |events| && events[i].Value? ==> events[i].index <= MaxIndex(events)
    ensures MaxIndex(events) == 0 || exists i :: 0 <= i < |events| && events[i].Value? && events[i].index == MaxIndex(events)
  {
    if events != [] {
      var n := |events| - 1;
      var init := events[..n];
      MaxIndexMeaning(init);
      assert forall i :: 0 <= i < n ==> events[i] == init[i];
      if MaxIndex(init) != 0 && MaxIndex(events) == MaxIndex(init) {
        var i :| 0 <= i < |init| && init[i].Value? && init[i].index == MaxIndex(init);
        assert events[i].Value? && events[i].index == MaxIndex(events);
      }
    }
  }

  /** Event i publishes exactly if its index is larger than that of every earlier event, and not
      zero, and its body parses with positive durations. */
  lemma PublishesExactly(events: seq<Event>, i: nat)
    requires i < |events|
    ensures Publishes(events, i) <==>
            && events[i].Value? && events[i].index > 0
            && (forall j :: 0 <= j < i && events[j].Value? ==> events[j].index < events[i].index)
            && events[i].config.Some?
            && var c := events[i].config.value;
               c.window.Some? && c.window.value > 0 && c.redisTimeout.Some? && c.redisTimeout.value > 0
  {
    MaxIndexMeaning(events[..i]);
    assert forall j :: 0 <= j < i ==> events[..i][j] == events[j];
  }

  /** Positions of watch errors from `from` on. */
  ghost function ErrorsFrom(events: seq<Event>, from: nat): set<int> {
    set j | from <= j < |events| && events[j].WatchError?
  }

  /** The errors counted are those after the last publication, or all if there is none. */
  lemma {:induction false} ErrorsSinceMeaning(events: seq<Event>, from: nat)
    requires from <= |events| && (from > 0 ==> Publishes(events, from - 1))
    requires forall j :: from <= j < |events| ==> !Publishes(events, j)
    ensures ErrorsSince(events) == |ErrorsFrom(events, from)|
    decreases |events|
  {
    if from == |events| {
      assert ErrorsFrom(events, from) == {};
    } else {
      var n := |events| - 1;
      var init := events[..n];
      if from > 0 {
        PublishesInPrefix(events, n, from - 1);
      }
      forall j | from <= j < n ensures !Publishes(init, j) {
        PublishesInPrefix(events, n, j);
      }
      ErrorsSinceMeaning(init, from);
      assert !Publishes(events, n);
      assert ErrorsFrom(events, from) == ErrorsFrom(init, from) + if events[n].WatchError? then {n} else {};
    }
  }

  /** The waits in seconds. */
  lemma DelaySequence()
    ensures Delay(0) == 1 && Delay(1) == 2 && Delay(2) == 4 && Delay(3) == 8 && Delay(4) == 16
    ensures forall k :: k >= 5 ==> Delay(k) == 30
  {
    assert Pow2(2) == 4 && Pow2(3) == 8 && Pow2(4) == 16 && Pow2(5) == 32;
    forall k: nat | k >= 5 ensures Pow2(k) >= 32 {
      PowGrows(5, k);
    }
  }

  class Store {
    var current: Snapshot

    constructor (initial: Snapshot)
      ensures current == initial
    {
      current := initial;
    }

    method Publish(snapshot: Snapshot)
      modifies this
      ensures current == snapshot
    {
      current := snapshot;
    }
  }

  lemma PublishesInPrefix(events: seq<Event>, n: nat, i: nat)
    requires i < n <= |events|
    ensures Publishes(events[..n], i) == Publishes(events, i)
  {
    assert events[..n][..i] == events[..i];
  }

  lemma LastPublishedStep(events: seq<Event>, n: nat)
    requires n < |events|
    ensures events[..n + 1][..n] == events[..n]
    ensures forall i: nat :: LastPublished(events[..n + 1], i) <==>
              if Publishes(events, n) then i == n else LastPublished(events[..n], i)
  {
    assert events[..n + 1][..n] == events[..n];
    var longer, shorter := events[..n + 1], events[..n];
    forall j | 0 <= j < n ensures Publishes(longer, j) == Publishes(shorter, j) {
      PublishesInPrefix(events, n + 1, j);
      PublishesInPrefix(events, n, j);
    }
    PublishesInPrefix(events, n + 1, n);
    forall i: nat ensures LastPublished(longer, i) <==>
                            if Publishes(events, n) then i == n else LastPublished(shorter, i) {
      if i < n && LastPublished(longer, i) {
        assert !Publishes(longer, n);
        forall j | i < j < n ensures !Publishes(shorter, j) {
          assert !Publishes(longer, j);
        }
      } else if i < n && LastPublished(shorter, i) && !Publishes(events, n) {
        forall j | i < j < n + 1 ensures !Publishes(longer, j) {
          assert j < n ==> !Publishes(shorter, j);
        }
      }
    }
  }

  /** Main result. However the events fall, up to any moment at which the loop is cancelled: the
      store shows the snapshot of the last valid configuration that advanced the index, or the
      initial one if there is none; the wait index is the largest index seen; and the delay
      after k errors since the last publication is min(2^k, 30) seconds. */
  method Run(store: Store, events: seq<Event>) returns (waitIndex: nat, retryDelay: int)
    modifies store
    ensures waitIndex == MaxIndex(events)
    ensures retryDelay == Delay(ErrorsSince(events))
    ensures forall i: nat :: LastPublished(events, i) ==> Shows(store.current, events[i].config.value)
    ensures (forall i: nat :: !LastPublished(events, i)) ==> store.current == old(store.current)
  {
    waitIndex := 0;
    retryDelay := 1;
    for n := 0 to |events|
      invariant waitIndex == MaxIndex(events[..n])
      invariant retryDelay == Delay(ErrorsSince(events[..n]))
      invariant forall i: nat :: LastPublished(events[..n], i) ==> Some(store.current) == BuildSnapshot(events[i].config.value)
      invariant (forall i: nat :: !LastPublished(events[..n], i)) ==> store.current == old(store.current)
    {
      LastPublishedStep(events, n);
      PublishesInPrefix(events, n + 1, n);
      if events[n].WatchError? {
        retryDelay := retryDelay * 2;
        if retryDelay > 30 {
          retryDelay := 30;
        }
        continue;
      }
      var Value(modifyIndex, parsed) := events[n];
      if modifyIndex <= waitIndex {
        continue;
      }
      waitIndex := modifyIndex;
      if parsed.None? {
        continue;
      }
      var snapshot := BuildSnapshot(parsed.value);
      if snapshot.None? {
        continue;
      }
      store.Publish(snapshot.value);
      assert LastPublished(events[..n + 1], n);
      retryDelay := 1;
    }
    assert events[..|events|] == events;
    forall i: nat | LastPublished(events, i) ensures Shows(store.current, events[i].config.value) {
      SnapshotMeaning(events[i].config.value);
    }
  }

  /** The wait index never decreases, and a publication is never lost: if any event publishes,
      exactly one is the last. */
  lemma {:induction false} IndexAndPublication(events: seq<Event>, n: nat)
    requires n <= |events|
    ensures MaxIndex(events[..n]) <= MaxIndex(events)
    ensures (exists i: nat :: i < n && Publishes(events, i)) ==> exists i: nat :: LastPublished(events[..n], i)
    decreases |events|, n
  {
    if n < |events| {
      var init := events[..|events| - 1];
      assert init[..n] == events[..n];
      IndexAndPublication(init, n);
      forall i: nat | i < n ensures Publishes(init, i) == Publishes(events, i) {
        PublishesInPrefix(events, |init|, i);
      }
    } else if n > 0 {
      assert events[..n] == events;
      LastPublishedStep(events, n - 1);
      if Publishes(events, n - 1) {
        assert LastPublished(events[..n], n - 1);
      } else if exists i: nat :: i < n && Publishes(events, i) {
        var i: nat :| i < n && Publishes(events, i);
        IndexAndPublication(events, n - 1);
        assert i < n - 1;
        var k: nat :| LastPublished(events[..n - 1], k);
        assert LastPublished(events[..n], k);
      }
    }
  }
}
