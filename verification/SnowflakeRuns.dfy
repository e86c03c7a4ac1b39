/** IDs over whole runs of a generator, including waits, sequence wrap, rejected
    backward clocks and capacity errors. */
module SnowflakeRuns {
  import opened Common
  import opened Bits
  import opened Snowflake

  ghost predicate Playable(g: Gen, ticks: seq<Tick>)
    requires ValidGen(g)
    decreases |ticks|
  {
    ticks == [] || (TickFor(g, ticks[0]) && Playable(Draw(g, ticks[0]).0, ticks[1..]))
  }

  ghost function Results(g: Gen, ticks: seq<Tick>): (rs: seq<Result<nat, IdError>>)
    requires ValidGen(g) && Playable(g, ticks)
    ensures |rs| == |ticks|
    decreases |ticks|
  {
    if ticks == [] then []
    else
      var (g', r) := Draw(g, ticks[0]);
      [r] + Results(g', ticks[1..])
  }

  /** The first call and the rest of a run. */
  lemma FirstResult(g: Gen, ticks: seq<Tick>) returns (g': Gen, r: Result<nat, IdError>)
    requires ValidGen(g) && Playable(g, ticks) && ticks != []
    ensures (g', r) == Draw(g, ticks[0]) && ValidGen(g') && Playable(g', ticks[1..])
    ensures Results(g, ticks) == [r] + Results(g', ticks[1..])
  {
    g', r := Draw(g, ticks[0]).0, Draw(g, ticks[0]).1;
  }

  ghost predicate Increasing(rs: seq<Result<nat, IdError>>) {
    forall i, j :: 0 <= i < j < |rs| && rs[i].Ok? && rs[j].Ok? ==> rs[i].value < rs[j].value
  }

  /** No reading ever goes back. A call that does not wait may repeat `now` as `later`. */
  ghost predicate ClockNeverBack(ticks: seq<Tick>) {
    && (forall i :: 0 <= i < |ticks| ==> ticks[i].now <= ticks[i].later)
    && (forall i, j :: 0 <= i < j < |ticks| ==> ticks[i].later <= ticks[j].now)
  }

  ghost predicate BelowCapacity(ticks: seq<Tick>) {
    forall i :: 0 <= i < |ticks| ==> ticks[i].now < EPOCH + TIME_LIMIT && ticks[i].later < EPOCH + TIME_LIMIT
  }

  /** `issued` is the latest ID handed out (-1 before the first), and the generator's
      position is not before it. */
  ghost predicate Remembers(g: Gen, issued: int) {
    && ValidGen(g)
    && (g.last == -1 ==> issued == -1)
    && (g.last != -1 ==> issued <= Pack(g.last - EPOCH, g.node, g.sequence))
  }

  /** One call: an ID it returns is larger than the last one issued, and the generator keeps
      remembering unless the call ran out of capacity. */
  lemma DrawIncreases(g: Gen, issued: int, t: Tick)
    requires Remembers(g, issued) && TickFor(g, t)
    ensures var (g', r) := Draw(g, t);
            && (r.Ok? ==> r.value > issued && Remembers(g', r.value))
            && (r.Err? && r.error != CapacityExhausted ==> g' == g)
  {
    NextSequenceMeaning(g.sequence);
    var (g', r) := Draw(g, t);
    if r.Ok? {
      assert r.value == Pack(g'.last - EPOCH, g.node, g'.sequence);
      if g.last != -1 {
        PackOrder(g.last - EPOCH, g.sequence, g'.last - EPOCH, g'.sequence, g.node);
      }
    }
  }

  /** Once the clock is past the capacity for good, no ID is issued again. */
  lemma {:induction false} NothingAfterCapacity(g: Gen, ticks: seq<Tick>)
    requires ValidGen(g) && Playable(g, ticks)
    requires forall i :: 0 <= i < |ticks| ==> ticks[i].now >= EPOCH + TIME_LIMIT
    ensures forall i :: 0 <= i < |ticks| ==> Results(g, ticks)[i].Err?
    decreases |ticks|
  {
    if ticks != [] {
      var g', r := FirstResult(g, ticks);
      NothingAfterCapacity(g', ticks[1..]);
    }
  }

  lemma {:induction false} IncreasingFrom(g: Gen, issued: int, ticks: seq<Tick>)
    requires Remembers(g, issued) && Playable(g, ticks)
    requires ClockNeverBack(ticks) || BelowCapacity(ticks)
    ensures var rs := Results(g, ticks);
            Increasing(rs) && forall i :: 0 <= i < |rs| && rs[i].Ok? ==> rs[i].value > issued
    decreases |ticks|
  {
    if ticks != [] {
      var t, rest := ticks[0], ticks[1..];
      var g', r := FirstResult(g, ticks);
      DrawIncreases(g, issued, t);
      if r == Err(CapacityExhausted) {
        forall i | 0 <= i < |rest| ensures rest[i].now >= EPOCH + TIME_LIMIT {
          assert ticks[0].later <= ticks[i + 1].now;
        }
        NothingAfterCapacity(g', rest);
      } else {
        assert ClockNeverBack(ticks) ==> ClockNeverBack(rest);
        IncreasingFrom(g', if r.Ok? then r.value else issued, rest);
      }
    }
  }

  /** Main result. One instance's IDs strictly increase over every run in which the clock
      never goes back, or stays below the 41-bit capacity. */
  lemma IdsStrictlyIncrease(node: nat, ticks: seq<Tick>)
    requires node < NODE_LIMIT && Playable(Fresh(node), ticks)
    requires ClockNeverBack(ticks) || BelowCapacity(ticks)
    ensures Increasing(Results(Fresh(node), ticks))
  {
    IncreasingFrom(Fresh(node), -1, ticks);
  }

  /** Exactly when a call issues a larger ID than that with sequence number `q` of the last
      millisecond. A capacity error may have reset the sequence; then a return to that
      millisecond draws sequence numbers again. */
  lemma ReplayCondition(g: Gen, q: nat, t: Tick)
    requires ValidGen(g) && g.last != -1 && q < SEQUENCE_LIMIT && TickFor(g, t) && Draw(g, t).1.Ok?
    ensures Draw(g, t).1.value > Pack(g.last - EPOCH, g.node, q)
            <==> !(t.now == g.last && g.sequence < q && g.sequence + 1 < SEQUENCE_LIMIT)
  {
    NextSequenceMeaning(g.sequence);
    var g' := Draw(g, t).0;
    PackOrder(g.last - EPOCH, q, g'.last - EPOCH, g'.sequence, g.node);
  }

  /** The last ID handed out, of which `q` is the sequence number; -1 before the first. */
  ghost function Issued(g: Gen, q: nat): int
    requires ValidGen(g)
  {
    if g.last == -1 then -1 else Pack(g.last - EPOCH, g.node, q)
  }

  /** The call reads the last ID's millisecond after a capacity error has set the sequence back
      behind that ID's. */
  ghost predicate Replays(g: Gen, q: nat, t: Tick) {
    g.last != -1 && t.now == g.last && g.sequence < q && g.sequence + 1 < SEQUENCE_LIMIT
  }

  /** No call of a run does; `q` is the sequence number of the last ID before it. */
  ghost predicate NoReplay(g: Gen, q: nat, ticks: seq<Tick>)
    requires ValidGen(g) && Playable(g, ticks)
    decreases |ticks|
  {
    ticks == [] ||
    var (g', r) := Draw(g, ticks[0]);
    !Replays(g, q, ticks[0]) && NoReplay(g', if r.Ok? then g'.sequence else q, ticks[1..])
  }

  ghost predicate AllAbove(rs: seq<Result<nat, IdError>>, issued: int) {
    forall i :: 0 <= i < |rs| && rs[i].Ok? ==> rs[i].value > issued
  }

  lemma IncreasingCons(r: Result<nat, IdError>, rs: seq<Result<nat, IdError>>, issued: int)
    ensures r.Ok? ==> (Increasing([r] + rs) && AllAbove([r] + rs, issued)
                       <==> r.value > issued && Increasing(rs) && AllAbove(rs, r.value))
    ensures r.Err? ==> (Increasing([r] + rs) && AllAbove([r] + rs, issued) <==> Increasing(rs) && AllAbove(rs, issued))
  {
    var all := [r] + rs;
    assert forall i :: 0 <= i < |rs| ==> all[i + 1] == rs[i];
    if r.Ok? && Increasing(all) && AllAbove(all, issued) {
      assert all[0].value > issued;
      forall i | 0 <= i < |rs| && rs[i].Ok? ensures rs[i].value > r.value {
        assert all[0].value < all[i + 1].value;
      }
    }
    if Increasing(all) {
      forall i, j | 0 <= i < j < |rs| && rs[i].Ok? && rs[j].Ok? ensures rs[i].value < rs[j].value {
        assert all[i + 1].value < all[j + 1].value;
      }
    }
    if AllAbove(all, issued) {
      forall i | 0 <= i < |rs| && rs[i].Ok? ensures rs[i].value > issued {
        assert all[i + 1].value > issued;
      }
    }
  }

  /** One call: it succeeds with an ID that is not larger exactly when it replays. */
  lemma DrawReplays(g: Gen, q: nat, t: Tick)
    requires ValidGen(g) && q < SEQUENCE_LIMIT && TickFor(g, t)
    ensures var (g', r) := Draw(g, t);
            && (Replays(g, q, t) <==> r.Ok? && r.value <= Issued(g, q))
            && (r.Ok? ==> Issued(g', g'.sequence) == r.value)
            && (r.Err? ==> Issued(g', q) == Issued(g, q))
  {
    NextSequenceMeaning(g.sequence);
    var (g', r) := Draw(g, t);
    if r.Ok? && g.last != -1 {
      ReplayCondition(g, q, t);
    }
  }

  lemma {:induction false} IncreasingIff(g: Gen, q: nat, ticks: seq<Tick>)
    requires ValidGen(g) && q < SEQUENCE_LIMIT && Playable(g, ticks)
    ensures Increasing(Results(g, ticks)) && AllAbove(Results(g, ticks), Issued(g, q)) <==> NoReplay(g, q, ticks)
    decreases |ticks|
  {
    if ticks != [] {
      var g', r := FirstResult(g, ticks);
      DrawReplays(g, q, ticks[0]);
      IncreasingCons(r, Results(g', ticks[1..]), Issued(g, q));
      IncreasingIff(g', if r.Ok? then g'.sequence else q, ticks[1..]);
    }
  }

  /** Main result. Over every run and with any clock, one instance's IDs strictly increase if and
      only if no call replays. */
  lemma IncreasingExactlyWithoutReplay(node: nat, ticks: seq<Tick>)
    requires node < NODE_LIMIT && Playable(Fresh(node), ticks)
    ensures Increasing(Results(Fresh(node), ticks)) <==> NoReplay(Fresh(node), 0, ticks)
  {
    IncreasingIff(Fresh(node), 0, ticks);
  }

  /** A clock that passes the capacity and then falls back makes an instance repeat an ID. */
  lemma CapacityErrorThenBackRepeats()
    ensures var top := EPOCH + TIME_LIMIT - 1;
            var ticks := [Tick(top, top), Tick(top, top), Tick(top + 1, top + 1), Tick(top, top)];
            && Playable(Fresh(5), ticks)
            && var rs := Results(Fresh(5), ticks);
               rs[1].Ok? && rs[2] == Err(CapacityExhausted) && rs[3] == rs[1]
  {
    var top := EPOCH + TIME_LIMIT - 1;
    var a, b := Tick(top, top), Tick(top + 1, top + 1);
    var ticks := [a, a, b, a];
    NextSequenceMeaning(0);
    assert ticks[1..] == [a, b, a] && ticks[1..][1..] == [b, a] && [b, a][1..] == [a] && [a][1..] == [];
    var g1, g2 := Gen(5, top, 0), Gen(5, top, 1);
    assert Draw(Fresh(5), a).0 == g1;
    assert Draw(g1, a) == (g2, Ok(Pack(TIME_LIMIT - 1, 5, 1)));
    assert Draw(g2, b) == (g1, Err(CapacityExhausted));
    assert Playable(g1, [a]) && Playable(g2, [b, a]) && Playable(g1, [a, b, a]);
    var r1 := Draw(g1, a).1;
    assert Results(g1, [a]) == [r1];
    assert Results(g2, [b, a]) == [Err(CapacityExhausted), r1];
    assert Results(g1, [a, b, a]) == [r1, Err(CapacityExhausted), r1];
  }

  lemma {:induction false} ResultsCarryNode(g: Gen, ticks: seq<Tick>)
    requires ValidGen(g) && Playable(g, ticks)
    ensures forall i :: 0 <= i < |ticks| && Results(g, ticks)[i].Ok? ==>
              NodeOf(Results(g, ticks)[i].value) == g.node && Results(g, ticks)[i].value < 0x8000_0000_0000_0000
    decreases |ticks|
  {
    if ticks != [] {
      var g', r := FirstResult(g, ticks);
      if r.Ok? {
        UnpackPack(g'.last - EPOCH, g.node, g'.sequence);
      }
      ResultsCarryNode(g', ticks[1..]);
    }
  }

  /** The calls from sequence number q on that all read one millisecond. */
  lemma {:induction false} BurstFrom(node: nat, at: int, q: nat, ticks: seq<Tick>)
    requires node < NODE_LIMIT && EPOCH <= at < EPOCH + TIME_LIMIT && q + |ticks| < SEQUENCE_LIMIT
    requires forall i :: 0 <= i < |ticks| ==> ticks[i] == Tick(at, at)
    ensures Playable(Gen(node, at, q), ticks)
    ensures forall i :: 0 <= i < |ticks| ==> Results(Gen(node, at, q), ticks)[i] == Ok(Pack(at - EPOCH, node, q + 1 + i))
    decreases |ticks|
  {
    if ticks != [] {
      NextSequenceMeaning(q);
      BurstFrom(node, at, q + 1, ticks[1..]);
    }
  }

  /** Main result. In one millisecond an instance issues all 4096 sequence numbers, in order and
      without waiting. */
  lemma MillisecondHolds4096(node: nat, at: int, ticks: seq<Tick>)
    requires node < NODE_LIMIT && EPOCH <= at < EPOCH + TIME_LIMIT && |ticks| <= SEQUENCE_LIMIT
    requires forall i :: 0 <= i < |ticks| ==> ticks[i] == Tick(at, at)
    ensures Playable(Fresh(node), ticks)
    ensures forall i :: 0 <= i < |ticks| ==> Results(Fresh(node), ticks)[i] == Ok(Pack(at - EPOCH, node, i))
  {
    if ticks != [] {
      BurstFrom(node, at, 0, ticks[1..]);
    }
  }

  /** Main result. Instances with different node IDs never issue the same ID, over any pair
      of runs and with any clocks. */
  lemma NodesNeverCollide(node: nat, ticks: seq<Tick>, node': nat, ticks': seq<Tick>)
    requires node < NODE_LIMIT && node' < NODE_LIMIT && node != node'
    requires Playable(Fresh(node), ticks) && Playable(Fresh(node'), ticks')
    ensures forall i, i' :: 0 <= i < |ticks| && 0 <= i' < |ticks'| && Results(Fresh(node), ticks)[i].Ok? ==>
              Results(Fresh(node), ticks)[i] != Results(Fresh(node'), ticks')[i']
  {
    ResultsCarryNode(Fresh(node), ticks);
    ResultsCarryNode(Fresh(node'), ticks');
  }
}
