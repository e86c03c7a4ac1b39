/** The ID generator: a 41-bit millisecond timestamp, a 10-bit node ID and a 12-bit
    sequence packed into one positive 63-bit integer. */
module Snowflake {
  import opened Common
  import opened Bits

  const NODE_BITS := 10
  const SEQUENCE_BITS := 12

  const NODE_LIMIT := 1024
  const SEQUENCE_LIMIT := 4096
  const TIME_LIMIT := 0x200_0000_0000

  /** 2026-01-01T00:00:00Z in Unix milliseconds. */
  const EPOCH := 1767225600000

  // ----- layout

  ghost predicate ValidFields(timestamp: int, node: int, sequence: int) {
    0 <= timestamp < TIME_LIMIT && 0 <= node < NODE_LIMIT && 0 <= sequence < SEQUENCE_LIMIT
  }

  function Pack(timestamp: nat, node: nat, sequence: nat): nat {
    Or(Or(ShiftLeft(timestamp, NODE_BITS + SEQUENCE_BITS), ShiftLeft(node, SEQUENCE_BITS)), sequence)
  }

  function TimestampOf(id: nat): nat { id / (NODE_LIMIT * SEQUENCE_LIMIT) }
  function NodeOf(id: nat): nat { id / SEQUENCE_LIMIT % NODE_LIMIT }
  function SequenceOf(id: nat): nat { id % SEQUENCE_LIMIT }

  lemma Powers()
    ensures Pow2(NODE_BITS) == NODE_LIMIT
    ensures Pow2(SEQUENCE_BITS) == SEQUENCE_LIMIT
    ensures Pow2(NODE_BITS + SEQUENCE_BITS) == NODE_LIMIT * SEQUENCE_LIMIT
  {
    assert Pow2(4) == 16;
    assert Pow2(8) == 16 * Pow2(4);
    assert Pow2(10) == 4 * Pow2(8);
    assert Pow2(12) == 4 * Pow2(10);
    assert Pow2(16) == 16 * Pow2(12);
    assert Pow2(20) == 16 * Pow2(16);
    assert Pow2(22) == 4 * Pow2(20);
  }

  /** The three shifted fields occupy disjoint bits. */
  lemma PackIsSum(timestamp: nat, node: nat, sequence: nat)
    requires node < NODE_LIMIT && sequence < SEQUENCE_LIMIT
    ensures Pack(timestamp, node, sequence) == (timestamp * NODE_LIMIT + node) * SEQUENCE_LIMIT + sequence
  {
    Powers();
    OrIsSum(timestamp, ShiftLeft(node, SEQUENCE_BITS), NODE_BITS + SEQUENCE_BITS);
    var high := timestamp * NODE_LIMIT + node;
    assert ShiftLeft(high, SEQUENCE_BITS) == high * SEQUENCE_LIMIT;
    OrIsSum(high, sequence, SEQUENCE_BITS);
  }

  /** Every field triple decodes from its ID, and IDs are 63-bit. */
  lemma UnpackPack(timestamp: nat, node: nat, sequence: nat)
    requires ValidFields(timestamp, node, sequence)
    ensures var id := Pack(timestamp, node, sequence);
            && TimestampOf(id) == timestamp && NodeOf(id) == node && SequenceOf(id) == sequence
            && id < 0x8000_0000_0000_0000
  {
    PackIsSum(timestamp, node, sequence);
    var high := timestamp * NODE_LIMIT + node;
    var id := high * SEQUENCE_LIMIT + sequence;
    RemainderOf(id, SEQUENCE_LIMIT, high, sequence);
    RemainderOf(high, NODE_LIMIT, timestamp, node);
    RemainderOf(id, NODE_LIMIT * SEQUENCE_LIMIT, timestamp, node * SEQUENCE_LIMIT + sequence);
  }

  /** Every 63-bit integer is the ID of the fields it decodes to. */
  lemma PackUnpack(id: nat)
    requires id < 0x8000_0000_0000_0000
    ensures ValidFields(TimestampOf(id), NodeOf(id), SequenceOf(id))
    ensures Pack(TimestampOf(id), NodeOf(id), SequenceOf(id)) == id
  {
    var high := id / SEQUENCE_LIMIT;
    RemainderOf(id, NODE_LIMIT * SEQUENCE_LIMIT, high / NODE_LIMIT,
                high % NODE_LIMIT * SEQUENCE_LIMIT + id % SEQUENCE_LIMIT);
    PackIsSum(TimestampOf(id), NodeOf(id), SequenceOf(id));
  }

  /** IDs compare as (timestamp, sequence) when the node is the same. */
  lemma PackOrder(t: nat, s: nat, t': nat, s': nat, node: nat)
    requires ValidFields(t, node, s) && ValidFields(t', node, s')
    ensures Pack(t, node, s) < Pack(t', node, s') <==> t < t' || (t == t' && s < s')
  {
    PackIsSum(t, node, s);
    PackIsSum(t', node, s');
  }

  /** IDs are positive except for the first sequence number of node 0 in the epoch's millisecond. */
  lemma PositiveUnlessZero(timestamp: nat, node: nat, sequence: nat)
    requires ValidFields(timestamp, node, sequence)
    ensures Pack(timestamp, node, sequence) > 0 <==> !(timestamp == 0 && node == 0 && sequence == 0)
  {
    PackIsSum(timestamp, node, sequence);
  }

  // ----- one draw

  datatype IdError = BadNode | BeforeEpoch | ClockBackwards | CapacityExhausted

  datatype Gen = Gen(node: nat, last: int, sequence: nat)

  ghost predicate ValidGen(g: Gen) {
    && g.node < NODE_LIMIT && g.sequence < SEQUENCE_LIMIT
    && (g.last == -1 || EPOCH <= g.last < EPOCH + TIME_LIMIT)
  }

  function Fresh(node: nat): Gen {
    Gen(node, -1, 0)
  }

  function NextSequence(sequence: nat): nat {
    And(sequence + 1, SEQUENCE_LIMIT - 1)
  }

  /** The next sequence number is the successor, or zero after the last one. */
  lemma NextSequenceMeaning(sequence: nat)
    requires sequence < SEQUENCE_LIMIT
    ensures NextSequence(sequence) == if sequence + 1 < SEQUENCE_LIMIT then sequence + 1 else 0
  {
    Powers();
    MaskedSuccessor(sequence, SEQUENCE_BITS, SEQUENCE_LIMIT);
  }

  /** The clock readings of one call: the first one, and the one that ends the wait
      for the next millisecond if the call has to wait. */
  datatype Tick = Tick(now: int, later: int)

  predicate Waits(g: Gen, now: int) {
    now >= EPOCH && now == g.last && NextSequence(g.sequence) == 0
  }

  /** The busy-wait ends only on a reading past the last millisecond. */
  ghost predicate TickFor(g: Gen, t: Tick) {
    Waits(g, t.now) ==> t.later > g.last
  }

  ghost function Draw(g: Gen, t: Tick): (r: (Gen, Result<nat, IdError>))
    requires ValidGen(g) && TickFor(g, t)
    ensures ValidGen(r.0)
  {
    NextSequenceMeaning(g.sequence);
    if t.now < EPOCH then (g, Err(BeforeEpoch))
    else if t.now < g.last then (g, Err(ClockBackwards))
    else
      var sequence := if t.now == g.last then NextSequence(g.sequence) else 0;
      var millis := if Waits(g, t.now) then t.later else t.now;
      if millis - EPOCH >= TIME_LIMIT then (g.(sequence := sequence), Err(CapacityExhausted))
      else (g.(sequence := sequence, last := millis), Ok(Pack(millis - EPOCH, g.node, sequence)))
  }

  function DaysBefore(year: nat): int {
    if year <= 1970 then 0
    else DaysBefore(year - 1) + (if (year - 1) % 4 == 0 && ((year - 1) % 100 != 0 || (year - 1) % 400 == 0) then 366 else 365)
  }

  lemma {:induction false} EveryFourthYear(year: nat)
    requires 1970 <= year <= 2100
    ensures DaysBefore(year) == 365 * (year - 1970) + (year - 1969) / 4
  {
    if year > 1970 {
      EveryFourthYear(year - 1);
    }
  }

  /** The epoch is the first moment of 2026. */
  lemma EpochIs2026()
    ensures EPOCH == DaysBefore(2026) * 24 * 60 * 60 * 1000
  {
    EveryFourthYear(2026);
  }

  /** Which readings are rejected, and why. */
  lemma DrawErrors(g: Gen, t: Tick)
    requires ValidGen(g) && TickFor(g, t)
    ensures var r := Draw(g, t).1;
            var at := if t.now == g.last && g.sequence == SEQUENCE_LIMIT - 1 then t.later else t.now;
            && (r == Err(BeforeEpoch) <==> t.now < EPOCH)
            && (r == Err(ClockBackwards) <==> EPOCH <= t.now < g.last)
            && (r == Err(CapacityExhausted) <==> t.now >= EPOCH && t.now >= g.last && at - EPOCH >= TIME_LIMIT)
  {
    NextSequenceMeaning(g.sequence);
  }

  /** An issued ID carries the reading it was made at, the node, and the next sequence number of
      that millisecond, and the generator remembers them. */
  lemma DrawnFields(g: Gen, t: Tick)
    requires ValidGen(g) && TickFor(g, t) && Draw(g, t).1.Ok?
    ensures var id := Draw(g, t).1.value;
            && NodeOf(id) == g.node
            && TimestampOf(id) + EPOCH == (if t.now == g.last && g.sequence == SEQUENCE_LIMIT - 1 then t.later else t.now)
            && SequenceOf(id) == (if t.now == g.last && g.sequence + 1 < SEQUENCE_LIMIT then g.sequence + 1 else 0)
            && Draw(g, t).0 == Gen(g.node, TimestampOf(id) + EPOCH, SequenceOf(id))
  {
    NextSequenceMeaning(g.sequence);
    var g' := Draw(g, t).0;
    UnpackPack(g'.last - EPOCH, g.node, g'.sequence);
  }

  /** Exactly when a call issues ID zero: the first call of node 0 that reads the epoch. */
  lemma ZeroIsIssued(g: Gen, t: Tick)
    requires ValidGen(g) && TickFor(g, t)
    ensures Draw(g, t).1 == Ok(0) <==> g.node == 0 && g.last == -1 && t.now == EPOCH
  {
    NextSequenceMeaning(g.sequence);
    var g' := Draw(g, t).0;
    if Draw(g, t).1.Ok? {
      PositiveUnlessZero(g'.last - EPOCH, g.node, g'.sequence);
    }
  }

  /** The wait takes the first reading past the last millisecond. */
  ghost predicate FirstAfter(clock: seq<int>, last: int, reading: int) {
    exists i :: 1 <= i < |clock| && clock[i] == reading && reading > last && forall j :: 1 <= j < i ==> clock[j] <= last
  }

  /** The generator as the program holds it. */
  class Generator {
    const nodeID: nat
    var lastMillis: int
    var sequence: nat

    ghost function State(): Gen
      reads this
    {
      Gen(nodeID, lastMillis, sequence)
    }

    constructor (nodeID: nat)
      requires nodeID < NODE_LIMIT
      ensures State() == Fresh(nodeID)
    {
      this.nodeID := nodeID;
      lastMillis := -1;
      sequence := 0;
    }

    /** One call; `clock` is what the successive clock readings will show. */
    method NextID(clock: seq<int>) returns (id: Result<nat, IdError>, ghost tick: Tick)
      requires ValidGen(State()) && clock != []
      requires Waits(State(), clock[0]) ==> exists i :: 1 <= i < |clock| && clock[i] > lastMillis
      modifies this
      ensures tick.now == clock[0] && tick.later in clock && TickFor(old(State()), tick)
      ensures (State(), id) == Draw(old(State()), tick)
      ensures Waits(old(State()), clock[0]) ==> FirstAfter(clock, old(lastMillis), tick.later)
    {
      tick := Tick(clock[0], clock[0]);
      var nowMillis := clock[0];
      if nowMillis < EPOCH {
        return Err(BeforeEpoch), tick;
      }
      if nowMillis < lastMillis {
        return Err(ClockBackwards), tick;
      }
      if nowMillis == lastMillis {
        sequence := And(sequence + 1, SEQUENCE_LIMIT - 1);
        if sequence == 0 {
          var i := 1;
          while clock[i] <= lastMillis
            invariant 1 <= i < |clock| && forall j :: 1 <= j < i ==> clock[j] <= lastMillis
            invariant exists j :: i <= j < |clock| && clock[j] > lastMillis
            decreases |clock| - i
          {
            i := i + 1;
          }
          assert FirstAfter(clock, lastMillis, clock[i]);
          nowMillis := clock[i];
          tick := Tick(clock[0], nowMillis);
        }
      } else {
        sequence := 0;
      }
      var timestamp := nowMillis - EPOCH;
      if timestamp >= TIME_LIMIT {
        return Err(CapacityExhausted), tick;
      }
      lastMillis := nowMillis;
      return Ok(Pack(timestamp, nodeID, sequence)), tick;
    }
  }

  method NewGenerator(nodeID: int) returns (g: Result<Generator, IdError>)
    ensures g.Ok? <==> 0 <= nodeID < NODE_LIMIT
    ensures g.Ok? ==> fresh(g.value) && g.value.State() == Fresh(nodeID)
    ensures g.Err? ==> g.error == BadNode
  {
    if nodeID < 0 || nodeID > NODE_LIMIT - 1 {
      return Err(BadNode);
    }
    var generator := new Generator(nodeID);
    return Ok(generator);
  }
}
