/** The Redis sliding-window limiter: one sorted set per key, pruned and expired,
    that must answer as if it had kept every admission. Times are milliseconds.
    `now` is the gateway's clock and `clock` is the Redis server's: the script
    scores entries with the first and PEXPIRE counts down the second. */
module RateLimiter {
  import opened Bits
  import opened Common

  datatype Rule = Rule(limit: int, window: int)

  /** What `Allow` guarantees about the rule it hands to the script. */
  ghost predicate ValidRule(r: Rule) {
    r.limit >= 1 && r.window >= 0
  }

  datatype Call = Call(now: int, clock: int, id: string)

  /** A sorted set with its expiry deadline; a key without members does not exist. */
  datatype Key = Key(members: map<string, int>, deadline: int)

  const NO_KEY := Key(map[], 0)

  function KeyOf(members: map<string, int>, deadline: int): Key {
    if members == map[] then NO_KEY else Key(members, deadline)
  }

  datatype Reply = Reply(allowed: bool, count: int, retryAfter: int)

  function After(m: map<string, int>, from: int): map<string, int> {
    map id | id in m && m[id] > from :: m[id]
  }

  ghost function Oldest(m: map<string, int>): int
    requires m != map[]
  {
    LeastKeyExists(m);
    var id :| id in m && forall j :: j in m ==> m[id] <= m[j];
    m[id]
  }

  /** The members the server still shows at `clock`. */
  function Visible(k: Key, clock: int): map<string, int> {
    if clock > k.deadline then map[] else k.members
  }

  function Kept(k: Key, c: Call, r: Rule): map<string, int> {
    After(Visible(k, c.clock), c.now - r.window)
  }

  /** The script's retry delay: how long the oldest kept entry stays in the window. */
  ghost function Wait(kept: map<string, int>, now: int, window: int): int {
    if kept == map[] then window
    else if window - (now - Oldest(kept)) < 0 then 0
    else window - (now - Oldest(kept))
  }

  /** One atomic execution of the Lua script. */
  ghost function Script(k: Key, c: Call, r: Rule): (Key, Reply) {
    var kept := Kept(k, c, r);
    if |kept| >= r.limit then
      (KeyOf(kept, k.deadline), Reply(false, |kept|, Wait(kept, c.now, r.window)))
    else
      var left := if r.window <= 0 then NO_KEY else Key(kept[c.id := c.now], c.clock + r.window);
      (left, Reply(true, |kept| + 1, 0))
  }

  // ----- the limiter as the program runs it

  /** The part of a Redis server that the limiter talks to. */
  class Redis {
    var keys: map<string, Key>

    constructor ()
      ensures keys == map[]
    {
      keys := map[];
    }

    function At(key: string): Key
      reads this
    {
      if key in keys then keys[key] else NO_KEY
    }

    /** Redis stores no empty sorted set. */
    method Put(key: string, k: Key)
      modifies this
      ensures At(key) == KeyOf(k.members, k.deadline)
      ensures keys - {key} == old(keys) - {key}
    {
      keys := if k.members == map[] then keys - {key} else keys[key := k];
    }

    method Expire(key: string, clock: int)
      modifies this
      ensures At(key) == KeyOf(Visible(old(At(key)), clock), old(At(key)).deadline)
      ensures keys - {key} == old(keys) - {key}
    {
      if key in keys && clock > keys[key].deadline {
        keys := keys - {key};
      } else if key in keys && keys[key].members == map[] {
        keys := keys - {key};
      }
    }

    method ZRemRangeByScore(key: string, max: int)
      modifies this
      ensures At(key) == KeyOf(After(old(At(key)).members, max), old(At(key)).deadline)
      ensures keys - {key} == old(keys) - {key}
    {
      var k := At(key);
      Put(key, k.(members := After(k.members, max)));
    }

    method ZRangeFirstScore(key: string) returns (score: Option<int>)
      ensures score == if At(key).members == map[] then None else Some(Oldest(At(key).members))
    {
      var m := At(key).members;
      var todo := m.Keys;
      score := None;
      while todo != {}
        invariant todo <= m.Keys
        invariant score.None? <==> todo == m.Keys
        invariant score.Some? ==> exists id :: id in m && m[id] == score.value
        invariant score.Some? ==> forall id :: id in m.Keys - todo ==> score.value <= m[id]
        decreases todo
      {
        var id :| id in todo;
        if score.None? || m[id] < score.value {
          score := Some(m[id]);
        }
        todo := todo - {id};
      }
    }

    method ZAdd(key: string, score: int, member: string)
      modifies this
      ensures At(key) == Key(old(At(key)).members[member := score], old(At(key)).deadline)
      ensures keys - {key} == old(keys) - {key}
    {
      var k := At(key);
      var added := k.members[member := score];
      assert member in added;
      Put(key, k.(members := added));
    }

    method PExpire(key: string, clock: int, ttl: int)
      requires At(key).members != map[]
      modifies this
      ensures At(key) == if ttl <= 0 then NO_KEY else Key(old(At(key)).members, clock + ttl)
      ensures keys - {key} == old(keys) - {key}
    {
      var k := At(key);
      if ttl <= 0 {
        keys := keys - {key};
      } else {
        Put(key, k.(deadline := clock + ttl));
      }
    }

    /** The denying branch: the reply with the oldest entry's remaining time. */
    method Deny(key: string, now: int, window: int, current: int) returns (reply: Reply)
      ensures reply == Reply(false, current, Wait(At(key).members, now, window))
    {
      var oldest := ZRangeFirstScore(key);
      var retryAfter := window;
      if oldest.Some? {
        retryAfter := window - (now - oldest.value);
        if retryAfter < 0 {
          retryAfter := 0;
        }
      }
      return Reply(false, current, retryAfter);
    }

    /** The admitting branch: add the entry and restart the countdown. */
    method Admit(key: string, c: Call, window: int, current: int) returns (reply: Reply)
      modifies this
      ensures reply == Reply(true, current + 1, 0)
      ensures At(key) == if window <= 0 then NO_KEY else Key(old(At(key)).members[c.id := c.now], c.clock + window)
      ensures keys - {key} == old(keys) - {key}
    {
      ZAdd(key, c.now, c.id);
      assert c.id in At(key).members;
      PExpire(key, c.clock, window);
      return Reply(true, current + 1, 0);
    }

    /** What the script's first command leaves of the key. */
    method Prune(key: string, c: Call, r: Rule)
      modifies this
      ensures At(key) == KeyOf(Kept(old(At(key)), c, r), old(At(key)).deadline)
      ensures At(key).members == Kept(old(At(key)), c, r)
      ensures keys - {key} == old(keys) - {key}
    {
      ghost var k := At(key);
      Expire(key, c.clock);
      assert At(key).members == Visible(k, c.clock);
      ZRemRangeByScore(key, c.now - r.window);
      ghost var kept := Kept(k, c, r);
      if kept != map[] {
        var id :| id in kept;
        assert id in Visible(k, c.clock);
      }
    }

    /** The script, command by command, is the specification `Script`. */
    method Eval(key: string, c: Call, r: Rule) returns (reply: Reply)
      modifies this
      ensures (At(key), reply) == Script(old(At(key)), c, r)
      ensures keys - {key} == old(keys) - {key}
    {
      Prune(key, c, r);
      var current := |At(key).members|;
      if current >= r.limit {
        reply := Deny(key, c.now, r.window, current);
      } else {
        reply := Admit(key, c, r.window, current);
      }
    }
  }

  datatype LimitError = EmptyKey | BadLimit | BadWindow | RedisFailed | BadReply | BadAllowed | BadCount | BadRetryAfter

  /** What the caller of `Allow` sees; the delay is a Duration in nanoseconds. */
  datatype Decision = Decision(allowed: bool, limit: int, remaining: int, retryAfter: int)

  /** A value as the Redis client hands it over. */
  datatype Raw = Integer(n: int) | Array(values: seq<Raw>) | Other

  /** A round trip completes, never reaches the server, loses only its reply, or brings back
      something else than the script's reply. */
  datatype Transport = Delivered | NotSent | ReplyLost | Garbled(raw: Raw)

  /** The script's reply on the wire. */
  function Wire(reply: Reply): Raw {
    Array([Integer(if reply.allowed then 1 else 0), Integer(reply.count), Integer(reply.retryAfter)])
  }

  class RedisSlidingWindow {
    const redis: Redis

    constructor (redis: Redis)
      ensures this.redis == redis
    {
      this.redis := redis;
    }

    method Allow(key: string, limit: int, window: int, c: Call, net: Transport)
      returns (result: Result<Decision, LimitError>)
      requires IsInt64(limit) && IsInt64(window)
      modifies redis
      ensures redis.keys - {key} == old(redis.keys) - {key}
      ensures key == "" || limit <= 0 || window <= 0 ==>
                redis.keys == old(redis.keys)
                && result == Err(if key == "" then EmptyKey else if limit <= 0 then BadLimit else BadWindow)
      ensures key != "" && limit > 0 && window > 0 ==>
                var (k, reply) := Script(old(redis.At(key)), c, Rule(limit, window / NANOS_PER_MILLI));
                && redis.At(key) == (if net.NotSent? then old(redis.At(key)) else k)
                && (net.NotSent? || net.ReplyLost? ==> result == Err(RedisFailed))
                && (net.Delivered? ==>
                      && result.Ok? && result.value.allowed == reply.allowed && result.value.limit == limit
                      && (reply.allowed ==> result.value.retryAfter == 0)
                      && Means(result.value, limit, reply.count, reply.retryAfter)
                      && (0 <= reply.retryAfter <= window / NANOS_PER_MILLI ==>
                            result.value.retryAfter == reply.retryAfter * NANOS_PER_MILLI))
                && (net.Garbled? ==> (result.Ok? <==> WellTyped(net.raw)))
                && (net.Garbled? && result.Ok? ==>
                      var v := net.raw.values;
                      && result.value.allowed == (v[0].n == 1) && result.value.limit == limit
                      && Means(result.value, limit, v[1].n, v[2].n))
      ensures result.Ok? ==> 0 <= result.value.remaining && IsInt64(result.value.retryAfter)
    {
      if key == "" {
        return Err(EmptyKey);
      }
      if limit <= 0 {
        return Err(BadLimit);
      }
      if window <= 0 {
        return Err(BadWindow);
      }
      if net.NotSent? {
        return Err(RedisFailed);
      }
      var reply := redis.Eval(key, c, Rule(limit, window / NANOS_PER_MILLI));
      if net.ReplyLost? {
        return Err(RedisFailed);
      }
      DelayFits(window, reply.retryAfter);
      result := Interpret(if net.Garbled? then net.raw else Wire(reply), limit);
    }

    /** What the reply says, in 64-bit arithmetic. */
    method Interpret(raw: Raw, limit: int) returns (result: Result<Decision, LimitError>)
      requires limit > 0 && IsInt64(limit)
      ensures result.Ok? <==> WellTyped(raw)
      ensures result.Ok? ==>
                && result.value.allowed == (raw.values[0].n == 1) && result.value.limit == limit
                && Means(result.value, limit, raw.values[1].n, raw.values[2].n)
                && 0 <= result.value.remaining && IsInt64(result.value.retryAfter)
      ensures result.Err? ==>
                result.error == if !raw.Array? || |raw.values| != 3 then BadReply
                                else if !raw.values[0].Integer? then BadAllowed
                                else if !raw.values[1].Integer? then BadCount
                                else BadRetryAfter
    {
      if !raw.Array? || |raw.values| != 3 {
        return Err(BadReply);
      }
      if !raw.values[0].Integer? {
        return Err(BadAllowed);
      }
      if !raw.values[1].Integer? {
        return Err(BadCount);
      }
      if !raw.values[2].Integer? {
        return Err(BadRetryAfter);
      }
      var remaining := WrapInt64(limit - raw.values[1].n);
      if remaining < 0 {
        remaining := 0;
      }
      return Ok(Decision(raw.values[0].n == 1, limit, remaining, WrapInt64(raw.values[2].n * NANOS_PER_MILLI)));
    }
  }

  predicate WellTyped(raw: Raw) {
    raw.Array? && |raw.values| == 3 && raw.values[0].Integer? && raw.values[1].Integer? && raw.values[2].Integer?
  }

  /** The count and the delay, in milliseconds, behind a decision, unless they overflow. */
  ghost predicate Means(d: Decision, limit: int, count: int, retryAfter: int) {
    && (0 <= count < 0x8000_0000_0000_0000 ==> d.remaining == if count <= limit then limit - count else 0)
    && (IsInt64(retryAfter * NANOS_PER_MILLI) ==> d.retryAfter == retryAfter * NANOS_PER_MILLI)
  }

  /** A delay of at most the window does not overflow as a Duration. */
  lemma DelayFits(window: int, retryAfter: int)
    requires IsInt64(window)
    ensures 0 <= retryAfter <= window / NANOS_PER_MILLI ==> IsInt64(retryAfter * NANOS_PER_MILLI)
  {
  }

  /** Division as the program divides: toward zero. */
  function Quotient(x: int, d: int): int
    requires d > 0
  {
    if x >= 0 then x / d else -(-x / d)
  }

  /** The Retry-After header: a Duration in nanoseconds rounded up to whole seconds. */
  function RetryAfterSeconds(duration: int): int {
    if duration <= 0 then 1
    else
      var seconds := Quotient(WrapInt64(duration + NANOS_PER_SECOND - 1), NANOS_PER_SECOND);
      if seconds < 1 then 1 else seconds
  }
}
