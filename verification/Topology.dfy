/** Exchanges, queues and bindings of the operation log, and where the broker routes. */
module Topology {
  import opened Common

  /** The retry delay is a Duration in nanoseconds, missing if it does not parse. */
  datatype Config = Config(
    exchange: string, exchangeType: string, routingKey: string, queue: string,
    retryExchange: string, retryRoutingKey: string, retryQueue: string, retryDelay: Option<int>,
    deadLetterExchange: string, deadLetterRoutingKey: string, deadLetterQueue: string)

  /** Queue arguments: a TTL in milliseconds and the dead-letter exchange and key. */
  datatype QueueArgs = QueueArgs(ttl: Option<int>, deadLetter: Option<(string, string)>)

  datatype Binding = Binding(queue: string, key: string, exchange: string)

  datatype Broker = Broker(exchanges: map<string, string>, queues: map<string, QueueArgs>, bindings: set<Binding>)

  const KINDS := {"direct", "fanout", "topic", "headers"}

  function RetryArgs(cfg: Config): QueueArgs
    requires cfg.retryDelay.Some?
  {
    QueueArgs(Some(cfg.retryDelay.value / NANOS_PER_MILLI), Some((cfg.exchange, cfg.routingKey)))
  }

  // ----- routing

  function Words(key: string): (w: seq<string>)
    ensures w != []
  {
    if key == "" then [""]
    else
      var rest := Words(key[1..]);
      if key[0] == '.' then [""] + rest else [[key[0]] + rest[0]] + rest[1..]
  }

  /** `*` stands for one word and `#` for any number of words. */
  predicate TopicMatch(pattern: seq<string>, words: seq<string>)
    decreases |pattern| + |words|
  {
    if pattern == [] then words == []
    else if pattern[0] == "#" then
      TopicMatch(pattern[1..], words) || (words != [] && TopicMatch(pattern, words[1..]))
    else
      words != [] && (pattern[0] == "*" || pattern[0] == words[0]) && TopicMatch(pattern[1..], words[1..])
  }

  predicate Matches(kind: string, bindingKey: string, routingKey: string) {
    if kind == "direct" then bindingKey == routingKey
    else if kind == "topic" then TopicMatch(Words(bindingKey), Words(routingKey))
    else true
  }

  /** The queues a message published to an exchange with a key goes to. */
  function Route(b: Broker, exchange: string, key: string): set<string> {
    if exchange !in b.exchanges then {}
    else
      set x | x in b.bindings && x.exchange == exchange && Matches(b.exchanges[exchange], x.key, key) :: x.queue
  }

  /** Where the broker moves a message whose TTL in `queue` is over. */
  function AfterTTL(b: Broker, queue: string): set<string> {
    if queue in b.queues && b.queues[queue].ttl.Some? && b.queues[queue].deadLetter.Some? then
      Route(b, b.queues[queue].deadLetter.value.0, b.queues[queue].deadLetter.value.1)
    else {}
  }

  // ----- declaration

  /** A redeclaration must repeat the kind. */
  function WithExchange(b: Broker, name: string, kind: string): Option<Broker> {
    if kind !in KINDS || (name in b.exchanges && b.exchanges[name] != kind) then None
    else Some(b.(exchanges := b.exchanges[name := kind]))
  }

  /** A redeclaration must repeat the arguments. */
  function WithQueue(b: Broker, name: string, args: QueueArgs): Option<Broker> {
    if name in b.queues && b.queues[name] != args then None else Some(b.(queues := b.queues[name := args]))
  }

  function WithBinding(b: Broker, queue: string, key: string, exchange: string): Option<Broker> {
    if queue !in b.queues || exchange !in b.exchanges then None
    else Some(b.(bindings := b.bindings + {Binding(queue, key, exchange)}))
  }

  /** What is in the broker when every declaration has succeeded. */
  ghost predicate Declared(b: Broker, cfg: Config) {
    && cfg.retryDelay.Some?
    && (cfg.exchange in b.exchanges && b.exchanges[cfg.exchange] == cfg.exchangeType && cfg.exchangeType in KINDS)
    && (cfg.retryExchange in b.exchanges && b.exchanges[cfg.retryExchange] == "direct")
    && (cfg.deadLetterExchange in b.exchanges && b.exchanges[cfg.deadLetterExchange] == "direct")
    && cfg.queue in b.queues
    && b.queues[cfg.queue] == QueueArgs(None, Some((cfg.deadLetterExchange, cfg.deadLetterRoutingKey)))
    && cfg.retryQueue in b.queues
    && b.queues[cfg.retryQueue] == RetryArgs(cfg)
    && cfg.deadLetterQueue in b.queues && b.queues[cfg.deadLetterQueue] == QueueArgs(None, None)
    && Own(cfg) <= b.bindings
  }

  function Own(cfg: Config): set<Binding> {
    {Binding(cfg.queue, cfg.routingKey, cfg.exchange),
     Binding(cfg.retryQueue, cfg.retryRoutingKey, cfg.retryExchange),
     Binding(cfg.deadLetterQueue, cfg.deadLetterRoutingKey, cfg.deadLetterExchange)}
  }

  class Channel {
    var broker: Broker

    /** One request; `up` says whether the channel still works. */
    method ExchangeDeclare(name: string, kind: string, up: bool) returns (ok: bool)
      modifies this
      ensures ok <==> up && WithExchange(old(broker), name, kind).Some?
      ensures broker == if ok then WithExchange(old(broker), name, kind).value else old(broker)
    {
      var next := WithExchange(broker, name, kind);
      ok := up && next.Some?;
      if ok {
        broker := next.value;
      }
    }

    method QueueDeclare(name: string, args: QueueArgs, up: bool) returns (ok: bool)
      modifies this
      ensures ok <==> up && WithQueue(old(broker), name, args).Some?
      ensures broker == if ok then WithQueue(old(broker), name, args).value else old(broker)
    {
      var next := WithQueue(broker, name, args);
      ok := up && next.Some?;
      if ok {
        broker := next.value;
      }
    }

    method QueueBind(queue: string, key: string, exchange: string, up: bool) returns (ok: bool)
      modifies this
      ensures ok <==> up && WithBinding(old(broker), queue, key, exchange).Some?
      ensures broker == if ok then WithBinding(old(broker), queue, key, exchange).value else old(broker)
    {
      var next := WithBinding(broker, queue, key, exchange);
      ok := up && next.Some?;
      if ok {
        broker := next.value;
      }
    }
  }

  /** Objects are only added, and objects that exist keep their kind and arguments. */
  ghost predicate Extends(b: Broker, b': Broker) {
    && (forall x :: x in b.exchanges ==> x in b'.exchanges && b'.exchanges[x] == b.exchanges[x])
    && (forall q :: q in b.queues ==> q in b'.queues && b'.queues[q] == b.queues[q])
    && b.bindings <= b'.bindings
  }

  /** Nothing in the broker contradicts the topology, and its names are distinct. */
  ghost predicate Compatible(b: Broker, cfg: Config) {
    && cfg.exchangeType in KINDS && DistinctExchanges(cfg)
    && DistinctQueues(cfg)
    && (cfg.exchange in b.exchanges ==> b.exchanges[cfg.exchange] == cfg.exchangeType)
    && (cfg.retryExchange in b.exchanges ==> b.exchanges[cfg.retryExchange] == "direct")
    && (cfg.deadLetterExchange in b.exchanges ==> b.exchanges[cfg.deadLetterExchange] == "direct")
    && cfg.retryDelay.Some? && QueuesCompatible(b, cfg)
  }

  ghost predicate DistinctQueues(cfg: Config) {
    cfg.queue != cfg.retryQueue && cfg.queue != cfg.deadLetterQueue && cfg.retryQueue != cfg.deadLetterQueue
  }

  ghost predicate HasExchanges(b: Broker, cfg: Config) {
    cfg.exchange in b.exchanges && cfg.retryExchange in b.exchanges && cfg.deadLetterExchange in b.exchanges
  }

  ghost predicate QueuesCompatible(b: Broker, cfg: Config)
    requires cfg.retryDelay.Some?
  {
    && (cfg.queue in b.queues ==>
          b.queues[cfg.queue] == QueueArgs(None, Some((cfg.deadLetterExchange, cfg.deadLetterRoutingKey))))
    && (cfg.retryQueue in b.queues ==> b.queues[cfg.retryQueue] == RetryArgs(cfg))
    && (cfg.deadLetterQueue in b.queues ==> b.queues[cfg.deadLetterQueue] == QueueArgs(None, None))
  }

  /** On success everything is declared and nothing else was added; on failure the broker may
      hold some of it. Redeclaring over what is there changes nothing. */
  method DeclareOperationLogTopology(channel: Channel, cfg: Config, up: seq<bool>) returns (ok: bool)
    requires |up| == 9
    modifies channel
    ensures Extends(old(channel.broker), channel.broker)
    ensures channel.broker.bindings <= old(channel.broker.bindings) + Own(cfg)
    ensures ok ==> Declared(channel.broker, cfg) && cfg.retryDelay.value > 0
    ensures Declared(old(channel.broker), cfg) ==> channel.broker == old(channel.broker)
    ensures Declared(old(channel.broker), cfg) && cfg.retryDelay.value > 0 && (forall i :: 0 <= i < 9 ==> up[i]) ==> ok
    ensures Compatible(old(channel.broker), cfg) && cfg.retryDelay.value > 0 && (forall i :: 0 <= i < 9 ==> up[i]) ==> ok
  {
    ok := false;
    if cfg.retryDelay.None? || cfg.retryDelay.value <= 0 {
      return;
    }
    var exchanges := [(cfg.exchange, cfg.exchangeType), (cfg.retryExchange, "direct"), (cfg.deadLetterExchange, "direct")];
    ghost var b0 := channel.broker;
    for i := 0 to 3
      invariant Extends(b0, channel.broker) && channel.broker.bindings == b0.bindings
      invariant channel.broker.queues == b0.queues
      invariant forall j :: 0 <= j < i ==>
                  exchanges[j].1 in KINDS && exchanges[j].0 in channel.broker.exchanges
                  && channel.broker.exchanges[exchanges[j].0] == exchanges[j].1
      invariant Declared(b0, cfg) ==> channel.broker == b0
      invariant forall x :: x in channel.broker.exchanges ==>
                  x in b0.exchanges || exists j :: 0 <= j < i && exchanges[j].0 == x
    {
      var done := channel.ExchangeDeclare(exchanges[i].0, exchanges[i].1, up[i]);
      if !done {
        return;
      }
      assert Declared(b0, cfg) ==> channel.broker.exchanges == b0.exchanges;
    }
    assert exchanges[0].0 == cfg.exchange && exchanges[1].0 == cfg.retryExchange && exchanges[2].0 == cfg.deadLetterExchange;
    ok := DeclareQueues(channel, cfg, up[3..]);
  }

  method DeclareQueues(channel: Channel, cfg: Config, up: seq<bool>) returns (ok: bool)
    requires |up| == 6 && cfg.retryDelay.Some?
    modifies channel
    ensures Extends(old(channel.broker), channel.broker) && channel.broker.exchanges == old(channel.broker).exchanges
    ensures channel.broker.bindings <= old(channel.broker.bindings) + Own(cfg)
    ensures ok ==> Own(cfg) <= channel.broker.bindings
                   && cfg.queue in channel.broker.queues
                   && cfg.retryQueue in channel.broker.queues
                   && cfg.deadLetterQueue in channel.broker.queues
                   && channel.broker.queues[cfg.queue] == QueueArgs(None, Some((cfg.deadLetterExchange, cfg.deadLetterRoutingKey)))
                   && channel.broker.queues[cfg.retryQueue] == RetryArgs(cfg)
                   && channel.broker.queues[cfg.deadLetterQueue] == QueueArgs(None, None)
    ensures Declared(old(channel.broker), cfg) ==> channel.broker == old(channel.broker)
    ensures Declared(old(channel.broker), cfg) && (forall i :: 0 <= i < 6 ==> up[i]) ==> ok
    ensures QueuesCompatible(old(channel.broker), cfg) && DistinctQueues(cfg) && HasExchanges(old(channel.broker), cfg) ==>
              ((forall i :: 0 <= i < 6 ==> up[i]) ==> ok)
  {
    ghost var b0 := channel.broker;
    var mainArgs := QueueArgs(None, Some((cfg.deadLetterExchange, cfg.deadLetterRoutingKey)));
    ok := DeclareAndBind(channel, cfg.queue, mainArgs, cfg.routingKey, cfg.exchange, up[..2]);
    if !ok {
      return;
    }
    assert Declared(b0, cfg) ==> channel.broker == b0;
    ok := DeclareAndBind(channel, cfg.retryQueue, RetryArgs(cfg), cfg.retryRoutingKey, cfg.retryExchange, up[2..4]);
    if !ok {
      return;
    }
    assert Declared(b0, cfg) ==> channel.broker == b0;
    ok := DeclareAndBind(channel, cfg.deadLetterQueue, QueueArgs(None, None), cfg.deadLetterRoutingKey,
                         cfg.deadLetterExchange, up[4..]);
  }

  method DeclareAndBind(channel: Channel, queue: string, args: QueueArgs, key: string, exchange: string, up: seq<bool>)
    returns (ok: bool)
    requires |up| == 2
    modifies channel
    ensures Extends(old(channel.broker), channel.broker) && channel.broker.exchanges == old(channel.broker).exchanges
    ensures channel.broker.bindings <= old(channel.broker.bindings) + {Binding(queue, key, exchange)}
    ensures ok ==> queue in channel.broker.queues && channel.broker.queues[queue] == args
                   && Binding(queue, key, exchange) in channel.broker.bindings
    ensures var b := old(channel.broker);
            queue in b.queues && b.queues[queue] == args && exchange in b.exchanges
            && Binding(queue, key, exchange) in b.bindings ==>
              channel.broker == b && (up[0] && up[1] ==> ok)
    ensures var b := old(channel.broker);
            && channel.broker.queues.Keys <= b.queues.Keys + {queue}
            && (forall q :: q in b.queues ==> channel.broker.queues[q] == b.queues[q])
            && ((queue in b.queues ==> b.queues[queue] == args) && exchange in b.exchanges && up[0] && up[1] ==> ok)
  {
    ok := channel.QueueDeclare(queue, args, up[0]);
    if ok {
      ok := channel.QueueBind(queue, key, exchange, up[1]);
    }
  }

  // ----- the routing graph

  ghost predicate DistinctExchanges(cfg: Config) {
    && cfg.exchange != cfg.retryExchange && cfg.exchange != cfg.deadLetterExchange
    && cfg.retryExchange != cfg.deadLetterExchange
  }

  lemma {:induction false} TopicMatchesItself(words: seq<string>)
    ensures TopicMatch(words, words)
  {
    if words != [] {
      TopicMatchesItself(words[1..]);
    }
  }

  predicate Literal(pattern: seq<string>) {
    forall i :: 0 <= i < |pattern| ==> pattern[i] != "*" && pattern[i] != "#"
  }

  /** Without wildcards a pattern matches only itself. */
  lemma {:induction false} LiteralMatch(pattern: seq<string>, words: seq<string>)
    requires Literal(pattern)
    ensures TopicMatch(pattern, words) <==> pattern == words
    decreases |pattern|
  {
    if pattern != [] && words != [] {
      assert pattern == [pattern[0]] + pattern[1..] && words == [words[0]] + words[1..];
      LiteralMatch(pattern[1..], words[1..]);
    }
  }

  /** A star stands for exactly one word, a hash for any number. */
  lemma {:induction false} WildcardMatch(words: seq<string>)
    ensures TopicMatch(["*"], words) <==> |words| == 1
    ensures TopicMatch(["#"], words)
  {
    if words != [] {
      WildcardMatch(words[1..]);
      assert ["*"][1..] == [] && ["#"][1..] == [];
    }
  }

  function Join(words: seq<string>): string {
    if words == [] then "" else if |words| == 1 then words[0] else words[0] + "." + Join(words[1..])
  }

  /** The words of a key are what lies between its dots. */
  lemma {:induction false} WordsJoin(key: string)
    ensures Join(Words(key)) == key
    ensures forall i :: 0 <= i < |Words(key)| ==> '.' !in Words(key)[i]
  {
    if key != "" {
      WordsJoin(key[1..]);
      var rest := Words(key[1..]);
      assert key == [key[0]] + key[1..];
      if key[0] == '.' {
        assert ([""] + rest)[1..] == rest;
      } else {
        assert ([[key[0]] + rest[0]] + rest[1..])[1..] == rest[1..];
      }
    }
  }

  /** With all declared: the main queue dead-letters to the dead-letter exchange and never expires;
      the retry queue keeps a message for the configured delay, in whole milliseconds, and then
      publishes it to the main exchange; the DLQ keeps what it gets. */
  lemma QueueArguments(b: Broker, cfg: Config)
    requires Declared(b, cfg) && cfg.retryDelay.value > 0
    ensures b.queues[cfg.queue].ttl.None?
            && b.queues[cfg.queue].deadLetter == Some((cfg.deadLetterExchange, cfg.deadLetterRoutingKey))
    ensures b.queues[cfg.deadLetterQueue].ttl.None? && b.queues[cfg.deadLetterQueue].deadLetter.None?
    ensures var q := b.queues[cfg.retryQueue];
            && q.deadLetter == Some((cfg.exchange, cfg.routingKey))
            && q.ttl.Some? && q.ttl.value * 1_000_000 <= cfg.retryDelay.value < (q.ttl.value + 1) * 1_000_000
    ensures b.exchanges[cfg.exchange] == cfg.exchangeType
    ensures b.exchanges[cfg.retryExchange] == "direct" && b.exchanges[cfg.deadLetterExchange] == "direct"
  {
  }

  lemma MatchesItself(kind: string, key: string)
    ensures Matches(kind, key, key)
  {
    TopicMatchesItself(Words(key));
  }

  /** Main result. On a broker that holds only this topology, with distinct exchanges, a
      publication reaches its one queue whatever the type of the main exchange and whatever
      wildcards the routing key holds, and an expired retry message returns to the main queue. */
  lemma RoutingGraph(b: Broker, cfg: Config)
    requires Declared(b, cfg) && b.bindings == Own(cfg) && DistinctExchanges(cfg)
    ensures Route(b, cfg.exchange, cfg.routingKey) == {cfg.queue}
    ensures Route(b, cfg.retryExchange, cfg.retryRoutingKey) == {cfg.retryQueue}
    ensures Route(b, cfg.deadLetterExchange, cfg.deadLetterRoutingKey) == {cfg.deadLetterQueue}
    ensures AfterTTL(b, cfg.retryQueue) == {cfg.queue}
  {
    MatchesItself(cfg.exchangeType, cfg.routingKey);
    assert Binding(cfg.queue, cfg.routingKey, cfg.exchange) in b.bindings;
    assert Binding(cfg.retryQueue, cfg.retryRoutingKey, cfg.retryExchange) in b.bindings;
    assert Binding(cfg.deadLetterQueue, cfg.deadLetterRoutingKey, cfg.deadLetterExchange) in b.bindings;
  }
}
