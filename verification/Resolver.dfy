/** The Consul address resolver: canonical address lists, and the cache that decides when
    they are handed to the gRPC client connection. */
module Resolver {
  import opened Common
  import opened Bits
  import opened Ordering
  import opened Text

  datatype Service = Service(address: string, port: int)

  datatype Entry = Nil | Entry(service: Option<Service>, node: Option<string>)

  /** The address of a usable entry: its service address or else its node's. */
  function AddressOf(e: Entry): Option<string> {
    if e.Nil? || e.service.None? || e.service.value.port <= 0 || e.service.value.port > 65535 then None
    else
      var own := TrimSpace(e.service.value.address);
      var host := if own == "" && e.node.Some? then TrimSpace(e.node.value) else own;
      if host == "" then None else Some(JoinHostPort(host, Itoa(e.service.value.port)))
  }

  /** Deduplicating by the formatted address merges no two different endpoints. */
  lemma AddressesIdentifyEndpoints(host: string, port: nat, host': string, port': nat)
    requires JoinHostPort(host, Itoa(port)) == JoinHostPort(host', Itoa(port'))
    ensures host == host' && port == port'
  {
    ItoaDigits(port);
    ItoaDigits(port');
    JoinHostPortInjective(host, Itoa(port), host', Itoa(port'));
    ItoaInjective(port, port');
  }

  function Addresses(entries: seq<Entry>): set<string> {
    set e | e in entries && AddressOf(e).Some? :: AddressOf(e).value
  }

  lemma LessIsOrder(dom: set<string>)
    ensures OrderOn(Less, dom)
  {
    forall x, y | x in dom && y in dom ensures !Less(x, x) && (x != y ==> Less(x, y) || Less(y, x)) {
      LessTotal(x, y);
    }
    forall x, y, z | x in dom && y in dom && z in dom && Less(x, y) && Less(y, z) ensures Less(x, z) {
      LessTransitive(x, y, z);
    }
  }

  /** The usable addresses in strict order. */
  ghost function Canonical(entries: seq<Entry>): seq<string> {
    LessIsOrder(Addresses(entries));
    Arrange(Less, Addresses(entries))
  }

  /** Filter, format, deduplicate with a set of what was seen, then sort. */
  method GrpcResolverAddresses(entries: seq<Entry>) returns (addresses: seq<string>)
    ensures addresses == Canonical(entries)
  {
    addresses := [];
    var seen: set<string> := {};
    for i := 0 to |entries|
      invariant seen == Addresses(entries[..i]) && Elements(addresses) == seen
      invariant forall j, k :: 0 <= j < k < |addresses| ==> addresses[j] != addresses[k]
    {
      NextAddress(entries, i);
      var address := AddressOf(entries[i]);
      if address.None? || address.value in seen {
        continue;
      }
      assert address.value !in addresses by {
        assert address.value !in Elements(addresses);
      }
      seen := seen + {address.value};
      ghost var before := addresses;
      addresses := addresses + [address.value];
      assert Elements(addresses) == Elements(before) + {address.value};
    }
    assert entries[..|entries|] == entries;
    addresses := Sort(addresses);
    LessIsOrder(Elements(addresses));
    ArrangeIsUnique(Less, addresses);
  }

  lemma NextAddress(entries: seq<Entry>, i: nat)
    requires i < |entries|
    ensures Addresses(entries[..i + 1]) ==
            Addresses(entries[..i]) + (if AddressOf(entries[i]).Some? then {AddressOf(entries[i]).value} else {})
  {
    assert entries[..i + 1] == entries[..i] + [entries[i]];
    assert forall e :: e in entries[..i + 1] <==> e in entries[..i] || e == entries[i];
  }

  method Sort(s: seq<string>) returns (r: seq<string>)
    requires forall j, k :: 0 <= j < k < |s| ==> s[j] != s[k]
    ensures Sorted(Less, r) && Elements(r) == Elements(s)
  {
    r := [];
    for i := 0 to |s|
      invariant Sorted(Less, r) && Elements(r) == Elements(s[..i])
    {
      assert s[i] !in Elements(s[..i]);
      LessIsOrder(Elements(r) + {s[i]});
      InsertKeepsSorted(Less, s[i], r);
      r := InsertSorted(Less, s[i], r);
      assert s[..i + 1] == s[..i] + [s[i]];
      assert Elements(s[..i + 1]) == Elements(s[..i]) + {s[i]};
    }
    assert s[..|s|] == s;
  }

  /** Main result. The list is strictly sorted, so free of duplicates, and holds exactly the
      usable addresses; any two entry lists with the same entries, in whatever order and
      however often repeated, give the same list. */
  lemma CanonicalMeaning(entries: seq<Entry>, others: seq<Entry>)
    ensures Sorted(Less, Canonical(entries))
    ensures forall a :: a in Canonical(entries) <==> exists e :: e in entries && AddressOf(e) == Some(a)
    ensures forall i, j :: 0 <= i < j < |Canonical(entries)| ==> Canonical(entries)[i] != Canonical(entries)[j]
    ensures (forall e :: e in entries <==> e in others) ==> Canonical(entries) == Canonical(others)
    ensures multiset(entries) == multiset(others) ==> Canonical(entries) == Canonical(others)
  {
    var l := Canonical(entries);
    LessIsOrder(Addresses(entries));
    SortedDistinct(Less, l);
    forall a ensures a in l <==> exists e :: e in entries && AddressOf(e) == Some(a) {
      assert a in l <==> a in Elements(l);
      if exists e :: e in entries && AddressOf(e) == Some(a) {
        var e :| e in entries && AddressOf(e) == Some(a);
        assert AddressOf(e).value in Addresses(entries);
      }
    }
    if forall e :: e in entries <==> e in others {
      assert Addresses(entries) == Addresses(others);
    }
    if multiset(entries) == multiset(others) {
      forall e ensures e in entries <==> e in others {
        assert e in entries <==> e in multiset(entries);
        assert e in others <==> e in multiset(others);
      }
      assert Addresses(entries) == Addresses(others);
    }
  }

  /** A service is usable if its port is, and its own address wins over its node's. */
  predicate UsablePort(e: Entry) {
    e.Entry? && e.service.Some? && 1 <= e.service.value.port <= 65535
  }

  predicate HasOwnAddress(e: Entry)
    requires UsablePort(e)
  {
    !Blank(e.service.value.address)
  }

  predicate HasNodeAddress(e: Entry)
    requires UsablePort(e)
  {
    e.node.Some? && !Blank(e.node.value)
  }

  /** Entry e puts address a on the list. */
  ghost predicate Contributes(e: Entry, a: string) {
    && UsablePort(e)
    && var port := Itoa(e.service.value.port);
       || (HasOwnAddress(e) && a == JoinHostPort(TrimSpace(e.service.value.address), port))
       || (!HasOwnAddress(e) && HasNodeAddress(e) && a == JoinHostPort(TrimSpace(e.node.value), port))
  }

  /** Main result. An address is listed exactly if an entry with a port in 1..65535 has it: the
      service's own address if that is not blank, else its node's if that is not. */
  lemma ListedExactly(entries: seq<Entry>, a: string)
    ensures a in Canonical(entries) <==> exists e :: e in entries && Contributes(e, a)
  {
    CanonicalMeaning(entries, entries);
    forall e ensures Contributes(e, a) <==> AddressOf(e) == Some(a) {
    }
  }

  // ----- publishing to the client connection

  /** The cached list (no list and an empty one are the same) and, as history, the last state
      the client connection accepted. */
  datatype View = View(cache: seq<string>, accepted: Option<seq<string>>)

  const FRESH := View([], None)

  /** One update with the addresses found; `accepts` is the connection's answer. */
  function Update(v: View, addresses: seq<string>, accepts: bool): (View, bool) {
    if v.cache == addresses then (v, true)
    else if accepts then (View(addresses, Some(addresses)), true)
    else (View([], v.accepted), false)
  }

  datatype Change = Change(addresses: seq<string>, accepts: bool)

  function Follow(v: View, changes: seq<Change>): View
    decreases |changes|
  {
    if changes == [] then v else Follow(Update(v, changes[0].addresses, changes[0].accepts).0, changes[1..])
  }

  ghost predicate Coherent(v: View) {
    v.cache != [] ==> v.accepted == Some(v.cache)
  }

  lemma {:induction false} FollowCoherent(v: View, changes: seq<Change>)
    requires Coherent(v)
    ensures Coherent(Follow(v, changes))
    decreases |changes|
  {
    if changes != [] {
      FollowCoherent(Update(v, changes[0].addresses, changes[0].accepts).0, changes[1..]);
    }
  }

  /** Main result. Over every run of updates, accepted or refused, a non-empty cache is the state
      the connection accepted last; and an update that reports success leaves the connection with
      the current addresses if and only if it found some, or the cache was not empty, or the
      connection already had accepted an empty list. */
  lemma CacheFollowsConnection(changes: seq<Change>, next: Change)
    ensures var v := Follow(FRESH, changes);
            var (v', ok) := Update(v, next.addresses, next.accepts);
            && Coherent(v) && Coherent(v')
            && (ok ==> v'.cache == next.addresses)
            && (ok ==> (v'.accepted == Some(next.addresses)
                        <==> next.addresses != [] || v.cache != [] || v.accepted == Some([])))
            && (!ok ==> v'.accepted == v.accepted && v'.cache == [])
            && (v.cache == next.addresses ==> ok && v' == v)
            && (v.cache != next.addresses ==> (ok <==> next.accepts))
  {
    FollowCoherent(FRESH, changes);
    FollowCoherent(FRESH, changes + [next]);
  }

  /** After a refused update an empty list is taken for known: the connection keeps addresses
      of a service that has none. */
  lemma RefusedThenEmptyKeepsStale(a: seq<string>, b: seq<string>)
    requires a != [] && b != [] && a != b
    ensures var v := Follow(FRESH, [Change(a, true), Change(b, false)]);
            Update(v, [], true) == (v, true) && v.accepted == Some(a)
  {
    var published := View(a, Some(a));
    assert [Change(a, true), Change(b, false)][1..] == [Change(b, false)];
    assert Follow(FRESH, [Change(a, true), Change(b, false)]) == Follow(published, [Change(b, false)]);
    assert [Change(b, false)][1..] == [];
    assert Follow(published, [Change(b, false)]) == View([], Some(a));
  }

  class GrpcResolver {
    var lastAddresses: seq<string>
    ghost var accepted: Option<seq<string>>

    ghost function State(): View
      reads this
    {
      View(lastAddresses, accepted)
    }

    constructor ()
      ensures State() == FRESH
    {
      lastAddresses := [];
      accepted := None;
    }

    method UpdateAddresses(entries: seq<Entry>, accepts: bool) returns (ok: bool)
      modifies this
      ensures (State(), ok) == Update(old(State()), Canonical(entries), accepts)
    {
      var addresses := GrpcResolverAddresses(entries);
      if lastAddresses == addresses {
        return true;
      }
      if !accepts {
        lastAddresses := [];
        return false;
      }
      accepted := Some(addresses);
      lastAddresses := addresses;
      return true;
    }

    /** One watch of the service: updates arrive until one is refused or the watch breaks. */
    method WatchGRPCService(updates: seq<(seq<Entry>, bool)>) returns (updated: bool)
      modifies this
      ensures (State(), updated) == Session(old(State()), updates)
    {
      updated := false;
      ghost var v0 := State();
      var i := 0;
      while i < |updates|
        invariant 0 <= i <= |updates|
        invariant Session(v0, updates).0 == Session(State(), updates[i..]).0
        invariant Session(v0, updates).1 == (updated || Session(State(), updates[i..]).1)
      {
        SessionStep(State(), updates, i);
        var ok := UpdateAddresses(updates[i].0, updates[i].1);
        if !ok {
          return;
        }
        updated := true;
        i := i + 1;
      }
    }

    /** Watch after watch until the resolver is closed; `delays` are the waits in between, in
        milliseconds, and `updated` says which watches brought an update. */
    method Watch(watches: seq<seq<(seq<Entry>, bool)>>) returns (delays: seq<int>, updated: seq<bool>)
      modifies this
      ensures |updated| == |watches| && delays == Delays(updated)
      ensures State() == Sessions(old(State()), watches)
    {
      delays, updated := [], [];
      var retryDelay := 500;
      ghost var v0 := State();
      for i := 0 to |watches|
        invariant |updated| == i && delays == Delays(updated) && retryDelay == NextDelay(updated)
        invariant State() == Sessions(v0, watches[..i])
      {
        SessionsStep(v0, watches, i);
        var ok := WatchGRPCService(watches[i]);
        if ok {
          retryDelay := 500;
        }
        DelaysStep(updated, ok);
        updated := updated + [ok];
        delays := delays + [retryDelay];
        retryDelay := retryDelay * 2;
        if retryDelay > 15_000 {
          retryDelay := 15_000;
        }
      }
      assert watches[..|watches|] == watches;
    }
  }

  ghost function Session(v: View, updates: seq<(seq<Entry>, bool)>): (View, bool)
    decreases |updates|
  {
    if updates == [] then (v, false)
    else
      var (v', ok) := Update(v, Canonical(updates[0].0), updates[0].1);
      if ok then (Session(v', updates[1..]).0, true) else (v', false)
  }

  lemma SessionStep(v: View, updates: seq<(seq<Entry>, bool)>, i: nat)
    requires i < |updates|
    ensures var (v', ok) := Update(v, Canonical(updates[i].0), updates[i].1);
            Session(v, updates[i..]) == if ok then (Session(v', updates[i + 1..]).0, true) else (v', false)
  {
    assert updates[i..][0] == updates[i] && updates[i..][1..] == updates[i + 1..];
  }

  ghost function Sessions(v: View, watches: seq<seq<(seq<Entry>, bool)>>): View {
    if watches == [] then v
    else Session(Sessions(v, watches[..|watches| - 1]), watches[|watches| - 1]).0
  }

  lemma SessionsStep(v: View, watches: seq<seq<(seq<Entry>, bool)>>, i: nat)
    requires i < |watches|
    ensures Sessions(v, watches[..i + 1]) == Session(Sessions(v, watches[..i]), watches[i]).0
  {
    assert watches[..i + 1][..i] == watches[..i];
  }

  ghost function Changes(updates: seq<(seq<Entry>, bool)>): seq<Change> {
    if updates == [] then [] else [Change(Canonical(updates[0].0), updates[0].1)] + Changes(updates[1..])
  }

  /** Every update of the list gets through. */
  ghost predicate AllPass(v: View, updates: seq<(seq<Entry>, bool)>)
    decreases |updates|
  {
    updates == [] ||
    var (v', ok) := Update(v, Canonical(updates[0].0), updates[0].1);
    ok && AllPass(v', updates[1..])
  }

  lemma ChangesFirst(v: View, updates: seq<(seq<Entry>, bool)>)
    requires updates != []
    ensures Follow(v, Changes(updates)) == Follow(Update(v, Canonical(updates[0].0), updates[0].1).0, Changes(updates[1..]))
  {
    var first := Change(Canonical(updates[0].0), updates[0].1);
    assert Changes(updates) == [first] + Changes(updates[1..]);
    assert ([first] + Changes(updates[1..]))[1..] == Changes(updates[1..]);
  }

  /** A watch whose updates all get through applies them all, and counts as updated if it had any. */
  lemma {:induction false} WatchAppliesAll(v: View, updates: seq<(seq<Entry>, bool)>)
    requires AllPass(v, updates)
    ensures Session(v, updates) == (Follow(v, Changes(updates)), updates != [])
    decreases |updates|
  {
    if updates != [] {
      ChangesFirst(v, updates);
      WatchAppliesAll(Update(v, Canonical(updates[0].0), updates[0].1).0, updates[1..]);
    }
  }

  /** A refused update ends the watch: nothing after it is applied, the cache is emptied, and the watch
      counts as updated if another update came before. */
  lemma {:induction false} RefusalEndsWatch(v: View, done: seq<(seq<Entry>, bool)>, refused: (seq<Entry>, bool),
      rest: seq<(seq<Entry>, bool)>)
    requires AllPass(v, done)
    requires !refused.1 && Follow(v, Changes(done)).cache != Canonical(refused.0)
    ensures Session(v, done + [refused] + rest) == (View([], Follow(v, Changes(done)).accepted), done != [])
    decreases |done|
  {
    var all := done + [refused] + rest;
    if done == [] {
      assert all[0] == refused;
    } else {
      var v' := Update(v, Canonical(done[0].0), done[0].1).0;
      assert all[0] == done[0] && all[1..] == done[1..] + [refused] + rest;
      ChangesFirst(v, done);
      RefusalEndsWatch(v', done[1..], refused, rest);
    }
  }

  /** How many watches in a row, up to watch i, followed another without an update. */
  function Fruitless(updated: seq<bool>, i: nat): nat
    requires i < |updated|
  {
    if updated[i] || i == 0 then 0 else Fruitless(updated, i - 1) + 1
  }

  lemma {:induction false} FruitlessPrefix(a: seq<bool>, b: seq<bool>, i: nat)
    requires a <= b && i < |a|
    ensures Fruitless(a, i) == Fruitless(b, i)
  {
    if i > 0 {
      FruitlessPrefix(a, b, i - 1);
    }
  }

  /** 500 ms, doubled each time, and 15 s at most. */
  function BackoffAfter(k: nat): int {
    if 500 * Pow2(k) > 15_000 then 15_000 else 500 * Pow2(k)
  }

  /** The wait after each watch. */
  ghost function Delays(updated: seq<bool>): seq<int> {
    seq(|updated|, i requires 0 <= i < |updated| => BackoffAfter(Fruitless(updated, i)))
  }

  ghost function NextDelay(updated: seq<bool>): int {
    if updated == [] then 500 else BackoffAfter(Fruitless(updated, |updated| - 1) + 1)
  }

  lemma DelaysStep(updated: seq<bool>, ok: bool)
    ensures var wait := if ok then 500 else NextDelay(updated);
            && Delays(updated + [ok]) == Delays(updated) + [wait]
            && NextDelay(updated + [ok]) == if wait * 2 > 15_000 then 15_000 else wait * 2
  {
    var longer, n := updated + [ok], |updated|;
    forall i | 0 <= i < n ensures Fruitless(longer, i) == Fruitless(updated, i) {
      FruitlessPrefix(updated, longer, i);
    }
    BackoffDoubles(Fruitless(longer, n));
  }

  lemma BackoffDoubles(k: nat)
    ensures BackoffAfter(k + 1) == if BackoffAfter(k) * 2 > 15_000 then 15_000 else BackoffAfter(k) * 2
  {
  }

  /** The waits of a service that never answers, in milliseconds. */
  lemma BackoffSequence()
    ensures BackoffAfter(0) == 500 && BackoffAfter(1) == 1000 && BackoffAfter(2) == 2000 && BackoffAfter(3) == 4000
    ensures BackoffAfter(4) == 8000 && forall k :: k >= 5 ==> BackoffAfter(k) == 15_000
  {
    assert Pow2(2) == 4 && Pow2(3) == 8 && Pow2(4) == 16 && Pow2(5) == 32;
    forall k: nat | k >= 5 ensures Pow2(k) >= 32 {
      PowGrows(5, k);
    }
  }

  /** After a watch with an update the wait starts over; without one it is the next longer one. */
  lemma DelayAfterWatch(updated: seq<bool>, i: nat)
    requires i < |updated|
    ensures updated[i] ==> Delays(updated)[i] == 500
    ensures !updated[i] && i > 0 ==>
              Delays(updated)[i] == if Delays(updated)[i - 1] * 2 > 15_000 then 15_000 else Delays(updated)[i - 1] * 2
    ensures !updated[i] && i == 0 ==> Delays(updated)[i] == 500
  {
    if !updated[i] && i > 0 {
      BackoffDoubles(Fruitless(updated, i - 1));
    }
  }

  /** The watch loop, too, keeps the cache coherent with the connection. */
  lemma {:induction false} SessionCoherent(v: View, updates: seq<(seq<Entry>, bool)>)
    requires Coherent(v)
    ensures Coherent(Session(v, updates).0)
    decreases |updates|
  {
    if updates != [] {
      var (v', ok) := Update(v, Canonical(updates[0].0), updates[0].1);
      SessionCoherent(v', updates[1..]);
    }
  }

  lemma {:induction false} WatchCoherent(watches: seq<seq<(seq<Entry>, bool)>>)
    ensures Coherent(Sessions(FRESH, watches))
  {
    if watches != [] {
      var n := |watches| - 1;
      WatchCoherent(watches[..n]);
      SessionCoherent(Sessions(FRESH, watches[..n]), watches[n]);
    }
  }
}
