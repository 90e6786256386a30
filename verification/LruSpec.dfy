/** The cache seen as a value: what each operation of the in-memory cache does to the
    stored entries and to the recency order, and what a whole trace of operations does. */
module LruSpec {
  import opened Options

  type Key = string
  type Time = int

  datatype Entry = Entry(value: string, expiry: Time)

  /** `order` lists the keys, most recently used first. */
  datatype State = State(entries: map<Key, Entry>, order: seq<Key>)

  datatype Config = Config(defaultTtl: int, maxSize: nat)

  /** One call of the public interface, with the clock readings taken inside it. */
  datatype Op =
    | Set(key: Key, value: string, ttl: int, now: Time)
    | Get(key: Key, sweep: Time, check: Time)
    | Exists(key: Key, sweep: Time, check: Time)
    | Remove(key: Key)
    | Clear

  const EMPTY := State(map[], [])

  function Drop(order: seq<Key>, dead: set<Key>): seq<Key> {
    if order == [] then []
    else if order[0] in dead then Drop(order[1..], dead)
    else [order[0]] + Drop(order[1..], dead)
  }

  function Expired(entries: map<Key, Entry>, now: Time): set<Key> {
    set k | k in entries && entries[k].expiry <= now
  }

  function Purge(s: State, dead: set<Key>): State {
    State(s.entries - dead, Drop(s.order, dead))
  }

  function Expire(s: State, now: Time): State {
    Purge(s, Expired(s.entries, now))
  }

  function Evict(s: State, maxSize: nat): State
    decreases |s.order|
  {
    if |s.order| < maxSize || s.order == [] then s
    else
      var oldest := s.order[|s.order| - 1];
      Evict(State(s.entries - {oldest}, s.order[..|s.order| - 1]), maxSize)
  }

  function Touch(s: State, k: Key): State {
    State(s.entries, [k] + Drop(s.order, {k}))
  }

  function EntryOf(cfg: Config, value: string, ttl: int, now: Time): Entry {
    Entry(value, now + (if ttl > 0 then ttl else cfg.defaultTtl))
  }

  function Store(s: State, maxSize: nat, k: Key, e: Entry): State {
    if k in s.entries then State(s.entries[k := e], [k] + Drop(s.order, {k}))
    else
      var room := Evict(s, maxSize);
      State(room.entries[k := e], [k] + room.order)
  }

  function Probe(s: State, k: Key, check: Time): (State, Option<string>) {
    if k !in s.entries then (s, None)
    else if s.entries[k].expiry > check then (Touch(s, k), Some(s.entries[k].value))
    else (Purge(s, {k}), None)
  }

  function Lookup(s: State, k: Key, sweep: Time, check: Time): (State, Option<string>) {
    Probe(Expire(s, sweep), k, check)
  }

  function Hits(s: State, k: Key, sweep: Time, check: Time): bool {
    Lookup(s, k, sweep, check).1.Some?
  }

  function Apply(s: State, cfg: Config, op: Op): State {
    match op
    case Set(k, v, ttl, now) => Store(s, cfg.maxSize, k, EntryOf(cfg, v, ttl, now))
    case Get(k, sweep, check) => Lookup(s, k, sweep, check).0
    case Exists(k, sweep, _) => Expire(s, sweep)
    case Remove(k) => Purge(s, {k})
    case Clear => EMPTY
  }

  function Front<T>(s: seq<T>): seq<T>
    requires s != []
  {
    s[..|s| - 1]
  }

  function Last<T>(s: seq<T>): T
    requires s != []
  {
    s[|s| - 1]
  }

  /** The state after a trace of calls on a freshly constructed cache. */
  function Run(trace: seq<Op>, cfg: Config): State {
    if trace == [] then EMPTY else Apply(Run(Front(trace), cfg), cfg, Last(trace))
  }

  /** How many entries the cache can hold: a limit of zero still leaves room for the entry
      stored last, because the limit is enforced before the insertion. */
  function Capacity(maxSize: nat): nat {
    if maxSize == 0 then 1 else maxSize
  }

  predicate NoDuplicates(order: seq<Key>) {
    forall i, j :: 0 <= i < j < |order| ==> order[i] != order[j]
  }

  ghost predicate Represented(s: State, maxSize: nat) {
    && NoDuplicates(s.order)
    && (forall k :: k in s.order <==> k in s.entries)
    && |s.order| <= Capacity(maxSize)
  }

  // ----- facts about dropping keys from an order

  lemma {:induction false} DropMembers(order: seq<Key>, dead: set<Key>)
    ensures forall k :: k in Drop(order, dead) <==> k in order && k !in dead
    ensures NoDuplicates(order) ==> NoDuplicates(Drop(order, dead))
    ensures |Drop(order, dead)| <= |order|
  {
    if order != [] {
      DropMembers(order[1..], dead);
      assert order == [order[0]] + order[1..];
    }
  }

  lemma {:induction false} DropNothing(order: seq<Key>, dead: set<Key>)
    requires forall k :: k in order ==> k !in dead
    ensures Drop(order, dead) == order
  {
    if order != [] {
      assert order == [order[0]] + order[1..];
      DropNothing(order[1..], dead);
    }
  }

  lemma {:induction false} DropTwice(order: seq<Key>, a: set<Key>, b: set<Key>)
    ensures Drop(Drop(order, a), b) == Drop(order, a + b)
  {
    if order != [] {
      DropTwice(order[1..], a, b);
      if order[0] !in a {
        assert Drop(order, a)[1..] == Drop(order[1..], a);
      }
    }
  }

  lemma {:induction false} DropAppend(a: seq<Key>, b: seq<Key>, dead: set<Key>)
    ensures Drop(a + b, dead) == Drop(a, dead) + Drop(b, dead)
  {
    if a == [] {
      assert a + b == b;
    } else {
      assert (a + b)[1..] == a[1..] + b;
      DropAppend(a[1..], b, dead);
    }
  }

  lemma {:induction false} DropAgree(order: seq<Key>, a: set<Key>, b: set<Key>)
    requires forall k :: k in order ==> (k in a <==> k in b)
    ensures Drop(order, a) == Drop(order, b)
  {
    if order != [] {
      DropAgree(order[1..], a, b);
    }
  }

  /** Dropping one key that is present removes exactly one position. */
  lemma {:induction false} DropOne(order: seq<Key>, i: nat)
    requires NoDuplicates(order) && i < |order|
    ensures Drop(order, {order[i]}) == order[..i] + order[i + 1..]
  {
    var before, after := order[..i], order[i + 1..];
    assert order == before + [order[i]] + after;
    DropAppend(before + [order[i]], after, {order[i]});
    DropAppend(before, [order[i]], {order[i]});
    DropNothing(before, {order[i]});
    DropNothing(after, {order[i]});
  }

  /** Within a represented state eviction drops the oldest key, once, exactly when the cache is full. */
  lemma EvictOnce(s: State, maxSize: nat)
    requires Represented(s, maxSize)
    ensures Evict(s, maxSize) ==
            if |s.order| < Capacity(maxSize) then s
            else State(s.entries - {Last(s.order)}, Front(s.order))
  {
  }

  lemma EvictStep(s: State, maxSize: nat)
    requires s.order != [] && |s.order| >= maxSize
    ensures Evict(s, maxSize) == Evict(State(s.entries - {Last(s.order)}, Front(s.order)), maxSize)
  {
  }

  lemma EvictStop(s: State, maxSize: nat)
    requires s.order == [] || |s.order| < maxSize
    ensures Evict(s, maxSize) == s
  {
  }

  // ----- the representation over all runs

  lemma PurgeKeeps(s: State, dead: set<Key>, maxSize: nat)
    requires Represented(s, maxSize)
    ensures Represented(Purge(s, dead), maxSize)
  {
    DropMembers(s.order, dead);
  }

  lemma PurgeLast(s: State, maxSize: nat)
    requires Represented(s, maxSize) && s.order != []
    ensures Purge(s, {Last(s.order)}) == State(s.entries - {Last(s.order)}, Front(s.order))
    ensures Represented(State(s.entries - {Last(s.order)}, Front(s.order)), maxSize)
  {
    DropOne(s.order, |s.order| - 1);
    PurgeKeeps(s, {Last(s.order)}, maxSize);
  }

  lemma TouchKeeps(s: State, k: Key, maxSize: nat)
    requires Represented(s, maxSize) && k in s.entries
    ensures Represented(Touch(s, k), maxSize)
  {
    var i :| 0 <= i < |s.order| && s.order[i] == k;
    DropMembers(s.order, {k});
    DropOne(s.order, i);
  }

  lemma StoreKeeps(s: State, maxSize: nat, k: Key, e: Entry)
    requires Represented(s, maxSize)
    ensures Represented(Store(s, maxSize, k, e), maxSize)
  {
    if k in s.entries {
      TouchKeeps(s, k, maxSize);
    } else {
      EvictOnce(s, maxSize);
    }
  }

  lemma ProbeKeeps(s: State, maxSize: nat, k: Key, check: Time)
    requires Represented(s, maxSize)
    ensures Represented(Probe(s, k, check).0, maxSize)
  {
    PurgeKeeps(s, {k}, maxSize);
    if k in s.entries {
      TouchKeeps(s, k, maxSize);
    }
  }

  lemma ApplyKeeps(s: State, cfg: Config, op: Op)
    requires Represented(s, cfg.maxSize)
    ensures Represented(Apply(s, cfg, op), cfg.maxSize)
  {
    match op
    case Set(k, v, ttl, now) => StoreKeeps(s, cfg.maxSize, k, EntryOf(cfg, v, ttl, now));
    case Get(k, sweep, check) =>
      PurgeKeeps(s, Expired(s.entries, sweep), cfg.maxSize);
      ProbeKeeps(Expire(s, sweep), cfg.maxSize, k, check);
    case Exists(_, sweep, _) => PurgeKeeps(s, Expired(s.entries, sweep), cfg.maxSize);
    case Remove(k) => PurgeKeeps(s, {k}, cfg.maxSize);
    case Clear =>
  }

  /** After any trace the keys stored are exactly the keys listed, none twice, within the capacity. */
  lemma {:induction false} RunKeeps(trace: seq<Op>, cfg: Config)
    ensures Represented(Run(trace, cfg), cfg.maxSize)
  {
    if trace != [] {
      RunKeeps(Front(trace), cfg);
      ApplyKeeps(Run(Front(trace), cfg), cfg, Last(trace));
    }
  }

  /** The configured limit is kept by every run if and only if it is positive: one entry set makes a cache
      of limit zero hold one. */
  lemma LimitKeptIff(cfg: Config)
    ensures (forall trace :: |Run(trace, cfg).order| <= cfg.maxSize) <==> cfg.maxSize > 0
  {
    if cfg.maxSize > 0 {
      forall trace ensures |Run(trace, cfg).order| <= cfg.maxSize {
        RunKeeps(trace, cfg);
      }
    } else {
      var trace := [Set("k", "v", 1, 0)];
      assert Front(trace) == [] && Last(trace) == Set("k", "v", 1, 0);
      assert Run(trace, cfg) == Apply(EMPTY, cfg, Last(trace));
      assert |Run(trace, cfg).order| == 1;
    }
  }

  // ----- an expiry sweep, one entry at a time

  function ExpiredOutside(entries: map<Key, Entry>, pending: set<Key>, now: Time): set<Key> {
    set k | k in entries && k !in pending && entries[k].expiry <= now
  }

  lemma SweepStart(s: State, now: Time)
    ensures Purge(s, ExpiredOutside(s.entries, s.entries.Keys, now)) == s
    ensures ExpiredOutside(s.entries, {}, now) == Expired(s.entries, now)
  {
    assert ExpiredOutside(s.entries, s.entries.Keys, now) == {};
    DropNothing(s.order, {});
    assert s.entries - {} == s.entries;
  }

  lemma SweepStep(s: State, pending: set<Key>, k: Key, now: Time)
    requires k in pending && k in s.entries
    ensures var swept := Purge(s, ExpiredOutside(s.entries, pending, now));
            && k in swept.entries && swept.entries[k] == s.entries[k]
            && Purge(s, ExpiredOutside(s.entries, pending - {k}, now)) ==
               if s.entries[k].expiry <= now then Purge(swept, {k}) else swept
  {
    var dead, dead' := ExpiredOutside(s.entries, pending, now), ExpiredOutside(s.entries, pending - {k}, now);
    if s.entries[k].expiry <= now {
      assert dead' == dead + {k};
      DropTwice(s.order, dead, {k});
      assert s.entries - dead - {k} == s.entries - dead';
    } else {
      assert dead' == dead;
    }
  }
}
