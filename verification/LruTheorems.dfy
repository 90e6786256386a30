/** What a trace of cache calls guarantees: the contents of a smaller cache are always contained
    in those of a larger one, a hit returns the last value written, and an entry is kept for as
    long as fewer than capacity-many other keys have been touched. */
module LruTheorems {
  import opened LruSpec

  // ----- orders without duplicates as sets

  lemma {:induction false} OrderSize(order: seq<Key>, keys: set<Key>)
    requires NoDuplicates(order)
    requires forall k :: k in order <==> k in keys
    ensures |order| == |keys|
  {
    if order != [] {
      assert order == [order[0]] + order[1..];
      OrderSize(order[1..], keys - {order[0]});
    }
  }

  lemma SubsetSize<T>(a: set<T>, b: set<T>)
    requires a <= b
    ensures |a| <= |b|
  {
    assert b == a + (b - a);
  }

  lemma DifferenceSize<T>(a: set<T>, b: set<T>)
    requires a <= b
    ensures |b - a| == |b| - |a|
  {
    assert b == a + (b - a);
  }

  // ----- stack inclusion across two capacities

  function Only(small: State, large: State): set<Key> {
    large.entries.Keys - small.entries.Keys
  }

  /** `small` agrees with `large` on everything it holds, and its recency order is the order of
      `large` restricted to its own keys. */
  ghost predicate Within(small: State, large: State) {
    && (forall k :: k in small.entries ==> k in large.entries && large.entries[k] == small.entries[k])
    && small.order == Drop(large.order, Only(small, large))
  }

  /** Moreover `large` is never closer to being full than `small` is. */
  ghost predicate Included(small: State, large: State, m: nat, n: nat) {
    && Within(small, large)
    && |large.order| - |small.order| <= Capacity(n) - Capacity(m)
  }

  lemma PurgeWithin(small: State, large: State, ds: set<Key>, dl: set<Key>)
    requires Within(small, large) && dl * small.entries.Keys <= ds
    requires forall k :: k in large.order ==> k in large.entries
    ensures Within(Purge(small, ds), Purge(large, dl))
  {
    var only := Only(small, large);
    var only' := Only(Purge(small, ds), Purge(large, dl));
    DropTwice(large.order, only, ds);
    DropTwice(large.order, dl, only');
    forall k | k in large.order ensures k in only + ds <==> k in dl + only' {
      assert k in only' <==> k in large.entries && k !in dl && !(k in small.entries && k !in ds);
    }
    DropAgree(large.order, only + ds, dl + only');
  }

  lemma OnlySize(small: State, large: State, m: nat, n: nat)
    requires Within(small, large) && Represented(small, m) && Represented(large, n)
    ensures |Only(small, large)| == |large.order| - |small.order|
  {
    OrderSize(small.order, small.entries.Keys);
    OrderSize(large.order, large.entries.Keys);
    DifferenceSize(small.entries.Keys, large.entries.Keys);
  }

  lemma PurgeIncluded(small: State, large: State, m: nat, n: nat, ds: set<Key>, dl: set<Key>)
    requires Included(small, large, m, n) && Represented(small, m) && Represented(large, n)
    requires forall k :: k in small.entries ==> (k in ds <==> k in dl)
    ensures Included(Purge(small, ds), Purge(large, dl), m, n)
  {
    var s, l := Purge(small, ds), Purge(large, dl);
    PurgeWithin(small, large, ds, dl);
    PurgeKeeps(small, ds, m);
    PurgeKeeps(large, dl, n);
    SubsetSize(Only(s, l), Only(small, large));
    OnlySize(small, large, m, n);
    OnlySize(s, l, m, n);
  }

  lemma TouchSize(s: State, k: Key, maxSize: nat)
    requires Represented(s, maxSize) && k in s.entries
    ensures |Touch(s, k).order| == |s.order|
  {
    var i :| 0 <= i < |s.order| && s.order[i] == k;
    DropOne(s.order, i);
  }

  lemma TouchWithin(small: State, large: State, k: Key)
    requires Within(small, large) && k in large.entries
    ensures Within(if k in small.entries then Touch(small, k) else small, Touch(large, k))
  {
    var only := Only(small, large);
    DropTwice(large.order, only, {k});
    DropTwice(large.order, {k}, only);
    DropAppend([k], Drop(large.order, {k}), only);
    assert only + {k} == {k} + only;
    if k !in small.entries {
      assert {k} + only == only;
    }
  }

  lemma TouchIncluded(small: State, large: State, m: nat, n: nat, k: Key)
    requires Included(small, large, m, n) && Represented(small, m) && Represented(large, n) && k in large.entries
    ensures Included(if k in small.entries then Touch(small, k) else small, Touch(large, k), m, n)
  {
    TouchWithin(small, large, k);
    TouchSize(large, k, n);
    if k in small.entries {
      TouchSize(small, k, m);
    }
  }

  /** Writing one entry into both, where each already lists the key first. */
  lemma WriteWithin(small: State, large: State, k: Key, e: Entry)
    requires Within(small, large) && k !in large.entries
    ensures Within(State(small.entries[k := e], [k] + small.order), State(large.entries[k := e], [k] + large.order))
  {
    var only := Only(small, large);
    assert large.entries[k := e].Keys - small.entries[k := e].Keys == only;
    DropAppend([k], large.order, only);
  }

  lemma LastDropped(order: seq<Key>, dead: set<Key>)
    requires order != [] && Last(order) !in dead
    ensures Drop(order, dead) != [] && Last(Drop(order, dead)) == Last(order)
  {
    assert order == Front(order) + [Last(order)];
    DropAppend(Front(order), [Last(order)], dead);
  }

  lemma EvictIsPurge(s: State, maxSize: nat)
    requires Represented(s, maxSize)
    ensures |s.order| < Capacity(maxSize) ==> Evict(s, maxSize) == Purge(s, {}) == s
    ensures |s.order| == Capacity(maxSize) ==> Evict(s, maxSize) == Purge(s, {Last(s.order)})
  {
    EvictOnce(s, maxSize);
    DropNothing(s.order, {});
    if |s.order| == Capacity(maxSize) {
      DropOne(s.order, |s.order| - 1);
      assert Front(s.order) == s.order[..|s.order| - 1] + s.order[|s.order|..];
    }
  }

  /** Making room: the larger cache never gives up a key that the smaller one keeps, because when it
      is full so is the smaller one, and the oldest key overall is then the oldest of both. */
  lemma EvictWithin(small: State, large: State, m: nat, n: nat)
    requires m <= n && Included(small, large, m, n) && Represented(small, m) && Represented(large, n)
    ensures Within(Evict(small, m), Evict(large, n))
  {
    EvictIsPurge(small, m);
    EvictIsPurge(large, n);
    var ds := if |small.order| == Capacity(m) then {Last(small.order)} else {};
    var dl := if |large.order| == Capacity(n) then {Last(large.order)} else {};
    if dl != {} && Last(large.order) in small.entries {
      LastDropped(large.order, Only(small, large));
    }
    PurgeWithin(small, large, ds, dl);
  }

  /** Storing is making room (by dropping the key itself, or the oldest one) and writing in front. */
  function Room(s: State, maxSize: nat, k: Key): State {
    if k in s.entries then Purge(s, {k}) else Evict(s, maxSize)
  }

  lemma StoreIsWrite(s: State, maxSize: nat, k: Key, e: Entry)
    requires Represented(s, maxSize)
    ensures var room := Room(s, maxSize, k);
            k !in room.entries && Store(s, maxSize, k, e) == State(room.entries[k := e], [k] + room.order)
  {
    if k in s.entries {
      assert (s.entries - {k})[k := e] == s.entries[k := e];
    } else {
      EvictOnce(s, maxSize);
    }
  }

  lemma StoreIncluded(small: State, large: State, m: nat, n: nat, k: Key, e: Entry)
    requires m <= n && Included(small, large, m, n) && Represented(small, m) && Represented(large, n)
    ensures Included(Store(small, m, k, e), Store(large, n, k, e), m, n)
  {
    RoomWithin(small, large, m, n, k);
    StoreIsWrite(small, m, k, e);
    StoreIsWrite(large, n, k, e);
    WriteWithin(Room(small, m, k), Room(large, n, k), k, e);
    StoreSize(small, m, k, e);
    StoreSize(large, n, k, e);
  }

  lemma RoomWithin(small: State, large: State, m: nat, n: nat, k: Key)
    requires m <= n && Included(small, large, m, n) && Represented(small, m) && Represented(large, n)
    ensures Within(Room(small, m, k), Room(large, n, k))
  {
    if k in small.entries {
      PurgeWithin(small, large, {k}, {k});
    } else if k in large.entries {
      EvictIsPurge(small, m);
      PurgeWithin(small, large, if |small.order| < Capacity(m) then {} else {Last(small.order)}, {k});
    } else {
      EvictWithin(small, large, m, n);
    }
  }

  lemma StoreSize(s: State, maxSize: nat, k: Key, e: Entry)
    requires Represented(s, maxSize)
    ensures |Store(s, maxSize, k, e).order| ==
            if k in s.entries || |s.order| == Capacity(maxSize) then |s.order| else |s.order| + 1
  {
    EvictOnce(s, maxSize);
    if k in s.entries {
      var i :| 0 <= i < |s.order| && s.order[i] == k;
      DropOne(s.order, i);
    }
  }

  lemma LookupIncluded(small: State, large: State, m: nat, n: nat, k: Key, sweep: Time, check: Time)
    requires Included(small, large, m, n) && Represented(small, m) && Represented(large, n)
    ensures Included(Lookup(small, k, sweep, check).0, Lookup(large, k, sweep, check).0, m, n)
    ensures Hits(small, k, sweep, check) ==> Lookup(large, k, sweep, check).1 == Lookup(small, k, sweep, check).1
  {
    ExpireIncluded(small, large, m, n, sweep);
    PurgeKeeps(large, Expired(large.entries, sweep), n);
    PurgeKeeps(small, Expired(small.entries, sweep), m);
    ProbeIncluded(Expire(small, sweep), Expire(large, sweep), m, n, k, check);
  }

  lemma ProbeIncluded(small: State, large: State, m: nat, n: nat, k: Key, check: Time)
    requires Included(small, large, m, n) && Represented(small, m) && Represented(large, n)
    ensures Included(Probe(small, k, check).0, Probe(large, k, check).0, m, n)
    ensures Probe(small, k, check).1.Some? ==> Probe(large, k, check).1 == Probe(small, k, check).1
  {
    assert k in small.entries ==> k in large.entries && small.entries[k] == large.entries[k];
    hide Included, Represented, Purge, Touch;
    if k in large.entries {
      if large.entries[k].expiry > check {
        TouchIncluded(small, large, m, n, k);
      } else {
        ForgetIncluded(small, large, m, n, k);
      }
    }
  }

  lemma ForgetIncluded(small: State, large: State, m: nat, n: nat, k: Key)
    requires Included(small, large, m, n) && Represented(small, m) && Represented(large, n)
    ensures Included(if k in small.entries then Purge(small, {k}) else small, Purge(large, {k}), m, n)
  {
    PurgeIncluded(small, large, m, n, {k}, {k});
    if k !in small.entries {
      PurgeAbsent(small, m, k);
    }
  }

  lemma PurgeAbsent(s: State, maxSize: nat, k: Key)
    requires Represented(s, maxSize) && k !in s.entries
    ensures Purge(s, {k}) == s
  {
    DropNothing(s.order, {k});
    assert s.entries - {k} == s.entries;
  }

  lemma ExpireIncluded(small: State, large: State, m: nat, n: nat, now: Time)
    requires Included(small, large, m, n) && Represented(small, m) && Represented(large, n)
    ensures Included(Expire(small, now), Expire(large, now), m, n)
  {
    PurgeIncluded(small, large, m, n, Expired(small.entries, now), Expired(large.entries, now));
  }

  lemma ClearIncluded(m: nat, n: nat)
    requires m <= n
    ensures Included(EMPTY, EMPTY, m, n)
  {
    assert Only(EMPTY, EMPTY) == {};
  }

  lemma ApplyIncluded(small: State, large: State, ttl: int, m: nat, n: nat, op: Op)
    requires m <= n && Included(small, large, m, n) && Represented(small, m) && Represented(large, n)
    ensures Included(Apply(small, Config(ttl, m), op), Apply(large, Config(ttl, n), op), m, n)
  {
    hide Included, Represented, Store, Lookup, Expire, Purge;
    match op
    case Set(k, v, t, now) => StoreIncluded(small, large, m, n, k, EntryOf(Config(ttl, m), v, t, now));
    case Get(k, sweep, check) => LookupIncluded(small, large, m, n, k, sweep, check);
    case Exists(_, sweep, _) => ExpireIncluded(small, large, m, n, sweep);
    case Remove(k) => PurgeIncluded(small, large, m, n, {k}, {k});
    case Clear => ClearIncluded(m, n);
  }

  /** On one trace with one set of clock readings, at every step the cache of capacity `m` is contained,
      with equal values and expiries and in the same recency order, in the cache of capacity `n >= m`. */
  lemma {:induction false} Inclusion(trace: seq<Op>, ttl: int, m: nat, n: nat)
    requires m <= n
    ensures Included(Run(trace, Config(ttl, m)), Run(trace, Config(ttl, n)), m, n)
  {
    if trace != [] {
      Inclusion(Front(trace), ttl, m, n);
      RunKeeps(Front(trace), Config(ttl, m));
      RunKeeps(Front(trace), Config(ttl, n));
      ApplyIncluded(Run(Front(trace), Config(ttl, m)), Run(Front(trace), Config(ttl, n)), ttl, m, n, Last(trace));
    }
  }

  /** Enlarging the cache never turns a hit into a miss, nor changes what the hit returns. */
  lemma LargerCacheHitsToo(trace: seq<Op>, ttl: int, m: nat, n: nat, k: Key, sweep: Time, check: Time)
    requires m <= n && Hits(Run(trace, Config(ttl, m)), k, sweep, check)
    ensures Lookup(Run(trace, Config(ttl, n)), k, sweep, check).1 == Lookup(Run(trace, Config(ttl, m)), k, sweep, check).1
  {
    Inclusion(trace, ttl, m, n);
    RunKeeps(trace, Config(ttl, m));
    RunKeeps(trace, Config(ttl, n));
    LookupIncluded(Run(trace, Config(ttl, m)), Run(trace, Config(ttl, n)), m, n, k, sweep, check);
  }
}
