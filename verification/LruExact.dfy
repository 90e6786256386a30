/** While nothing is removed and nothing expires, the cache holds exactly the keys used most recently. */
module LruExact {
  import opened LruHistory
  import opened LruSpec
  import opened LruTheorems

  /** Nothing is removed or cleared, no clock reading is later than `now`, and no entry written has
      expired by then. */
  predicate Steady(trace: seq<Op>, cfg: Config, now: Time) {
    if trace == [] then true
    else
      && Steady(Front(trace), cfg, now)
      && match Last(trace)
         case Set(_, v, ttl, t) => t <= now < Until(cfg, ttl, t)
         case Get(_, sweep, check) => sweep <= now && check <= now
         case Exists(_, sweep, check) => sweep <= now && check <= now
         case Remove(_) => false
         case Clear => false
  }

  lemma {:induction false} WritesUnexpired(trace: seq<Op>, cfg: Config, now: Time, k: Key)
    requires Steady(trace, cfg, now) && LastWrite(trace, k, cfg).Some?
    ensures LastWrite(trace, k, cfg).value.expiry > now
  {
    if trace != [] && !(Last(trace).Set? && Last(trace).key == k) {
      WritesUnexpired(Front(trace), cfg, now, k);
    }
  }

  /** No sweep up to `now` finds anything to erase. */
  lemma SweepsNothing(trace: seq<Op>, cfg: Config, now: Time, sweep: Time)
    requires Steady(trace, cfg, now) && sweep <= now
    ensures Expire(Run(trace, cfg), sweep) == Run(trace, cfg)
  {
    var s := Run(trace, cfg);
    forall k | k in s.entries ensures s.entries[k].expiry > now {
      StoredIsLastWrite(trace, cfg, k);
      WritesUnexpired(trace, cfg, now, k);
    }
    assert Expired(s.entries, sweep) == {};
    DropNothing(s.order, {});
    assert s.entries - {} == s.entries;
  }

  lemma {:induction false} AheadStays(order: seq<Key>, dead: set<Key>, k: Key)
    requires k !in dead
    ensures Ahead(order, k) - dead <= Ahead(Drop(order, dead), k)
  {
    if order != [] {
      AheadStays(order[1..], dead, k);
      if order[0] !in dead {
        assert Drop(order, dead)[1..] == Drop(order[1..], dead);
      }
    }
  }

  lemma {:induction false} AheadOfFront(order: seq<Key>, k: Key)
    requires order != [] && k in Front(order)
    ensures Ahead(Front(order), k) == Ahead(order, k)
  {
    if order[0] != k {
      assert Front(order)[1..] == Front(order[1..]);
      AheadOfFront(order[1..], k);
    }
  }

  lemma AheadOfPush(order: seq<Key>, x: Key, k: Key)
    requires x != k
    ensures Ahead([x] + order, k) == {x} + Ahead(order, k)
  {
    assert ([x] + order)[1..] == order;
  }

  /** Everything touched since `k` was is listed before it. */
  ghost predicate InFront(s: State, touched: set<Key>, k: Key) {
    k in s.entries ==> touched <= Ahead(s.order, k)
  }

  lemma TouchInFront(s: State, x: Key, touched: set<Key>, k: Key)
    requires InFront(s, touched, k) && x != k
    ensures InFront(Touch(s, x), touched + {x}, k)
  {
    AheadStays(s.order, {x}, k);
    AheadOfPush(Drop(s.order, {x}), x, k);
  }

  lemma StoreInFront(s: State, maxSize: nat, x: Key, e: Entry, touched: set<Key>, k: Key)
    requires Represented(s, maxSize) && InFront(s, touched, k) && x != k
    ensures InFront(Store(s, maxSize, x, e), touched + {x}, k)
  {
    if x in s.entries {
      TouchInFront(s, x, touched, k);
    } else {
      EvictOnce(s, maxSize);
      var room := Evict(s, maxSize);
      AheadOfPush(room.order, x, k);
      if k in room.entries && room != s {
        assert k in s.order && k != Last(s.order);
        assert k in Front(s.order);
        AheadOfFront(s.order, k);
      }
    }
  }

  lemma {:induction false} TouchedAreInFront(trace: seq<Op>, cfg: Config, k: Key, now: Time)
    requires Steady(trace, cfg, now)
    ensures InFront(Run(trace, cfg), Touched(trace, k, cfg), k)
  {
    if trace != [] {
      var past := Front(trace);
      var s, touched := Run(past, cfg), Touched(past, k, cfg);
      TouchedAreInFront(past, cfg, k, now);
      RunKeeps(past, cfg);
      match Last(trace) {
        case Set(x, v, ttl, t) =>
          if x != k {
            StoreInFront(s, cfg.maxSize, x, EntryOf(cfg, v, ttl, t), touched, k);
          }
        case Get(x, sweep, check) =>
          SweepsNothing(past, cfg, now, sweep);
          ProbeInFront(past, cfg, now, x, check, touched, k);
        case Exists(_, sweep, _) => SweepsNothing(past, cfg, now, sweep);
      }
    }
  }

  lemma ProbeInFront(trace: seq<Op>, cfg: Config, now: Time, x: Key, check: Time, touched: set<Key>, k: Key)
    requires Steady(trace, cfg, now) && check <= now && InFront(Run(trace, cfg), touched, k)
    ensures var (t, hit) := Probe(Run(trace, cfg), x, check);
            InFront(t, if hit.None? then touched else if x == k then {} else touched + {x}, k)
  {
    var s := Run(trace, cfg);
    if x in s.entries {
      StoredIsLastWrite(trace, cfg, x);
      WritesUnexpired(trace, cfg, now, x);
      if x != k {
        TouchInFront(s, x, touched, k);
      }
    }
  }

  lemma {:induction false} FewerAhead(order: seq<Key>, k: Key)
    requires k in order
    ensures |Ahead(order, k)| < |order|
  {
    if order[0] != k {
      FewerAhead(order[1..], k);
    }
  }

  /** A key that has been written hits if and only if fewer than capacity-many distinct other keys were
      written or hit since its own last touch: eviction strikes the least recently used key and no other. */
  lemma HitsIffRecent(trace: seq<Op>, cfg: Config, k: Key, sweep: Time, check: Time)
    requires Steady(trace, cfg, check) && Monotone(trace, sweep) && sweep <= check
    requires LastWrite(trace, k, cfg).Some?
    ensures Hits(Run(trace, cfg), k, sweep, check) <==> |Touched(trace, k, cfg)| < Capacity(cfg.maxSize)
  {
    WritesUnexpired(trace, cfg, check, k);
    var s := Run(trace, cfg);
    if |Touched(trace, k, cfg)| < Capacity(cfg.maxSize) {
      UnexpiredHits(trace, cfg, k, sweep, check);
    } else if k in s.entries {
      TouchedAreInFront(trace, cfg, k, check);
      RunKeeps(trace, cfg);
      FewerAhead(s.order, k);
      SubsetSize(Touched(trace, k, cfg), Ahead(s.order, k));
      assert false;
    }
  }
}
