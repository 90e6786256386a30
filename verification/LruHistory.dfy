/** The cache against its history: what a hit returns, and when an entry is still there. */
module LruHistory {
  import opened LruSpec
  import opened LruTheorems
  import opened Options

  /** The last value written under `k` and neither removed nor cleared since: a reading of the trace
      that knows nothing of capacities, recency or expiry sweeps. */
  function LastWrite(trace: seq<Op>, k: Key, cfg: Config): Option<Entry> {
    if trace == [] then None
    else match Last(trace)
      case Set(k', v, ttl, now) =>
        if k' == k then Some(Entry(v, Until(cfg, ttl, now))) else LastWrite(Front(trace), k, cfg)
      case Remove(k') => if k' == k then None else LastWrite(Front(trace), k, cfg)
      case Clear => None
      case _ => LastWrite(Front(trace), k, cfg)
  }

  /** The other keys written, or read with a hit, since `k` itself was last written or hit. */
  function Touched(trace: seq<Op>, k: Key, cfg: Config): set<Key> {
    if trace == [] then {}
    else match Last(trace)
      case Set(k', _, _, _) => if k' == k then {} else Touched(Front(trace), k, cfg) + {k'}
      case Get(k', sweep, check) =>
        if !Hits(Run(Front(trace), cfg), k', sweep, check) then Touched(Front(trace), k, cfg)
        else if k' == k then {} else Touched(Front(trace), k, cfg) + {k'}
      case _ => Touched(Front(trace), k, cfg)
  }

  /** The clock readings of the trace never go back and none is later than `now`. */
  predicate Monotone(trace: seq<Op>, now: Time) {
    if trace == [] then true
    else match Last(trace)
      case Set(_, _, _, t) => t <= now && Monotone(Front(trace), t)
      case Get(_, sweep, check) => sweep <= check <= now && Monotone(Front(trace), sweep)
      case Exists(_, sweep, check) => sweep <= check <= now && Monotone(Front(trace), sweep)
      case _ => Monotone(Front(trace), now)
  }

  /** When the caller's own time to live, or else the default one, is over. */
  function Until(cfg: Config, ttl: int, now: Time): Time {
    if ttl > 0 then now + ttl else now + cfg.defaultTtl
  }

  /** An entry held after a call is the one just set, or was there before and is not what the call removes. */
  lemma HeldAfter(s: State, cfg: Config, op: Op, k: Key)
    requires Represented(s, cfg.maxSize) && k in Apply(s, cfg, op).entries
    ensures var e := Apply(s, cfg, op).entries[k];
            if op.Set? && op.key == k then e == Entry(op.value, Until(cfg, op.ttl, op.now))
            else k in s.entries && s.entries[k] == e && !op.Clear? && (op.Remove? ==> op.key != k)
  {
    EvictOnce(s, cfg.maxSize);
    hide Evict;
  }

  /** Whatever the cache holds under a key is the last write of that key. */
  lemma {:induction false} StoredIsLastWrite(trace: seq<Op>, cfg: Config, k: Key)
    requires k in Run(trace, cfg).entries
    ensures LastWrite(trace, k, cfg) == Some(Run(trace, cfg).entries[k])
  {
    var past, op := Front(trace), Last(trace);
    RunKeeps(past, cfg);
    HeldAfter(Run(past, cfg), cfg, op, k);
    if !(op.Set? && op.key == k) {
      StoredIsLastWrite(past, cfg, k);
    }
    hide Apply, Represented;
  }

  /** A hit returns the last value set and not removed or cleared since, and that value is unexpired. */
  lemma HitIsLastWrite(trace: seq<Op>, cfg: Config, k: Key, sweep: Time, check: Time)
    requires Hits(Run(trace, cfg), k, sweep, check)
    ensures var w := LastWrite(trace, k, cfg);
            w.Some? && w.value.expiry > check && w.value.expiry > sweep
            && Lookup(Run(trace, cfg), k, sweep, check).1 == Some(w.value.value)
  {
    StoredIsLastWrite(trace, cfg, k);
  }

  /** A value set is answered right after as long as both readings of the clock are within the caller's time
      to live, or, when that is not positive, within the default one; and no longer. */
  lemma SetHitsUntil(trace: seq<Op>, cfg: Config, k: Key, v: string, ttl: int, now: Time, sweep: Time, check: Time)
    requires trace != [] && Last(trace) == Set(k, v, ttl, now)
    ensures var until := if ttl > 0 then now + ttl else now + cfg.defaultTtl;
            Lookup(Run(trace, cfg), k, sweep, check).1 == if sweep < until && check < until then Some(v) else None
  {
    assert k in Run(trace, cfg).entries;
    StoredIsLastWrite(trace, cfg, k);
  }

  // ----- retention

  /** The keys listed before `k`, i.e. used more recently. */
  function Ahead(order: seq<Key>, k: Key): set<Key> {
    if order == [] || order[0] == k then {} else {order[0]} + Ahead(order[1..], k)
  }

  lemma {:induction false} AheadDrop(order: seq<Key>, dead: set<Key>, k: Key)
    requires k !in dead
    ensures Ahead(Drop(order, dead), k) <= Ahead(order, k)
  {
    if order != [] {
      AheadDrop(order[1..], dead, k);
      if order[0] !in dead {
        assert Drop(order, dead)[1..] == Drop(order[1..], dead);
      }
    }
  }

  lemma {:induction false} AheadFront(order: seq<Key>, k: Key)
    requires order != []
    ensures Ahead(Front(order), k) <= Ahead(order, k)
  {
    if |order| > 1 && order[0] != k {
      assert Front(order)[1..] == Front(order[1..]);
      AheadFront(order[1..], k);
    }
  }

  lemma AheadPush(order: seq<Key>, x: Key, k: Key)
    ensures Ahead([x] + order, k) <= {x} + Ahead(order, k)
  {
    assert ([x] + order)[1..] == order;
  }

  lemma {:induction false} AheadListed(order: seq<Key>, k: Key)
    ensures forall x :: x in Ahead(order, k) ==> x in order
  {
    if order != [] && order[0] != k {
      AheadListed(order[1..], k);
      hide Ahead;
      assert forall x :: x in order[1..] ==> x in order;
    }
  }

  lemma AheadOfTail(order: seq<Key>)
    requires |order| > 1 && NoDuplicates(order)
    ensures NoDuplicates(order[1..]) && Last(order[1..]) == Last(order)
    ensures order[0] != Last(order) && order[0] !in order[1..]
  {
  }

  /** The oldest key has every other key ahead of it. */
  lemma {:induction false} AheadOfOldest(order: seq<Key>)
    requires order != [] && NoDuplicates(order)
    ensures |Ahead(order, Last(order))| == |order| - 1
    ensures forall x :: x in Ahead(order, Last(order)) ==> x in order
  {
    AheadListed(order, Last(order));
    if |order| > 1 {
      var first, rest := order[0], order[1..];
      AheadOfTail(order);
      AheadOfOldest(rest);
      var ahead := Ahead(rest, Last(rest));
      assert Ahead(order, Last(order)) == {first} + ahead;
      hide NoDuplicates, Ahead, Last;
      assert first !in ahead;
    }
  }

  /** Either `k` is held and everything used more recently has been touched since `k` was,
      or enough other keys have been touched to fill the cache. */
  ghost predicate Retained(s: State, touched: set<Key>, k: Key, maxSize: nat) {
    (k in s.entries && Ahead(s.order, k) <= touched) || |touched| >= Capacity(maxSize)
  }

  lemma PurgeRetains(s: State, dead: set<Key>, touched: set<Key>, k: Key, maxSize: nat)
    requires Retained(s, touched, k, maxSize) && k !in dead
    ensures Retained(Purge(s, dead), touched, k, maxSize)
  {
    AheadDrop(s.order, dead, k);
  }

  lemma TouchRetains(s: State, x: Key, touched: set<Key>, k: Key, maxSize: nat)
    requires Retained(s, touched, k, maxSize) && x != k
    ensures Retained(Touch(s, x), touched + {x}, k, maxSize)
  {
    AheadDrop(s.order, {x}, k);
    AheadPush(Drop(s.order, {x}), x, k);
    SubsetSize(touched, touched + {x});
  }

  lemma StoreRetains(s: State, x: Key, e: Entry, touched: set<Key>, k: Key, maxSize: nat)
    requires Represented(s, maxSize) && Retained(s, touched, k, maxSize) && x != k
    ensures Retained(Store(s, maxSize, x, e), touched + {x}, k, maxSize)
  {
    SubsetSize(touched, touched + {x});
    if x in s.entries {
      TouchRetains(s, x, touched, k, maxSize);
    } else if k in s.entries && Ahead(s.order, k) <= touched {
      EvictOnce(s, maxSize);
      if |s.order| == Capacity(maxSize) && Last(s.order) == k {
        AheadOfOldest(s.order);
        assert |Ahead(s.order, k) + {x}| == |s.order|;
        SubsetSize(Ahead(s.order, k) + {x}, touched + {x});
      } else {
        AheadPush(Evict(s, maxSize).order, x, k);
        if |s.order| == Capacity(maxSize) {
          AheadFront(s.order, k);
        }
      }
    }
  }

  lemma LookupRetains(s: State, x: Key, sweep: Time, check: Time, touched: set<Key>, k: Key, maxSize: nat)
    requires Represented(s, maxSize) && Retained(s, touched, k, maxSize)
    requires k in s.entries ==> s.entries[k].expiry > check >= sweep
    ensures x != k ==>
      Retained(Lookup(s, x, sweep, check).0, if Hits(s, x, sweep, check) then touched + {x} else touched, k, maxSize)
    ensures x == k ==>
      Retained(Lookup(s, x, sweep, check).0, if Hits(s, x, sweep, check) then {} else touched, k, maxSize)
  {
    var swept := Expire(s, sweep);
    PurgeRetains(s, Expired(s.entries, sweep), touched, k, maxSize);
    if x != k {
      PurgeRetains(swept, {x}, touched, k, maxSize);
      TouchRetains(swept, x, touched, k, maxSize);
    }
  }

  lemma {:induction false} StaysRetained(trace: seq<Op>, cfg: Config, k: Key, now: Time)
    requires Monotone(trace, now)
    requires LastWrite(trace, k, cfg).Some? && LastWrite(trace, k, cfg).value.expiry > now
    ensures Retained(Run(trace, cfg), Touched(trace, k, cfg), k, cfg.maxSize)
  {
    var past, op := Front(trace), Last(trace);
    var s, touched := Run(past, cfg), Touched(past, k, cfg);
    RunKeeps(past, cfg);
    match op
    case Set(x, v, ttl, t) =>
      if x != k {
        StaysRetained(past, cfg, k, t);
        StoreRetains(s, x, EntryOf(cfg, v, ttl, t), touched, k, cfg.maxSize);
      }
    case Get(x, sweep, check) =>
      StaysRetained(past, cfg, k, sweep);
      if k in s.entries {
        StoredIsLastWrite(past, cfg, k);
      }
      LookupRetains(s, x, sweep, check, touched, k, cfg.maxSize);
    case Exists(_, sweep, _) =>
      StaysRetained(past, cfg, k, sweep);
      if k in s.entries {
        StoredIsLastWrite(past, cfg, k);
      }
      PurgeRetains(s, Expired(s.entries, sweep), touched, k, cfg.maxSize);
    case Remove(x) =>
      StaysRetained(past, cfg, k, now);
      PurgeRetains(s, {x}, touched, k, cfg.maxSize);
    case Clear =>
  }

  /** A key whose last write is unexpired hits, and returns that write, whenever fewer than
      capacity-many distinct other keys were written or hit since its own last touch. */
  lemma UnexpiredHits(trace: seq<Op>, cfg: Config, k: Key, sweep: Time, check: Time)
    requires Monotone(trace, sweep) && sweep <= check
    requires LastWrite(trace, k, cfg).Some? && LastWrite(trace, k, cfg).value.expiry > check
    requires |Touched(trace, k, cfg)| < Capacity(cfg.maxSize)
    ensures Lookup(Run(trace, cfg), k, sweep, check).1 == Some(LastWrite(trace, k, cfg).value.value)
  {
    StaysRetained(trace, cfg, k, sweep);
    StoredIsLastWrite(trace, cfg, k);
  }
}
