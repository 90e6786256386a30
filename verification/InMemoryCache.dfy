/** The in-memory cache as the program keeps it: a value map, a linked recency list and a map of
    nodes of that list, updated together by every operation. */
module InMemoryCaches {
  import opened KeyLists
  import opened LruSpec
  import opened LruTheorems
  import opened Options

  /** Every key maps to the node that stands at the key's own position. */
  ghost predicate Aligned(keys: seq<string>, ring: seq<Node>, nodes: map<string, Node>) {
    && |ring| == |keys| + 1
    && forall i {:trigger keys[i]} :: 0 <= i < |keys| ==> keys[i] in nodes && nodes[keys[i]] == ring[i + 1]
  }

  lemma AlignedErase(keys: seq<string>, ring: seq<Node>, nodes: map<string, Node>, i: nat)
    requires Aligned(keys, ring, nodes) && NoDuplicates(keys) && i < |keys|
    ensures Aligned(keys[..i] + keys[i + 1..], ring[..i + 1] + ring[i + 2..], nodes - {keys[i]})
    ensures Drop(keys, {keys[i]}) == keys[..i] + keys[i + 1..]
  {
    DropOne(keys, i);
    hide Drop;
    var ks, rs := keys[..i] + keys[i + 1..], ring[..i + 1] + ring[i + 2..];
    forall j | 0 <= j < |ks| ensures ks[j] in nodes - {keys[i]} && nodes[ks[j]] == rs[j + 1] {
      var o := if j < i then j else j + 1;
      assert ks[j] == keys[o] && rs[j + 1] == ring[o + 1] && keys[o] != keys[i];
    }
  }

  lemma AlignedPop(keys: seq<string>, ring: seq<Node>, nodes: map<string, Node>)
    requires Aligned(keys, ring, nodes) && NoDuplicates(keys) && keys != []
    ensures Aligned(keys[..|keys| - 1], ring[..|keys|], nodes - {keys[|keys| - 1]})
  {
  }

  lemma AlignedPush(keys: seq<string>, ring: seq<Node>, nodes: map<string, Node>, k: string, n: Node)
    requires Aligned(keys, ring, nodes) && k !in keys
    ensures Aligned([k] + keys, [ring[0], n] + ring[1..], nodes[k := n])
  {
  }

  lemma AlignedMove(keys: seq<string>, ring: seq<Node>, nodes: map<string, Node>, i: nat)
    requires Aligned(keys, ring, nodes) && NoDuplicates(keys) && i < |keys|
    ensures Aligned([keys[i]] + (keys[..i] + keys[i + 1..]),
                    [ring[0], ring[i + 1]] + (ring[..i + 1] + ring[i + 2..])[1..], nodes)
    ensures Drop(keys, {keys[i]}) == keys[..i] + keys[i + 1..]
  {
    AlignedErase(keys, ring, nodes, i);
    AlignedPush(keys[..i] + keys[i + 1..], ring[..i + 1] + ring[i + 2..], nodes - {keys[i]}, keys[i], ring[i + 1]);
    assert (nodes - {keys[i]})[keys[i] := ring[i + 1]] == nodes;
  }

  lemma Overwrite(entries: map<string, Entry>, k: string, e: Entry)
    ensures entries[k := e] == (entries - {k})[k := e]
  {
  }

  class InMemoryCache {
    var cache: map<string, Entry>
    const lruList: KeyList
    var lruMap: map<string, Node>
    const config: Config

    ghost function Model(): State
      reads this, lruList
    {
      State(cache, lruList.keys)
    }

    /** The three structures are in step: one key set, no duplicates, every stored node the node of
        its own key, and no more entries than the capacity allows. */
    ghost predicate Valid()
      reads this, lruList, lruList.repr
    {
      && lruList.Valid()
      && Represented(Model(), config.maxSize)
      && lruMap.Keys == cache.Keys
      && Aligned(lruList.keys, lruList.ring, lruMap)
    }

    constructor (defaultTtlSeconds: int, maxSize: nat)
      ensures Valid() && Model() == EMPTY && config == Config(defaultTtlSeconds, maxSize)
      ensures fresh(lruList) && fresh(lruList.repr)
    {
      config := Config(defaultTtlSeconds, maxSize);
      cache := map[];
      lruMap := map[];
      lruList := new KeyList();
    }

    ghost method Position(k: string) returns (i: nat)
      requires Valid() && k in cache
      ensures i < |lruList.keys| && lruList.keys[i] == k && lruMap[k] == lruList.ring[i + 1]
    {
      assert k in Model().order;
      i :| i < |lruList.keys| && lruList.keys[i] == k;
    }

    /** Erases `k` from all three structures. */
    method Forget(k: string)
      requires Valid() && k in cache
      modifies this, lruList, lruList.repr
      ensures Valid() && lruList.repr == old(lruList.repr)
      ensures Model() == Purge(old(Model()), {k})
    {
      ghost var i := Position(k);
      PurgeKeeps(Model(), {k}, config.maxSize);
      AlignedErase(lruList.keys, lruList.ring, lruMap, i);
      lruList.Erase(lruMap[k], i);
      lruMap := lruMap - {k};
      cache := cache - {k};
    }

    method RemoveExpired(now: Time)
      requires Valid()
      modifies this, lruList, lruList.repr
      ensures Valid() && lruList.repr == old(lruList.repr)
      ensures Model() == Expire(old(Model()), now)
    {
      ghost var was := Model();
      SweepStart(was, now);
      var pending := cache.Keys;
      while pending != {}
        invariant Valid()
        invariant pending <= was.entries.Keys
        invariant Model() == Purge(was, ExpiredOutside(was.entries, pending, now))
        invariant lruList.repr == old(lruList.repr)
        decreases pending
      {
        var k :| k in pending;
        SweepStep(was, pending, k, now);
        pending := pending - {k};
        assert Model().entries == cache;
        if cache[k].expiry <= now {
          Forget(k);
        }
      }
    }

    lemma SizesAgree()
      requires Valid()
      ensures |lruMap| == |lruList.keys|
    {
      OrderSize(lruList.keys, cache.Keys);
    }

    /** Drops the key at the back of the list from all three structures. */
    method DropOldest()
      requires Valid() && lruList.keys != []
      modifies this, lruList, lruList.repr
      ensures Valid() && lruList.repr == old(lruList.repr)
      ensures Model() == State(old(cache) - {Last(old(lruList.keys))}, Front(old(lruList.keys)))
    {
      var oldestKey := lruList.Back();
      PurgeLast(Model(), config.maxSize);
      AlignedPop(lruList.keys, lruList.ring, lruMap);
      lruList.PopBack();
      lruMap := lruMap - {oldestKey};
      cache := cache - {oldestKey};
    }

    method EvictIfNeeded()
      requires Valid()
      modifies this, lruList, lruList.repr
      ensures Valid() && lruList.repr == old(lruList.repr)
      ensures Model() == Evict(old(Model()), config.maxSize)
    {
      while |lruMap| >= config.maxSize && !lruList.Empty()
        invariant Valid() && lruList.repr == old(lruList.repr)
        invariant Evict(Model(), config.maxSize) == Evict(old(Model()), config.maxSize)
        decreases |lruList.keys|
      {
        SizesAgree();
        EvictStep(Model(), config.maxSize);
        DropOldest();
      }
      SizesAgree();
      EvictStop(Model(), config.maxSize);
    }

    /** Stores `entry` and lists `key` first; the list must not hold the key any more. */
    method Link(key: string, entry: Entry)
      requires lruList.Valid() && key !in lruList.keys
      requires Aligned(lruList.keys, lruList.ring, lruMap - {key})
      modifies this, lruList, lruList.repr
      ensures lruList.Valid() && fresh(lruList.repr - old(lruList.repr))
      ensures cache == old(cache)[key := entry] && lruMap.Keys == old(lruMap.Keys) + {key}
      ensures lruList.keys == [key] + old(lruList.keys)
      ensures Aligned(lruList.keys, lruList.ring, lruMap)
    {
      cache := cache[key := entry];
      lruList.PushFront(key);
      var begin := lruList.Begin();
      AlignedPush(old(lruList.keys), old(lruList.ring), lruMap - {key}, key, begin);
      lruMap := lruMap[key := begin];
      assert lruMap == (old(lruMap) - {key})[key := begin];
    }

    /** Makes room for `key`: its old list position goes, or, for a new key, the oldest entries. */
    method MakeRoom(key: string)
      requires Valid()
      modifies this, lruList, lruList.repr
      ensures lruList.Valid() && lruList.repr == old(lruList.repr) && lruMap.Keys == cache.Keys
      ensures State(cache - {key}, lruList.keys) == Room(old(Model()), config.maxSize, key)
      ensures key !in lruList.keys && Aligned(lruList.keys, lruList.ring, lruMap - {key})
    {
      ghost var was := Model();
      if key in lruMap {
        ghost var i := Position(key);
        AlignedErase(lruList.keys, lruList.ring, lruMap, i);
        DropMembers(lruList.keys, {key});
        lruList.Erase(lruMap[key], i);
      } else {
        EvictIfNeeded();
        EvictOnce(was, config.maxSize);
        assert lruMap - {key} == lruMap && cache - {key} == cache;
      }
    }

    method Set(key: string, value: string, ttl: int, now: Time) returns (r: bool)
      requires Valid()
      modifies this, lruList, lruList.repr
      ensures Valid() && r && fresh(lruList.repr - old(lruList.repr))
      ensures Model() == Apply(old(Model()), config, Op.Set(key, value, ttl, now))
    {
      ghost var was := Model();
      var entry := Entry(value, now + (if ttl > 0 then ttl else config.defaultTtl));
      StoreKeeps(was, config.maxSize, key, entry);
      StoreIsWrite(was, config.maxSize, key, entry);
      assert Apply(was, config, Op.Set(key, value, ttl, now)) == Store(was, config.maxSize, key, entry);
      hide Apply, Store, Room, Evict, Drop;
      MakeRoom(key);
      Overwrite(cache, key, entry);
      Link(key, entry);
      r := true;
    }

    /** Moves `key` to the front of the recency list. */
    method Promote(key: string)
      requires Valid() && key in cache
      modifies this, lruList, lruList.repr
      ensures Valid() && lruList.repr == old(lruList.repr)
      ensures Model() == Touch(old(Model()), key)
    {
      TouchKeeps(Model(), key, config.maxSize);
      ghost var i := Position(key);
      AlignedMove(lruList.keys, lruList.ring, lruMap, i);
      lruList.MoveToFront(lruMap[key], i);
    }

    method Get(key: string, sweep: Time, check: Time) returns (r: Option<string>)
      requires Valid()
      modifies this, lruList, lruList.repr
      ensures Valid() && lruList.repr == old(lruList.repr)
      ensures (Model(), r) == Lookup(old(Model()), key, sweep, check)
    {
      r := None;
      RemoveExpired(sweep);
      if key in lruMap {
        if cache[key].expiry > check {
          r := Some(cache[key].value);
          Promote(key);
        } else {
          Forget(key);
        }
      }
    }

    method Remove(key: string) returns (removed: bool)
      requires Valid()
      modifies this, lruList, lruList.repr
      ensures Valid() && lruList.repr == old(lruList.repr)
      ensures Model() == Apply(old(Model()), config, Op.Remove(key))
      ensures removed <==> key in old(cache)
    {
      removed := false;
      if key in lruMap {
        Forget(key);
        removed := true;
      } else {
        PurgeAbsent(Model(), config.maxSize, key);
      }
    }

    method Clear() returns (r: bool)
      requires Valid()
      modifies this, lruList, lruList.repr
      ensures Valid() && r && fresh(lruList.repr - old(lruList.repr))
      ensures Model() == Apply(old(Model()), config, Op.Clear)
    {
      cache := map[];
      lruList.Clear();
      lruMap := map[];
      r := true;
    }

    method Exists(key: string, sweep: Time, check: Time) returns (r: bool)
      requires Valid()
      modifies this, lruList, lruList.repr
      ensures Valid() && lruList.repr == old(lruList.repr)
      ensures Model() == Apply(old(Model()), config, Op.Exists(key, sweep, check))
      ensures r <==> Hits(old(Model()), key, sweep, check)
    {
      hide Represented, Aligned, Purge, Drop;
      RemoveExpired(sweep);
      assert Model().entries == cache;
      hide Expire;
      r := key in cache && cache[key].expiry > check;
    }
  }
}
