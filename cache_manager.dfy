/**
 * The dispatch facade: a registry of named cache backends with a default,
 * and the read/write/remove operations that resolve a name, call the
 * backend and contain every failure.
 *
 * The backend (an `ICache` implementation) is an abstract oracle. Each
 * operation reports the backend call it issued (`sent`) and the failure
 * it caught and logged (`caught`), so "no backend call" and "the failure
 * does not reach the caller" are postconditions.
 */
module Manager {
  import opened Wrappers
  import opened CacheValues
  import opened Linked

  /** Stands for a reference to one `ICache` instance. */
  datatype CacheRef = CacheRef(id: nat)

  /** The registry's `Pair<String, ICache>`. */
  datatype Entry = Entry(name: string, cache: CacheRef)

  /** What the facade catches: every path ends in a safe result. */
  datatype Failure =
    | NoSuchCache(name: string)  // CacheXException from the registry lookup
    | NullDefault                // the null default dereferenced before any registration
    | BackendFailure             // whatever the backend threw

  /** The backend's answer: a value, or a thrown exception. */
  datatype Reply<+T> = Answer(value: T) | Raised

  /**
   * The behaviour of every backend, as seen by the facade. A batch read
   * answers with a map in which a key may be absent or bound to null.
   */
  datatype Oracle = Oracle(
    read: (CacheRef, string) -> Reply<Option<CacheValue>>,
    readAll: (CacheRef, seq<string>) -> Reply<map<string, Option<CacheValue>>>,
    write: (CacheRef, string, CacheValue, int) -> Reply<()>,
    writeAll: (CacheRef, map<string, CacheValue>, int) -> Reply<()>,
    remove: (CacheRef, seq<string>) -> Reply<()>)

  /** A call the facade issued to a backend. */
  datatype Call =
    | ReadOne(cache: CacheRef, key: string)
    | ReadMany(cache: CacheRef, keys: seq<string>)
    | WriteOne(cache: CacheRef, key: string, value: CacheValue, expire: int)
    | WriteMany(cache: CacheRef, keyValues: map<string, CacheValue>, expire: int)
    | RemoveKeys(cache: CacheRef, keys: seq<string>)

  /** `CacheReadResult`: the hits in request order and the missed keys in request order. */
  datatype CacheReadResult = CacheReadResult(
    hitKeyMap: LinkedMap<string, CacheValue>,
    missKeys: LinkedSet<string>)

  /** `new CacheReadResult()`. */
  function EmptyResult(): (r: CacheReadResult)
    ensures r.hitKeyMap.Size() == 0 && r.missKeys.elems == []
  {
    CacheReadResult(EmptyMap(), EmptySet())
  }

  /** Guava's `Strings.isNullOrEmpty`. */
  predicate IsNullOrEmpty(s: Option<string>)
  {
    s.None? || s.value == ""
  }

  /** A key is a hit when the backend's map binds it to a non-null value. */
  predicate IsHit(cacheMap: map<string, Option<CacheValue>>, key: string)
  {
    key in cacheMap && cacheMap[key].Some?
  }

  // ---------------------------------------------------------------------------
  // Registry

  /** The names a registration map contains, in iteration order. */
  ghost predicate DistinctNames(caches: seq<(string, CacheRef)>)
  {
    forall i, j :: 0 <= i < j < |caches| ==> caches[i].0 != caches[j].0
  }

  /** The pool entries one `forEach` of `put`s over `caches` produces. */
  function PoolOf(caches: seq<(string, CacheRef)>): (pool: map<string, Entry>)
    ensures forall n :: n in pool ==> pool[n].name == n
  {
    if caches == [] then map[]
    else
      var last := caches[|caches| - 1];
      PoolOf(caches[..|caches| - 1])[last.0 := Entry(last.0, last.1)]
  }

  /** The pool holds exactly the registered names, each keyed by its own name. */
  lemma {:induction false} PoolOfDomain(caches: seq<(string, CacheRef)>)
    ensures PoolOf(caches).Keys == set c | c in caches :: c.0
    ensures forall n :: n in PoolOf(caches) ==> PoolOf(caches)[n].name == n
  {
    if caches != [] {
      var p := caches[..|caches| - 1];
      PoolOfDomain(p);
      assert caches == p + [caches[|caches| - 1]];
    }
  }

  /** Every registered name maps to the pair of that name and its own backend. */
  lemma {:induction false} PoolOfRegisters(caches: seq<(string, CacheRef)>, i: nat)
    requires DistinctNames(caches)
    requires i < |caches|
    ensures caches[i].0 in PoolOf(caches)
    ensures PoolOf(caches)[caches[i].0] == Entry(caches[i].0, caches[i].1)
  {
    var n := |caches| - 1;
    if i < n {
      PoolOfRegisters(caches[..n], i);
    }
  }

  /**
   * Putting a registration map over an existing pool: every registered name
   * gets its own pair, other names keep theirs, and a pool keyed by names
   * stays keyed by names.
   */
  lemma {:induction false} PoolMerge(pool: map<string, Entry>, caches: seq<(string, CacheRef)>)
    requires DistinctNames(caches)
    ensures forall i :: 0 <= i < |caches| ==>
              caches[i].0 in pool + PoolOf(caches) &&
              (pool + PoolOf(caches))[caches[i].0] == Entry(caches[i].0, caches[i].1)
    ensures (forall n :: n in pool ==> pool[n].name == n) ==>
              forall n :: n in pool + PoolOf(caches) ==> (pool + PoolOf(caches))[n].name == n
  {
    PoolOfDomain(caches);
    forall i | 0 <= i < |caches|
      ensures caches[i].0 in PoolOf(caches) && PoolOf(caches)[caches[i].0] == Entry(caches[i].0, caches[i].1)
    {
      PoolOfRegisters(caches, i);
    }
  }

  class CacheManager {
    var defaultCache: Option<Entry>
    var cachePool: map<string, Entry>

    /**
     * Every pool entry is keyed by its own name, and the default, once
     * set, is one of the pool's entries.
     */
    ghost predicate Valid()
      reads this
    {
      && (forall n :: n in cachePool ==> cachePool[n].name == n)
      && (defaultCache.Some? ==>
            defaultCache.value.name in cachePool &&
            cachePool[defaultCache.value.name] == defaultCache.value)
    }

    constructor ()
      ensures Valid()
      ensures defaultCache == None && cachePool == map[]
    {
      defaultCache := None;
      cachePool := map[];
    }

    /**
     * `setCachePool`: the first entry becomes the default, then every entry
     * is put into the pool. An empty map makes `iterator().next()` throw
     * before anything is assigned (`ok == false`).
     */
    method SetCachePool(caches: seq<(string, CacheRef)>) returns (ok: bool)
      requires Valid()
      requires DistinctNames(caches)
      modifies this
      ensures Valid()
      ensures ok == (caches != [])
      ensures !ok ==> defaultCache == old(defaultCache) && cachePool == old(cachePool)
      ensures ok ==> defaultCache == Some(Entry(caches[0].0, caches[0].1))
      ensures ok ==> cachePool == old(cachePool) + PoolOf(caches)
      ensures forall i :: 0 <= i < |caches| ==>
                caches[i].0 in cachePool && cachePool[caches[i].0] == Entry(caches[i].0, caches[i].1)
      ensures forall n :: n in old(cachePool) && n !in PoolOf(caches) ==>
                n in cachePool && cachePool[n] == old(cachePool)[n]
      ensures ok ==> GetCacheImpl(None) == Ok(Entry(caches[0].0, caches[0].1))
      ensures forall i :: 0 <= i < |caches| && caches[i].0 != "" ==>
                GetCacheImpl(Some(caches[i].0)) == Ok(Entry(caches[i].0, caches[i].1))
    {
      if caches == [] {
        return false;
      }
      defaultCache := Some(Entry(caches[0].0, caches[0].1));
      for i := 0 to |caches|
        invariant defaultCache == Some(Entry(caches[0].0, caches[0].1))
        invariant cachePool == old(cachePool) + PoolOf(caches[..i])
      {
        var (name, cache) := caches[i];
        assert caches[..i + 1][..i] == caches[..i];
        cachePool := cachePool[name := Entry(name, cache)];
      }
      assert caches[..|caches|] == caches;
      ok := true;
      PoolMerge(old(cachePool), caches);
    }

    /**
     * `getCacheImpl`: a null or empty name gives the default; any other
     * name gives its registered pair or fails, never the default, and the
     * failed `computeIfAbsent` inserts nothing (this function reads only).
     */
    function GetCacheImpl(cacheName: Option<string>): (r: Result<Entry, Failure>)
      reads this
      ensures IsNullOrEmpty(cacheName) ==>
                (r.Ok? <==> defaultCache.Some?) && (r.Ok? ==> r.value == defaultCache.value)
      ensures !IsNullOrEmpty(cacheName) ==>
                (r.Ok? <==> cacheName.value in cachePool) &&
                (r.Ok? ==> r.value == cachePool[cacheName.value])
      ensures r.Err? ==> r.error == (if IsNullOrEmpty(cacheName) then NullDefault else NoSuchCache(cacheName.value))
      ensures Valid() && r.Ok? ==> r.value.name in cachePool && cachePool[r.value.name] == r.value
      ensures Valid() && r.Ok? && !IsNullOrEmpty(cacheName) ==> r.value.name == cacheName.value
    {
      if IsNullOrEmpty(cacheName) then
        (if defaultCache.Some? then Ok(defaultCache.value) else Err(NullDefault))
      else if cacheName.value in cachePool then Ok(cachePool[cacheName.value])
      else Err(NoSuchCache(cacheName.value))
    }

    // -------------------------------------------------------------------------
    // Dispatch

    /** `readSingle`: the backend's value, or null once anything failed. */
    method ReadSingle(cacheName: Option<string>, key: string, oracle: Oracle)
      returns (result: Option<CacheValue>, sent: Option<Call>, caught: Option<Failure>)
      ensures caught.Some? ==> result == None
      ensures GetCacheImpl(cacheName).Err? ==>
                sent == None && caught == Some(GetCacheImpl(cacheName).error)
      ensures GetCacheImpl(cacheName).Ok? ==>
                var cache := GetCacheImpl(cacheName).value.cache;
                && sent == Some(ReadOne(cache, key))
                && match oracle.read(cache, key)
                   case Answer(v) => result == v && caught == None
                   case Raised => caught == Some(BackendFailure)
    {
      var impl := GetCacheImpl(cacheName);
      if impl.Err? {
        return None, None, Some(impl.error);
      }
      var cache := impl.value.cache;
      sent := Some(ReadOne(cache, key));
      var reply := oracle.read(cache, key);
      if reply.Raised? {
        return None, sent, Some(BackendFailure);
      }
      result, caught := reply.value, None;
    }

    /** `writeSingle`: a null value is never written; failures are swallowed. */
    method WriteSingle(cacheName: Option<string>, key: string, value: Option<CacheValue>, expire: int, oracle: Oracle)
      returns (sent: Option<Call>, caught: Option<Failure>)
      ensures value.None? ==> sent == None && caught == None
      ensures value.Some? && GetCacheImpl(cacheName).Err? ==>
                sent == None && caught == Some(GetCacheImpl(cacheName).error)
      ensures value.Some? && GetCacheImpl(cacheName).Ok? ==>
                var cache := GetCacheImpl(cacheName).value.cache;
                && sent == Some(WriteOne(cache, key, value.value, expire))
                && (caught.Some? <==> oracle.write(cache, key, value.value, expire).Raised?)
                && (caught.Some? ==> caught == Some(BackendFailure))
    {
      sent, caught := None, None;
      if value.Some? {
        var impl := GetCacheImpl(cacheName);
        if impl.Err? {
          return None, Some(impl.error);
        }
        var cache := impl.value.cache;
        sent := Some(WriteOne(cache, key, value.value, expire));
        var reply := oracle.write(cache, key, value.value, expire);
        if reply.Raised? {
          caught := Some(BackendFailure);
        }
      }
    }

    /**
     * `readBatch`: no keys, no backend call; otherwise one batch read whose
     * map is split, in request order, into hits and missed keys. Any
     * failure degrades to the empty result.
     */
    method ReadBatch(cacheName: Option<string>, keys: seq<string>, oracle: Oracle)
      returns (result: CacheReadResult, sent: Option<Call>, caught: Option<Failure>)
      ensures caught.Some? ==> result == EmptyResult()
      ensures keys == [] ==> result == EmptyResult() && sent == None && caught == None
      ensures keys != [] && GetCacheImpl(cacheName).Err? ==>
                sent == None && caught == Some(GetCacheImpl(cacheName).error)
      ensures keys != [] && GetCacheImpl(cacheName).Ok? ==>
                var cache := GetCacheImpl(cacheName).value.cache;
                && sent == Some(ReadMany(cache, keys))
                && match oracle.readAll(cache, keys)
                   case Answer(cacheMap) => result == Partition(keys, cacheMap) && caught == None
                   case Raised => caught == Some(BackendFailure)
    {
      if keys == [] {
        return EmptyResult(), None, None;
      }
      var impl := GetCacheImpl(cacheName);
      if impl.Err? {
        return EmptyResult(), None, Some(impl.error);
      }
      var cache := impl.value.cache;
      sent := Some(ReadMany(cache, keys));
      var reply := oracle.readAll(cache, keys);
      if reply.Raised? {
        return EmptyResult(), sent, Some(BackendFailure);
      }
      var cacheMap := reply.value;
      var hitValueMap: LinkedMap<string, CacheValue> := EmptyMap();
      var notHitKeys: LinkedSet<string> := EmptySet();
      for i := 0 to |keys|
        invariant CacheReadResult(hitValueMap, notHitKeys) == Partition(keys[..i], cacheMap)
      {
        var key := keys[i];
        assert keys[..i + 1][..i] == keys[..i];
        if key in cacheMap && cacheMap[key].Some? {
          hitValueMap := hitValueMap.Put(key, cacheMap[key].value);
        } else {
          notHitKeys := notHitKeys.Add(key);
        }
      }
      assert keys[..|keys|] == keys;
      result, caught := CacheReadResult(hitValueMap, notHitKeys), None;
    }

    /** `writeBatch`: always forwarded, even an empty map; failures are swallowed. */
    method WriteBatch(cacheName: Option<string>, keyValueMap: map<string, CacheValue>, expire: int, oracle: Oracle)
      returns (sent: Option<Call>, caught: Option<Failure>)
      ensures GetCacheImpl(cacheName).Err? ==>
                sent == None && caught == Some(GetCacheImpl(cacheName).error)
      ensures GetCacheImpl(cacheName).Ok? ==>
                var cache := GetCacheImpl(cacheName).value.cache;
                && sent == Some(WriteMany(cache, keyValueMap, expire))
                && (caught.Some? <==> oracle.writeAll(cache, keyValueMap, expire).Raised?)
                && (caught.Some? ==> caught == Some(BackendFailure))
    {
      var impl := GetCacheImpl(cacheName);
      if impl.Err? {
        return None, Some(impl.error);
      }
      var cache := impl.value.cache;
      sent := Some(WriteMany(cache, keyValueMap, expire));
      var reply := oracle.writeAll(cache, keyValueMap, expire);
      caught := if reply.Raised? then Some(BackendFailure) else None;
    }

    /** `remove`: a null or empty key array removes nothing; failures are swallowed. */
    method Remove(cacheName: Option<string>, keys: Option<seq<string>>, oracle: Oracle)
      returns (sent: Option<Call>, caught: Option<Failure>)
      ensures (keys.None? || keys.value == []) ==> sent == None && caught == None
      ensures keys.Some? && keys.value != [] && GetCacheImpl(cacheName).Err? ==>
                sent == None && caught == Some(GetCacheImpl(cacheName).error)
      ensures keys.Some? && keys.value != [] && GetCacheImpl(cacheName).Ok? ==>
                var cache := GetCacheImpl(cacheName).value.cache;
                && sent == Some(RemoveKeys(cache, keys.value))
                && (caught.Some? <==> oracle.remove(cache, keys.value).Raised?)
                && (caught.Some? ==> caught == Some(BackendFailure))
    {
      sent, caught := None, None;
      if keys.Some? && keys.value != [] {
        var impl := GetCacheImpl(cacheName);
        if impl.Err? {
          return None, Some(impl.error);
        }
        var cache := impl.value.cache;
        sent := Some(RemoveKeys(cache, keys.value));
        var reply := oracle.remove(cache, keys.value);
        if reply.Raised? {
          caught := Some(BackendFailure);
        }
      }
    }
  }

  // ---------------------------------------------------------------------------
  // Batch partition

  /**
   * What `readBatch`'s loop builds from the backend's map: one step per
   * requested key, in request order.
   */
  function Partition(keys: seq<string>, cacheMap: map<string, Option<CacheValue>>): (r: CacheReadResult)
    ensures r.hitKeyMap.Valid() && r.missKeys.Valid()
    ensures |r.hitKeyMap.keys| + |r.missKeys.elems| <= |keys|
  {
    if keys == [] then EmptyResult()
    else
      var prev := Partition(keys[..|keys| - 1], cacheMap);
      var key := keys[|keys| - 1];
      if IsHit(cacheMap, key) then
        prev.(hitKeyMap := prev.hitKeyMap.Put(key, cacheMap[key].value))
      else
        prev.(missKeys := prev.missKeys.Add(key))
  }

  /**
   * Every requested key lands in exactly one of the two parts: among the
   * hits exactly when the backend holds a non-null value for it, and then
   * with that same value. Unrequested keys land in neither.
   */
  lemma {:induction false} PartitionMembership(keys: seq<string>, cacheMap: map<string, Option<CacheValue>>, k: string)
    ensures var r := Partition(keys, cacheMap);
      && (k in r.hitKeyMap.values <==> k in keys && IsHit(cacheMap, k))
      && (k in r.missKeys.elems <==> k in keys && !IsHit(cacheMap, k))
      && (k in r.hitKeyMap.values ==> r.hitKeyMap.values[k] == cacheMap[k].value)
  {
    if keys != [] {
      var p := keys[..|keys| - 1];
      PartitionMembership(p, cacheMap, k);
      assert keys == p + [keys[|keys| - 1]];
    }
  }

  /**
   * The hit map and the miss set are each free of repetition and list their
   * keys in the order of their first occurrence in the request.
   */
  lemma {:induction false} PartitionOrder(keys: seq<string>, cacheMap: map<string, Option<CacheValue>>)
    ensures var r := Partition(keys, cacheMap);
      && r.hitKeyMap.Valid() && r.missKeys.Valid()
      && InFirstOccurrenceOrder(r.hitKeyMap.keys, keys)
      && InFirstOccurrenceOrder(r.missKeys.elems, keys)
  {
    if keys != [] {
      var p, key := keys[..|keys| - 1], keys[|keys| - 1];
      assert keys == p + [key];
      PartitionOrder(p, cacheMap);
      PartitionMembership(p, cacheMap, key);
      var prev := Partition(p, cacheMap);
      if IsHit(cacheMap, key) {
        OrderAppendOld(prev.missKeys.elems, p, key);
        if key in prev.hitKeyMap.values {
          OrderAppendOld(prev.hitKeyMap.keys, p, key);
        } else {
          OrderAppendNew(prev.hitKeyMap.keys, p, key);
        }
      } else {
        OrderAppendOld(prev.hitKeyMap.keys, p, key);
        if key in prev.missKeys.elems {
          OrderAppendOld(prev.missKeys.elems, p, key);
        } else {
          OrderAppendNew(prev.missKeys.elems, p, key);
        }
      }
    }
  }

  /**
   * Full shot: when every one of a repetition-free request hits, the hit
   * map lists the keys exactly in request order and nothing is missed.
   */
  lemma {:induction false} FullShotKeepsOrder(keys: seq<string>, cacheMap: map<string, Option<CacheValue>>)
    requires Distinct(keys)
    requires forall k :: k in keys ==> IsHit(cacheMap, k)
    ensures Partition(keys, cacheMap).hitKeyMap.keys == keys
    ensures Partition(keys, cacheMap).missKeys.elems == []
  {
    if keys != [] {
      var p, key := keys[..|keys| - 1], keys[|keys| - 1];
      assert keys == p + [key];
      FullShotKeepsOrder(p, cacheMap);
      PartitionMembership(p, cacheMap, key);
    }
  }
}
