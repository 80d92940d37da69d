/**
 * `ResultConvertUtils`: turns the raw cache-key to value map of a batch read
 * into what the caller asked for, an id-keyed map or a plain collection,
 * dropping the anti-penetration placeholder on the way.
 *
 * The raw map is given as its entries in iteration order. The container the
 * caller asks for is one of a few flavours instead of a runtime class.
 */
module ResultConvert {
  import opened Wrappers
  import opened CacheValues
  import opened Linked

  /** The map flavours a caller can ask `toMap` for. */
  datatype MapKind = HashMapKind | LinkedHashMapKind

  /** The result of `toMap`; only the linked flavour has a meaningful order. */
  datatype MapResult<Id(==)> =
    | HashedMap(contents: map<Option<Id>, CacheValue>)
    | OrderedMap(entries: LinkedMap<Option<Id>, CacheValue>)
  {
    function Contents(): (m: map<Option<Id>, CacheValue>)
    {
      match this
      case HashedMap(m) => m
      case OrderedMap(e) => e.values
    }
  }

  /** The collection flavours a caller can ask `toCollection` for. */
  datatype CollectionKind = ListKind | SetKind

  datatype CollectionResult =
    | ListResult(items: seq<CacheValue>)
    | SetResult(members: set<CacheValue>)
  {
    predicate Contains(v: CacheValue)
    {
      match this
      case ListResult(s) => v in s
      case SetResult(s) => v in s
    }
  }

  /** `keyIdMap.get(key)`: `None` is the null an unmapped key gives. */
  function IdOf<Id>(keyIdMap: map<string, Id>, key: string): (id: Option<Id>)
  {
    if key in keyIdMap then Some(keyIdMap[key]) else None
  }

  /** The entry at `i` survives the placeholder filter. */
  predicate Kept(cacheMap: seq<(string, CacheValue)>, i: int)
    requires 0 <= i < |cacheMap|
  {
    !cacheMap[i].1.IsPrevent()
  }

  // ---------------------------------------------------------------------------
  // toMap

  /**
   * The map `toMap`'s stream builds: for each surviving entry, in iteration
   * order, `put(id, value)`.
   */
  function Collect<Id(==)>(keyIdMap: map<string, Id>, cacheMap: seq<(string, CacheValue)>)
    : (r: LinkedMap<Option<Id>, CacheValue>)
    ensures r.Valid()
    ensures forall id :: id in r.values ==> !r.values[id].IsPrevent()
  {
    if cacheMap == [] then EmptyMap()
    else
      var prev := Collect(keyIdMap, cacheMap[..|cacheMap| - 1]);
      var (key, value) := cacheMap[|cacheMap| - 1];
      if value.IsPrevent() then prev else prev.Put(IdOf(keyIdMap, key), value)
  }

  /** `toMap`: the id-keyed map of the surviving values, in the flavour asked for. */
  function ToMap<Id(==)>(keyIdMap: map<string, Id>, mapType: MapKind, cacheMap: seq<(string, CacheValue)>)
    : (r: MapResult<Id>)
    ensures forall id :: id in r.Contents() ==> !r.Contents()[id].IsPrevent()
    ensures r.Contents() == Collect(keyIdMap, cacheMap).values
    ensures r.OrderedMap? <==> mapType == LinkedHashMapKind
    ensures r.OrderedMap? ==> r.entries == Collect(keyIdMap, cacheMap) && r.entries.Valid()
  {
    match mapType
    case HashMapKind => HashedMap(Collect(keyIdMap, cacheMap).values)
    case LinkedHashMapKind => OrderedMap(Collect(keyIdMap, cacheMap))
  }

  /** The result's keys are exactly the ids of the surviving entries. */
  lemma {:induction false} ToMapKeys<Id>(keyIdMap: map<string, Id>, mapType: MapKind,
                                         cacheMap: seq<(string, CacheValue)>, id: Option<Id>)
    ensures id in ToMap(keyIdMap, mapType, cacheMap).Contents() <==>
              exists i :: 0 <= i < |cacheMap| && Kept(cacheMap, i) && IdOf(keyIdMap, cacheMap[i].0) == id
  {
    if cacheMap != [] {
      var p := cacheMap[..|cacheMap| - 1];
      ToMapKeys(keyIdMap, mapType, p, id);
      assert forall i :: 0 <= i < |p| ==> p[i] == cacheMap[i];
    }
  }

  /**
   * A surviving entry whose id no later surviving entry shares is in the
   * result with its own value: when two cache keys share an id, the later
   * entry wins.
   */
  lemma {:induction false} ToMapLastWins<Id>(keyIdMap: map<string, Id>, mapType: MapKind,
                                             cacheMap: seq<(string, CacheValue)>, i: nat)
    requires i < |cacheMap| && Kept(cacheMap, i)
    requires forall j :: i < j < |cacheMap| && Kept(cacheMap, j) ==>
               IdOf(keyIdMap, cacheMap[j].0) != IdOf(keyIdMap, cacheMap[i].0)
    ensures IdOf(keyIdMap, cacheMap[i].0) in ToMap(keyIdMap, mapType, cacheMap).Contents()
    ensures ToMap(keyIdMap, mapType, cacheMap).Contents()[IdOf(keyIdMap, cacheMap[i].0)] == cacheMap[i].1
  {
    var n := |cacheMap| - 1;
    if i < n {
      var p := cacheMap[..n];
      assert p[i] == cacheMap[i];
      ToMapLastWins(keyIdMap, mapType, p, i);
    }
  }

  /** The ids of the surviving entries, in iteration order (repetitions kept). */
  function RetainedIds<Id>(keyIdMap: map<string, Id>, cacheMap: seq<(string, CacheValue)>): (ids: seq<Option<Id>>)
  {
    if cacheMap == [] then []
    else
      var prev := RetainedIds(keyIdMap, cacheMap[..|cacheMap| - 1]);
      var (key, value) := cacheMap[|cacheMap| - 1];
      if value.IsPrevent() then prev else prev + [IdOf(keyIdMap, key)]
  }

  /**
   * The linked flavour lists its keys in the order in which their ids first
   * occur among the surviving entries: a shared id keeps the place of its
   * first entry even though a later entry's value wins.
   */
  lemma {:induction false} ToMapOrder<Id>(keyIdMap: map<string, Id>, cacheMap: seq<(string, CacheValue)>)
    ensures var r := ToMap(keyIdMap, LinkedHashMapKind, cacheMap);
      InFirstOccurrenceOrder(r.entries.keys, RetainedIds(keyIdMap, cacheMap))
  {
    if cacheMap != [] {
      var n := |cacheMap| - 1;
      var p := cacheMap[..n];
      ToMapOrder(keyIdMap, p);
      var (key, value) := cacheMap[n];
      if !value.IsPrevent() {
        var id := IdOf(keyIdMap, key);
        var prev := Collect(keyIdMap, p);
        RetainedIdsMembers(keyIdMap, p, id);
        if id in prev.values {
          OrderAppendOld(prev.keys, RetainedIds(keyIdMap, p), id);
        } else {
          OrderAppendNew(prev.keys, RetainedIds(keyIdMap, p), id);
        }
      }
    }
  }

  lemma {:induction false} RetainedIdsMembers<Id>(keyIdMap: map<string, Id>, cacheMap: seq<(string, CacheValue)>, id: Option<Id>)
    ensures id in Collect(keyIdMap, cacheMap).values <==> id in RetainedIds(keyIdMap, cacheMap)
  {
    if cacheMap != [] {
      RetainedIdsMembers(keyIdMap, cacheMap[..|cacheMap| - 1], id);
    }
  }

  /**
   * With distinct ids for the entries and no placeholder among the values,
   * the result has as many entries as the raw map.
   */
  lemma ToMapSize<Id>(keyIdMap: map<string, Id>, mapType: MapKind, cacheMap: seq<(string, CacheValue)>)
    requires forall i, j :: 0 <= i < j < |cacheMap| ==> IdOf(keyIdMap, cacheMap[i].0) != IdOf(keyIdMap, cacheMap[j].0)
    requires forall i :: 0 <= i < |cacheMap| ==> Kept(cacheMap, i)
    ensures |ToMap(keyIdMap, mapType, cacheMap).Contents()| == |cacheMap|
  {
    CollectGrows(keyIdMap, cacheMap);
    Collect(keyIdMap, cacheMap).SizeIsCount();
  }

  lemma {:induction false} CollectGrows<Id>(keyIdMap: map<string, Id>, cacheMap: seq<(string, CacheValue)>)
    requires forall i, j :: 0 <= i < j < |cacheMap| ==> IdOf(keyIdMap, cacheMap[i].0) != IdOf(keyIdMap, cacheMap[j].0)
    requires forall i :: 0 <= i < |cacheMap| ==> Kept(cacheMap, i)
    ensures Collect(keyIdMap, cacheMap).Size() == |cacheMap|
  {
    if cacheMap != [] {
      var n := |cacheMap| - 1;
      var p := cacheMap[..n];
      forall i | 0 <= i < n
        ensures Kept(p, i)
      {
        assert Kept(cacheMap, i) && p[i] == cacheMap[i];
      }
      assert forall i, j :: 0 <= i < j < n ==> p[i] == cacheMap[i] && p[j] == cacheMap[j];
      CollectGrows(keyIdMap, p);
      var id := IdOf(keyIdMap, cacheMap[n].0);
      ToMapKeys(keyIdMap, HashMapKind, p, id);
      assert Kept(cacheMap, n);
      assert id !in Collect(keyIdMap, p).values;
    }
  }

  // ---------------------------------------------------------------------------
  // toCollection

  /** The values `toCollection`'s stream adds: the surviving ones, in iteration order. */
  function Retained(cacheMap: seq<(string, CacheValue)>): (vs: seq<CacheValue>)
    ensures forall v :: v in vs ==> !v.IsPrevent()
    ensures |vs| <= |cacheMap|
  {
    if cacheMap == [] then []
    else
      var prev := Retained(cacheMap[..|cacheMap| - 1]);
      var value := cacheMap[|cacheMap| - 1].1;
      if value.IsPrevent() then prev else prev + [value]
  }

  /** `toCollection`: the surviving values, in the flavour asked for. */
  function ToCollection(collectionType: CollectionKind, cacheMap: seq<(string, CacheValue)>)
    : (r: CollectionResult)
    ensures forall v :: r.Contains(v) ==> !v.IsPrevent()
    ensures r.ListResult? <==> collectionType == ListKind
    ensures r.ListResult? ==> r.items == Retained(cacheMap)
    ensures r.SetResult? ==> r.members == set v | v in Retained(cacheMap)
  {
    match collectionType
    case ListKind => ListResult(Retained(cacheMap))
    case SetKind => SetResult(set v | v in Retained(cacheMap))
  }

  /**
   * The list flavour is exactly the surviving values in iteration order:
   * `idx` picks, in increasing order, every surviving entry and no other.
   */
  lemma {:induction false} ToCollectionInOrder(cacheMap: seq<(string, CacheValue)>) returns (idx: seq<nat>)
    ensures var vs := ToCollection(ListKind, cacheMap).items;
      && |idx| == |vs|
      && (forall t :: 0 <= t < |idx| ==> idx[t] < |cacheMap| && vs[t] == cacheMap[idx[t]].1)
      && (forall s, t :: 0 <= s < t < |idx| ==> idx[s] < idx[t])
      && (forall i :: 0 <= i < |cacheMap| && Kept(cacheMap, i) ==> i in idx)
  {
    if cacheMap == [] {
      idx := [];
    } else {
      var n := |cacheMap| - 1;
      var p := cacheMap[..n];
      var prevIdx := ToCollectionInOrder(p);
      assert forall i :: 0 <= i < n ==> p[i] == cacheMap[i];
      if Kept(cacheMap, n) {
        idx := prevIdx + [n];
      } else {
        idx := prevIdx;
      }
    }
  }

  /** The list flavour has one element per surviving entry. */
  lemma {:induction false} ToCollectionCount(cacheMap: seq<(string, CacheValue)>)
    ensures |ToCollection(ListKind, cacheMap).items| == |set i | 0 <= i < |cacheMap| && Kept(cacheMap, i)|
  {
    if cacheMap != [] {
      var n := |cacheMap| - 1;
      var p := cacheMap[..n];
      ToCollectionCount(p);
      var before := set i | 0 <= i < n && Kept(p, i);
      var after := set i | 0 <= i < |cacheMap| && Kept(cacheMap, i);
      assert forall i :: 0 <= i < n ==> p[i] == cacheMap[i];
      if Kept(cacheMap, n) {
        assert after == before + {n};
      } else {
        assert after == before;
      }
    }
  }

  /** The set flavour holds exactly the raw values that are not the placeholder. */
  lemma {:induction false} ToCollectionMembers(cacheMap: seq<(string, CacheValue)>, v: CacheValue)
    ensures ToCollection(SetKind, cacheMap).Contains(v) <==>
              !v.IsPrevent() && exists i :: 0 <= i < |cacheMap| && cacheMap[i].1 == v
  {
    if cacheMap != [] {
      var n := |cacheMap| - 1;
      var p := cacheMap[..n];
      ToCollectionMembers(p, v);
      assert forall i :: 0 <= i < n ==> p[i] == cacheMap[i];
    }
  }
}
