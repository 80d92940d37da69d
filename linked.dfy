/**
 * Insertion-ordered containers, as Java's LinkedHashMap and LinkedHashSet
 * behave: a new key is appended, a key already present keeps its place.
 */
module Linked {

  ghost predicate Distinct<K>(s: seq<K>)
  {
    forall i, j :: 0 <= i < j < |s| ==> s[i] != s[j]
  }

  /** The position of the first occurrence of `x` in `s`. */
  function FirstIndex<K(==)>(s: seq<K>, x: K): (i: nat)
    requires x in s
    ensures i < |s| && s[i] == x && x !in s[..i]
  {
    if s[0] == x then 0 else 1 + FirstIndex(s[1..], x)
  }

  /**
   * Every element of `ks` occurs in `s`, and `ks` lists them in the order
   * of their first occurrence in `s` (hence without repetition).
   */
  ghost predicate InFirstOccurrenceOrder<K>(ks: seq<K>, s: seq<K>)
  {
    && (forall k :: k in ks ==> k in s)
    && forall i, j :: 0 <= i < j < |ks| && ks[i] in s && ks[j] in s ==>
         FirstIndex(s, ks[i]) < FirstIndex(s, ks[j])
  }

  lemma {:induction false} FirstIndexAppend<K>(s: seq<K>, x: K, y: K)
    requires y in s
    ensures FirstIndex(s + [x], y) == FirstIndex(s, y)
  {
    if s[0] != y {
      assert (s + [x])[1..] == s[1..] + [x];
      FirstIndexAppend(s[1..], x, y);
    }
  }

  lemma FirstIndexOfNew<K>(s: seq<K>, x: K)
    requires x !in s
    ensures FirstIndex(s + [x], x) == |s|
  {
  }

  /** Appending to the scanned sequence keeps an order already established. */
  lemma OrderAppendOld<K>(ks: seq<K>, s: seq<K>, x: K)
    requires InFirstOccurrenceOrder(ks, s)
    ensures InFirstOccurrenceOrder(ks, s + [x])
  {
    forall i, j | 0 <= i < j < |ks|
      ensures FirstIndex(s + [x], ks[i]) < FirstIndex(s + [x], ks[j])
    {
      assert ks[i] in ks && ks[j] in ks;
      FirstIndexAppend(s, x, ks[i]);
      FirstIndexAppend(s, x, ks[j]);
    }
  }

  /** A key seen for the first time goes after everything listed so far. */
  lemma OrderAppendNew<K>(ks: seq<K>, s: seq<K>, x: K)
    requires InFirstOccurrenceOrder(ks, s)
    requires x !in s
    ensures InFirstOccurrenceOrder(ks + [x], s + [x])
  {
    var ks', s' := ks + [x], s + [x];
    OrderAppendOld(ks, s, x);
    FirstIndexOfNew(s, x);
    forall i, j | 0 <= i < j < |ks'|
      ensures FirstIndex(s', ks'[i]) < FirstIndex(s', ks'[j])
    {
      assert ks'[i] == ks[i] && ks[i] in ks;
      if j < |ks| {
        assert ks'[j] == ks[j] && ks[j] in ks;
      } else {
        FirstIndexAppend(s, x, ks[i]);
      }
    }
  }

  /** A sequence without repetition has as many distinct elements as entries. */
  lemma {:induction false} DistinctCard<K>(s: seq<K>)
    requires Distinct(s)
    ensures |set x | x in s| == |s|
  {
    if s != [] {
      var p, last := s[..|s| - 1], s[|s| - 1];
      DistinctCard(p);
      assert s == p + [last];
      assert (set x | x in s) == (set x | x in p) + {last};
    }
  }

  /** Java's LinkedHashMap: the entries in insertion order plus the lookup. */
  datatype LinkedMap<K(==), V> = LinkedMap(keys: seq<K>, values: map<K, V>)
  {
    ghost predicate Valid()
    {
      Distinct(keys) && values.Keys == set k | k in keys
    }

    /** The number of entries. */
    function Size(): (n: nat)
    {
      |keys|
    }

    /** `put`: overwrites the value of a present key in place, appends a new one. */
    function Put(k: K, v: V): (r: LinkedMap<K, V>)
      ensures Valid() ==> r.Valid()
    {
      if k in values then LinkedMap(keys, values[k := v])
      else LinkedMap(keys + [k], values[k := v])
    }

    lemma SizeIsCount()
      requires Valid()
      ensures |values| == Size()
    {
      DistinctCard(keys);
    }
  }

  function EmptyMap<K(==), V>(): (r: LinkedMap<K, V>)
    ensures r.Valid() && r.Size() == 0
  {
    LinkedMap([], map[])
  }

  /** Java's LinkedHashSet: the elements in insertion order. */
  datatype LinkedSet<K(==)> = LinkedSet(elems: seq<K>)
  {
    ghost predicate Valid()
    {
      Distinct(elems)
    }

    /** `add`: a no-op for a present element, appends a new one. */
    function Add(k: K): (r: LinkedSet<K>)
      ensures Valid() ==> r.Valid()
    {
      if k in elems then this else LinkedSet(elems + [k])
    }
  }

  function EmptySet<K(==)>(): (r: LinkedSet<K>)
    ensures r.Valid() && r.elems == []
  {
    LinkedSet([])
  }
}
