/**
 * A bounded key-value cache that forgets its least frequently found entry
 * when a new key arrives at full capacity; frequency ties go against the
 * entry inserted first.
 */
module ForgettingMaps {

  import opened Wrappers
  import opened InsertionOrder
  import opened Entries
  import opened Eviction

  class ForgettingMap<K(==), V> {

    /** The keys in insertion order (the iteration order of the LinkedHashMap). */
    var order: seq<K>
    /** Each key's value and access frequency. */
    var entries: map<K, Entry<V>>
    /** The largest number of entries the map holds. */
    const capacity: nat

    /**
     * The object invariant: within capacity, no key twice, and the order
     * lists exactly the keys of the table.
     */
    ghost predicate Valid()
      reads this
    {
      && 1 <= capacity
      && |order| <= capacity
      && Distinct(order)
      && entries.Keys == Elements(order)
    }

    constructor (capacity: nat)
      requires 1 <= capacity
      ensures Valid()
      ensures this.capacity == capacity
      ensures order == [] && entries == map[]
    {
      this.capacity := capacity;
      order := [];
      entries := map[];
    }

    /**
     * Stores `value` under `key` and returns `key`. A key already present
     * keeps its frequency and its place in the order; a new key is appended
     * with frequency 0, after evicting the first least-frequent entry when
     * the map is full.
     */
    method Add(key: K, value: V) returns (r: K)
      requires Valid()
      modifies this
      ensures Valid()
      ensures r == key
      ensures key in old(entries) ==>
        && order == old(order)
        && entries == old(entries)[key := Entry(value, old(entries)[key].frequency)]
      ensures key !in old(entries) && |old(order)| < capacity ==>
        && order == old(order) + [key]
        && entries == old(entries)[key := Entry(value, 0)]
      ensures key !in old(entries) && |old(order)| >= capacity ==>
        && old(order) != []
        && var victim := LeastFrequent(old(order), old(entries));
        && order == Without(old(order), victim) + [key]
        && entries == (old(entries) - {victim})[key := Entry(value, 0)]
    {
      DistinctElementsCount(order);
      if key !in entries {
        if Size() + 1 > capacity {
          var least := LeastFrequentlyAccessedKey();
          entries := entries - {least.value};
          order := Without(order, least.value);
        }
        assert key !in Elements(order);
        entries := entries[key := Entry(value, 0)];
        order := order + [key];
        return key;
      }
      entries := entries[key := Entry(value, Frequency(key).value)];
      return key;
    }

    /**
     * Looks `key` up. On a hit its frequency grows by one and its value is
     * returned; on a miss nothing changes.
     */
    method Find(key: K) returns (r: Option<V>)
      requires Valid()
      modifies this
      ensures Valid() && order == old(order)
      ensures key in old(entries) ==>
        && r == Some(old(entries)[key].value)
        && entries == old(entries)[key := Entry(old(entries)[key].value, old(entries)[key].frequency + 1)]
      ensures key !in old(entries) ==> r == None && entries == old(entries)
    {
      var valueAndFrequency := ValueAndIncrementFrequency(key);
      if valueAndFrequency.Some? {
        return Some(valueAndFrequency.value.value);
      }
      return None;
    }

    /**
     * Removes `key` and returns what a lookup of it would have returned;
     * the remaining entries keep their values, frequencies and order.
     */
    method Remove(key: K) returns (r: Option<V>)
      requires Valid()
      modifies this
      ensures Valid()
      ensures r == if key in old(entries) then Some(old(entries)[key].value) else None
      ensures key !in entries
      ensures entries == old(entries) - {key}
      ensures order == Without(old(order), key)
      ensures |order| == if key in old(entries) then |old(order)| - 1 else |old(order)|
    {
      r := Find(key);
      entries := entries - {key};
      order := Without(order, key);
    }

    /** The number of entries, never more than the capacity. */
    function Size(): (n: nat)
      reads this
      requires Valid()
      ensures n == |order|
      ensures n <= capacity
    {
      DistinctElementsCount(order);
      |entries|
    }

    /** Every entry as (key, value, frequency), in insertion order. */
    function Snapshot(): (s: seq<(K, V, nat)>)
      reads this
      requires Valid()
      ensures |s| == |order| == |entries|
      ensures forall i :: 0 <= i < |s| ==>
        s[i].0 in entries && entries[s[i].0] == Entry(s[i].1, s[i].2)
      ensures forall i :: 0 <= i < |s| ==> s[i].0 == order[i]
    {
      DistinctElementsCount(order);
      assert forall i :: 0 <= i < |order| ==> order[i] in Elements(order);
      seq(|order|, i requires 0 <= i < |order| && order[i] in entries reads this =>
        (order[i], entries[order[i]].value, entries[order[i]].frequency))
    }

    /**
     * On a hit, increments the frequency of `key` in place and returns the
     * updated entry; on a miss returns None and changes nothing.
     */
    method ValueAndIncrementFrequency(key: K) returns (r: Option<Entry<V>>)
      requires Valid()
      modifies this
      ensures Valid() && order == old(order)
      ensures key in old(entries) ==>
        && entries == old(entries)[key := Entry(old(entries)[key].value, old(entries)[key].frequency + 1)]
        && r == Some(entries[key])
      ensures key !in old(entries) ==> r == None && entries == old(entries)
    {
      if key in entries {
        var entry := entries[key];
        entries := entries[key := entry.(frequency := entry.frequency + 1)];
        return Some(entries[key]);
      }
      return None;
    }

    /** The frequency of `key`, or None when the key is absent. */
    function Frequency(key: K): (r: Option<nat>)
      reads this
      ensures r.Some? <==> key in entries
      ensures r.Some? ==> r.value == entries[key].frequency
    {
      if key in entries then Some(entries[key].frequency) else None
    }

    /**
     * The eviction scan: walks the entries in insertion order and keeps the
     * first key whose frequency is strictly below every earlier one. None
     * stands for "no candidate yet" and is the result only on an empty map.
     */
    method LeastFrequentlyAccessedKey() returns (least: Option<K>)
      requires Valid()
      ensures least.None? <==> order == []
      ensures least.Some? ==> IsFirstMinimum(order, entries, least.value)
      ensures least.Some? ==> least.value == LeastFrequent(order, entries)
    {
      least := None;
      var leastFrequency: nat := 0;
      ghost var leastIndex: nat := 0;
      var i := 0;
      while i < |order|
        invariant 0 <= i <= |order|
        invariant least.None? <==> i == 0
        invariant least.Some? ==>
          && leastIndex < i
          && least.value == order[leastIndex]
          && leastFrequency == entries[least.value].frequency
          && FirstMinimumAt(order[..i], entries, leastIndex)
      {
        assert order[i] in Elements(order);
        var frequency := Frequency(order[i]).value;
        if least.None? || frequency < leastFrequency {
          least, leastFrequency, leastIndex := Some(order[i]), frequency, i;
        }
        assert order[..i + 1] == order[..i] + [order[i]];
        i := i + 1;
      }
      assert order[..i] == order;
      if least.Some? {
        FirstMinimumDetermines(order, entries, leastIndex);
      }
    }
  }
}
