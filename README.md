# ForgettingMap in Dafny

A model of `ForgettingMap<K,V>`, a bounded key-value cache. Each key carries
its value and an access frequency, which counts successful lookups. When a new
key arrives and the map is full, the cache first forgets the least frequently
found entry. Frequency ties go against the entry inserted first.

The Java class keeps a `LinkedHashMap` from key to (value, frequency). The
model keeps the same state as a class with two fields:

- `order`, the keys in insertion order, which is the iteration order of the
  `LinkedHashMap`;
- `entries`, a map from key to `Entry(value, frequency)`.

The capacity is a constant field. The object invariant `Valid()` says:

- the size is at most the capacity;
- no key appears twice in `order`;
- `order` lists exactly the keys of `entries`.

Every method keeps this invariant.

Files:

- `wrappers.dfy`: `Option`, the explicit "absent" result that replaces
  Java's `null` returns.
- `insertion_order.dfy`: distinct sequences, and `Without`, which removes one
  key from the insertion order and keeps the order of the rest.
- `entries.dfy`: `Entry`, the (value, frequency) pair stored per key.
- `eviction.dfy`: the eviction choice, in three forms:
  - `LeastFrequent`, a reference definition written as a right fold;
  - `FirstMinimumAt` and `IsFirstMinimum`, a declarative "first key with the
    least frequency";
  - lemmas proving that these agree and that the first minimum is unique.
- `forgetting_map.dfy`: the class `ForgettingMap` with `add`, `find`,
  `remove`, `size`, the snapshot behind `toString`, and the three private
  helpers. The eviction scan is a loop proved against `LeastFrequent`.
- `scenarios.dfy`: each unit test, as a client method that builds a map,
  drives it and returns what the test observes. Each method's postcondition
  is the test's expectation.

## Model

| member | source | states |
|---|---|---|
| ForgettingMaps.ForgettingMap.constructor | src/main/java/ForgettingMap.java:18-20 | a new map is empty, has the given capacity and satisfies the invariant |
| ForgettingMaps.ForgettingMap.Add | src/main/java/ForgettingMap.java:23-33 | returns the key and keeps the invariant. A present key gets the new value and keeps its frequency and its place, with no eviction. A new key below capacity is appended with frequency 0. A new key at capacity first evicts exactly the first least-frequent key, then the others keep their order and the new key is appended with frequency 0 |
| ForgettingMaps.ForgettingMap.Find | src/main/java/ForgettingMap.java:35-41 | a hit returns the stored value and raises that key's frequency by one, changing nothing else. A miss returns None and changes nothing |
| ForgettingMaps.ForgettingMap.Remove | src/main/java/ForgettingMap.java:43-47 | returns what a lookup would (the value, or None when absent), deletes the key, keeps the invariant, and leaves the other keys in their order with their entries unchanged. The size drops by one exactly when the key was present |
| ForgettingMaps.ForgettingMap.Size | src/main/java/ForgettingMap.java:49-51 | the number of entries equals the length of the insertion order and never exceeds the capacity |
| ForgettingMaps.ForgettingMap.Snapshot | src/main/java/ForgettingMap.java:53-56 | one (key, value, frequency) triple per entry, in insertion order, each agreeing with the stored entry |
| ForgettingMaps.ForgettingMap.ValueAndIncrementFrequency | src/main/java/ForgettingMap.java:59-67 | a hit raises the key's frequency by one in place and returns the updated entry. A miss returns None and changes nothing |
| ForgettingMaps.ForgettingMap.Frequency | src/main/java/ForgettingMap.java:69-75 | Some exactly when the key is present, holding its frequency |
| ForgettingMaps.ForgettingMap.LeastFrequentlyAccessedKey | src/main/java/ForgettingMap.java:77-86 | the scan returns None exactly on an empty map. Otherwise it returns the first key in insertion order with the least frequency, which equals the reference choice `LeastFrequent` |
| Eviction.LeastFrequent | src/main/java/ForgettingMap.java:77-86 | the reference eviction choice is one of the keys scanned |
| Eviction.LeastFrequentIsFirstMinimum | src/main/java/ForgettingMap.java:77-86 | the reference choice sits at a position whose frequency is no greater than any other key's and strictly below every earlier key's |
| Eviction.FirstMinimumAtUnique | src/main/java/ForgettingMap.java:79-84 | at most one position is the first minimum, so the strict comparison leaves no room for a second candidate |
| Eviction.FirstMinimumDetermines | src/main/java/ForgettingMap.java:77-86 | any first-minimum position holds exactly the reference choice |
| Eviction.EqualFrequenciesEvictEarliest | src/main/java/ForgettingMap.java:77-86 | when all frequencies are equal, the earliest-inserted key is the one evicted |
| InsertionOrder.Without | src/main/java/ForgettingMap.java:43-47 | removing a key from the insertion order leaves exactly the other keys, keeps them distinct, shortens the order by one when the key was there, and changes nothing when it was not |
| InsertionOrder.WithoutKeepsOrder | src/main/java/ForgettingMap.java:26 | removing the key at one position leaves the keys before it and the keys after it, each in their original order |
| InsertionOrder.DistinctElementsCount | src/main/java/ForgettingMap.java:49-51 | a list of distinct keys has as many keys as it has places, so the table's size is the length of the order |
| ForgettingMapScenarios.AddAndFind | src/test/java/ForgettingMapTest.java:7-19 | with capacity 2, both keys are found with their values, and re-adding the second key with the first value replaces its value |
| ForgettingMapScenarios.FindTimes | src/test/java/ForgettingMapTest.java:48-50 | `n` lookups of a present key raise its frequency by `n` and change nothing else |
| ForgettingMapScenarios.AddEvicting | src/main/java/ForgettingMap.java:24-29 | adding a new key to a full map whose first minimum is at place `p` removes exactly that key and appends the new one with frequency 0 |
| ForgettingMapScenarios.AddFiveKeys | src/test/java/ForgettingMapTest.java:23-26 | the first five adds of testCapacity fill the map with keys 0 to 4 in order, at frequency 0 |
| ForgettingMapScenarios.AddTenKeys | src/test/java/ForgettingMapTest.java:23-26 | after ten adds with no lookups, the map holds keys 5 to 9 in order, at frequency 0 |
| ForgettingMapScenarios.Capacity | src/test/java/ForgettingMapTest.java:22-31 | the size is 5 and keys 5 to 9 are all found |
| ForgettingMapScenarios.Frequency | src/test/java/ForgettingMapTest.java:34-41 | ten lookups of the only key give the snapshot [(0, "a value", 10)] |
| ForgettingMapScenarios.AddFiveThenFind | src/test/java/ForgettingMapTest.java:45-51 | after the first five rounds, keys 0 to 4 are present in order and key k has frequency 10 - k |
| ForgettingMapScenarios.AddTenThenFind | src/test/java/ForgettingMapTest.java:45-51 | after all ten rounds, the order is [0, 1, 2, 3, 9] and key k has frequency 10 - k, so keys 4 to 8 are gone |
| ForgettingMapScenarios.AddThenFindEvicting | src/test/java/ForgettingMapTest.java:47-50 | a later round on the order [0, 1, 2, 3, i - 1] leaves the order [0, 1, 2, 3, i] and keeps every key k at frequency 10 - k |
| ForgettingMapScenarios.EvictNewest | src/test/java/ForgettingMapTest.java:47 | adding key i evicts key i - 1, the least found key. Key i enters with frequency 0 and the other keys keep theirs |
| ForgettingMapScenarios.LeastFrequentRemoval | src/test/java/ForgettingMapTest.java:44-56 | the snapshot is keys 0 to 3 and 9 with frequencies 10, 9, 8, 7 and 1, and each of those keys is found |
| ForgettingMapScenarios.FindKeptKeys | src/test/java/ForgettingMapTest.java:52-55 | lookups of keys 0 to 3 and then key 9 all return "a value" |
| ForgettingMapScenarios.AddThreeKeys | src/test/java/ForgettingMapTest.java:60-63 | three adds to a map of capacity 3 give the order [0, 1, 2] with frequency 0 each |
| ForgettingMapScenarios.AddThreeThenFind | src/test/java/ForgettingMapTest.java:64-67 | the lookups leave frequencies 1, 1 and 2 on keys 0, 1 and 2 |
| ForgettingMapScenarios.LeastFrequentRemovalTieBreaker | src/test/java/ForgettingMapTest.java:59-73 | adding key 3 evicts key 0, the earlier of the two least-found keys, so key 0 is not found and keys 1, 2 and 3 are |
| ForgettingMapScenarios.Removal | src/test/java/ForgettingMapTest.java:76-83 | with capacity 1, removing the evicted key 0 returns None, key 1 is found, and the size is 1 |

## Left out

- Thread safety: `synchronized` on `add`, `find` and `remove`, and the
  unsynchronised `size()`. The model is sequential, so every operation is
  atomic.
- `toString`: its exact text (`{0=a value=10}`) is not modelled. `Snapshot`
  yields the same (key, value, frequency) triples in the same order.
- Frequency overflow and the `Integer.MAX_VALUE` sentinel. Frequencies are
  unbounded naturals, and the scan's initial sentinel is modelled as "no
  candidate yet" (None). In Java, 2^31 - 1 lookups bring a frequency to
  exactly `MAX_VALUE`, and the 2^31-th lookup wraps it to a negative
  number. A key whose frequency equals `MAX_VALUE` never replaces the
  sentinel, so if every key were at `MAX_VALUE`, the scan would return
  `null` and the map would grow past its capacity. The model leaves out
  both effects.
- Java `null`: absent results are `Option.None`. Storing a `null` value,
  which Java's `find` cannot tell apart from a miss, and `null` keys are not
  modelled.
- ForgettingMaps.ForgettingMap.constructor: it requires a capacity of at
  least 1. The Java constructor accepts any `Integer`, including `null` and
  values ≤ 0. With `null`, every add of a new key throws
  NullPointerException when the capacity is unboxed for the size test. With
  a capacity ≤ 0, every add of a new key first tries to evict, and the map
  can exceed the capacity. An add of a present key skips the size test in
  both cases.
- Hashing: key equality is Dafny equality (`K(==)`). The `hashCode` and
  `equals` contracts of the key type are not modelled.
- JUnit: the test assertions become postconditions of the scenario methods.
  The test for least-frequent removal checks only lookups. Its scenario
  method also states the snapshot after the ten rounds.
