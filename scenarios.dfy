/**
 * The behaviour the repository's unit tests check, stated as client methods
 * that build a ForgettingMap, drive it, and return what the tests observe.
 */
module ForgettingMapScenarios {

  import opened Wrappers
  import opened InsertionOrder
  import opened Entries
  import opened Eviction
  import opened ForgettingMaps

  /** The value the tests store under every key. */
  const Value: string := "a value"

  /**
   * Two keys in a map of capacity 2 are both found; adding the second key
   * again replaces its value.
   */
  method AddAndFind() returns (first: Option<string>, second: Option<string>, updated: Option<string>)
    ensures first == Some("this is a value")
    ensures second == Some("a different value")
    ensures updated == Some("this is a value")
  {
    var key, value := "this is a key", "this is a value";
    var alternateKey, alternateValue := "a different key", "a different value";
    assert key[0] != alternateKey[0];
    var m := new ForgettingMap<string, string>(2);
    var _ := m.Add(key, value);
    var _ := m.Add(alternateKey, alternateValue);
    first := m.Find(key);
    second := m.Find(alternateKey);
    var _ := m.Add(alternateKey, value);
    updated := m.Find(alternateKey);
  }

  /**
   * Looks `key` up `times` times, as the tests' inner loops do: its
   * frequency grows by `times` and nothing else changes.
   */
  method FindTimes<K(==), V>(m: ForgettingMap<K, V>, key: K, times: nat)
    requires m.Valid() && key in m.entries
    modifies m
    ensures m.Valid() && m.order == old(m.order)
    ensures m.entries == old(m.entries)[key := Entry(old(m.entries)[key].value, old(m.entries)[key].frequency + times)]
  {
    var n := 0;
    while n < times
      invariant 0 <= n <= times
      invariant m.Valid() && m.order == old(m.order)
      invariant m.entries == old(m.entries)[key := Entry(old(m.entries)[key].value, old(m.entries)[key].frequency + n)]
    {
      var _ := m.Find(key);
      n := n + 1;
    }
  }

  /**
   * Adds a new key to a full map whose first least-found key is at place
   * `p`: that key goes, the others keep their order and the new key comes
   * last with frequency 0.
   */
  method AddEvicting<K(==), V>(m: ForgettingMap<K, V>, key: K, value: V, p: nat)
    requires m.Valid() && key !in m.entries && |m.order| == m.capacity
    requires FirstMinimumAt(m.order, m.entries, p)
    modifies m
    ensures m.Valid()
    ensures m.order == old(m.order)[..p] + old(m.order)[p + 1..] + [key]
    ensures m.entries == (old(m.entries) - {old(m.order)[p]})[key := Entry(value, 0)]
  {
    FirstMinimumDetermines(m.order, m.entries, p);
    WithoutKeepsOrder(m.order, p);
    var _ := m.Add(key, value);
  }

  /** Keys 0 to 4 added in turn to a map of capacity 5, which fills it. */
  method AddFiveKeys() returns (m: ForgettingMap<int, string>)
    ensures fresh(m) && m.Valid() && m.capacity == 5 && m.order == [0, 1, 2, 3, 4]
    ensures forall k :: k in m.entries ==> m.entries[k] == Entry(Value, 0)
  {
    m := new ForgettingMap<int, string>(5);
    var i := 0;
    while i < 5
      invariant 0 <= i <= 5
      invariant m.Valid() && m.capacity == 5 && |m.order| == i
      invariant forall j :: 0 <= j < i ==> m.order[j] == j
      invariant forall k :: k in m.entries ==> m.entries[k] == Entry(Value, 0)
    {
      assert i !in Elements(m.order);
      var _ := m.Add(i, Value);
      i := i + 1;
    }
    assert m.order == [0, 1, 2, 3, 4];
  }

  /**
   * The set-up of Capacity: after AddFiveKeys, keys 5 to 9 are added with
   * no lookups in between; each one evicts the earliest key left.
   */
  method AddTenKeys() returns (m: ForgettingMap<int, string>)
    ensures fresh(m) && m.Valid() && |m.order| == 5
    ensures forall j :: 0 <= j < 5 ==> m.order[j] == 5 + j
    ensures forall k :: k in m.entries ==> m.entries[k] == Entry(Value, 0)
  {
    m := AddFiveKeys();
    var i := 5;
    // The map holds the last five keys added, in order.
    while i < 10
      invariant 5 <= i <= 10
      invariant m.Valid() && m.capacity == 5 && |m.order| == 5
      invariant forall j :: 0 <= j < 5 ==> m.order[j] == i - 5 + j
      invariant forall k :: k in m.entries ==> m.entries[k] == Entry(Value, 0)
    {
      assert i !in Elements(m.order);
      assert m.order[0] in Elements(m.order);
      AddEvicting(m, i, Value, 0);
      i := i + 1;
    }
  }

  /** After AddTenKeys the map holds five entries, and keys 5 to 9 are found. */
  method Capacity() returns (size: nat, found: seq<Option<string>>)
    ensures size == 5
    ensures found == [Some(Value), Some(Value), Some(Value), Some(Value), Some(Value)]
  {
    var m := AddTenKeys();
    size := m.Size();
    found := [];
    var i := 5;
    while i < 10
      invariant 5 <= i <= 10
      invariant m.Valid() && |m.order| == 5
      invariant forall j :: 0 <= j < 5 ==> m.order[j] == 5 + j
      invariant forall k :: k in m.entries ==> m.entries[k].value == Value
      invariant found == seq(i - 5, _ => Some(Value))
    {
      assert m.order[i - 5] == i;
      assert i in Elements(m.order);
      var r := m.Find(i);
      found := found + [r];
      i := i + 1;
    }
  }

  /** Ten lookups of the only key leave its frequency at 10. */
  method Frequency() returns (snapshot: seq<(int, string, nat)>)
    ensures snapshot == [(0, Value, 10)]
  {
    var m := new ForgettingMap<int, string>(1);
    var _ := m.Add(0, Value);
    FindTimes(m, 0, 10);
    assert m.order == [0] && m.entries == map[0 := Entry(Value, 10)];
    snapshot := m.Snapshot();
  }

  /**
   * Keys 0 to 4 added in turn to a map of capacity 5, key i found 10 - i
   * times right after it is added.
   */
  method AddFiveThenFind() returns (m: ForgettingMap<int, string>)
    ensures fresh(m) && m.Valid() && m.capacity == 5 && m.order == [0, 1, 2, 3, 4]
    ensures forall k :: k in m.entries ==>
      m.entries[k].value == Value && m.entries[k].frequency == 10 - k
  {
    m := new ForgettingMap<int, string>(5);
    var i := 0;
    while i < 5
      invariant 0 <= i <= 5
      invariant m.Valid() && m.capacity == 5 && |m.order| == i
      invariant forall j :: 0 <= j < i ==> m.order[j] == j
      invariant forall k :: k in m.entries ==>
        m.entries[k].value == Value && m.entries[k].frequency == 10 - k
    {
      assert i !in Elements(m.order);
      var _ := m.Add(i, Value);
      FindTimes(m, i, 10 - i);
      i := i + 1;
    }
    assert m.order == [0, 1, 2, 3, 4];
  }

  /**
   * The set-up of LeastFrequentRemoval: after AddFiveThenFind, keys 5 to 9
   * are added the same way. Each new key evicts the newest key left, the
   * least found one, so keys 4, 5, 6, 7 and 8 go in turn.
   */
  method AddTenThenFind() returns (m: ForgettingMap<int, string>)
    ensures fresh(m) && m.Valid() && m.order == [0, 1, 2, 3, 9]
    ensures forall k :: k in m.entries ==>
      m.entries[k].value == Value && m.entries[k].frequency == 10 - k
  {
    m := AddFiveThenFind();
    var i := 5;
    while i < 10
      invariant 5 <= i <= 10
      invariant m.Valid() && m.capacity == 5
      // Keys 0 to 3 stay; the fifth place holds the newest key.
      invariant m.order == [0, 1, 2, 3, i - 1]
      invariant forall k :: k in m.entries ==>
        m.entries[k].value == Value && m.entries[k].frequency == 10 - k
    {
      AddThenFindEvicting(m, i);
      i := i + 1;
    }
  }

  /**
   * One later round of LeastFrequentRemoval: key i is added, which evicts
   * key i - 1, the least found key, and is then found 10 - i times.
   */
  method AddThenFindEvicting(m: ForgettingMap<int, string>, i: int)
    requires 5 <= i < 10
    requires m.Valid() && m.capacity == 5 && m.order == [0, 1, 2, 3, i - 1]
    requires forall k :: k in m.entries ==>
      m.entries[k].value == Value && m.entries[k].frequency == 10 - k
    modifies m
    ensures m.Valid() && m.order == [0, 1, 2, 3, i]
    ensures forall k :: k in m.entries ==>
      m.entries[k].value == Value && m.entries[k].frequency == 10 - k
  {
    EvictNewest(m, i);
    FindTimes(m, i, 10 - i);
  }

  /**
   * The add of a later round of LeastFrequentRemoval: key i - 1 has the
   * lowest frequency, so it makes room for key i.
   */
  method EvictNewest(m: ForgettingMap<int, string>, i: int)
    requires 5 <= i < 10
    requires m.Valid() && m.capacity == 5 && m.order == [0, 1, 2, 3, i - 1]
    requires forall k :: k in m.entries ==>
      m.entries[k].value == Value && m.entries[k].frequency == 10 - k
    modifies m
    ensures m.Valid() && m.order == [0, 1, 2, 3, i]
    ensures i in m.entries && m.entries[i] == Entry(Value, 0)
    ensures forall k :: k in m.entries && k != i ==>
      m.entries[k].value == Value && m.entries[k].frequency == 10 - k
  {
    ghost var before := m.order;
    assert i !in Elements(m.order);
    assert FirstMinimumAt(m.order, m.entries, 4) by {
      assert forall j :: 0 <= j < 5 ==> m.order[j] in Elements(m.order);
    }
    AddEvicting(m, i, Value, 4);
    assert before[..4] + before[5..] == [0, 1, 2, 3];
  }

  /**
   * After AddTenThenFind, keys 0 to 3 and 9 are left, each with frequency
   * 10 - key, and each is found.
   */
  method LeastFrequentRemoval() returns (snapshot: seq<(int, string, nat)>, found: seq<Option<string>>)
    ensures snapshot == [(0, Value, 10), (1, Value, 9), (2, Value, 8), (3, Value, 7), (9, Value, 1)]
    ensures found == [Some(Value), Some(Value), Some(Value), Some(Value), Some(Value)]
  {
    var m := AddTenThenFind();
    assert forall j :: 0 <= j < 5 ==> m.order[j] in Elements(m.order);
    snapshot := m.Snapshot();
    assert snapshot[0] == (0, Value, 10) && snapshot[1] == (1, Value, 9);
    assert snapshot[2] == (2, Value, 8) && snapshot[3] == (3, Value, 7);
    assert snapshot[4] == (9, Value, 1) && |snapshot| == 5;
    found := FindKeptKeys(m);
  }

  /** Keys 0 to 3, then key 9, looked up in the map LeastFrequentRemoval builds. */
  method FindKeptKeys(m: ForgettingMap<int, string>) returns (found: seq<Option<string>>)
    requires m.Valid() && m.order == [0, 1, 2, 3, 9]
    requires forall k :: k in m.entries ==> m.entries[k].value == Value
    modifies m
    ensures found == [Some(Value), Some(Value), Some(Value), Some(Value), Some(Value)]
  {
    found := [];
    var i := 0;
    while i < 4
      invariant 0 <= i <= 4
      invariant m.Valid() && m.order == [0, 1, 2, 3, 9]
      invariant forall k :: k in m.entries ==> m.entries[k].value == Value
      invariant found == seq(i, _ => Some(Value))
    {
      assert i in Elements(m.order);
      var r := m.Find(i);
      found := found + [r];
      i := i + 1;
    }
    assert 9 in Elements(m.order);
    var r9 := m.Find(9);
    found := found + [r9];
  }

  /** Keys 0, 1 and 2 added in turn to a map of capacity 3. */
  method AddThreeKeys() returns (m: ForgettingMap<int, string>)
    ensures fresh(m) && m.Valid() && m.capacity == 3 && m.order == [0, 1, 2]
    ensures m.entries == map[0 := Entry(Value, 0), 1 := Entry(Value, 0), 2 := Entry(Value, 0)]
  {
    m := new ForgettingMap<int, string>(3);
    var _ := m.Add(0, Value);
    var _ := m.Add(1, Value);
    var _ := m.Add(2, Value);
  }

  /**
   * The set-up of LeastFrequentRemovalTieBreaker: keys 0 and 1 found once
   * each and key 2 twice, so the two least found keys tie.
   */
  method AddThreeThenFind() returns (m: ForgettingMap<int, string>)
    ensures fresh(m) && m.Valid() && m.capacity == 3 && m.order == [0, 1, 2]
    ensures 0 in m.entries && m.entries[0] == Entry(Value, 1)
    ensures 1 in m.entries && m.entries[1] == Entry(Value, 1)
    ensures 2 in m.entries && m.entries[2] == Entry(Value, 2)
  {
    m := AddThreeKeys();
    var _ := m.Find(0);
    var _ := m.Find(1);
    assert m.entries[2] == Entry(Value, 0);
    var _ := m.Find(2);
    var _ := m.Find(2);
  }

  /**
   * After AddThreeThenFind, adding key 3 evicts key 0, the earlier of the
   * two least found keys; keys 1, 2 and 3 are then found.
   */
  method LeastFrequentRemovalTieBreaker() returns (evicted: Option<string>, found: seq<Option<string>>)
    ensures evicted == None
    ensures found == [Some(Value), Some(Value), Some(Value)]
  {
    var m := AddThreeThenFind();
    assert LeastFrequent(m.order, m.entries) == 0 && Without(m.order, 0) == [1, 2] by {
      assert FirstMinimumAt(m.order, m.entries, 0);
      FirstMinimumDetermines(m.order, m.entries, 0);
      WithoutKeepsOrder(m.order, 0);
    }
    var _ := m.Add(3, Value);
    assert m.order == [1, 2, 3];
    evicted := m.Find(0);
    var r1 := m.Find(1);
    var r2 := m.Find(2);
    var r3 := m.Find(3);
    found := [r1, r2, r3];
  }

  /**
   * Capacity 1: adding key 1 evicts key 0, removing key 0 then finds
   * nothing, and key 1 is still there.
   */
  method Removal() returns (removed: Option<string>, found: Option<string>, size: nat)
    ensures removed == None
    ensures found == Some(Value)
    ensures size == 1
  {
    var m := new ForgettingMap<int, string>(1);
    var _ := m.Add(0, Value);
    assert LeastFrequent(m.order, m.entries) == 0 && Without(m.order, 0) == [] by {
      assert m.order == [0];
      assert FirstMinimumAt(m.order, m.entries, 0);
      FirstMinimumDetermines(m.order, m.entries, 0);
      WithoutKeepsOrder(m.order, 0);
    }
    var _ := m.Add(1, Value);
    removed := m.Remove(0);
    found := m.Find(1);
    size := m.Size();
  }
}
