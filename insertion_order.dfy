/**
 * The insertion order of a LinkedHashMap in insertion-order mode, as a
 * sequence of distinct keys: putting a new key appends it, removing a key
 * takes it out and leaves the others where they were.
 */
module InsertionOrder {

  /** No key occurs twice. */
  ghost predicate Distinct<K>(s: seq<K>)
  {
    forall i, j :: 0 <= i < j < |s| ==> s[i] != s[j]
  }

  /** The keys that occur in the order. */
  function Elements<K>(s: seq<K>): set<K>
  {
    set x | x in s
  }

  /** A sequence of distinct keys has as many keys as it has positions. */
  lemma {:induction false} DistinctElementsCount<K>(s: seq<K>)
    requires Distinct(s)
    ensures |Elements(s)| == |s|
  {
    if s != [] {
      assert Distinct(s[1..]);
      DistinctElementsCount(s[1..]);
      assert Elements(s) == {s[0]} + Elements(s[1..]);
      assert s[0] !in Elements(s[1..]);
    }
  }

  /** The order after removing key `x` (a no-op when `x` is absent). */
  function Without<K(==)>(s: seq<K>, x: K): (r: seq<K>)
    ensures Elements(r) == Elements(s) - {x}
    ensures x !in s ==> r == s
    ensures Distinct(s) ==> Distinct(r)
    ensures Distinct(s) && x in s ==> |r| == |s| - 1
  {
    if s == [] then []
    else if s[0] == x then
      assert Distinct(s) ==> x !in s[1..];
      assert Elements(s) == {s[0]} + Elements(s[1..]);
      Without(s[1..], x)
    else
      var rest := Without(s[1..], x);
      assert Distinct(s) ==> Distinct(s[1..]);
      assert s[0] !in Elements(s[1..]) - {x} ==> s[0] !in rest;
      assert Distinct(s) ==> s[0] !in rest;
      assert Elements([s[0]] + rest) == {s[0]} + Elements(rest);
      [s[0]] + rest
  }

  /**
   * Removing the key at position `p` closes the gap and keeps every other
   * key in its relative place.
   */
  lemma {:induction false} WithoutKeepsOrder<K>(s: seq<K>, p: nat)
    requires Distinct(s)
    requires p < |s|
    ensures Without(s, s[p]) == s[..p] + s[p + 1..]
  {
    if p == 0 {
      assert s[0] !in s[1..];
    } else {
      var tail := s[1..];
      assert Distinct(tail) && s[0] != s[p] && tail[p - 1] == s[p];
      assert Without(tail, s[p]) == s[1..p] + s[p + 1..] by {
        WithoutKeepsOrder(tail, p - 1);
        assert tail[..p - 1] == s[1..p] && tail[p..] == s[p + 1..];
      }
      assert s[..p] + s[p + 1..] == [s[0]] + (s[1..p] + s[p + 1..]) by {
        assert s[..p] == [s[0]] + s[1..p];
      }
    }
  }
}
