/**
 * The eviction choice: among the keys in insertion order, the first one
 * whose access frequency is minimal.
 */
module Eviction {

  import opened Entries

  /**
   * Position `p` of `s` holds a least-frequent key, and every key before it
   * has a strictly higher frequency.
   */
  ghost predicate FirstMinimumAt<K, V>(s: seq<K>, entries: map<K, Entry<V>>, p: int)
  {
    && 0 <= p < |s|
    && (forall i :: 0 <= i < |s| ==> s[i] in entries)
    && (forall i :: 0 <= i < |s| ==> entries[s[p]].frequency <= entries[s[i]].frequency)
    && (forall i :: 0 <= i < p ==> entries[s[p]].frequency < entries[s[i]].frequency)
  }

  /** `k` is the first key of `s`, in order, with the least frequency. */
  ghost predicate IsFirstMinimum<K, V>(s: seq<K>, entries: map<K, Entry<V>>, k: K)
  {
    exists p :: FirstMinimumAt(s, entries, p) && s[p] == k
  }

  /**
   * A reference definition of the eviction choice, independent of the
   * left-to-right scan: the head wins unless the rest holds a key with a
   * strictly lower frequency.
   */
  function LeastFrequent<K, V>(s: seq<K>, entries: map<K, Entry<V>>): (k: K)
    requires s != []
    requires forall i :: 0 <= i < |s| ==> s[i] in entries
    ensures k in s
    decreases |s|
  {
    if |s| == 1 then s[0]
    else
      var rest := LeastFrequent(s[1..], entries);
      if entries[s[0]].frequency <= entries[rest].frequency then s[0] else rest
  }

  /** At most one position is a first minimum. */
  lemma FirstMinimumAtUnique<K, V>(s: seq<K>, entries: map<K, Entry<V>>, p: int, q: int)
    requires FirstMinimumAt(s, entries, p)
    requires FirstMinimumAt(s, entries, q)
    ensures p == q
  {
    // Both positions hold the minimal frequency, so neither can be strictly
    // below the other, and so neither position comes before the other.
    assert entries[s[p]].frequency == entries[s[q]].frequency;
  }

  /** The reference definition picks the first least-frequent key. */
  lemma {:induction false} LeastFrequentIsFirstMinimum<K, V>(s: seq<K>, entries: map<K, Entry<V>>)
    requires s != []
    requires forall i :: 0 <= i < |s| ==> s[i] in entries
    ensures IsFirstMinimum(s, entries, LeastFrequent(s, entries))
  {
    if |s| == 1 {
      assert FirstMinimumAt(s, entries, 0);
    } else {
      var tail := s[1..];
      var rest := LeastFrequent(tail, entries);
      LeastFrequentIsFirstMinimum(tail, entries);
      var q :| FirstMinimumAt(tail, entries, q) && tail[q] == rest;
      forall i | 1 <= i < |s|
        ensures s[i] == tail[i - 1]
      {
      }
      if entries[s[0]].frequency <= entries[rest].frequency {
        assert FirstMinimumAt(s, entries, 0);
      } else {
        assert s[q + 1] == rest;
        assert FirstMinimumAt(s, entries, q + 1);
      }
    }
  }

  /** The first-minimum property determines the eviction choice. */
  lemma FirstMinimumDetermines<K, V>(s: seq<K>, entries: map<K, Entry<V>>, p: int)
    requires FirstMinimumAt(s, entries, p)
    ensures LeastFrequent(s, entries) == s[p]
  {
    LeastFrequentIsFirstMinimum(s, entries);
    var q :| FirstMinimumAt(s, entries, q) && s[q] == LeastFrequent(s, entries);
    FirstMinimumAtUnique(s, entries, p, q);
  }

  /**
   * When every key has the same frequency (no lookups since they were
   * added, say) the earliest key is evicted.
   */
  lemma EqualFrequenciesEvictEarliest<K, V>(s: seq<K>, entries: map<K, Entry<V>>)
    requires s != []
    requires forall i :: 0 <= i < |s| ==> s[i] in entries
    requires forall i :: 0 <= i < |s| ==> entries[s[i]].frequency == entries[s[0]].frequency
    ensures LeastFrequent(s, entries) == s[0]
  {
    // The head is kept at every step: the key the rest yields is in `s`,
    // so its frequency is never strictly lower.
  }
}
