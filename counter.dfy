/** Counter.java: a frequency map with get-or-zero lookup, add, addAll and mode. */
module Counters {
  import opened Wrappers

  /** The count of k in m, or 0 when k was never added (the get-or-zero rule). */
  function Lookup<K>(m: map<K, int>, k: K): int {
    if k in m then m[k] else 0
  }

  /** No element is listed twice. */
  ghost predicate Distinct<K>(keys: seq<K>) {
    forall i, j :: 0 <= i < j < |keys| ==> keys[i] != keys[j]
  }

  /** keys lists every element of s exactly once: one pass over a key set. */
  ghost predicate Enumerates<K>(keys: seq<K>, s: set<K>) {
    && Distinct(keys)
    && (forall i :: 0 <= i < |keys| ==> keys[i] in s)
    && (forall k :: k in s ==> k in keys)
  }

  /** The counts after adding every element of items, in order, to the counts m. */
  function Added<K>(m: map<K, int>, items: seq<K>): (r: map<K, int>)
    ensures items == [] ==> r == m
  {
    if items == [] then m
    else
      var before := Added(m, items[..|items| - 1]);
      var last := items[|items| - 1];
      before[last := Lookup(before, last) + 1]
  }

  /** Adding items raises each key's count by its number of occurrences in items. */
  lemma {:induction false} AddedCounts<K>(m: map<K, int>, items: seq<K>)
    ensures forall k :: Lookup(Added(m, items), k) == Lookup(m, k) + multiset(items)[k]
    ensures forall k :: k in Added(m, items) <==> k in m || k in items
  {
    if items != [] {
      var init, last := items[..|items| - 1], items[|items| - 1];
      assert items == init + [last];
      AddedCounts(m, init);
    }
  }

  /**
   * A counter filled from empty holds exactly the items added, each with its
   * number of occurrences, which is at least one.
   */
  lemma AddedFromEmpty<K>(items: seq<K>)
    ensures Added(map[], items).Keys == set x | x in items
    ensures forall k :: k in Added(map[], items) ==> Added(map[], items)[k] == multiset(items)[k] >= 1
  {
    AddedCounts(map[], items);
    var r := Added(map[], items);
    forall k | k in r ensures r[k] == multiset(items)[k] >= 1 {
      assert Lookup(r, k) == multiset(items)[k];
    }
  }

  /** The count of the key currently held as the running mode; 0 before any key is taken. */
  function BestCount<K>(counts: map<K, int>, best: Option<K>): int {
    if best.Some? then Lookup(counts, best.value) else 0
  }

  /**
   * What Counter.mode returns when the key set is iterated in the order keys:
   * the running maximum starts at 0 and a key replaces the current mode only
   * when its count is strictly greater.
   */
  function ModeScan<K>(counts: map<K, int>, keys: seq<K>): Option<K> {
    if keys == [] then None
    else
      var best := ModeScan(counts, keys[..|keys| - 1]);
      var k := keys[|keys| - 1];
      if Lookup(counts, k) > BestCount(counts, best) then Some(k) else best
  }

  /**
   * The scan finds nothing exactly when no key has a positive count; otherwise it
   * yields a listed key whose count is positive and at least every listed key's
   * count, and no key tied with it comes earlier in the iteration order.
   */
  lemma {:induction false} ModeScanIsFirstMaximum<K>(counts: map<K, int>, keys: seq<K>)
    requires Distinct(keys)
    ensures IsFirstMaximum(counts, keys, ModeScan(counts, keys))
  {
    if keys != [] {
      var init, k := keys[..|keys| - 1], keys[|keys| - 1];
      assert keys == init + [k];
      assert k !in init by {
        forall i | 0 <= i < |init| ensures init[i] != k {
          assert init[i] == keys[i];
        }
      }
      ModeScanIsFirstMaximum(counts, init);
      ModeScanStep(counts, init, k);
    }
  }

  /**
   * The scan finds nothing exactly when no key has a positive count; otherwise it
   * yields a listed key whose count is positive and at least every listed key's
   * count, and every key listed before it has a strictly smaller count, so no
   * key tied with it comes earlier in the iteration order.
   */
  ghost predicate IsFirstMaximum<K>(counts: map<K, int>, keys: seq<K>, r: Option<K>) {
    && (r.None? <==> forall i :: 0 <= i < |keys| ==> Lookup(counts, keys[i]) <= 0)
    && (r.Some? ==>
          && r.value in keys
          && Lookup(counts, r.value) > 0
          && (forall i :: 0 <= i < |keys| ==> Lookup(counts, keys[i]) <= Lookup(counts, r.value))
          && (forall i, j :: 0 <= i < j < |keys| && keys[j] == r.value ==>
                Lookup(counts, keys[i]) < Lookup(counts, r.value)))
  }

  /** One more key in the scan keeps the first-maximum property. */
  lemma ModeScanStep<K>(counts: map<K, int>, init: seq<K>, k: K)
    requires k !in init
    requires IsFirstMaximum(counts, init, ModeScan(counts, init))
    ensures IsFirstMaximum(counts, init + [k], ModeScan(counts, init + [k]))
  {
    var keys := init + [k];
    assert keys[..|keys| - 1] == init;
    var best := ModeScan(counts, init);
    if Lookup(counts, k) > BestCount(counts, best) {
      ScanTakesNewKey(counts, init, k);
    } else if best.None? {
      ScanKeepsNothing(counts, init, k);
    } else {
      ScanKeepsMode(counts, init, k);
    }
  }

  /** A key whose count beats the running best becomes the first maximum. */
  lemma ScanTakesNewKey<K>(counts: map<K, int>, init: seq<K>, k: K)
    requires IsFirstMaximum(counts, init, ModeScan(counts, init))
    requires Lookup(counts, k) > BestCount(counts, ModeScan(counts, init))
    ensures IsFirstMaximum(counts, init + [k], Some(k))
  {
    var keys := init + [k];
    assert k == keys[|init|];
    forall i | 0 <= i < |keys|
      ensures Lookup(counts, keys[i]) <= Lookup(counts, k)
    {
      if i < |init| {
        assert keys[i] == init[i];
      }
    }
    forall i, j | 0 <= i < j < |keys| && keys[j] == k
      ensures Lookup(counts, keys[i]) < Lookup(counts, k)
    {
      assert keys[i] == init[i];
    }
  }

  /** With no positive count so far, a key with no positive count leaves the scan empty. */
  lemma ScanKeepsNothing<K>(counts: map<K, int>, init: seq<K>, k: K)
    requires IsFirstMaximum(counts, init, None)
    requires Lookup(counts, k) <= 0
    ensures IsFirstMaximum(counts, init + [k], None)
  {
    var keys := init + [k];
    forall i | 0 <= i < |keys|
      ensures Lookup(counts, keys[i]) <= 0
    {
      if i < |init| {
        assert keys[i] == init[i];
      }
    }
  }

  /** A key whose count does not beat the running mode leaves the mode in place. */
  lemma ScanKeepsMode<K>(counts: map<K, int>, init: seq<K>, k: K)
    requires k !in init
    requires ModeScan(counts, init).Some?
    requires IsFirstMaximum(counts, init, ModeScan(counts, init))
    requires Lookup(counts, k) <= Lookup(counts, ModeScan(counts, init).value)
    ensures IsFirstMaximum(counts, init + [k], ModeScan(counts, init))
  {
    var keys := init + [k];
    var v := ModeScan(counts, init).value;
    assert v in keys;
    forall i | 0 <= i < |keys|
      ensures Lookup(counts, keys[i]) <= Lookup(counts, v)
    {
      if i < |init| {
        assert keys[i] == init[i];
      }
    }
    forall i, j | 0 <= i < j < |keys| && keys[j] == v
      ensures Lookup(counts, keys[i]) < Lookup(counts, v)
    {
      assert keys[i] == init[i];
      assert keys[j] == init[j];
    }
  }

  /**
   * For a counter whose stored counts are positive, a scan of its whole key set
   * yields null exactly for the empty counter, and otherwise a stored key with a
   * maximal count that comes first among the keys tied at that count.
   */
  lemma CounterModeIsFirstMaximum<K>(counts: map<K, int>, keys: seq<K>)
    requires forall k :: k in counts ==> counts[k] >= 1
    requires Enumerates(keys, counts.Keys)
    ensures ModeScan(counts, keys).None? <==> counts == map[]
    ensures ModeScan(counts, keys).Some? ==>
              var v := ModeScan(counts, keys).value;
              && v in counts
              && (forall k :: k in counts ==> counts[k] <= counts[v])
              && (forall i, j :: 0 <= i < j < |keys| && keys[j] == v ==> counts[keys[i]] < counts[v])
  {
    ModeScanIsFirstMaximum(counts, keys);
    if counts != map[] {
      var k :| k in counts;
      assert k in keys;
    }
  }

  /** The frequency map itself; every stored count is at least one. */
  class Counter<K(==,!new)> {
    var counts: map<K, int>

    ghost predicate Valid()
      reads this
    {
      forall k :: k in counts ==> counts[k] >= 1
    }

    constructor ()
      ensures Valid() && counts == map[]
    {
      counts := map[];
    }

    /** get: the stored count, and 0 (never null) for a key never added. */
    function Get(key: K): (c: int)
      reads this
      requires Valid()
      ensures c >= 0 && (c == 0 <==> key !in counts)
      ensures key in counts ==> c == counts[key]
    {
      Lookup(counts, key)
    }

    /**
     * add: raises the key's count by one and returns the new count; every other
     * key keeps its count. The source's null check on the count is dead code,
     * since Get never yields null.
     */
    method Add(key: K) returns (c: int)
      requires Valid()
      modifies this
      ensures Valid()
      ensures c == old(Get(key)) + 1 && c >= 1
      ensures counts == old(counts)[key := c]
      ensures forall k :: k != key ==> Get(k) == old(Get(k))
    {
      var count := Get(key);
      counts := counts[key := count + 1];
      c := count + 1;
    }

    /** addAll: every key's count grows by its number of occurrences in items. */
    method AddAll(items: seq<K>)
      requires Valid()
      modifies this
      ensures Valid()
      ensures counts == Added(old(counts), items)
      ensures forall k :: Lookup(counts, k) == Lookup(old(counts), k) + multiset(items)[k]
    {
      ghost var start := counts;
      for i := 0 to |items|
        invariant Valid()
        invariant counts == Added(start, items[..i])
      {
        var prefix := items[..i + 1];
        assert prefix[..|prefix| - 1] == items[..i] && prefix[|prefix| - 1] == items[i];
        var _ := Add(items[i]);
      }
      assert items[..|items|] == items;
      AddedCounts(start, items);
    }

    /**
     * mode: scans the key set in its iteration order keys and keeps the first key
     * whose count strictly exceeds the best so far; null for an empty counter.
     */
    method Mode(keys: seq<K>) returns (mode: Option<K>)
      requires Valid() && Enumerates(keys, counts.Keys)
      ensures mode == ModeScan(counts, keys)
      ensures mode.None? <==> counts == map[]
      ensures mode.Some? ==>
                mode.value in counts && forall k :: k in counts ==> counts[k] <= counts[mode.value]
    {
      mode := None;
      var maxCount := 0;
      for i := 0 to |keys|
        invariant mode == ModeScan(counts, keys[..i])
        invariant maxCount == BestCount(counts, mode)
      {
        assert keys[..i + 1][..i] == keys[..i];
        var count := Get(keys[i]);
        if count > maxCount {
          mode := Some(keys[i]);
          maxCount := count;
        }
      }
      assert keys[..|keys|] == keys;
      CounterModeIsFirstMaximum(counts, keys);
    }
  }
}
