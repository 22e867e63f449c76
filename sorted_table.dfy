/**
 * `std::lower_bound` over a table sorted by key: the binary search shared by the
 * file-system-type table and the window-message table.
 */
module SortedTable {

  /** Keys in non-decreasing order (what `std::is_sorted` checks with `<`). */
  ghost predicate Sorted(keys: seq<int>)
  {
    forall i, j :: 0 <= i < j < |keys| ==> keys[i] <= keys[j]
  }

  /** Keys in strictly increasing order: no key occurs twice. */
  ghost predicate StrictlySorted(keys: seq<int>)
  {
    forall i, j :: 0 <= i < j < |keys| ==> keys[i] < keys[j]
  }

  /**
   * Binary search of keys[lo..hi] for the first position whose key is not less
   * than `key`; everything before lo is already known to be less.
   */
  function LowerBoundIn(keys: seq<int>, key: int, lo: nat, hi: nat): (i: nat)
    requires Sorted(keys) && lo <= hi <= |keys|
    requires forall j :: 0 <= j < lo ==> keys[j] < key
    requires forall j :: hi <= j < |keys| ==> keys[j] >= key
    ensures lo <= i <= hi
    ensures forall j :: 0 <= j < i ==> keys[j] < key
    ensures forall j :: i <= j < |keys| ==> keys[j] >= key
    decreases hi - lo
  {
    if lo == hi then lo
    else
      var mid := lo + (hi - lo) / 2;
      if keys[mid] < key then LowerBoundIn(keys, key, mid + 1, hi)
      else LowerBoundIn(keys, key, lo, mid)
  }

  /** `std::lower_bound(first, last, key)`: the partition point of "key less than". */
  function LowerBound(keys: seq<int>, key: int): (i: nat)
    requires Sorted(keys)
    ensures i <= |keys|
    ensures forall j :: 0 <= j < i ==> keys[j] < key
    ensures forall j :: i <= j < |keys| ==> keys[j] >= key
  {
    LowerBoundIn(keys, key, 0, |keys|)
  }

  /** The lower bound lands on the key exactly when the key occurs in the table. */
  lemma LowerBoundFinds(keys: seq<int>, key: int)
    requires Sorted(keys)
    ensures (LowerBound(keys, key) < |keys| && keys[LowerBound(keys, key)] == key)
            <==> (exists j :: 0 <= j < |keys| && keys[j] == key)
  {
    var i := LowerBound(keys, key);
    if j :| 0 <= j < |keys| && keys[j] == key {
      assert i <= j;
      assert keys[i] <= keys[j];
    }
  }

  /** Neighbours in order (what `std::is_sorted` compares) make the whole table sorted. */
  lemma AdjacentOrderSorts(keys: seq<int>)
    requires forall i :: 0 <= i < |keys| - 1 ==> keys[i] <= keys[i + 1]
    ensures Sorted(keys)
  {
    forall i, j | 0 <= i < j < |keys| ensures keys[i] <= keys[j] {
      var k := i;
      while k < j
        invariant i <= k <= j && keys[i] <= keys[k]
      {
        k := k + 1;
      }
    }
  }
}
