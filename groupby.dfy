/**
 * `groupby(key)[col].sum()` and `sort_values(ascending=False)` on a
 * column of (key, value) pairs. A grouped result is an association list:
 * pandas sorts the group keys ascending, so the list is ascending in
 * `less`, and each key's value is the sum of the values filed under it.
 */
module GroupBy {
  import opened Ordering

  /** Sum of every value in the column. */
  function Total<K>(ps: seq<(K, real)>): real {
    if ps == [] then 0.0 else ps[0].1 + Total(ps[1..])
  }

  /** Sum of the values filed under key `k` (0 for a key that does not occur). */
  function SumOf<K(==)>(ps: seq<(K, real)>, k: K): real {
    if ps == [] then 0.0
    else (if ps[0].0 == k then ps[0].1 else 0.0) + SumOf(ps[1..], k)
  }

  /** The distinct keys that occur. */
  function Keys<K>(ps: seq<(K, real)>): set<K> {
    if ps == [] then {} else {ps[0].0} + Keys(ps[1..])
  }

  lemma {:induction false} KeyOfEntry<K>(ps: seq<(K, real)>, i: nat)
    requires i < |ps|
    ensures ps[i].0 in Keys(ps)
  {
    if i > 0 {
      assert ps[i] == ps[1..][i - 1];
      KeyOfEntry(ps[1..], i - 1);
    }
  }

  lemma {:induction false} EntryOfKey<K>(ps: seq<(K, real)>, k: K) returns (i: nat)
    requires k in Keys(ps)
    ensures i < |ps| && ps[i].0 == k
  {
    if ps[0].0 == k {
      i := 0;
    } else {
      var j := EntryOfKey(ps[1..], k);
      i := j + 1;
    }
  }

  ghost predicate DistinctKeys<K>(t: seq<(K, real)>) {
    forall i, j :: 0 <= i < j < |t| ==> t[i].0 != t[j].0
  }

  ghost predicate Ascending<K>(t: seq<(K, real)>, less: (K, K) -> bool) {
    forall i, j :: 0 <= i < j < |t| ==> less(t[i].0, t[j].0)
  }

  ghost predicate NonIncreasing<K>(t: seq<(K, real)>) {
    forall i, j :: 0 <= i < j < |t| ==> t[i].1 >= t[j].1
  }

  /** Files `v` under `k` in an ascending association list. */
  function AddTo<K(==)>(t: seq<(K, real)>, k: K, v: real, less: (K, K) -> bool): seq<(K, real)> {
    if t == [] then [(k, v)]
    else if t[0].0 == k then [(k, t[0].1 + v)] + t[1..]
    else if less(k, t[0].0) then [(k, v)] + t
    else [t[0]] + AddTo(t[1..], k, v, less)
  }

  /** The grouped sums, one entry per key, keys ascending in `less`. */
  function GroupBySum<K(==)>(ps: seq<(K, real)>, less: (K, K) -> bool): seq<(K, real)> {
    if ps == [] then [] else AddTo(GroupBySum(ps[1..], less), ps[0].0, ps[0].1, less)
  }

  lemma {:induction false} AddToKeys<K>(t: seq<(K, real)>, k: K, v: real, less: (K, K) -> bool)
    ensures Keys(AddTo(t, k, v, less)) == Keys(t) + {k}
  {
    var r := AddTo(t, k, v, less);
    if t == [] {
    } else if t[0].0 == k {
      assert r[1..] == t[1..];
    } else if less(k, t[0].0) {
      assert r[1..] == t;
    } else {
      AddToKeys(t[1..], k, v, less);
      assert r[1..] == AddTo(t[1..], k, v, less);
    }
  }

  lemma {:induction false} AddToSums<K>(t: seq<(K, real)>, k: K, v: real, less: (K, K) -> bool, k': K)
    ensures SumOf(AddTo(t, k, v, less), k') == SumOf(t, k') + (if k' == k then v else 0.0)
  {
    var r := AddTo(t, k, v, less);
    if t == [] {
    } else if t[0].0 == k {
      assert r[1..] == t[1..];
    } else if less(k, t[0].0) {
      assert r[1..] == t;
    } else {
      AddToSums(t[1..], k, v, less, k');
      assert r[1..] == AddTo(t[1..], k, v, less);
    }
  }

  lemma {:induction false} AddToTotal<K>(t: seq<(K, real)>, k: K, v: real, less: (K, K) -> bool)
    ensures Total(AddTo(t, k, v, less)) == Total(t) + v
  {
    var r := AddTo(t, k, v, less);
    if t == [] {
    } else if t[0].0 == k {
      assert r[1..] == t[1..];
    } else if less(k, t[0].0) {
      assert r[1..] == t;
    } else {
      AddToTotal(t[1..], k, v, less);
      assert r[1..] == AddTo(t[1..], k, v, less);
    }
  }

  /** The head of an ascending list is below every later key. */
  lemma HeadBelowRest<K>(t: seq<(K, real)>, less: (K, K) -> bool, x: K)
    requires t != [] && Ascending(t, less) && x in Keys(t[1..])
    ensures less(t[0].0, x)
  {
    var i := EntryOfKey(t[1..], x);
    assert t[1..][i] == t[i + 1];
  }

  lemma {:induction false} AddToAscending<K(!new)>(t: seq<(K, real)>, k: K, v: real, less: (K, K) -> bool)
    requires StrictTotalOrder(less) && Ascending(t, less)
    ensures Ascending(AddTo(t, k, v, less), less)
  {
    var r := AddTo(t, k, v, less);
    if t == [] {
    } else if t[0].0 == k {
      assert forall j :: 1 <= j < |r| ==> r[j] == t[j];
    } else if less(k, t[0].0) {
      assert forall j :: 1 <= j < |r| ==> r[j] == t[j - 1];
      assert forall j :: 1 <= j < |t| ==> less(t[0].0, t[j].0);
    } else {
      var r' := AddTo(t[1..], k, v, less);
      AddToAscending(t[1..], k, v, less);
      AddToKeys(t[1..], k, v, less);
      assert r == [t[0]] + r';
      assert less(t[0].0, k);
      forall j | 0 <= j < |r'| ensures less(t[0].0, r'[j].0) {
        KeyOfEntry(r', j);
        if r'[j].0 != k {
          HeadBelowRest(t, less, r'[j].0);
        }
      }
      forall i, j | 0 <= i < j < |r| ensures less(r[i].0, r[j].0) {
        assert r[j] == r'[j - 1];
        if i > 0 {
          assert r[i] == r'[i - 1];
        }
      }
    }
  }

  /** Grouping is a partition: every key keeps its sum, and the grand total is unchanged. */
  lemma {:induction false} GroupBySumFacts<K(!new)>(ps: seq<(K, real)>, less: (K, K) -> bool)
    requires StrictTotalOrder(less)
    ensures var g := GroupBySum(ps, less);
      && Ascending(g, less)
      && Keys(g) == Keys(ps)
      && (forall k :: SumOf(g, k) == SumOf(ps, k))
      && Total(g) == Total(ps)
  {
    if ps != [] {
      var g' := GroupBySum(ps[1..], less);
      GroupBySumFacts(ps[1..], less);
      AddToAscending(g', ps[0].0, ps[0].1, less);
      AddToKeys(g', ps[0].0, ps[0].1, less);
      AddToTotal(g', ps[0].0, ps[0].1, less);
      forall k ensures SumOf(GroupBySum(ps, less), k) == SumOf(ps, k) {
        AddToSums(g', ps[0].0, ps[0].1, less, k);
      }
    }
  }

  lemma AscendingIsDistinct<K(!new)>(t: seq<(K, real)>, less: (K, K) -> bool)
    requires StrictTotalOrder(less) && Ascending(t, less)
    ensures DistinctKeys(t)
  {
    forall i, j | 0 <= i < j < |t| ensures t[i].0 != t[j].0 {
      assert less(t[i].0, t[j].0);
    }
  }

  lemma {:induction false} AbsentKeySumsToZero<K>(t: seq<(K, real)>, k: K)
    requires k !in Keys(t)
    ensures SumOf(t, k) == 0.0
  {
    if t != [] {
      AbsentKeySumsToZero(t[1..], k);
    }
  }

  /** The first key of a list with distinct keys does not recur later. */
  lemma HeadKeyNotInRest<K>(t: seq<(K, real)>)
    requires t != [] && DistinctKeys(t)
    ensures t[0].0 !in Keys(t[1..])
  {
    if t[0].0 in Keys(t[1..]) {
      var i := EntryOfKey(t[1..], t[0].0);
    }
  }

  /** In a list with distinct keys, each entry's value is its key's sum. */
  lemma {:induction false} DistinctEntryIsSum<K>(t: seq<(K, real)>, i: nat)
    requires DistinctKeys(t) && i < |t|
    ensures SumOf(t, t[i].0) == t[i].1
  {
    if i == 0 {
      HeadKeyNotInRest(t);
      AbsentKeySumsToZero(t[1..], t[0].0);
    } else {
      assert t[i] == t[1..][i - 1];
      DistinctEntryIsSum(t[1..], i - 1);
    }
  }

  /** A list with distinct keys has exactly one entry per key. */
  lemma {:induction false} DistinctKeysCount<K>(t: seq<(K, real)>)
    requires DistinctKeys(t)
    ensures |Keys(t)| == |t|
  {
    if t != [] {
      HeadKeyNotInRest(t);
      DistinctKeysCount(t[1..]);
    }
  }

  /** Places `e` before the first entry whose value does not exceed its own. */
  function InsertByValue<K(==)>(e: (K, real), t: seq<(K, real)>): (r: seq<(K, real)>)
    ensures multiset(r) == multiset(t) + multiset{e}
  {
    if t == [] || e.1 >= t[0].1 then
      [e] + t
    else
      assert t == [t[0]] + t[1..];
      [t[0]] + InsertByValue(e, t[1..])
  }

  lemma {:induction false} InsertByValueOrdered<K>(e: (K, real), t: seq<(K, real)>)
    requires NonIncreasing(t)
    ensures NonIncreasing(InsertByValue(e, t))
  {
    if t != [] && e.1 < t[0].1 {
      var r' := InsertByValue(e, t[1..]);
      InsertByValueOrdered(e, t[1..]);
      forall j | 0 <= j < |r'| ensures t[0].1 >= r'[j].1 {
        assert r'[j] in multiset(r');
        if r'[j] != e {
          assert r'[j] in t[1..];
        }
      }
      assert InsertByValue(e, t) == [t[0]] + r';
    }
  }

  /** `sort_values(ascending=False)`: a permutation with values non-increasing. */
  function SortDescending<K(==)>(t: seq<(K, real)>): (r: seq<(K, real)>)
    ensures multiset(r) == multiset(t)
    ensures NonIncreasing(r)
  {
    if t == [] then []
    else
      assert t == [t[0]] + t[1..];
      InsertByValueOrdered(t[0], SortDescending(t[1..]));
      InsertByValue(t[0], SortDescending(t[1..]))
  }

  /** Reordering the entries keeps the set of keys. */
  lemma PermutationKeys<K>(a: seq<(K, real)>, b: seq<(K, real)>)
    requires multiset(a) == multiset(b)
    ensures Keys(a) == Keys(b)
  {
    forall x | x in Keys(a) ensures x in Keys(b) {
      var i := EntryOfKey(a, x);
      assert a[i] in multiset(b);
      var j :| 0 <= j < |b| && b[j] == a[i];
      KeyOfEntry(b, j);
    }
    forall x | x in Keys(b) ensures x in Keys(a) {
      var j := EntryOfKey(b, x);
      assert b[j] in multiset(a);
      var i :| 0 <= i < |a| && a[i] == b[j];
      KeyOfEntry(a, i);
    }
  }

  lemma {:induction false} KeysAtMostEntries<K>(t: seq<(K, real)>)
    ensures |Keys(t)| <= |t|
  {
    if t != [] {
      KeysAtMostEntries(t[1..]);
    }
  }

  /** A key that occurs twice leaves fewer keys than entries. */
  lemma {:induction false} RepeatedKeyShrinks<K>(t: seq<(K, real)>, i: nat, j: nat)
    requires i < j < |t| && t[i].0 == t[j].0
    ensures |Keys(t)| < |t|
  {
    if i == 0 {
      assert t[j] == t[1..][j - 1];
      KeyOfEntry(t[1..], j - 1);
      assert Keys(t) == Keys(t[1..]);
      KeysAtMostEntries(t[1..]);
    } else {
      assert t[i] == t[1..][i - 1] && t[j] == t[1..][j - 1];
      RepeatedKeyShrinks(t[1..], i - 1, j - 1);
    }
  }

  /** Reordering a list with distinct keys leaves its keys distinct. */
  lemma PermutationDistinct<K>(a: seq<(K, real)>, b: seq<(K, real)>)
    requires multiset(a) == multiset(b) && DistinctKeys(a)
    ensures DistinctKeys(b)
  {
    PermutationKeys(a, b);
    DistinctKeysCount(a);
    assert |a| == |multiset(a)| == |multiset(b)| == |b|;
    forall i, j | 0 <= i < j < |b| ensures b[i].0 != b[j].0 {
      if b[i].0 == b[j].0 {
        RepeatedKeyShrinks(b, i, j);
      }
    }
  }

  lemma {:induction false} InsertByValueTotal<K>(e: (K, real), t: seq<(K, real)>)
    ensures Total(InsertByValue(e, t)) == Total(t) + e.1
  {
    if t == [] || e.1 >= t[0].1 {
      assert ([e] + t)[1..] == t;
    } else {
      InsertByValueTotal(e, t[1..]);
      assert ([t[0]] + InsertByValue(e, t[1..]))[1..] == InsertByValue(e, t[1..]);
    }
  }

  /** Ranking by value does not change the grand total. */
  lemma {:induction false} SortDescendingTotal<K>(t: seq<(K, real)>)
    ensures Total(SortDescending(t)) == Total(t)
  {
    if t != [] {
      SortDescendingTotal(t[1..]);
      InsertByValueTotal(t[0], SortDescending(t[1..]));
    }
  }

  /**
   * In a ranking, a key missing from the first `n` entries sits at or
   * after position `n`, below every one of them.
   */
  lemma UnlistedRanksBelow<K>(t: seq<(K, real)>, n: nat, k: K) returns (j: nat)
    requires n <= |t| && NonIncreasing(t) && k in Keys(t) && k !in Keys(t[..n])
    ensures n <= j < |t| && t[j].0 == k
    ensures forall i :: 0 <= i < n ==> t[i].1 >= t[j].1
  {
    j := EntryOfKey(t, k);
    if j < n {
      assert t[..n][j] == t[j];
      KeyOfEntry(t[..n], j);
    }
  }
}
