/**
 * The three revenue aggregations of `eda`: revenue per month bucket in
 * chronological order, the ten best-selling products, and revenue per
 * region, best first. The charts drawn from them are not modelled.
 */
module Reports {
  import opened Ordering
  import opened Calendar
  import opened GroupBy
  import opened Sales

  /** `head(10)` of the product ranking. */
  const TopN: nat := 10

  function MonthOf(r: CleanSale): Timestamp { r.month }
  function ProductOf(r: CleanSale): string { r.sale.product }
  function RegionOf(r: CleanSale): string { r.sale.region }

  /** The (key, revenue) pairs a revenue group-by on `key` sums. */
  function Column<K>(rows: seq<CleanSale>, key: CleanSale -> K): (ps: seq<(K, real)>)
    ensures |ps| == |rows|
  {
    seq(|rows|, i requires 0 <= i < |rows| => (key(rows[i]), rows[i].sale.revenue))
  }

  /** Revenue of the whole table. */
  function TotalRevenue(rows: seq<CleanSale>): real {
    if rows == [] then 0.0 else rows[0].sale.revenue + TotalRevenue(rows[1..])
  }

  /** Revenue of the rows whose key is `k`. */
  function GroupRevenue<K(==)>(rows: seq<CleanSale>, key: CleanSale -> K, k: K): real {
    if rows == [] then 0.0
    else (if key(rows[0]) == k then rows[0].sale.revenue else 0.0) + GroupRevenue(rows[1..], key, k)
  }

  /** The distinct key values of the table. */
  function KeyValues<K>(rows: seq<CleanSale>, key: CleanSale -> K): set<K> {
    set r | r in rows :: key(r)
  }

  lemma {:induction false} ColumnFacts<K>(rows: seq<CleanSale>, key: CleanSale -> K)
    ensures Total(Column(rows, key)) == TotalRevenue(rows)
    ensures Keys(Column(rows, key)) == KeyValues(rows, key)
    ensures forall k :: SumOf(Column(rows, key), k) == GroupRevenue(rows, key, k)
  {
    if rows != [] {
      assert Column(rows, key)[1..] == Column(rows[1..], key);
      ColumnFacts(rows[1..], key);
      assert rows == [rows[0]] + rows[1..];
      assert KeyValues(rows, key) == {key(rows[0])} + KeyValues(rows[1..], key);
    }
  }

  /** Facts about a grouped table that every aggregation below relies on. */
  lemma GroupedFacts<K(!new)>(rows: seq<CleanSale>, key: CleanSale -> K, less: (K, K) -> bool)
    requires StrictTotalOrder(less)
    ensures var g := GroupBySum(Column(rows, key), less);
      && Ascending(g, less)
      && DistinctKeys(g)
      && Keys(g) == KeyValues(rows, key)
      && |g| == |KeyValues(rows, key)|
      && (forall i :: 0 <= i < |g| ==> g[i].1 == GroupRevenue(rows, key, g[i].0))
      && Total(g) == TotalRevenue(rows)
  {
    var g := GroupBySum(Column(rows, key), less);
    GroupBySumFacts(Column(rows, key), less);
    ColumnFacts(rows, key);
    AscendingIsDistinct(g, less);
    DistinctKeysCount(g);
    forall i | 0 <= i < |g| ensures g[i].1 == GroupRevenue(rows, key, g[i].0) {
      DistinctEntryIsSum(g, i);
    }
  }

  /**
   * Revenue per month bucket: one entry per month bucket,
   * chronological, each the revenue of its month; together they add up
   * to the revenue of the whole table.
   */
  function MonthlyRevenue(rows: seq<CleanSale>): (s: seq<(Timestamp, real)>)
    ensures Ascending(s, Chronological)
    ensures Keys(s) == KeyValues(rows, MonthOf) && |s| == |KeyValues(rows, MonthOf)|
    ensures forall i :: 0 <= i < |s| ==> s[i].1 == GroupRevenue(rows, MonthOf, s[i].0)
    ensures Total(s) == TotalRevenue(rows)
  {
    ChronologicalIsStrictTotalOrder();
    GroupedFacts(rows, MonthOf, Chronological);
    GroupBySum(Column(rows, MonthOf), Chronological)
  }

  /** Grouped sums ranked by value, best first: `sort_values(ascending=False)`. */
  function Ranking<K(==)>(rows: seq<CleanSale>, key: CleanSale -> K, less: (K, K) -> bool): seq<(K, real)> {
    SortDescending(GroupBySum(Column(rows, key), less))
  }

  /** The first `n` entries: `head(n)`. */
  function Head<K>(t: seq<(K, real)>, n: nat): seq<(K, real)> {
    if |t| <= n then t else t[..n]
  }

  lemma RankingFacts<K(!new)>(rows: seq<CleanSale>, key: CleanSale -> K, less: (K, K) -> bool)
    requires StrictTotalOrder(less)
    ensures var r := Ranking(rows, key, less);
      && DistinctKeys(r) && NonIncreasing(r)
      && Keys(r) == KeyValues(rows, key) && |r| == |KeyValues(rows, key)|
      && (forall i :: 0 <= i < |r| ==> r[i].1 == GroupRevenue(rows, key, r[i].0))
      && Total(r) == TotalRevenue(rows)
  {
    var g := GroupBySum(Column(rows, key), less);
    GroupedFacts(rows, key, less);
    var r := SortDescending(g);
    PermutationDistinct(g, r);
    PermutationKeys(g, r);
    SortDescendingTotal(g);
    assert |r| == |multiset(r)| == |multiset(g)| == |g|;
    forall i | 0 <= i < |r| ensures r[i].1 == GroupRevenue(rows, key, r[i].0) {
      assert r[i] in multiset(g);
    }
  }

  lemma TopFacts<K(!new)>(rows: seq<CleanSale>, key: CleanSale -> K, less: (K, K) -> bool, n: nat)
    requires StrictTotalOrder(less)
    ensures var s := Head(Ranking(rows, key, less), n);
      && |s| == (if |KeyValues(rows, key)| < n then |KeyValues(rows, key)| else n)
      && DistinctKeys(s) && NonIncreasing(s)
      && (forall i :: 0 <= i < |s| ==> s[i].0 in KeyValues(rows, key) && s[i].1 == GroupRevenue(rows, key, s[i].0))
      && (forall p :: p in KeyValues(rows, key) && p !in Keys(s) ==>
            forall i :: 0 <= i < |s| ==> s[i].1 >= GroupRevenue(rows, key, p))
  {
    var r := Ranking(rows, key, less);
    RankingFacts(rows, key, less);
    var s := Head(r, n);
    var m := |s|;
    assert s == r[..m];
    forall p | p in KeyValues(rows, key) && p !in Keys(s)
      ensures forall i :: 0 <= i < |s| ==> s[i].1 >= GroupRevenue(rows, key, p)
    {
      var j := UnlistedRanksBelow(r, m, p);
    }
    forall i | 0 <= i < m ensures s[i].0 in KeyValues(rows, key) {
      KeyOfEntry(r, i);
    }
  }

  /**
   * Revenue per product, ranked best first and cut to the first ten:
   * min(10, #products) distinct products with their revenue, best first;
   * no product left out earns more than any product listed.
   */
  function TopProducts(rows: seq<CleanSale>): (s: seq<(string, real)>)
    ensures |s| == if |KeyValues(rows, ProductOf)| < TopN then |KeyValues(rows, ProductOf)| else TopN
    ensures DistinctKeys(s) && NonIncreasing(s)
    ensures forall i :: 0 <= i < |s| ==>
      s[i].0 in KeyValues(rows, ProductOf) && s[i].1 == GroupRevenue(rows, ProductOf, s[i].0)
    ensures forall p :: p in KeyValues(rows, ProductOf) && p !in Keys(s) ==>
      forall i :: 0 <= i < |s| ==> s[i].1 >= GroupRevenue(rows, ProductOf, p)
  {
    StringLessIsStrictTotalOrder();
    TopFacts(rows, ProductOf, StringLess, TopN);
    Head(Ranking(rows, ProductOf, StringLess), TopN)
  }

  /**
   * Revenue per region, ranked best first:
   * one entry per region, best first, adding up to the total revenue.
   */
  function RegionRevenue(rows: seq<CleanSale>): (s: seq<(string, real)>)
    ensures DistinctKeys(s) && NonIncreasing(s)
    ensures Keys(s) == KeyValues(rows, RegionOf) && |s| == |KeyValues(rows, RegionOf)|
    ensures forall i :: 0 <= i < |s| ==> s[i].1 == GroupRevenue(rows, RegionOf, s[i].0)
    ensures Total(s) == TotalRevenue(rows)
  {
    StringLessIsStrictTotalOrder();
    RankingFacts(rows, RegionOf, StringLess);
    Ranking(rows, RegionOf, StringLess)
  }

  /** A table left empty by cleaning yields three empty series, not a failure. */
  lemma EmptyTableGivesEmptySeries()
    ensures MonthlyRevenue([]) == [] && TopProducts([]) == [] && RegionRevenue([]) == []
  {
  }
}
