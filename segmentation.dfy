/**
 * The customer feature table of `customer_segmentation` and what is done
 * with the cluster labels: attaching them to the table and tallying them.
 * Standardising the features and running k-means are not modelled; the
 * labels are an input.
 */
module Segmentation {
  import opened Ordering
  import opened GroupBy
  import opened Sales
  import opened Reports

  /** One row of the feature table, indexed by customer. */
  datatype Features = Features(
    customerId: string,
    totalRevenue: real,
    avgBasket: real,
    orders: nat,
    avgQty: real)

  function CustomerOf(r: CleanSale): string { r.sale.customerId }

  /** Number of rows of customer `c`. */
  function RowCount(rows: seq<CleanSale>, c: string): nat {
    if rows == [] then 0
    else (if rows[0].sale.customerId == c then 1 else 0) + RowCount(rows[1..], c)
  }

  /** Sum of the quantities on customer `c`'s rows. */
  function QuantitySum(rows: seq<CleanSale>, c: string): int {
    if rows == [] then 0
    else (if rows[0].sale.customerId == c then rows[0].sale.quantity else 0) + QuantitySum(rows[1..], c)
  }

  /** The distinct order ids on customer `c`'s rows. */
  function OrderIds(rows: seq<CleanSale>, c: string): set<string> {
    if rows == [] then {}
    else (if rows[0].sale.customerId == c then {rows[0].sale.orderId} else {}) + OrderIds(rows[1..], c)
  }

  /** A pandas mean; an empty group's NaN is replaced by `fillna(0.0)`. */
  function Mean(total: real, count: nat): real {
    if count == 0 then 0.0 else total / count as real
  }

  /** The `agg` row of customer `c`, whose revenue sum is `total`. */
  function FeaturesOf(rows: seq<CleanSale>, c: string, total: real): Features {
    var n := RowCount(rows, c);
    Features(c, total, Mean(total, n), |OrderIds(rows, c)|, Mean(QuantitySum(rows, c) as real, n))
  }

  lemma {:induction false} CustomerHasRows(rows: seq<CleanSale>, c: string)
    requires c in KeyValues(rows, CustomerOf)
    ensures 1 <= |OrderIds(rows, c)| <= RowCount(rows, c)
  {
    assert rows == [rows[0]] + rows[1..];
    if rows[0].sale.customerId == c {
      OrderIdsAtMostRows(rows[1..], c);
    } else {
      assert c in KeyValues(rows[1..], CustomerOf);
      CustomerHasRows(rows[1..], c);
    }
  }

  /** A customer cannot have more distinct orders than rows. */
  lemma {:induction false} OrderIdsAtMostRows(rows: seq<CleanSale>, c: string)
    ensures |OrderIds(rows, c)| <= RowCount(rows, c)
  {
    if rows != [] {
      OrderIdsAtMostRows(rows[1..], c);
    }
  }

  /** What the source promises of a feature row, stated from the table itself. */
  ghost predicate DescribesCustomer(rows: seq<CleanSale>, f: Features) {
    var n := RowCount(rows, f.customerId);
    && f.customerId in KeyValues(rows, CustomerOf)
    && f.totalRevenue == GroupRevenue(rows, CustomerOf, f.customerId)
    && f.orders == |OrderIds(rows, f.customerId)|
    && 1 <= f.orders <= n
    && f.avgBasket == f.totalRevenue / n as real
    && f.avgQty == QuantitySum(rows, f.customerId) as real / n as real
  }

  lemma FeaturesDescribe(rows: seq<CleanSale>, c: string, total: real)
    requires c in KeyValues(rows, CustomerOf) && total == GroupRevenue(rows, CustomerOf, c)
    ensures DescribesCustomer(rows, FeaturesOf(rows, c, total))
  {
    CustomerHasRows(rows, c);
  }

  /** One feature row per group of the grouped revenue column. */
  function Table(rows: seq<CleanSale>, g: seq<(string, real)>): seq<Features> {
    seq(|g|, i requires 0 <= i < |g| => FeaturesOf(rows, g[i].0, g[i].1))
  }

  lemma TableDescribes(rows: seq<CleanSale>, g: seq<(string, real)>)
    requires Keys(g) == KeyValues(rows, CustomerOf)
    requires forall i :: 0 <= i < |g| ==> g[i].1 == GroupRevenue(rows, CustomerOf, g[i].0)
    ensures forall i :: 0 <= i < |g| ==> DescribesCustomer(rows, Table(rows, g)[i])
  {
    forall i | 0 <= i < |g| ensures DescribesCustomer(rows, Table(rows, g)[i]) {
      KeyOfEntry(g, i);
      FeaturesDescribe(rows, g[i].0, g[i].1);
    }
  }

  lemma TableFacts(rows: seq<CleanSale>)
    ensures var f := Table(rows, GroupBySum(Column(rows, CustomerOf), StringLess));
      && |f| == |KeyValues(rows, CustomerOf)|
      && (forall i, j :: 0 <= i < j < |f| ==> StringLess(f[i].customerId, f[j].customerId))
      && (forall i :: 0 <= i < |f| ==> DescribesCustomer(rows, f[i]))
  {
    var g := GroupBySum(Column(rows, CustomerOf), StringLess);
    StringLessIsStrictTotalOrder();
    GroupedFacts(rows, CustomerOf, StringLess);
    TableDescribes(rows, g);
  }

  /**
   * The per-customer `agg` (total_revenue, avg_basket, orders, avg_qty):
   * one row per distinct customer, in ascending customer order.
   */
  function CustomerFeatures(rows: seq<CleanSale>): (f: seq<Features>)
    ensures |f| == |KeyValues(rows, CustomerOf)|
    ensures forall i, j :: 0 <= i < j < |f| ==> StringLess(f[i].customerId, f[j].customerId)
    ensures forall i :: 0 <= i < |f| ==> DescribesCustomer(rows, f[i])
  {
    TableFacts(rows);
    Table(rows, GroupBySum(Column(rows, CustomerOf), StringLess))
  }

  /** Every customer of the table has a row in the feature table. */
  lemma EveryCustomerHasFeatures(rows: seq<CleanSale>, c: string)
    requires c in KeyValues(rows, CustomerOf)
    ensures exists i :: 0 <= i < |CustomerFeatures(rows)| && CustomerFeatures(rows)[i].customerId == c
  {
    StringLessIsStrictTotalOrder();
    GroupedFacts(rows, CustomerOf, StringLess);
    var g := GroupBySum(Column(rows, CustomerOf), StringLess);
    var i := EntryOfKey(g, c);
    assert CustomerFeatures(rows)[i].customerId == c;
  }

  /** The number of clusters, `KMeans(n_clusters=4)`. */
  const Clusters: int := 4

  /** A k-means label. */
  type Label = l: int | 0 <= l < Clusters

  /** A feature row with its cluster, as the `cluster` column assignment attaches it. */
  datatype Segment = Segment(features: Features, cluster: Label)

  function AssignClusters(f: seq<Features>, labels: seq<Label>): (s: seq<Segment>)
    requires |labels| == |f|
    ensures |s| == |f|
    ensures forall i :: 0 <= i < |s| ==> s[i].features == f[i] && s[i].cluster == labels[i]
  {
    seq(|f|, i requires 0 <= i < |f| => Segment(f[i], labels[i]))
  }

  /**
   * In the segmented table every customer of the cleaned table appears
   * exactly once, with its own feature row and a label among the four
   * clusters.
   */
  lemma SegmentOfCustomer(rows: seq<CleanSale>, labels: seq<Label>, c: string) returns (i: nat)
    requires |labels| == |CustomerFeatures(rows)| && c in KeyValues(rows, CustomerOf)
    ensures var s := AssignClusters(CustomerFeatures(rows), labels);
      && i < |s| && s[i].features.customerId == c
      && DescribesCustomer(rows, s[i].features)
      && 0 <= s[i].cluster < Clusters
      && forall j :: 0 <= j < |s| && s[j].features.customerId == c ==> j == i
  {
    var f := CustomerFeatures(rows);
    EveryCustomerHasFeatures(rows, c);
    i :| 0 <= i < |f| && f[i].customerId == c;
    StringLessIsStrictTotalOrder();
  }

  /** How many customers carry label `l`. */
  function Count(labels: seq<Label>, l: Label): nat {
    if labels == [] then 0 else (if labels[0] == l then 1 else 0) + Count(labels[1..], l)
  }

  function SizeEntry(labels: seq<Label>, l: Label): seq<(Label, nat)> {
    if Count(labels, l) > 0 then [(l, Count(labels, l))] else []
  }

  function SumSizes(sizes: seq<(Label, nat)>): nat {
    if sizes == [] then 0 else sizes[0].1 + SumSizes(sizes[1..])
  }

  lemma {:induction false} SumSizesAppend(a: seq<(Label, nat)>, b: seq<(Label, nat)>)
    ensures SumSizes(a + b) == SumSizes(a) + SumSizes(b)
  {
    if a == [] {
      assert a + b == b;
    } else {
      assert (a + b)[1..] == a[1..] + b;
      SumSizesAppend(a[1..], b);
    }
  }

  /** Every label is one of the four clusters, so the four counts cover all customers. */
  lemma {:induction false} CountsCoverLabels(labels: seq<Label>)
    ensures Count(labels, 0) + Count(labels, 1) + Count(labels, 2) + Count(labels, 3) == |labels|
  {
    if labels != [] {
      CountsCoverLabels(labels[1..]);
    }
  }

  lemma {:induction false} CountPositive(labels: seq<Label>, k: nat)
    requires k < |labels|
    ensures Count(labels, labels[k]) > 0
  {
    if k > 0 {
      assert labels[k] == labels[1..][k - 1];
      CountPositive(labels[1..], k - 1);
    }
  }

  /** The count of each of the four labels, dropping labels nobody carries. */
  function Tally(labels: seq<Label>): seq<(Label, nat)> {
    SizeEntry(labels, 0) + SizeEntry(labels, 1) + SizeEntry(labels, 2) + SizeEntry(labels, 3)
  }

  lemma TallySum(labels: seq<Label>)
    ensures SumSizes(Tally(labels)) == |labels|
  {
    CountsCoverLabels(labels);
    SumSizesAppend(SizeEntry(labels, 0), SizeEntry(labels, 1));
    SumSizesAppend(SizeEntry(labels, 0) + SizeEntry(labels, 1), SizeEntry(labels, 2));
    SumSizesAppend(SizeEntry(labels, 0) + SizeEntry(labels, 1) + SizeEntry(labels, 2), SizeEntry(labels, 3));
  }

  lemma TallyListsLabel(labels: seq<Label>, k: nat)
    requires k < |labels|
    ensures exists i :: 0 <= i < |Tally(labels)| && Tally(labels)[i].0 == labels[k]
  {
    CountPositive(labels, k);
    assert (labels[k], Count(labels, labels[k])) in Tally(labels);
  }

  /**
   * `value_counts` of the cluster column, sorted by label: the labels
   * that occur, in ascending order, each with the number of customers carrying it; the
   * counts add up to the number of customers.
   */
  function ClusterSizes(labels: seq<Label>): (sizes: seq<(Label, nat)>)
    ensures forall i, j :: 0 <= i < j < |sizes| ==> sizes[i].0 < sizes[j].0
    ensures forall i :: 0 <= i < |sizes| ==> sizes[i].1 == Count(labels, sizes[i].0) >= 1
    ensures forall k :: 0 <= k < |labels| ==> exists i :: 0 <= i < |sizes| && sizes[i].0 == labels[k]
    ensures SumSizes(sizes) == |labels|
  {
    TallySum(labels);
    forall k | 0 <= k < |labels| ensures exists i :: 0 <= i < |Tally(labels)| && Tally(labels)[i].0 == labels[k] {
      TallyListsLabel(labels, k);
    }
    Tally(labels)
  }

  /** The feature row of the example customer "C1": two orders of 100 and 300, quantities 2 and 4. */
  lemma TwoOrderCustomer(a: CleanSale, b: CleanSale)
    requires a.sale.customerId == "C1" && b.sale.customerId == "C1"
    requires a.sale.orderId != b.sale.orderId
    requires a.sale.revenue == 100.0 && b.sale.revenue == 300.0
    requires a.sale.quantity == 2 && b.sale.quantity == 4
    ensures CustomerFeatures([a, b]) == [Features("C1", 400.0, 200.0, 2, 3.0)]
  {
    var rows := [a, b];
    assert rows[1..] == [b] && [b][1..] == [];
    assert OrderIds([b], "C1") == {b.sale.orderId};
    assert OrderIds(rows, "C1") == {a.sale.orderId, b.sale.orderId};
    assert RowCount([b], "C1") == 1 && QuantitySum([b], "C1") == 4;
    assert RowCount(rows, "C1") == 2 && QuantitySum(rows, "C1") == 6;
    var ps := Column(rows, CustomerOf);
    assert ps[0] == (CustomerOf(a), 100.0) && ps[1] == (CustomerOf(b), 300.0);
    assert ps == [("C1", 100.0), ("C1", 300.0)];
    assert ps[1..] == [("C1", 300.0)] && ps[1..][1..] == [];
    assert GroupBySum(ps[1..], StringLess) == [("C1", 300.0)];
    assert GroupBySum(ps, StringLess) == [("C1", 400.0)];
  }
}
