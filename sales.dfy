/**
 * The sales table and the cleaning pipeline of `load_and_clean`:
 * drop exact duplicates, coerce the date column, drop rows without a
 * date, fill missing region/category with "Unknown", derive year and
 * month bucket.
 */
module Sales {
  import opened Wrappers
  import opened Calendar

  /** The sentinel written into a missing region or category. */
  const Unknown: string := "Unknown"

  /**
   * One sales record, in the table's column order. `D` is the type of the
   * date column and `C` that of the region and category columns, which
   * change as the pipeline repairs them.
   */
  datatype Sale<D, C> = Sale(
    orderId: string,
    customerId: string,
    product: string,
    category: C,
    region: C,
    date: D,
    quantity: int,
    revenue: real)

  /** As read from the file: the date is text, any of date/category/region may be missing. */
  type RawSale = Sale<Option<string>, Option<string>>
  /** After `to_datetime(errors="coerce")`: an unparseable date is NaT. */
  type ParsedSale = Sale<Option<Timestamp>, Option<string>>
  /** After `dropna(subset=["date"])`. */
  type DatedSale = Sale<Timestamp, Option<string>>
  /** After `fillna("Unknown")` on region and category. */
  type FilledSale = Sale<Timestamp, string>

  /** A cleaned record with its derived calendar year and month bucket. */
  datatype CleanSale = CleanSale(sale: FilledSale, year: int, month: Timestamp)

  /** The date-text parser of `to_datetime`; `None` is a parse failure. */
  type DateParser = string -> Option<Timestamp>

  function WithDate<D, E, C>(s: Sale<D, C>, d: E): Sale<E, C> {
    Sale(s.orderId, s.customerId, s.product, s.category, s.region, d, s.quantity, s.revenue)
  }

  function WithLabels<D, C, F>(s: Sale<D, C>, category: F, region: F): Sale<D, F> {
    Sale(s.orderId, s.customerId, s.product, category, region, s.date, s.quantity, s.revenue)
  }

  ghost predicate NoDuplicates<T>(s: seq<T>) {
    forall i, j :: 0 <= i < j < |s| ==> s[i] != s[j]
  }

  /** Position of the first occurrence of `x`. */
  function FirstIndex<T(==)>(s: seq<T>, x: T): (k: nat)
    requires x in s
    ensures k < |s| && s[k] == x && x !in s[..k]
  {
    if s[0] == x then 0
    else
      var k' := FirstIndex(s[1..], x);
      assert s[..k' + 1] == [s[0]] + s[1..][..k'];
      k' + 1
  }

  lemma {:induction false} FirstIndexOfPrefix<T>(s: seq<T>, m: nat, x: T)
    requires m <= |s| && x in s[..m]
    ensures FirstIndex(s[..m], x) == FirstIndex(s, x)
  {
    if s[0] != x {
      assert s[..m][1..] == s[1..][..m - 1];
      FirstIndexOfPrefix(s[1..], m - 1, x);
    }
  }

  /**
   * `drop_duplicates()`: keeps the first occurrence of every distinct row,
   * in the order of those first occurrences.
   */
  function DropDuplicates<T(==, !new)>(rows: seq<T>): (r: seq<T>)
    ensures NoDuplicates(r)
    ensures forall x :: x in r <==> x in rows
    ensures forall i, j :: 0 <= i < j < |r| ==> FirstIndex(rows, r[i]) < FirstIndex(rows, r[j])
    decreases |rows|
  {
    if rows == [] then []
    else
      var n := |rows| - 1;
      var kept := DropDuplicates(rows[..n]);
      var last := rows[n];
      assert rows == rows[..n] + [last];
      assert forall x :: x in kept ==> FirstIndex(rows, x) == FirstIndex(rows[..n], x) < n by {
        forall x | x in kept ensures FirstIndex(rows, x) == FirstIndex(rows[..n], x) < n {
          FirstIndexOfPrefix(rows, n, x);
        }
      }
      if last in kept then kept
      else
        assert FirstIndex(rows, last) == n;
        kept + [last]
  }

  function ParseCell(parse: DateParser, cell: Option<string>): Option<Timestamp> {
    match cell
    case None => None
    case Some(text) => parse(text)
  }

  /** `to_datetime` with `errors="coerce"` on the date column: a date that does not parse becomes NaT. */
  function CoerceDates(rows: seq<RawSale>, parse: DateParser): seq<ParsedSale> {
    seq(|rows|, i requires 0 <= i < |rows| => WithDate(rows[i], ParseCell(parse, rows[i].date)))
  }

  /** Number of rows whose date is present. */
  function CountDated(rows: seq<ParsedSale>): nat {
    if rows == [] then 0 else (if rows[0].date.Some? then 1 else 0) + CountDated(rows[1..])
  }

  /**
   * `dropna(subset=["date"])`: exactly the rows with a date survive, in
   * their order; the date column no longer admits a missing value.
   */
  function DropMissingDates(rows: seq<ParsedSale>): (r: seq<DatedSale>)
    ensures forall i :: 0 <= i < |r| ==> WithDate(r[i], Some(r[i].date)) in rows
    ensures forall k :: 0 <= k < |rows| && rows[k].date.Some? ==> WithDate(rows[k], rows[k].date.value) in r
    ensures |r| == CountDated(rows)
  {
    if rows == [] then []
    else
      var rest := DropMissingDates(rows[1..]);
      assert forall k :: 1 <= k < |rows| ==> rows[k] == rows[1..][k - 1];
      match rows[0].date
      case None => rest
      case Some(d) =>
        var r := [WithDate(rows[0], d)] + rest;
        assert forall i :: 1 <= i < |r| ==> r[i] == rest[i - 1];
        r
  }

  /** `dropna` keeps every dated row as many times as it occurs, and no other row. */
  lemma {:induction false} DropMissingDatesCount(rows: seq<ParsedSale>, x: DatedSale)
    ensures multiset(DropMissingDates(rows))[x] == multiset(rows)[WithDate(x, Some(x.date))]
  {
    if rows != [] {
      assert rows == [rows[0]] + rows[1..];
      DropMissingDatesCount(rows[1..], x);
      if rows[0].date.Some? {
        assert x == WithDate(rows[0], rows[0].date.value) <==> WithDate(x, Some(x.date)) == rows[0];
      }
    }
  }

  function FillNa(cell: Option<string>): string {
    cell.GetOr(Unknown)
  }

  /** `fillna` with "Unknown" on the region and the category column. */
  function FillUnknown(rows: seq<DatedSale>): seq<FilledSale> {
    seq(|rows|, i requires 0 <= i < |rows| =>
      WithLabels(rows[i], FillNa(rows[i].category), FillNa(rows[i].region)))
  }

  /** The derived year column (`dt.year`) and the first-of-month bucket column. */
  function DeriveCalendar(rows: seq<FilledSale>): seq<CleanSale> {
    seq(|rows|, i requires 0 <= i < |rows| =>
      CleanSale(rows[i], rows[i].date.year, MonthStart(rows[i].date)))
  }

  /** The label fill and the calendar columns, applied to one dated row. */
  function CleanRow(s: DatedSale): CleanSale {
    CleanSale(WithLabels(s, FillNa(s.category), FillNa(s.region)), s.date.year, MonthStart(s.date))
  }

  lemma LabelAndCalendarCons(s: DatedSale, rows: seq<DatedSale>)
    ensures DeriveCalendar(FillUnknown([s] + rows)) == [CleanRow(s)] + DeriveCalendar(FillUnknown(rows))
  {
    var l := DeriveCalendar(FillUnknown([s] + rows));
    var m := [CleanRow(s)] + DeriveCalendar(FillUnknown(rows));
    assert |l| == |m|;
    forall i | 0 <= i < |l| ensures l[i] == m[i] {
      if i > 0 {
        assert ([s] + rows)[i] == rows[i - 1];
      }
    }
  }

  /**
   * Cleaning one raw row at a time: a row whose date does not parse is
   * dropped, any other is dated, filled in and given its calendar columns.
   */
  ghost function CleanedRows(rows: seq<RawSale>, parse: DateParser): seq<CleanSale> {
    if rows == [] then []
    else
      var rest := CleanedRows(rows[1..], parse);
      match ParseCell(parse, rows[0].date)
      case None => rest
      case Some(d) => [CleanRow(WithDate(rows[0], d))] + rest
  }

  /** The column-wise stages clean the table row by row, in order. */
  lemma {:induction false} StagesCleanEachRow(rows: seq<RawSale>, parse: DateParser)
    ensures DeriveCalendar(FillUnknown(DropMissingDates(CoerceDates(rows, parse)))) == CleanedRows(rows, parse)
  {
    if rows != [] {
      var ps := CoerceDates(rows, parse);
      assert ps[1..] == CoerceDates(rows[1..], parse);
      StagesCleanEachRow(rows[1..], parse);
      match ParseCell(parse, rows[0].date)
      case None =>
      case Some(d) =>
        assert DropMissingDates(ps) == [WithDate(rows[0], d)] + DropMissingDates(ps[1..]);
        LabelAndCalendarCons(WithDate(rows[0], d), DropMissingDates(ps[1..]));
    }
  }

  /**
   * `c` is what cleaning makes of the raw row `r`: r's date parses to c's
   * date; a present region or category is kept and a missing one becomes
   * "Unknown"; the other columns are copied; year and month are derived
   * from the date.
   */
  ghost predicate CleanedFrom(c: CleanSale, r: RawSale, parse: DateParser) {
    && ParseCell(parse, r.date) == Some(c.sale.date)
    && c.sale.orderId == r.orderId
    && c.sale.customerId == r.customerId
    && c.sale.product == r.product
    && c.sale.quantity == r.quantity
    && c.sale.revenue == r.revenue
    && c.sale.category == (if r.category.Some? then r.category.value else Unknown)
    && c.sale.region == (if r.region.Some? then r.region.value else Unknown)
    && c.year == c.sale.date.year
    && c.month == MonthStart(c.sale.date)
  }

  /** The distinct raw rows whose date parses. */
  ghost function DatedRows(rows: seq<RawSale>, parse: DateParser): set<RawSale> {
    set r | r in rows && ParseCell(parse, r.date).Some?
  }

  lemma DatedRowsCons(rows: seq<RawSale>, parse: DateParser)
    requires rows != []
    ensures DatedRows(rows, parse)
      == (if ParseCell(parse, rows[0].date).Some? then {rows[0]} else {}) + DatedRows(rows[1..], parse)
  {
    assert rows == [rows[0]] + rows[1..];
  }

  lemma {:induction false} CoercedCount(rows: seq<RawSale>, parse: DateParser)
    requires NoDuplicates(rows)
    ensures CountDated(CoerceDates(rows, parse)) == |DatedRows(rows, parse)|
  {
    if rows != [] {
      assert CoerceDates(rows, parse)[1..] == CoerceDates(rows[1..], parse);
      CoercedCount(rows[1..], parse);
      assert rows[0] !in DatedRows(rows[1..], parse) by {
        assert forall j :: 0 <= j < |rows[1..]| ==> rows[1..][j] == rows[j + 1];
      }
      DatedRowsCons(rows, parse);
    }
  }

  /** `CleanedFrom` pins the cleaned row down: it is the clean of the parsed raw row. */
  lemma CleanedFromIsCleanRow(c: CleanSale, r: RawSale, parse: DateParser)
    ensures CleanedFrom(c, r, parse) <==>
      ParseCell(parse, r.date).Some? && c == CleanRow(WithDate(r, ParseCell(parse, r.date).value))
  {
  }

  /** The raw rows of `rows` that clean to `c`. */
  ghost function SourcesOf(c: CleanSale, rows: seq<RawSale>, parse: DateParser): set<RawSale> {
    set r | r in rows && CleanedFrom(c, r, parse)
  }

  lemma SourcesOfCons(c: CleanSale, rows: seq<RawSale>, parse: DateParser)
    requires rows != []
    ensures SourcesOf(c, rows, parse)
      == (if CleanedFrom(c, rows[0], parse) then {rows[0]} else {}) + SourcesOf(c, rows[1..], parse)
  {
    assert rows == [rows[0]] + rows[1..];
  }

  lemma CleanedRowsCons(c: CleanSale, rows: seq<RawSale>, parse: DateParser)
    requires rows != []
    ensures multiset(CleanedRows(rows, parse))[c]
      == (if CleanedFrom(c, rows[0], parse) then 1 else 0) + multiset(CleanedRows(rows[1..], parse))[c]
  {
    CleanedFromIsCleanRow(c, rows[0], parse);
  }

  lemma NoDuplicatesTail<T>(s: seq<T>)
    requires s != [] && NoDuplicates(s)
    ensures NoDuplicates(s[1..]) && s[0] !in s[1..]
  {
    assert forall j :: 0 <= j < |s[1..]| ==> s[1..][j] == s[j + 1];
  }

  /**
   * Over distinct raw rows, the row-by-row cleaning holds each cleaned
   * value once for every raw row that cleans to it.
   */
  lemma {:induction false} CleanedRowsCount(rows: seq<RawSale>, parse: DateParser, c: CleanSale)
    requires NoDuplicates(rows)
    ensures multiset(CleanedRows(rows, parse))[c] == |SourcesOf(c, rows, parse)|
  {
    if rows != [] {
      NoDuplicatesTail(rows);
      CleanedRowsCount(rows[1..], parse, c);
      CleanedRowsCons(c, rows, parse);
      SourcesOfCons(c, rows, parse);
      assert rows[0] !in SourcesOf(c, rows[1..], parse);
    }
  }

  /** Deduplication leaves each value as many raw sources as before. */
  lemma DistinctRowsCount(raw: seq<RawSale>, parse: DateParser)
    ensures forall c :: multiset(CleanedRows(DropDuplicates(raw), parse))[c] == |SourcesOf(c, raw, parse)|
  {
    var deduped := DropDuplicates(raw);
    forall c ensures multiset(CleanedRows(deduped, parse))[c] == |SourcesOf(c, raw, parse)| {
      CleanedRowsCount(deduped, parse, c);
      assert SourcesOf(c, deduped, parse) == SourcesOf(c, raw, parse);
    }
  }

  /**
   * A row whose region is missing and its twin whose region already reads
   * "Unknown" are distinct raw rows, so both survive and clean to two
   * equal rows.
   */
  lemma FilledTwinsBothKept(r: RawSale, parse: DateParser)
    requires r.region.None? && ParseCell(parse, r.date).Some?
    ensures var twin := WithLabels(r, r.category, Some(Unknown));
      var c := CleanRow(WithDate(r, ParseCell(parse, r.date).value));
      CleanedRows(DropDuplicates([r, twin]), parse) == [c, c]
  {
    var twin := WithLabels(r, r.category, Some(Unknown));
    var d := ParseCell(parse, r.date).value;
    assert r != twin;
    assert DropDuplicates([r]) == [r] by {
      assert [r][..0] == [];
    }
    assert DropDuplicates([r, twin]) == [r, twin] by {
      assert [r, twin][..1] == [r];
    }
    assert [r, twin][1..] == [twin] && [twin][1..] == [];
    assert CleanedRows([twin], parse) == [CleanRow(WithDate(twin, d))];
    assert CleanRow(WithDate(twin, d)) == CleanRow(WithDate(r, d));
  }

  /**
   * A cleaned row comes from some raw row whose date parses. Each stage
   * of the pipeline is passed in, tied to the one before, to keep the
   * proof context small.
   */
  lemma CleanedRowHasSource(raw: seq<RawSale>, parse: DateParser, deduped: seq<RawSale>,
                            parsed: seq<ParsedSale>, dated: seq<DatedSale>, df: seq<CleanSale>, i: nat)
    requires deduped == DropDuplicates(raw)
    requires parsed == CoerceDates(deduped, parse)
    requires dated == DropMissingDates(parsed)
    requires df == DeriveCalendar(FillUnknown(dated))
    requires i < |df|
    ensures exists j :: 0 <= j < |raw| && CleanedFrom(df[i], raw[j], parse)
  {
    var k :| 0 <= k < |parsed| && parsed[k] == WithDate(dated[i], Some(dated[i].date));
    assert deduped[k] in raw;
    var j :| 0 <= j < |raw| && raw[j] == deduped[k];
    assert ParseCell(parse, raw[j].date) == Some(df[i].sale.date);
    assert CleanedFrom(df[i], raw[j], parse);
  }

  /**
   * A raw row whose date parses has a cleaned image. The stages are passed
   * in as for `CleanedRowHasSource`.
   */
  lemma DatedRowIsKept(raw: seq<RawSale>, parse: DateParser, deduped: seq<RawSale>,
                       parsed: seq<ParsedSale>, dated: seq<DatedSale>, df: seq<CleanSale>, j: nat)
    requires deduped == DropDuplicates(raw)
    requires parsed == CoerceDates(deduped, parse)
    requires dated == DropMissingDates(parsed)
    requires df == DeriveCalendar(FillUnknown(dated))
    requires j < |raw| && ParseCell(parse, raw[j].date).Some?
    ensures exists i :: 0 <= i < |df| && CleanedFrom(df[i], raw[j], parse)
  {
    var d := ParseCell(parse, raw[j].date).value;
    assert raw[j] in deduped;
    var k :| 0 <= k < |deduped| && deduped[k] == raw[j];
    var x: DatedSale := WithDate(raw[j], d);
    assert x == WithDate(parsed[k], parsed[k].date.value);
    var i :| 0 <= i < |dated| && dated[i] == x;
    assert CleanedFrom(df[i], raw[j], parse);
  }

  /**
   * `load_and_clean` without the file I/O: the cleaned table holds, for
   * every distinct raw row whose date parses, exactly one cleaned image
   * of it, in first-occurrence order, and nothing else.
   */
  method LoadAndClean(raw: seq<RawSale>, parse: DateParser) returns (df: seq<CleanSale>)
    ensures forall i :: 0 <= i < |df| ==>
      exists j :: 0 <= j < |raw| && CleanedFrom(df[i], raw[j], parse)
    ensures forall j :: 0 <= j < |raw| && ParseCell(parse, raw[j].date).Some? ==>
      exists i :: 0 <= i < |df| && CleanedFrom(df[i], raw[j], parse)
    ensures |df| == |DatedRows(raw, parse)|
    ensures df == CleanedRows(DropDuplicates(raw), parse)
    ensures forall c :: multiset(df)[c] == |SourcesOf(c, raw, parse)|
  {
    var deduped := DropDuplicates(raw);
    var parsed := CoerceDates(deduped, parse);
    var dated := DropMissingDates(parsed);
    var filled := FillUnknown(dated);
    df := DeriveCalendar(filled);

    forall i | 0 <= i < |df| ensures exists j :: 0 <= j < |raw| && CleanedFrom(df[i], raw[j], parse) {
      CleanedRowHasSource(raw, parse, deduped, parsed, dated, df, i);
    }
    forall j | 0 <= j < |raw| && ParseCell(parse, raw[j].date).Some?
      ensures exists i :: 0 <= i < |df| && CleanedFrom(df[i], raw[j], parse)
    {
      DatedRowIsKept(raw, parse, deduped, parsed, dated, df, j);
    }
    CoercedCount(deduped, parse);
    assert DatedRows(deduped, parse) == DatedRows(raw, parse);
    StagesCleanEachRow(deduped, parse);
    DistinctRowsCount(raw, parse);
  }
}
