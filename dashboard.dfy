/** The per-query pipeline of the dashboard's `main()`: keep the daily rows
    whose date lies in the selected range, stop with a "no data" notice when
    none is left, and otherwise compute the three metric cards (total, daily
    mean, peak) and the series behind the three charts (monthly totals,
    seasonal totals, day-of-week totals). */
module Dashboard {
  import opened Calendar
  import opened Rentals

  // ---------------------------------------------------------------------------
  // Date-range filter

  /** `start_date <= dteday <= end_date`, comparing timestamps (day numbers). */
  predicate InRange(d: Date, start: Date, end: Date) {
    DayNumber(start) <= DayNumber(d) && DayNumber(d) <= DayNumber(end)
  }

  /** The range test is the calendar test, inclusive at both ends. */
  lemma InRangeCalendar(d: Date, start: Date, end: Date)
    ensures InRange(d, start, end) <==> !Before(d, start) && !Before(end, d)
    ensures InRange(d, start, end) ==> (d == start || Before(start, d)) && (d == end || Before(d, end))
  {
    DayNumberOrder(d, start);
    DayNumberOrder(end, d);
    DayNumberOrder(start, d);
    DayNumberOrder(d, end);
  }

  /** The boolean-mask selection: the rows in range, in table order. */
  function Filter(rows: seq<Record>, start: Date, end: Date): (f: seq<Record>)
    ensures |f| <= |rows|
  {
    if rows == [] then []
    else if InRange(rows[0].dteday, start, end) then [rows[0]] + Filter(rows[1..], start, end)
    else Filter(rows[1..], start, end)
  }

  /** The filter keeps exactly the rows in range. */
  lemma {:induction false} FilterMembers(rows: seq<Record>, start: Date, end: Date)
    ensures forall x :: x in Filter(rows, start, end) <==> x in rows && InRange(x.dteday, start, end)
  {
    if rows != [] {
      assert forall x :: x in rows <==> x == rows[0] || x in rows[1..];
      FilterMembers(rows[1..], start, end);
    }
  }

  /** The filter never reorders: it distributes over concatenation, so a table
      filters to the in-range rows of each part, in table order. */
  lemma {:induction false} FilterKeepsOrder(a: seq<Record>, b: seq<Record>, start: Date, end: Date)
    ensures Filter(a + b, start, end) == Filter(a, start, end) + Filter(b, start, end)
  {
    if a == [] {
      assert a + b == b;
    } else {
      var x, t := a[0], a[1..];
      assert a == [x] + t && a + b == [x] + (t + b);
      FilterCons(x, t, start, end);
      FilterCons(x, t + b, start, end);
      FilterKeepsOrder(t, b, start, end);
      var h := if InRange(x.dteday, start, end) then [x] else [];
      assert h + (Filter(t, start, end) + Filter(b, start, end))
          == (h + Filter(t, start, end)) + Filter(b, start, end);
    }
  }

  lemma FilterCons(x: Record, t: seq<Record>, start: Date, end: Date)
    ensures Filter([x] + t, start, end) == (if InRange(x.dteday, start, end) then [x] else []) + Filter(t, start, end)
  {
    assert ([x] + t)[0] == x && ([x] + t)[1..] == t;
  }

  /** A single row is kept exactly when it is in range. */
  lemma FilterSingle(x: Record, start: Date, end: Date)
    ensures Filter([x], start, end) == if InRange(x.dteday, start, end) then [x] else []
  {
    assert [x][1..] == [];
  }

  // ---------------------------------------------------------------------------
  // Metric cards

  /** `filtered_data['cnt'].max()`: the count of some row, and no row's count is larger. */
  function Peak(rows: seq<Record>): (m: int)
    requires rows != []
    ensures exists x :: x in rows && x.cnt == m
    ensures forall x :: x in rows ==> x.cnt <= m
  {
    MaxBy(rows, Count)
  }

  function Count(x: Record): int {
    x.cnt
  }

  /** `filtered_data['cnt'].mean()` as an exact rational, before any display rounding. */
  function Mean(rows: seq<Record>): real
    requires rows != []
  {
    Total(rows) as real / |rows| as real
  }

  /** The daily mean never exceeds the peak day. */
  lemma MeanAtMostPeak(rows: seq<Record>)
    requires rows != []
    ensures Mean(rows) <= Peak(rows) as real
  {
    PeakBoundsTotal(rows);
    ShareBounds(Total(rows), |rows|, Peak(rows));
  }

  lemma PeakBoundsTotal(rows: seq<Record>)
    requires rows != []
    ensures Total(rows) <= |rows| * Peak(rows)
  {
    TotalAtMost(rows, Peak(rows));
  }

  lemma ShareBounds(t: int, n: int, p: int)
    requires n > 0 && t <= n * p
    ensures t as real / n as real <= p as real
  {
    var q := t as real / n as real;
    assert q * n as real == t as real;
    assert (t as real) <= (n as real) * (p as real);
    if q > p as real {
      assert q * n as real > (p as real) * (n as real);
    }
  }

  /** With non-negative counts, widening the date range never lowers the total. */
  lemma {:induction false} TotalMonotone(rows: seq<Record>, s1: Date, e1: Date, s2: Date, e2: Date)
    requires DayNumber(s2) <= DayNumber(s1) && DayNumber(e1) <= DayNumber(e2)
    requires forall x :: x in rows ==> x.cnt >= 0
    ensures Total(Filter(rows, s1, e1)) <= Total(Filter(rows, s2, e2))
  {
    if rows != [] {
      var x := rows[0];
      assert forall y :: y in rows[1..] ==> y in rows;
      TotalMonotone(rows[1..], s1, e1, s2, e2);
      var f1, f2 := Filter(rows[1..], s1, e1), Filter(rows[1..], s2, e2);
      assert ([x] + f1)[1..] == f1 && ([x] + f2)[1..] == f2;
    }
  }

  // ---------------------------------------------------------------------------
  // Monthly trend: `resample('M', on='dteday').agg({'cnt': 'sum'})`

  /** One bin of the monthly series: a calendar month and the sum of `cnt` in it. */
  datatype MonthBin = MonthBin(month: YearMonth, total: int)

  /** The index of the calendar month a row falls in. */
  function MonthKey(x: Record): int {
    MonthIndex(MonthOf(x.dteday))
  }

  /** n consecutive monthly bins starting at the month with index lo. */
  function Bins(rows: seq<Record>, lo: int, n: nat): (bs: seq<MonthBin>)
    decreases n
    ensures |bs| == n
    ensures forall i :: 0 <= i < n ==> bs[i].month == MonthAt(lo + i)
    ensures forall i :: 0 <= i < n ==> bs[i].total == GroupTotal(rows, MonthKey, lo + i)
  {
    if n == 0 then []
    else [MonthBin(MonthAt(lo), GroupTotal(rows, MonthKey, lo))] + Bins(rows, lo + 1, n - 1)
  }

  /** Whether the series has a bin for month ym. */
  predicate HasBin(bs: seq<MonthBin>, ym: YearMonth) {
    exists i :: 0 <= i < |bs| && bs[i].month == ym
  }

  function SumBins(bs: seq<MonthBin>): int {
    if bs == [] then 0 else bs[0].total + SumBins(bs[1..])
  }

  /** The month indices lo, lo + 1, ..., lo + n - 1. */
  function MonthRange(lo: int, n: nat): (ks: seq<int>)
    decreases n
    ensures |ks| == n
    ensures forall i :: 0 <= i < n ==> ks[i] == lo + i
  {
    if n == 0 then [] else [lo] + MonthRange(lo + 1, n - 1)
  }

  lemma {:induction false} SumBinsGroupSums(rows: seq<Record>, lo: int, n: nat)
    ensures SumBins(Bins(rows, lo, n)) == GroupSums(rows, MonthKey, MonthRange(lo, n))
    decreases n
  {
    if n > 0 {
      assert Bins(rows, lo, n)[1..] == Bins(rows, lo + 1, n - 1);
      assert MonthRange(lo, n)[1..] == MonthRange(lo + 1, n - 1);
      SumBinsGroupSums(rows, lo + 1, n - 1);
    }
  }

  /** Bins spanning every row's month add up to the total. */
  lemma BinsConserve(rows: seq<Record>, lo: int, n: nat)
    requires forall x :: x in rows ==> lo <= MonthKey(x) < lo + n
    ensures SumBins(Bins(rows, lo, n)) == Total(rows)
  {
    var ks := MonthRange(lo, n);
    forall x | x in rows ensures MonthKey(x) in ks {
      assert ks[MonthKey(x) - lo] == MonthKey(x);
    }
    SumBinsGroupSums(rows, lo, n);
    GroupSumsPartition(rows, MonthKey, ks);
  }

  /** Consecutive bins are consecutive calendar months, so the series is in
      strictly increasing calendar order. */
  lemma BinsOrdered(rows: seq<Record>, lo: int, n: nat)
    ensures var bs := Bins(rows, lo, n);
      && (forall i, j :: 0 <= i < j < n ==> MonthBefore(bs[i].month, bs[j].month))
      && (forall i :: 0 <= i < n - 1 ==> MonthIndex(bs[i + 1].month) == MonthIndex(bs[i].month) + 1)
  {
    var bs := Bins(rows, lo, n);
    forall i, j | 0 <= i < j < n ensures MonthBefore(bs[i].month, bs[j].month) {
      MonthAtOrder(lo + i, lo + j);
    }
  }

  /** Bins spanning every row's month have a bin for each row's month; when
      the span starts and ends at a row's month, so do the first and last bins. */
  lemma BinsCover(rows: seq<Record>, lo: int, n: nat)
    requires n > 0
    requires forall x :: x in rows ==> lo <= MonthKey(x) < lo + n
    requires exists x :: x in rows && MonthKey(x) == lo
    requires exists x :: x in rows && MonthKey(x) == lo + n - 1
    ensures var bs := Bins(rows, lo, n);
      && (forall x :: x in rows ==> HasBin(bs, MonthOf(x.dteday)))
      && (exists x :: x in rows && bs[0].month == MonthOf(x.dteday))
      && (exists x :: x in rows && bs[n - 1].month == MonthOf(x.dteday))
  {
    var bs := Bins(rows, lo, n);
    forall x | x in rows ensures HasBin(bs, MonthOf(x.dteday)) {
      MonthAtKey(x);
      assert bs[MonthKey(x) - lo].month == MonthOf(x.dteday);
    }
    var first :| first in rows && MonthKey(first) == lo;
    var last :| last in rows && MonthKey(last) == lo + n - 1;
    MonthAtKey(first);
    MonthAtKey(last);
  }

  /** Each bin is its month's group sum, which is zero for a month without rows. */
  lemma BinsTotals(rows: seq<Record>, lo: int, n: nat)
    ensures var bs := Bins(rows, lo, n);
      && (forall i :: 0 <= i < n ==> bs[i].total == GroupTotal(rows, MonthKey, MonthIndex(bs[i].month)))
      && (forall i :: 0 <= i < n && !Present(rows, MonthKey, MonthIndex(bs[i].month)) ==> bs[i].total == 0)
  {
    var bs := Bins(rows, lo, n);
    forall i | 0 <= i < n && !Present(rows, MonthKey, MonthIndex(bs[i].month)) ensures bs[i].total == 0 {
      GroupTotalAbsent(rows, MonthKey, lo + i);
    }
  }

  lemma MonthAtKey(x: Record)
    ensures MonthAt(MonthKey(x)) == MonthOf(x.dteday)
  {
    MonthAtIndex(MonthOf(x.dteday));
  }

  /** The monthly series: one bin for every calendar month from the earliest
      row's month to the latest row's month, each the sum of `cnt` over the
      rows of that month; the bins add up to the total. */
  function Monthly(rows: seq<Record>): (bs: seq<MonthBin>)
    ensures bs == [] <==> rows == []
    ensures SumBins(bs) == Total(rows)
  {
    if rows == [] then []
    else
      var lo := MinBy(rows, MonthKey);
      var hi := MaxBy(rows, MonthKey);
      BinsConserve(rows, lo, hi - lo + 1);
      Bins(rows, lo, hi - lo + 1)
  }

  /** The monthly series is in strictly increasing calendar order without gaps,
      starts at the earliest row's month and ends at the latest row's month,
      has a bin for every row's month, and each bin is the sum of `cnt` over
      the rows of its month, which is zero for a month without rows. */
  lemma MonthlyShape(rows: seq<Record>)
    ensures var bs := Monthly(rows);
      && (forall i, j :: 0 <= i < j < |bs| ==> MonthBefore(bs[i].month, bs[j].month))
      && (forall i :: 0 <= i < |bs| - 1 ==> MonthIndex(bs[i + 1].month) == MonthIndex(bs[i].month) + 1)
      && (forall x :: x in rows ==> HasBin(bs, MonthOf(x.dteday)))
      && (bs != [] ==> exists x :: x in rows && bs[0].month == MonthOf(x.dteday))
      && (bs != [] ==> exists x :: x in rows && bs[|bs| - 1].month == MonthOf(x.dteday))
      && (forall i :: 0 <= i < |bs| ==> bs[i].total == GroupTotal(rows, MonthKey, MonthIndex(bs[i].month)))
      && (forall i :: 0 <= i < |bs| && !Present(rows, MonthKey, MonthIndex(bs[i].month)) ==> bs[i].total == 0)
  {
    if rows != [] {
      var lo := MinBy(rows, MonthKey);
      var n := MaxBy(rows, MonthKey) - lo + 1;
      assert forall x :: x in rows ==> lo <= MonthKey(x) < lo + n;
      assert Monthly(rows) == Bins(rows, lo, n);
      BinsOrdered(rows, lo, n);
      BinsCover(rows, lo, n);
      BinsTotals(rows, lo, n);
    }
  }

  // ---------------------------------------------------------------------------
  // Seasonal and day-of-week distributions: `groupby(...).sum().reindex(order)`

  function SeasonOf(x: Record): Season {
    x.season
  }

  /** The English day name of a row's date, `dteday.dt.day_name()`. */
  function DayOf(x: Record): Weekday {
    DayName(x.dteday)
  }

  lemma SeasonOrderCovers(rows: seq<Record>)
    ensures forall x :: x in rows ==> SeasonOf(x) in SeasonOrder
  {
    forall x | x in rows ensures SeasonOf(x) in SeasonOrder {
      match x.season
      case Spring => assert SeasonOrder[0] == Spring;
      case Summer => assert SeasonOrder[1] == Summer;
      case Fall => assert SeasonOrder[2] == Fall;
      case Winter => assert SeasonOrder[3] == Winter;
    }
  }

  /** Seasonal totals in the order Spring, Summer, Fall, Winter; a season
      without rows is missing; the present entries add up to the total. */
  function Seasonal(rows: seq<Record>): (r: seq<Option<int>>)
    ensures |r| == 4
    ensures forall i :: 0 <= i < 4 ==> (r[i].Some? <==> exists x :: x in rows && x.season == SeasonOrder[i])
    ensures forall i :: 0 <= i < 4 && r[i].Some? ==> r[i].value == GroupTotal(rows, SeasonOf, SeasonOrder[i])
    ensures PresentSum(r) == Total(rows)
  {
    SeasonOrderCovers(rows);
    ReindexConserves(rows, SeasonOf, SeasonOrder);
    Reindex(rows, SeasonOf, SeasonOrder)
  }

  /** Day-of-week totals in the order Monday ... Sunday; a weekday without
      rows is missing; the present entries add up to the total. */
  function Weekdays(rows: seq<Record>): (r: seq<Option<int>>)
    ensures |r| == 7
    ensures forall i :: 0 <= i < 7 ==> (r[i].Some? <==> exists x :: x in rows && DayName(x.dteday) == WeekOrder[i])
    ensures forall i :: 0 <= i < 7 && r[i].Some? ==> r[i].value == GroupTotal(rows, DayOf, WeekOrder[i])
    ensures PresentSum(r) == Total(rows)
  {
    ReindexConserves(rows, DayOf, WeekOrder);
    Reindex(rows, DayOf, WeekOrder)
  }

  // ---------------------------------------------------------------------------
  // The whole query

  /** What the page shows for a non-empty selection. */
  datatype Report = Report(
    total: int,
    mean: real,
    peak: int,
    monthly: seq<MonthBin>,
    seasonal: seq<Option<int>>,
    daily: seq<Option<int>>)

  /** Either the "no data in the selected range" notice or the full report. */
  datatype Outcome = NoData | Shown(report: Report)

  /** One run of `main()` for the selected range [start, end]. */
  function Aggregate(rows: seq<Record>, start: Date, end: Date): (o: Outcome)
    ensures o.NoData? <==> forall x :: x in rows ==> !InRange(x.dteday, start, end)
    ensures o.Shown? ==> o.report.total == Total(Filter(rows, start, end))
    ensures o.Shown? ==> exists x :: x in rows && InRange(x.dteday, start, end) && x.cnt == o.report.peak
    ensures o.Shown? ==> forall x :: x in rows && InRange(x.dteday, start, end) ==> x.cnt <= o.report.peak
    ensures o.Shown? <==> Filter(rows, start, end) != []
    ensures o.Shown? ==> o.report.mean == Mean(Filter(rows, start, end))
    ensures o.Shown? ==> o.report.mean <= o.report.peak as real
    ensures o.Shown? ==> o.report.monthly == Monthly(Filter(rows, start, end))
    ensures o.Shown? ==> o.report.seasonal == Seasonal(Filter(rows, start, end))
    ensures o.Shown? ==> o.report.daily == Weekdays(Filter(rows, start, end))
    ensures o.Shown? ==> |o.report.seasonal| == 4 && |o.report.daily| == 7 && o.report.monthly != []
    ensures o.Shown? ==> forall i :: 0 <= i < 4 ==>
      (o.report.seasonal[i].Some? <==> exists x :: x in rows && InRange(x.dteday, start, end) && x.season == SeasonOrder[i])
    ensures o.Shown? ==> forall i :: 0 <= i < 7 ==>
      (o.report.daily[i].Some? <==> exists x :: x in rows && InRange(x.dteday, start, end) && DayName(x.dteday) == WeekOrder[i])
    ensures o.Shown? ==> SumBins(o.report.monthly) == o.report.total
    ensures o.Shown? ==> PresentSum(o.report.seasonal) == o.report.total
    ensures o.Shown? ==> PresentSum(o.report.daily) == o.report.total
  {
    var f := Filter(rows, start, end);
    FilterMembers(rows, start, end);
    if f == [] then
      assert forall x :: x in rows ==> !InRange(x.dteday, start, end);
      NoData
    else
      MeanAtMostPeak(f);
      SeasonalInRange(rows, start, end);
      WeekdaysInRange(rows, start, end);
      Shown(Report(Total(f), Mean(f), Peak(f), Monthly(f), Seasonal(f), Weekdays(f)))
  }

  /** A season's entry of the selection's series is present exactly when some
      row in range has that season. */
  lemma SeasonalInRange(rows: seq<Record>, start: Date, end: Date)
    ensures var r := Seasonal(Filter(rows, start, end));
      forall i :: 0 <= i < 4 ==>
        (r[i].Some? <==> exists x :: x in rows && InRange(x.dteday, start, end) && x.season == SeasonOrder[i])
  {
    FilterMembers(rows, start, end);
  }

  /** A weekday's entry of the selection's series is present exactly when some
      row in range falls on that weekday. */
  lemma WeekdaysInRange(rows: seq<Record>, start: Date, end: Date)
    ensures var r := Weekdays(Filter(rows, start, end));
      forall i :: 0 <= i < 7 ==>
        (r[i].Some? <==> exists x :: x in rows && InRange(x.dteday, start, end) && DayName(x.dteday) == WeekOrder[i])
  {
    FilterMembers(rows, start, end);
  }

  /** A range whose start is after its end selects nothing, for any table. */
  lemma ReversedRangeIsEmpty(rows: seq<Record>, start: Date, end: Date)
    requires Before(end, start)
    ensures Aggregate(rows, start, end) == NoData
  {
    DayNumberOrder(end, start);
  }
}
