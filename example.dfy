/** A worked query on a two-day table: 2024-01-01 (Winter, 100 rentals) and
    2024-02-15 (Spring, 200 rentals). */
module DashboardExample {
  import opened Calendar
  import opened Rentals
  import opened Dashboard

  predicate IsTwoDayTable(rows: seq<Record>) {
    rows == [Record(CivilDate(2024, 1, 1), Winter, 100), Record(CivilDate(2024, 2, 15), Spring, 200)]
  }

  lemma TwoDayFacts(rows: seq<Record>)
    requires IsTwoDayTable(rows)
    ensures rows[1..] == [rows[1]] && [rows[1]][1..] == []
    ensures forall x :: x in rows <==> x == rows[0] || x == rows[1]
    ensures DayNumber(rows[0].dteday) == 19723 && DayNumber(rows[1].dteday) == 19768
    ensures DayName(rows[0].dteday) == Monday && DayName(rows[1].dteday) == Thursday
    ensures MonthKey(rows[0]) == 24288 && MonthKey(rows[1]) == 24289
  {
  }

  lemma TwoDayMetrics(rows: seq<Record>)
    requires IsTwoDayTable(rows)
    ensures Total(rows) == 300 && Peak(rows) == 200 && Mean(rows) == 150.0
  {
    TwoDayFacts(rows);
    var b := rows[1];
    assert Total([b]) == 200;
    assert MaxBy([b], Count) == 200;
  }

  lemma TwoDayMonthly(rows: seq<Record>)
    requires IsTwoDayTable(rows)
    ensures Monthly(rows) == [MonthBin(YearMonth(2024, 1), 100), MonthBin(YearMonth(2024, 2), 200)]
  {
    TwoDayFacts(rows);
    var b := rows[1];
    assert MinBy([b], MonthKey) == 24289 && MaxBy([b], MonthKey) == 24289;
    assert GroupTotal([b], MonthKey, 24288) == 0;
    assert GroupTotal([b], MonthKey, 24289) == 200;
    assert MonthAt(24288) == YearMonth(2024, 1);
    assert MonthAt(24289) == YearMonth(2024, 2);
    assert Bins(rows, 24289, 1) == [MonthBin(YearMonth(2024, 2), 200)];
  }

  lemma TwoDaySeasonal(rows: seq<Record>)
    requires IsTwoDayTable(rows)
    ensures Seasonal(rows) == [Some(200), None, None, Some(100)]
  {
    TwoDayFacts(rows);
    var b := rows[1];
    assert GroupTotal([b], SeasonOf, Spring) == 200;
    assert GroupTotal([b], SeasonOf, Winter) == 0;
  }

  lemma TwoDayWeekdays(rows: seq<Record>)
    requires IsTwoDayTable(rows)
    ensures Weekdays(rows) == [Some(100), None, None, Some(200), None, None, None]
  {
    TwoDayFacts(rows);
    var b := rows[1];
    assert GroupTotal([b], DayOf, Monday) == 0;
    assert GroupTotal([b], DayOf, Thursday) == 200;
    MondayThursdayNames(rows, Monday);
    MondayThursdayNames(rows, Tuesday);
    MondayThursdayNames(rows, Wednesday);
    MondayThursdayNames(rows, Thursday);
    MondayThursdayNames(rows, Friday);
    MondayThursdayNames(rows, Saturday);
    MondayThursdayNames(rows, Sunday);
  }

  /** Of a Monday and a Thursday, exactly those two weekdays occur. */
  lemma MondayThursdayNames(rows: seq<Record>, w: Weekday)
    requires |rows| == 2
    requires DayName(rows[0].dteday) == Monday && DayName(rows[1].dteday) == Thursday
    ensures (exists x :: x in rows && DayName(x.dteday) == w) <==> w == Monday || w == Thursday
  {
    assert forall x :: x in rows ==> x == rows[0] || x == rows[1];
    assert rows[0] in rows && rows[1] in rows;
  }

  /** Selecting both days gives total 300, mean 150 and peak 200; one bin per
      month; Spring and Winter present, Summer and Fall missing; Monday and
      Thursday present, the other five weekdays missing. */
  lemma TwoDayQuery(rows: seq<Record>)
    requires IsTwoDayTable(rows)
    ensures Aggregate(rows, CivilDate(2024, 1, 1), CivilDate(2024, 2, 15))
         == Shown(Report(300, 150.0, 200,
                         [MonthBin(YearMonth(2024, 1), 100), MonthBin(YearMonth(2024, 2), 200)],
                         [Some(200), None, None, Some(100)],
                         [Some(100), None, None, Some(200), None, None, None]))
  {
    TwoDayFacts(rows);
    assert Filter([rows[1]], CivilDate(2024, 1, 1), CivilDate(2024, 2, 15)) == [rows[1]];
    assert Filter(rows, CivilDate(2024, 1, 1), CivilDate(2024, 2, 15)) == rows;
    TwoDayMetrics(rows);
    TwoDayMonthly(rows);
    TwoDaySeasonal(rows);
    TwoDayWeekdays(rows);
  }

  /** March 2024 holds neither day: the page shows the "no data" notice. */
  lemma TwoDayQueryOutside(rows: seq<Record>)
    requires IsTwoDayTable(rows)
    ensures Aggregate(rows, CivilDate(2024, 3, 1), CivilDate(2024, 3, 31)) == NoData
  {
    TwoDayFacts(rows);
    assert DayNumber(CivilDate(2024, 3, 1)) == 19783;
    assert !InRange(rows[0].dteday, CivilDate(2024, 3, 1), CivilDate(2024, 3, 31));
    assert !InRange(rows[1].dteday, CivilDate(2024, 3, 1), CivilDate(2024, 3, 31));
  }
}
