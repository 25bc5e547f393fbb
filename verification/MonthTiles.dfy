/** The month-splitting loop (backend/scripts/backfill_observed_weather_daily.py) over the real
    calendar, years 1 to 9999 with leap years. */
module MonthTiles {
  import opened Common

  datatype Date = Date(year: int, month: int, day: int)

  predicate IsLeap(y: int) {
    y % 4 == 0 && (y % 100 != 0 || y % 400 == 0)
  }

  function DaysIn(y: int, m: int): int {
    if m == 2 then (if IsLeap(y) then 29 else 28)
    else if m == 4 || m == 6 || m == 9 || m == 11 then 30 else 31
  }

  predicate Valid(d: Date) {
    1 <= d.year <= 9999 && 1 <= d.month <= 12 && 1 <= d.day <= DaysIn(d.year, d.month)
  }

  const LAST := Date(9999, 12, 31)

  /** The days before month `m` of a year. */
  function DaysBeforeMonth(y: int, m: int): int
    requires 1 <= m <= 13
  {
    if m == 1 then 0 else DaysBeforeMonth(y, m - 1) + DaysIn(y, m - 1)
  }

  function DaysBeforeYear(y: int): int {
    365 * (y - 1) + (y - 1) / 4 - (y - 1) / 100 + (y - 1) / 400
  }

  /** The number of the day, 1 for the first of January of year 1. */
  function Ordinal(d: Date): int
    requires Valid(d)
  {
    DaysBeforeYear(d.year) + DaysBeforeMonth(d.year, d.month) + d.day
  }

  /** The day after; there is none after the last day of the calendar. */
  function Next(d: Date): (r: Option<Date>)
    requires Valid(d)
    ensures r.Some? ==> Valid(r.value)
    ensures r.None? <==> d == LAST
  {
    if d.day < DaysIn(d.year, d.month) then Some(Date(d.year, d.month, d.day + 1))
    else if d.month < 12 then Some(Date(d.year, d.month + 1, 1))
    else if d.year < 9999 then Some(Date(d.year + 1, 1, 1))
    else None
  }

  /** Which of the three quotients step up from one year to the next. */
  lemma Multiples(y: int)
    ensures y / 4 == (y - 1) / 4 + if y % 4 == 0 then 1 else 0
    ensures y / 100 == (y - 1) / 100 + if y % 100 == 0 then 1 else 0
    ensures y / 400 == (y - 1) / 400 + if y % 400 == 0 then 1 else 0
    ensures y % 400 == 0 ==> y % 100 == 0
    ensures y % 100 == 0 ==> y % 4 == 0
  {
  }

  lemma YearLength(y: int)
    ensures DaysBeforeMonth(y, 13) == if IsLeap(y) then 366 else 365
    ensures DaysBeforeYear(y + 1) == DaysBeforeYear(y) + DaysBeforeMonth(y, 13)
  {
    MonthTable(y);
    Multiples(y);
    hide DaysBeforeMonth;
  }

  lemma MonthTable(y: int)
    ensures DaysBeforeMonth(y, 1) == 0 && DaysBeforeMonth(y, 12) == 306 + DaysIn(y, 2)
    ensures DaysBeforeMonth(y, 13) == 337 + DaysIn(y, 2)
  {
    hide IsLeap;
    assert DaysBeforeMonth(y, 1) == 0;
    assert DaysBeforeMonth(y, 2) == 31;
    assert DaysBeforeMonth(y, 3) == 31 + DaysIn(y, 2);
    assert DaysBeforeMonth(y, 4) == 62 + DaysIn(y, 2);
    assert DaysBeforeMonth(y, 5) == 92 + DaysIn(y, 2);
    assert DaysBeforeMonth(y, 6) == 123 + DaysIn(y, 2);
    assert DaysBeforeMonth(y, 7) == 153 + DaysIn(y, 2);
    assert DaysBeforeMonth(y, 8) == 184 + DaysIn(y, 2);
    assert DaysBeforeMonth(y, 9) == 215 + DaysIn(y, 2);
    assert DaysBeforeMonth(y, 10) == 245 + DaysIn(y, 2);
    assert DaysBeforeMonth(y, 11) == 276 + DaysIn(y, 2);
    assert DaysBeforeMonth(y, 12) == 306 + DaysIn(y, 2);
  }

  /** The day after has the next number. */
  lemma NextOrdinal(d: Date)
    requires Valid(d) && d != LAST
    ensures Ordinal(Next(d).value) == Ordinal(d) + 1
  {
    if d.day == DaysIn(d.year, d.month) && d.month == 12 {
      YearLength(d.year);
      assert DaysBeforeMonth(d.year, 13) == DaysBeforeMonth(d.year, 12) + DaysIn(d.year, 12);
    }
  }

  /** Years have 365 days or, in leap years, 366; 400 years have 146097 days. */
  lemma Gregorian(y: int)
    ensures DaysBeforeYear(y + 400) == DaysBeforeYear(y) + 146097
    ensures DaysBeforeYear(y + 1) - DaysBeforeYear(y) ==
            if y % 4 == 0 && (y % 100 != 0 || y % 400 == 0) then 366 else 365
    ensures DaysIn(y, 2) == if y % 4 == 0 && (y % 100 != 0 || y % 400 == 0) then 29 else 28
  {
    Quotients(y - 1);
    Multiples(y);
  }

  lemma Quotients(n: int)
    ensures (n + 400) / 4 == n / 4 + 100 && (n + 400) / 100 == n / 100 + 4 && (n + 400) / 400 == n / 400 + 1
  {
  }

  /** The day numbers of the calendar run from 1 to 3652059. */
  lemma FirstAndLast(d: Date)
    requires Valid(d)
    ensures d == Date(1, 1, 1) ==> Ordinal(d) == 1
    ensures d == LAST ==> Ordinal(d) == 3652059
  {
    MonthTable(d.year);
    hide DaysBeforeMonth;
  }

  predicate Before(a: Date, b: Date) {
    a.year < b.year || (a.year == b.year && (a.month < b.month || (a.month == b.month && a.day < b.day)))
  }

  lemma {:induction false} MonthsAscend(y: int, m: int, n: int)
    requires 1 <= m < n <= 13
    ensures DaysBeforeMonth(y, m) + DaysIn(y, m) <= DaysBeforeMonth(y, n)
    decreases n
  {
    if m < n - 1 {
      MonthsAscend(y, m, n - 1);
    }
  }

  lemma {:induction false} YearsAscend(y: int, z: int)
    requires y < z
    ensures DaysBeforeYear(y) + DaysBeforeMonth(y, 13) <= DaysBeforeYear(z)
    decreases z - y
  {
    YearLength(y);
    if y + 1 < z {
      YearsAscend(y + 1, z);
      YearLength(y + 1);
    }
  }

  lemma InYear(d: Date)
    requires Valid(d)
    ensures 1 <= DaysBeforeMonth(d.year, d.month) + d.day <= DaysBeforeMonth(d.year, 13)
  {
    MonthsAscend(d.year, d.month, 13);
    if d.month > 1 { MonthsAscend(d.year, 1, d.month); }
  }

  /** The calendar order is the order of the day numbers; in particular different days have different
      numbers. */
  lemma OrdinalOrder(a: Date, b: Date)
    requires Valid(a) && Valid(b)
    ensures Before(a, b) <==> Ordinal(a) < Ordinal(b)
    ensures a == b <==> Ordinal(a) == Ordinal(b)
  {
    InYear(a);
    InYear(b);
    if a.year < b.year { YearsAscend(a.year, b.year); }
    if b.year < a.year { YearsAscend(b.year, a.year); }
    if a.year == b.year && a.month < b.month { MonthsAscend(a.year, a.month, b.month); }
    if a.year == b.year && b.month < a.month { MonthsAscend(a.year, b.month, a.month); }
  }

  /** The last day of the month: the day before the first of the next month, or the 31st of December. */
  function MonthEnd(d: Date): (e: Date)
    requires Valid(d)
    ensures Valid(e) && e.year == d.year && e.month == d.month && d.day <= e.day
    ensures Next(e) == Some(Date(d.year, d.month + 1, 1)) || (d.month == 12 && e.day == 31)
  {
    Date(d.year, d.month, DaysIn(d.year, d.month))
  }

  datatype Range = Range(first: Date, last: Date)

  ghost predicate InOneMonth(r: Range) {
    && Valid(r.first) && Valid(r.last) && r.first.year == r.last.year && r.first.month == r.last.month
    && r.first.day <= r.last.day
  }

  /** The ranges follow each other without gap or overlap, none crosses a month end, and each but the
      last reaches its month end. */
  ghost predicate Tiles(ranges: seq<Range>) {
    && (forall i :: 0 <= i < |ranges| ==> InOneMonth(ranges[i]))
    && (forall i :: 0 <= i < |ranges| - 1 ==>
          Next(ranges[i].last) == Some(ranges[i + 1].first) && ranges[i].last == MonthEnd(ranges[i].first))
  }

  lemma TilesExtend(ranges: seq<Range>, r: Range)
    requires Tiles(ranges) && InOneMonth(r)
    requires ranges != [] ==>
               var l := ranges[|ranges| - 1]; Next(l.last) == Some(r.first) && l.last == MonthEnd(l.first)
    ensures Tiles(ranges + [r])
  {
  }

  /** The last day of the range that starts on `current`. */
  function RangeEnd(current: Date, end: Date): Date
    requires Valid(current)
  {
    if Before(end, MonthEnd(current)) then end else MonthEnd(current)
  }

  lemma StepForward(current: Date, end: Date)
    requires Valid(current) && Valid(end) && !Before(end, current)
    ensures var last := RangeEnd(current, end);
            && InOneMonth(Range(current, last)) && !Before(end, last)
            && (last == LAST ==> end == LAST)
            && (last != LAST ==>
                  var next := Next(last).value;
                  Ordinal(current) < Ordinal(next) <= Ordinal(LAST) &&
                  (!Before(end, next) ==> last == MonthEnd(current))
                  && (Before(end, next) ==> last == end))
  {
    var last := RangeEnd(current, end);
    assert InOneMonth(Range(current, last));
    OrdinalOrder(end, last);
    OrdinalOrder(end, LAST);
    OrdinalOrder(last, current);
    if last != LAST {
      NextOrdinal(last);
      OrdinalOrder(end, Next(last).value);
      OrdinalOrder(LAST, Next(last).value);
    }
  }

  /** The loop. It stops with an exception only when it steps past the last day of the calendar, and
      then every range has been processed. */
  method SplitMonths(start: Date, end: Date) returns (ranges: seq<Range>, overflow: bool)
    requires Valid(start) && Valid(end)
    ensures Tiles(ranges)
    ensures ranges == [] <==> Before(end, start)
    ensures ranges != [] ==> ranges[0].first == start && ranges[|ranges| - 1].last == end
    ensures overflow <==> end == LAST
  {
    hide Ordinal, MonthEnd, Next, InOneMonth, Tiles, Before, RangeEnd;
    ranges, overflow := [], false;
    var current := start;
    NoRanges();
    OrdinalOrder(start, LAST);
    NotAfterLast(start);
    while !Before(end, current)
      invariant Valid(current) && Tiles(ranges) && Ordinal(current) <= Ordinal(LAST)
      invariant ranges == [] ==> current == start
      invariant ranges != [] ==>
                  && !Before(end, start) && ranges[0].first == start && ranges[|ranges| - 1].last != LAST
                  && InOneMonth(ranges[|ranges| - 1])
                  && Valid(ranges[|ranges| - 1].first) && Valid(ranges[|ranges| - 1].last)
                  && Next(ranges[|ranges| - 1].last) == Some(current)
                  && (!Before(end, current) ==> ranges[|ranges| - 1].last == MonthEnd(ranges[|ranges| - 1].first))
                  && (Before(end, current) ==> ranges[|ranges| - 1].last == end)
      decreases Ordinal(LAST) - Ordinal(current)
    {
      var last := RangeEnd(current, end);
      StepForward(current, end);
      TilesExtend(ranges, Range(current, last));
      ValidEnds(Range(current, last));
      ranges := ranges + [Range(current, last)];
      var next := Next(last);
      if next.None? {
        NotAfterLast(end);
        return ranges, true;
      }
      current := next.value;
    }
    if ranges == [] {
      NotAfterLast(start);
    }
  }

  lemma NoRanges()
    ensures Tiles([])
  {
  }

  lemma ValidEnds(r: Range)
    requires InOneMonth(r)
    ensures Valid(r.first) && Valid(r.last)
  {
  }

  lemma NotAfterLast(d: Date)
    requires Valid(d)
    ensures !Before(LAST, d) && Ordinal(d) <= Ordinal(LAST)
  {
    OrdinalOrder(LAST, d);
  }

  // ---------------------------------------------------------------- every day once

  ghost predicate Covers(r: Range, n: int) {
    Valid(r.first) && Valid(r.last) && Ordinal(r.first) <= n <= Ordinal(r.last)
  }

  lemma {:induction false} TilesAscend(ranges: seq<Range>, i: nat, j: nat)
    requires Tiles(ranges) && i <= j < |ranges|
    ensures Valid(ranges[i].first) && Valid(ranges[j].first) && Valid(ranges[i].last)
    ensures Ordinal(ranges[i].first) <= Ordinal(ranges[j].first)
    ensures i < j ==> Ordinal(ranges[i].last) < Ordinal(ranges[j].first)
  {
    hide Ordinal, Next, MonthEnd;
    assert InOneMonth(ranges[i]) && InOneMonth(ranges[j]);
    if i < j {
      TilesAscend(ranges, i, j - 1);
      assert InOneMonth(ranges[j - 1]);
      assert Next(ranges[j - 1].last) == Some(ranges[j].first);
      NextOrdinal(ranges[j - 1].last);
      OrdinalOrder(ranges[j - 1].first, ranges[j - 1].last);
    }
  }

  /** No day lies in two ranges. */
  lemma AtMostOnce(ranges: seq<Range>, i: nat, j: nat, n: int)
    requires Tiles(ranges) && i < |ranges| && j < |ranges| && Covers(ranges[i], n) && Covers(ranges[j], n)
    ensures i == j
  {
    if i < j { TilesAscend(ranges, i, j); }
    if j < i { TilesAscend(ranges, j, i); }
  }

  /** Every day from the first day to the end of the k-th range lies in one of them. */
  lemma {:induction false} AtLeastOnce(ranges: seq<Range>, k: nat, n: int) returns (i: nat)
    requires Tiles(ranges) && k < |ranges| && Valid(ranges[0].first) && Valid(ranges[k].last)
    requires Ordinal(ranges[0].first) <= n <= Ordinal(ranges[k].last)
    ensures i <= k && Covers(ranges[i], n)
  {
    assert InOneMonth(ranges[k]);
    if n >= Ordinal(ranges[k].first) {
      i := k;
    } else {
      assert InOneMonth(ranges[k - 1]);
      assert Next(ranges[k - 1].last) == Some(ranges[k].first);
      NextOrdinal(ranges[k - 1].last);
      i := AtLeastOnce(ranges, k - 1, n);
    }
  }

  /** Ranges that tile from `start` to `end` hold every day of the interval exactly once, and no other. */
  lemma EachDayOnce(ranges: seq<Range>, start: Date, end: Date, d: Date)
    requires Tiles(ranges) && ranges != [] && ranges[0].first == start && ranges[|ranges| - 1].last == end
    requires Valid(start) && Valid(end) && Valid(d)
    ensures !Before(d, start) && !Before(end, d) <==> exists i :: 0 <= i < |ranges| && Covers(ranges[i], Ordinal(d))
    ensures var n := Ordinal(d);
            forall i, j :: 0 <= i < |ranges| && 0 <= j < |ranges| && Covers(ranges[i], n) && Covers(ranges[j], n) ==>
              i == j
  {
    OrdinalOrder(d, start);
    OrdinalOrder(end, d);
    if !Before(d, start) && !Before(end, d) {
      var i := AtLeastOnce(ranges, |ranges| - 1, Ordinal(d));
    }
    if i :| 0 <= i < |ranges| && Covers(ranges[i], Ordinal(d)) {
      WithinBounds(ranges, i);
    }
    forall i, j | 0 <= i < |ranges| && 0 <= j < |ranges| &&
                  Covers(ranges[i], Ordinal(d)) && Covers(ranges[j], Ordinal(d))
      ensures i == j
    {
      AtMostOnce(ranges, i, j, Ordinal(d));
    }
  }

  lemma WithinBounds(ranges: seq<Range>, i: nat)
    requires Tiles(ranges) && i < |ranges|
    ensures Valid(ranges[0].first) && Valid(ranges[i].first) &&
            Valid(ranges[i].last) && Valid(ranges[|ranges| - 1].last)
    ensures Ordinal(ranges[0].first) <= Ordinal(ranges[i].first) &&
            Ordinal(ranges[i].last) <= Ordinal(ranges[|ranges| - 1].last)
  {
    var k := |ranges| - 1;
    TilesAscend(ranges, 0, i);
    TilesAscend(ranges, i, k);
    assert InOneMonth(ranges[k]);
    OrdinalOrder(ranges[k].first, ranges[k].last);
  }
}
