/** Payouts bucketed by UTC month. Dates are time values in milliseconds, after section 21.4 of ECMA-262. */
module Months {
  const MS_PER_DAY: int := 86400000

  // ----- the calendar, ECMA-262 section 21.4.1

  predicate Leap(y: int) {
    y % 4 == 0 && (y % 100 != 0 || y % 400 == 0)
  }

  function DaysInYear(y: int): int {
    if Leap(y) then 366 else 365
  }

  function DayFromYear(y: int): int {
    365 * (y - 1970) + (y - 1969) / 4 - (y - 1901) / 100 + (y - 1601) / 400
  }

  lemma YearLength(y: int)
    ensures DayFromYear(y + 1) == DayFromYear(y) + DaysInYear(y)
  {
    EveryFour(y);
    EveryHundred(y);
    EveryFourHundred(y);
  }

  lemma EveryFour(y: int)
    ensures (y - 1968) / 4 == (y - 1969) / 4 + if y % 4 == 0 then 1 else 0
  {
  }

  lemma EveryHundred(y: int)
    ensures (y - 1900) / 100 == (y - 1901) / 100 + if y % 100 == 0 then 1 else 0
    ensures y % 100 == 0 ==> y % 4 == 0
  {
  }

  lemma EveryFourHundred(y: int)
    ensures (y - 1600) / 400 == (y - 1601) / 400 + if y % 400 == 0 then 1 else 0
    ensures y % 400 == 0 ==> y % 100 == 0
  {
  }

  /** Days of a year before its month, months counted from 0. */
  function DaysBefore(month: int, leap: bool): int {
    var extra := if leap then 1 else 0;
    if month <= 0 then 0
    else if month == 1 then 31
    else if month == 2 then 59 + extra
    else if month == 3 then 90 + extra
    else if month == 4 then 120 + extra
    else if month == 5 then 151 + extra
    else if month == 6 then 181 + extra
    else if month == 7 then 212 + extra
    else if month == 8 then 243 + extra
    else if month == 9 then 273 + extra
    else if month == 10 then 304 + extra
    else if month == 11 then 334 + extra
    else 365 + extra
  }

  /** The largest year that starts on or before the day, searched from a given year. */
  function YearOfDay(day: int, from: int): (y: int)
    ensures DayFromYear(y) <= day < DayFromYear(y + 1)
    decreases if day < DayFromYear(from) then DayFromYear(from) - day
              else if day >= DayFromYear(from + 1) then day - DayFromYear(from) else 0
  {
    YearLength(from - 1);
    YearLength(from);
    YearLength(from + 1);
    if day < DayFromYear(from) then YearOfDay(day, from - 1)
    else if day >= DayFromYear(from + 1) then YearOfDay(day, from + 1)
    else from
  }

  function MonthOfDay(dayInYear: int, leap: bool, from: int): (m: int)
    requires 0 <= from <= 11 && DaysBefore(from, leap) <= dayInYear < DaysBefore(12, leap)
    ensures 0 <= m <= 11 && DaysBefore(m, leap) <= dayInYear < DaysBefore(m + 1, leap)
    decreases 12 - from
  {
    if dayInYear < DaysBefore(from + 1, leap) then from else MonthOfDay(dayInYear, leap, from + 1)
  }

  function FullYear(t: int): int {
    YearOfDay(t / MS_PER_DAY, 1970)
  }

  function Month(t: int): (m: int)
    ensures 0 <= m <= 11
  {
    var y := FullYear(t);
    YearLength(y);
    MonthOfDay(t / MS_PER_DAY - DayFromYear(y), Leap(y), 0)
  }

  // ----- months counted through

  /** Midnight on the first of the k-th month, month 0 being January of year 0. */
  function StartOf(k: int): int {
    (DayFromYear(k / 12) + DaysBefore(k % 12, Leap(k / 12))) * MS_PER_DAY
  }

  function MonthIndex(t: int): int {
    12 * FullYear(t) + Month(t)
  }

  lemma StartOfNext(k: int)
    ensures StartOf(k) < StartOf(k + 1)
  {
    YearLength(k / 12);
    if k % 12 == 11 {
      assert (k + 1) / 12 == k / 12 + 1 && (k + 1) % 12 == 0;
    } else {
      assert (k + 1) / 12 == k / 12 && (k + 1) % 12 == k % 12 + 1;
    }
  }

  lemma {:induction false} StartOfGrows(k: int, n: int)
    requires k < n
    ensures StartOf(k) < StartOf(n)
    decreases n - k
  {
    hide StartOf;
    StartOfNext(n - 1);
    if k < n - 1 {
      StartOfGrows(k, n - 1);
    }
  }

  lemma StartOfInjective(k: int, n: int)
    requires StartOf(k) == StartOf(n)
    ensures k == n
  {
    hide StartOf;
    if k < n {
      StartOfGrows(k, n);
    } else if n < k {
      StartOfGrows(n, k);
    }
  }

  /** Every time lies in the month its year and month say. */
  lemma InItsMonth(t: int)
    ensures StartOf(MonthIndex(t)) <= t < StartOf(MonthIndex(t) + 1)
  {
    hide StartOf, DaysBefore, DayFromYear, Leap, FullYear, Month;
    var y, m := FullYear(t), Month(t);
    MonthFits(t);
    StartOfMonth(y, m);
    EndOfMonth(y, m);
    DayBounds(t, DayFromYear(y) + DaysBefore(m, Leap(y)), DayFromYear(y) + DaysBefore(m + 1, Leap(y)));
  }

  lemma DayBounds(t: int, first: int, next: int)
    requires first <= t / MS_PER_DAY < next
    ensures first * MS_PER_DAY <= t < next * MS_PER_DAY
  {
  }

  lemma StartOfMonth(y: int, m: int)
    requires 0 <= m <= 11
    ensures StartOf(12 * y + m) == (DayFromYear(y) + DaysBefore(m, Leap(y))) * MS_PER_DAY
  {
    assert (12 * y + m) / 12 == y && (12 * y + m) % 12 == m;
  }

  lemma MonthFits(t: int)
    ensures var y, m, day := FullYear(t), Month(t), t / MS_PER_DAY;
            DayFromYear(y) + DaysBefore(m, Leap(y)) <= day < DayFromYear(y) + DaysBefore(m + 1, Leap(y))
  {
  }

  lemma EndOfMonth(y: int, m: int)
    requires 0 <= m <= 11
    ensures StartOf(12 * y + m + 1) == (DayFromYear(y) + DaysBefore(m + 1, Leap(y))) * MS_PER_DAY
  {
    YearLength(y);
    if m == 11 {
      assert (12 * y + 12) / 12 == y + 1 && (12 * y + 12) % 12 == 0;
    } else {
      assert (12 * y + m + 1) / 12 == y && (12 * y + m + 1) % 12 == m + 1;
    }
  }

  /** The month of a month's start is that month. */
  lemma MonthOfStart(k: int)
    ensures MonthIndex(StartOf(k)) == k
  {
    hide StartOf, MonthIndex;
    var n := MonthIndex(StartOf(k));
    InItsMonth(StartOf(k));
    if n < k {
      if n + 1 < k {
        StartOfGrows(n + 1, k);
      }
    } else if k < n {
      StartOfGrows(k, n);
    }
  }

  lemma YearAndMonthOfStart(k: int)
    ensures FullYear(StartOf(k)) == k / 12 && Month(StartOf(k)) == k % 12
  {
    MonthOfStart(k);
    var y, m := FullYear(StartOf(k)), Month(StartOf(k));
    assert k == 12 * y + m;
  }

  /** The days of a month, in the words of the calendar. */
  function MonthLength(y: int, m: int): int {
    if m == 1 then (if y % 4 == 0 && (y % 100 != 0 || y % 400 == 0) then 29 else 28)
    else if m == 3 || m == 5 || m == 8 || m == 10 then 30
    else 31
  }

  /** Counting from midnight on 1 January 1970, each month is as long as the calendar has it. */
  lemma MonthLengths(y: int, m: int)
    requires 0 <= m <= 11
    ensures StartOf(12 * y + m + 1) - StartOf(12 * y + m) == MonthLength(y, m) * 86400000
    ensures StartOf(12 * 1970) == 0
  {
    hide StartOf, DayFromYear;
    StartOfMonth(y, m);
    EndOfMonth(y, m);
    StartOfMonth(1970, 0);
    assert DayFromYear(1970) == 0 by { Epoch(); }
  }

  lemma Epoch()
    ensures DayFromYear(1970) == 0
  {
  }

  // ----- the ranges

  /** `Date.UTC(year, month, 1)`, section 21.4.3.4: the years 0 to 99 stand for 1900 to 1999, and the month
      may lie outside its year. */
  function MakeFullYear(year: int): int {
    if 0 <= year <= 99 then 1900 + year else year
  }

  function Utc(year: int, month: int): int {
    StartOf(12 * MakeFullYear(year) + month)
  }

  datatype Range = Range(start: int, end: int)

  function RangeAt(now: int, count: nat, index: nat): Range
    requires index < count
  {
    var start := Utc(FullYear(now), Month(now) - ((count - 1) - index));
    Range(start, Utc(FullYear(start), Month(start) + 1))
  }

  function LastMonths(now: int, count: nat): (r: seq<Range>)
    ensures |r| == count && forall i :: 0 <= i < count ==> r[i] == RangeAt(now, count, i)
  {
    seq(count, i requires 0 <= i < count => RangeAt(now, count, i))
  }

  /** The month the i-th range starts with. */
  function RangeMonth(now: int, count: nat, index: int): int {
    12 * MakeFullYear(FullYear(now)) + Month(now) - ((count - 1) - index)
  }

  /** Each range is one whole month, unless it starts in the years 0 to 99, when it reaches 1900 years further; and
      the i-th of n starts n - 1 - i months before the current one, that one too taken 1900 years later in those
      years. */
  lemma RangeIsMonth(now: int, count: nat, i: nat)
    requires i < count
    ensures var k, range := RangeMonth(now, count, i), RangeAt(now, count, i);
            && range.start == StartOf(k)
            && k == MonthIndex(now) + (if 0 <= FullYear(now) <= 99 then 22800 else 0) - (count - 1 - i)
            && range.end == StartOf(if 0 <= k / 12 <= 99 then k + 1 + 22800 else k + 1)
            && (range.end == StartOf(k + 1) <==> !(0 <= k / 12 <= 99))
  {
    hide StartOf, FullYear, Month;
    var k := RangeMonth(now, count, i);
    YearAndMonthOfStart(k);
    var end := 12 * MakeFullYear(k / 12) + k % 12 + 1;
    assert RangeAt(now, count, i).end == StartOf(end);
    if StartOf(end) == StartOf(k + 1) {
      StartOfInjective(end, k + 1);
    }
  }

  /** Ranges follow one another without gap or overlap, each one a month. */
  predicate Adjacent(ranges: seq<Range>) {
    && (forall i :: 0 <= i < |ranges| ==> ranges[i].start < ranges[i].end)
    && (forall i :: 0 <= i < |ranges| - 1 ==> ranges[i].end == ranges[i + 1].start)
  }

  /** For every date and count: the ranges are adjacent and disjoint if and only if none of them starts in
      the years 0 to 99. */
  lemma RangesAdjacent(now: int, count: nat)
    requires count > 0
    ensures Adjacent(LastMonths(now, count)) <==>
            MakeFullYear(FullYear(now)) < 0 || RangeMonth(now, count, 0) >= 1200
  {
    hide StartOf, FullYear, Month, RangeAt;
    var ranges, first, last := LastMonths(now, count), RangeMonth(now, count, 0), RangeMonth(now, count, count - 1);
    if MakeFullYear(FullYear(now)) < 0 || first >= 1200 {
      forall i | 0 <= i < count
        ensures ranges[i].start == StartOf(first + i) && ranges[i].end == StartOf(first + i + 1)
        ensures StartOf(first + i) < StartOf(first + i + 1)
      {
        RangeIsMonth(now, count, i);
        StartOfNext(first + i);
      }
    } else {
      var i := 1199 - first;
      assert last >= 1200;
      RangeIsMonth(now, count, i);
      RangeIsMonth(now, count, i + 1);
      assert ranges[i].end != ranges[i + 1].start;
    }
  }

  /** The last range holds the current date if and only if that is not in the years 0 to 99. */
  lemma LastRangeHoldsNow(now: int, count: nat)
    requires count > 0
    ensures var last := LastMonths(now, count)[count - 1];
            last.start <= now < last.end <==> !(0 <= FullYear(now) <= 99)
  {
    hide StartOf, FullYear, Month, RangeAt;
    RangeIsMonth(now, count, count - 1);
    InItsMonth(now);
    YearOfIndex(now);
    if 0 <= FullYear(now) <= 99 {
      StartOfGrows(MonthIndex(now) + 1, RangeMonth(now, count, count - 1));
    }
  }

  lemma YearOfIndex(t: int)
    ensures MonthIndex(t) / 12 == FullYear(t)
  {
  }

  // ----- the trend

  datatype Payout = Payout(createdAt: int, amount: int)

  function SumIn(payouts: seq<Payout>, start: int, end: int): int {
    if payouts == [] then 0
    else
      var p := payouts[|payouts| - 1];
      SumIn(payouts[..|payouts| - 1], start, end) + if start <= p.createdAt < end then p.amount else 0
  }

  function TrendValues(payouts: seq<Payout>, ranges: seq<Range>): seq<int> {
    if ranges == [] then []
    else
      var last := ranges[|ranges| - 1];
      TrendValues(payouts, ranges[..|ranges| - 1]) + [SumIn(payouts, last.start, last.end)]
  }

  function Sum(values: seq<int>): int {
    if values == [] then 0 else Sum(values[..|values| - 1]) + values[|values| - 1]
  }

  lemma {:induction false} SumInSplit(payouts: seq<Payout>, a: int, b: int, c: int)
    requires a <= b <= c
    ensures SumIn(payouts, a, c) == SumIn(payouts, a, b) + SumIn(payouts, b, c)
  {
    if payouts != [] {
      SumInSplit(payouts[..|payouts| - 1], a, b, c);
    }
  }

  lemma {:induction false} AdjacentSums(payouts: seq<Payout>, ranges: seq<Range>)
    requires ranges != [] && Adjacent(ranges)
    ensures ranges[0].start < ranges[|ranges| - 1].end
    ensures Sum(TrendValues(payouts, ranges)) == SumIn(payouts, ranges[0].start, ranges[|ranges| - 1].end)
    decreases |ranges|
  {
    var init, last := ranges[..|ranges| - 1], ranges[|ranges| - 1];
    var values, value := TrendValues(payouts, init), SumIn(payouts, last.start, last.end);
    assert (values + [value])[..|values|] == values;
    if init != [] {
      AdjacentSums(payouts, init);
      assert init[|init| - 1].end == last.start;
      SumInSplit(payouts, ranges[0].start, last.start, last.end);
    }
  }

  /** The i-th value is the sum of the payouts of the i-th range. */
  lemma {:induction false} TrendValueAt(payouts: seq<Payout>, ranges: seq<Range>, i: nat)
    requires i < |ranges|
    ensures |TrendValues(payouts, ranges)| == |ranges|
    ensures TrendValues(payouts, ranges)[i] == SumIn(payouts, ranges[i].start, ranges[i].end)
    decreases |ranges|
  {
    if |ranges| > 1 {
      TrendValueAt(payouts, ranges[..|ranges| - 1], if i < |ranges| - 1 then i else 0);
    }
  }

  ghost predicate AddsUp(payouts: seq<Payout>, ranges: seq<Range>)
    requires ranges != []
  {
    Sum(TrendValues(payouts, ranges)) == SumIn(payouts, ranges[0].start, ranges[|ranges| - 1].end)
  }

  /** For every date and count: the trend's values add up to the payouts from the start of the first month to
      the end of the last, whatever the payouts, if and only if no range starts in the years 0 to 99. */
  lemma TrendAddsUp(now: int, count: nat)
    requires count > 0
    ensures (forall payouts :: AddsUp(payouts, LastMonths(now, count))) <==>
            MakeFullYear(FullYear(now)) < 0 || RangeMonth(now, count, 0) >= 1200
  {
    hide Adjacent, SumIn, Sum, TrendValues, StartOf, FullYear, Month, RangeAt, RangeMonth;
    var ranges := LastMonths(now, count);
    RangesAdjacent(now, count);
    if Adjacent(ranges) {
      forall payouts
        ensures AddsUp(payouts, ranges)
      {
        AdjacentSums(payouts, ranges);
      }
    } else {
      CountedTwice(now, count);
    }
  }

  /** Otherwise the range of December of year 99 reaches to the end of 1999, and a payout in the month after is
      counted in both. */
  lemma CountedTwice(now: int, count: nat)
    requires count > 0 && MakeFullYear(FullYear(now)) >= 0 && RangeMonth(now, count, 0) < 1200
    ensures !AddsUp([Payout(StartOf(1200), 1)], LastMonths(now, count))
  {
    hide StartOf, FullYear, Month, RangeAt;
    var ranges, first := LastMonths(now, count), RangeMonth(now, count, 0);
    var i, payout := 1199 - first, Payout(StartOf(1200), 1);
    RangeHas(now, count, i);
    RangeHas(now, count, i + 1);
    RangeHas(now, count, 0);
    RangeHas(now, count, count - 1);
    TwoValues([payout], ranges, i, i + 1);
    OnePayout(payout, ranges[0].start, ranges[count - 1].end);
    OnePayout(payout, ranges[i].start, ranges[i].end);
    OnePayout(payout, ranges[i + 1].start, ranges[i + 1].end);
  }

  lemma OnePayout(p: Payout, start: int, end: int)
    ensures SumIn([p], start, end) == if start <= p.createdAt < end then p.amount else 0
  {
    assert [p][..0] == [];
  }

  /** Where a range lies to the first month of the year 100. */
  lemma RangeHas(now: int, count: nat, i: nat)
    requires i < count
    ensures var k, range := RangeMonth(now, count, i), RangeAt(now, count, i);
            && (k <= 1200 ==> range.start <= StartOf(1200))
            && (k == 1199 || k >= 1200 ==> StartOf(1200) < range.end)
  {
    hide StartOf, FullYear, Month;
    var k := RangeMonth(now, count, i);
    YearAndMonthOfStart(k);
    var end := 12 * MakeFullYear(k / 12) + k % 12 + 1;
    assert RangeAt(now, count, i) == Range(StartOf(k), StartOf(end));
    if k < 1200 {
      StartOfGrows(k, 1200);
    }
    if k >= 1199 {
      StartOfGrows(1200, end);
    }
  }

  lemma {:induction false} TwoValues(payouts: seq<Payout>, ranges: seq<Range>, i: nat, j: nat)
    requires i < j < |ranges| && forall p :: p in payouts ==> p.amount >= 0
    ensures Sum(TrendValues(payouts, ranges))
            >= SumIn(payouts, ranges[i].start, ranges[i].end) + SumIn(payouts, ranges[j].start, ranges[j].end)
    decreases |ranges|
  {
    var init, last := ranges[..|ranges| - 1], ranges[|ranges| - 1];
    TrendSnoc(payouts, init, last);
    assert ranges == init + [last];
    SumInPositive(payouts, last.start, last.end);
    if j < |init| {
      TwoValues(payouts, init, i, j);
    } else {
      OneValue(payouts, init, i);
    }
  }

  lemma {:induction false} OneValue(payouts: seq<Payout>, ranges: seq<Range>, i: nat)
    requires i < |ranges| && forall p :: p in payouts ==> p.amount >= 0
    ensures Sum(TrendValues(payouts, ranges)) >= SumIn(payouts, ranges[i].start, ranges[i].end)
    decreases |ranges|
  {
    var init, last := ranges[..|ranges| - 1], ranges[|ranges| - 1];
    TrendSnoc(payouts, init, last);
    assert ranges == init + [last];
    SumInPositive(payouts, last.start, last.end);
    if i < |init| {
      OneValue(payouts, init, i);
    } else {
      TrendPositive(payouts, init);
    }
  }

  lemma {:induction false} TrendPositive(payouts: seq<Payout>, ranges: seq<Range>)
    requires forall p :: p in payouts ==> p.amount >= 0
    ensures Sum(TrendValues(payouts, ranges)) >= 0
    decreases |ranges|
  {
    if ranges != [] {
      var init, last := ranges[..|ranges| - 1], ranges[|ranges| - 1];
      TrendSnoc(payouts, init, last);
      assert ranges == init + [last];
      SumInPositive(payouts, last.start, last.end);
      TrendPositive(payouts, init);
    }
  }

  lemma TrendSnoc(payouts: seq<Payout>, ranges: seq<Range>, last: Range)
    ensures Sum(TrendValues(payouts, ranges + [last]))
            == Sum(TrendValues(payouts, ranges)) + SumIn(payouts, last.start, last.end)
  {
    assert (ranges + [last])[..|ranges|] == ranges;
    var values, value := TrendValues(payouts, ranges), SumIn(payouts, last.start, last.end);
    assert (values + [value])[..|values|] == values;
  }

  lemma {:induction false} SumInPositive(payouts: seq<Payout>, start: int, end: int)
    requires forall p :: p in payouts ==> p.amount >= 0
    ensures SumIn(payouts, start, end) >= 0
  {
    if payouts != [] {
      SumInPositive(payouts[..|payouts| - 1], start, end);
    }
  }
}
