/**
 The Gregorian calendar as JavaScript's `Date` sees it at a fixed UTC offset.

 A `Time` is a number of milliseconds since 1970-01-01 00:00 local time, a `Day` a number of whole
 days since then, and months are numbered through from January 1970 (month 0), so that "month + 1"
 needs no case split at the end of a year.
 */
module Calendar {

  type Time = nat
  type Day = nat

  const MS_PER_MINUTE: nat := 60_000
  const MS_PER_DAY: nat := 86_400_000
  const EPOCH_YEAR: nat := 1970
  const SUNDAY: nat := 0
  const SATURDAY: nat := 6

  datatype BillingCycle = Monthly | Annual

  function DayOf(t: Time): Day {
    t / MS_PER_DAY
  }

  function StartOfDay(d: Day): Time {
    d * MS_PER_DAY
  }

  predicate IsLeap(year: nat) {
    year % 4 == 0 && (year % 100 != 0 || year % 400 == 0)
  }

  function YearOf(month: nat): nat {
    EPOCH_YEAR + month / 12
  }

  function MonthLength(month: nat): (n: nat)
    ensures 28 <= n <= 31
  {
    var m := month % 12;
    if m == 1 then (if IsLeap(YearOf(month)) then 29 else 28)
    else if m == 3 || m == 5 || m == 8 || m == 10 then 30
    else 31
  }

  /** The day number of the first day of a month. */
  function MonthStart(month: nat): Day {
    if month == 0 then 0 else MonthStart(month - 1) + MonthLength(month - 1)
  }

  function MonthFrom(month: nat, d: Day): (k: nat)
    requires MonthStart(month) <= d
    ensures MonthStart(k) <= d < MonthStart(k + 1)
    decreases d - MonthStart(month)
  {
    if d < MonthStart(month + 1) then month else MonthFrom(month + 1, d)
  }

  /** The month a day lies in. */
  function MonthOf(d: Day): (k: nat)
    ensures MonthStart(k) <= d < MonthStart(k + 1)
  {
    MonthFrom(0, d)
  }

  /** 1 on the first of the month, as `getDate()`. */
  function DayOfMonth(d: Day): nat {
    d - MonthStart(MonthOf(d)) + 1
  }

  lemma {:induction false} MonthStartMonotone(i: nat, j: nat)
    requires i <= j
    ensures MonthStart(i) + 28 * (j - i) <= MonthStart(j)
    decreases j - i
  {
    if i < j {
      MonthStartMonotone(i, j - 1);
    }
  }

  /** Months tile the calendar: a day lies in exactly one of them. */
  lemma MonthIsUnique(d: Day, k: nat)
    requires MonthStart(k) <= d < MonthStart(k + 1)
    ensures MonthOf(d) == k
  {
    var m := MonthOf(d);
    if m < k {
      MonthStartMonotone(m + 1, k);
    } else if k < m {
      MonthStartMonotone(k + 1, m);
    }
  }

  /**
   `setMonth(getMonth() + n)`: the day of the month is kept as a number and counted from the first
   of the target month, so a number past that month's end overflows into the month after it.
   */
  function AddMonths(t: Time, n: nat): Time {
    var d := DayOf(t);
    var k := MonthOf(d);
    StartOfDay(MonthStart(k + n) + (d - MonthStart(k))) + t % MS_PER_DAY
  }

  /** One billing cycle later; `setFullYear(getFullYear() + 1)` is twelve months on. */
  function AddCycle(base: Time, cycle: BillingCycle): Time {
    AddMonths(base, if cycle.Annual? then 12 else 1)
  }

  /** The year whose February lies in the twelve months that begin with the given month. */
  function FebruaryYear(month: nat): nat {
    if month % 12 <= 1 then YearOf(month) else YearOf(month) + 1
  }

  /** Twelve months last 366 days exactly when they contain a leap February. */
  lemma {:induction false} TwelveMonths(k: nat)
    ensures MonthStart(k + 12) == MonthStart(k) + 365 + (if IsLeap(FebruaryYear(k)) then 1 else 0)
  {
    if k == 0 {
      FirstYear();
    } else {
      TwelveMonths(k - 1);
      assert k - 1 + 12 == k + 11;
      assert MonthStart(k + 12) == MonthStart(k + 11) + MonthLength(k + 11);
      FebruaryMoves(k - 1);
    }
  }

  /** Sliding a twelve-month window on by a month changes its length only when it drops a February. */
  lemma FebruaryMoves(j: nat)
    ensures MonthLength(j + 12) - MonthLength(j) ==
            (if IsLeap(FebruaryYear(j + 1)) then 1 else 0) - (if IsLeap(FebruaryYear(j)) then 1 else 0)
  {
    var y, m := j / 12, j % 12;
    assert (j + 12) % 12 == m && (j + 12) / 12 == y + 1;
    if m == 11 {
      assert (j + 1) % 12 == 0 && (j + 1) / 12 == y + 1;
    } else {
      assert (j + 1) % 12 == m + 1 && (j + 1) / 12 == y;
    }
  }

  lemma FirstYear()
    ensures MonthStart(12) == 365
  {
    assert MonthStart(4) == 120;
    assert MonthStart(8) == MonthStart(4) + 123;
    assert MonthStart(12) == MonthStart(8) + 122;
  }

  /**
   The day number of the first of a month by the closed form that counts years from March: 365 days a
   year, a leap day every 4 years but not every 100 unless every 400, and 153 days every 5 months.
   */
  function CivilStart(year: nat, month: nat): int
    requires year > 0 && 1 <= month <= 12
  {
    var y, m := if month <= 2 then year - 1 else year, if month <= 2 then month + 9 else month - 3;
    365 * y + LeapDays(y) + (153 * m + 2) / 5 - 719_468
  }

  /** The leap years among the first `y` years. */
  function LeapDays(y: nat): int {
    y / 4 - y / 100 + y / 400
  }

  lemma FourYears(y: nat)
    requires y > 0
    ensures y / 4 - (y - 1) / 4 == if y % 4 == 0 then 1 else 0
  {
  }

  lemma Century(y: nat)
    requires y > 0
    ensures y / 100 - (y - 1) / 100 == if y % 100 == 0 then 1 else 0
  {
  }

  lemma FourCenturies(y: nat)
    requires y > 0
    ensures y / 400 - (y - 1) / 400 == if y % 400 == 0 then 1 else 0
  {
  }

  lemma EveryHundred(y: nat)
    ensures y % 100 == 0 ==> y % 4 == 0
  {
    if y % 100 == 0 {
      assert y == 4 * (25 * (y / 100));
      TimesFour(25 * (y / 100));
    }
  }

  lemma TimesFour(n: nat)
    ensures (4 * n) % 4 == 0
  {
  }

  lemma EveryFourHundred(y: nat)
    ensures y % 400 == 0 ==> y % 100 == 0
  {
    if y % 400 == 0 {
      assert y == 100 * (4 * (y / 400));
      TimesHundred(4 * (y / 400));
    }
  }

  lemma TimesHundred(n: nat)
    ensures (100 * n) % 100 == 0
  {
  }

  lemma OneMoreLeapDay(y: nat)
    requires y > 0
    ensures LeapDays(y) - LeapDays(y - 1) == if IsLeap(y) then 1 else 0
  {
    EveryHundred(y);
    EveryFourHundred(y);
    FourYears(y);
    Century(y);
    FourCenturies(y);
  }

  /** The closed form moves on by the length of the month. */
  lemma CivilStep(year: nat, month: nat)
    requires year > 0 && 1 <= month <= 12
    ensures (if month == 12 then CivilStart(year + 1, 1) else CivilStart(year, month + 1)) - CivilStart(year, month) ==
            if month == 2 then (if IsLeap(year) then 29 else 28)
            else if month in {4, 6, 9, 11} then 30 else 31
  {
    if month == 2 {
      OneMoreLeapDay(year);
    }
  }

  /** The months, added up one by one from their lengths, begin where the closed form says. */
  lemma {:induction false} MonthStartIsCivil(k: nat)
    ensures MonthStart(k) == CivilStart(YearOf(k), k % 12 + 1)
  {
    if k > 0 {
      MonthStartIsCivil(k - 1);
      CivilNext(k - 1);
    }
  }

  lemma CivilNext(j: nat)
    ensures CivilStart(YearOf(j + 1), (j + 1) % 12 + 1) == CivilStart(YearOf(j), j % 12 + 1) + MonthLength(j)
  {
    CivilStep(YearOf(j), j % 12 + 1);
    NextMonth(j);
  }

  lemma NextMonth(j: nat)
    ensures if j % 12 == 11 then YearOf(j + 1) == YearOf(j) + 1 && (j + 1) % 12 == 0
            else YearOf(j + 1) == YearOf(j) && (j + 1) % 12 == j % 12 + 1
  {
  }

  lemma DayShift(t: Time, days: nat)
    ensures t == StartOfDay(DayOf(t)) + t % MS_PER_DAY
    ensures StartOfDay(DayOf(t) + days) == StartOfDay(DayOf(t)) + days * MS_PER_DAY
  {
  }

  /**
   A monthly cycle advances the instant by exactly the length of the month it starts in, an annual
   one by 365 days, or 366 when a leap February lies in between, whatever day it starts on.
   */
  lemma CycleLength(base: Time, cycle: BillingCycle)
    ensures cycle.Monthly? ==>
              AddCycle(base, cycle) == base + MonthLength(MonthOf(DayOf(base))) * MS_PER_DAY
    ensures cycle.Annual? ==>
              AddCycle(base, cycle) ==
              base + (365 + (if IsLeap(FebruaryYear(MonthOf(DayOf(base)))) then 1 else 0)) * MS_PER_DAY
  {
    var d := DayOf(base);
    var k := MonthOf(d);
    var n := if cycle.Annual? then 12 else 1;
    TwelveMonths(k);
    var days: nat := if cycle.Annual? then 365 + (if IsLeap(FebruaryYear(k)) then 1 else 0) else MonthLength(k);
    assert MonthStart(k + n) == MonthStart(k) + days;
    DayShift(base, days);
  }

  /**
   A monthly cycle ends on the same day of the following month exactly when that month has such a
   day; otherwise it overflows into the month after (31 January is followed by 2 or 3 March).
   */
  lemma MonthlyOverflow(base: Time)
    ensures var k := MonthOf(DayOf(base));
            var end := DayOf(AddCycle(base, Monthly));
            && (DayOfMonth(DayOf(base)) <= MonthLength(k + 1) <==>
                MonthOf(end) == k + 1 && DayOfMonth(end) == DayOfMonth(DayOf(base)))
            && (DayOfMonth(DayOf(base)) > MonthLength(k + 1) ==>
                && MonthOf(end) == k + 2
                && DayOfMonth(end) == DayOfMonth(DayOf(base)) - MonthLength(k + 1) <= 3)
  {
    var d := DayOf(base);
    var k := MonthOf(d);
    var end := MonthStart(k + 1) + (d - MonthStart(k));
    assert DayOf(AddCycle(base, Monthly)) == end;
    if DayOfMonth(d) <= MonthLength(k + 1) {
      MonthIsUnique(end, k + 1);
    } else {
      assert MonthStart(k + 3) == MonthStart(k + 2) + MonthLength(k + 2);
      MonthIsUnique(end, k + 2);
    }
  }

  // ---- weekdays -------------------------------------------------------------------------------

  /** 0 for Sunday to 6 for Saturday; 1 January 1970 was a Thursday. */
  function Weekday(d: Day): (w: nat)
    ensures w < 7
  {
    (d + 4) % 7
  }

  /** 1 January 2000 was a Saturday, and weekdays follow one another. */
  lemma WeekdaysAnchored(year: nat, d: Day)
    requires year == 2000
    ensures Weekday(MonthStart(12 * (year - EPOCH_YEAR))) == SATURDAY
    ensures Weekday(d + 1) == if Weekday(d) == SATURDAY then SUNDAY else Weekday(d) + 1
  {
    var k := 12 * (year - EPOCH_YEAR);
    MonthStartIsCivil(k);
    assert YearOf(k) == year && k % 12 == 0;
  }

  /** 1 on days 1-7 of the month, 2 on days 8-14, and so on. */
  function WeekOfMonth(d: Day): nat {
    (DayOfMonth(d) - 1) / 7 + 1
  }

  /** How many of the days from `first` to `last`, both included, fall on the given weekday. */
  function WeekdayCount(first: Day, last: Day, w: nat): nat
    decreases last
  {
    if last < first then 0
    else (if Weekday(last) == w then 1 else 0) + (if last == 0 then 0 else WeekdayCount(first, last - 1, w))
  }

  lemma {:induction false} WeekdaysNone(first: Day, last: Day, w: nat)
    requires forall e :: first <= e <= last ==> Weekday(e) != w
    ensures WeekdayCount(first, last, w) == 0
    decreases last
  {
    if first <= last && last > 0 {
      WeekdaysNone(first, last - 1, w);
    }
  }

  lemma {:induction false} WeekdayCountStep(first: Day, d: Day)
    requires first <= d
    ensures WeekdayCount(first, d, Weekday(d)) == (d - first) / 7 + 1
    decreases d
  {
    var w := Weekday(d);
    if d - first < 7 {
      if d > 0 {
        WeekdaysNone(first, d - 1, w);
      }
    } else {
      assert Weekday(d - 7) == w;
      WeekdayCountStep(first, d - 7);
      WeekdayCountSkip(first, d - 7, 6, w);
    }
  }

  lemma {:induction false} WeekdayCountSkip(first: Day, d: Day, n: nat, w: nat)
    requires first <= d && Weekday(d) == w && n < 7
    ensures WeekdayCount(first, d + n, w) == WeekdayCount(first, d, w)
    decreases n
  {
    if n > 0 {
      WeekdayCountSkip(first, d, n - 1, w);
    }
  }

  /** The week of the month of a day is its rank among the days of that month with its weekday. */
  lemma WeekOfMonthIsRank(d: Day)
    ensures WeekOfMonth(d) == WeekdayCount(MonthStart(MonthOf(d)), d, Weekday(d))
  {
    WeekdayCountStep(MonthStart(MonthOf(d)), d);
  }
}
