/** The closed form that turns a UTC date and time into seconds since 1970, and the calendar it is for. */
module CivilDate {

  /** The division of the C language, which rounds toward 0. */
  function Quotient(a: int, b: nat): int
    requires b > 0
  {
    if a >= 0 then a / b else -(-a / b)
  }

  /** Days since 1970-01-01; month0 counts from 0. */
  function ClosedDays(year: int, month0: int, day: int): int {
    var m := month0 + 1;
    var y := year - if m <= 2 then 1 else 0;
    var era := Quotient(if y >= 0 then y else y - 399, 400);
    var yoe := y - era * 400;
    var doy := Quotient(153 * (m + if m > 2 then -3 else 9) + 2, 5) + day - 1;
    var doe := yoe * 365 + Quotient(yoe, 4) - Quotient(yoe, 100) + doy;
    era * 146097 + doe - 719468
  }

  function UtcEpoch(year: int, month0: int, day: int, hour: int, min: int, sec: int): int {
    ClosedDays(year, month0, day) * 86400 + hour * 3600 + min * 60 + sec
  }

  // ---- The Gregorian calendar ----

  /** Months and days count from 1. */
  datatype Date = Date(year: int, month: int, day: int)

  predicate Leap(year: int) {
    year % 4 == 0 && (year % 100 != 0 || year % 400 == 0)
  }

  function YearDays(year: int): nat {
    if Leap(year) then 366 else 365
  }

  function MonthDays(year: int, month: int): nat {
    if month == 2 then (if Leap(year) then 29 else 28)
    else if month == 4 || month == 6 || month == 9 || month == 11 then 30
    else 31
  }

  predicate Valid(d: Date) {
    1 <= d.month <= 12 && 1 <= d.day <= MonthDays(d.year, d.month)
  }

  /** The day after. */
  function Next(d: Date): Date {
    if d.day < MonthDays(d.year, d.month) then Date(d.year, d.month, d.day + 1)
    else if d.month < 12 then Date(d.year, d.month + 1, 1)
    else Date(d.year + 1, 1, 1)
  }

  /** The day before. */
  function Previous(d: Date): Date {
    if d.day > 1 then Date(d.year, d.month, d.day - 1)
    else if d.month > 1 then Date(d.year, d.month - 1, MonthDays(d.year, d.month - 1))
    else Date(d.year - 1, 12, 31)
  }

  /** The date n days after 1970-01-01, counted a day at a time. */
  function Counted(n: int): (d: Date)
    ensures Valid(d)
    decreases if n < 0 then -n else n
  {
    if n == 0 then Date(1970, 1, 1) else if n > 0 then Next(Counted(n - 1)) else Previous(Counted(n + 1))
  }

  /** The closed form's count of a date. */
  function Days(d: Date): int {
    ClosedDays(d.year, d.month - 1, d.day)
  }

  predicate Before(a: Date, b: Date) {
    a.year < b.year || (a.year == b.year && (a.month < b.month || (a.month == b.month && a.day < b.day)))
  }

  // ---- The closed form counts days ----

  /** The days before year y of a calendar whose years start in March. */
  function MarchDays(y: int): int {
    365 * y + y / 4 - y / 100 + y / 400
  }

  lemma {:induction false} ClosedIsMarch(d: Date)
    requires 1 <= d.month <= 12
    ensures Days(d) == MarchDays(if d.month > 2 then d.year else d.year - 1) + MarchMonth(d.month) + d.day - 1 - 719468
  {
    var y := d.year - if d.month <= 2 then 1 else 0;
    var era := Quotient(if y >= 0 then y else y - 399, 400);
    assert era == y / 400;
    var yoe := y - era * 400;
    assert 0 <= yoe < 400;
    assert y / 4 == 100 * era + yoe / 4 && y / 100 == 4 * era + yoe / 100;
  }

  lemma {:induction false} MarchStep(y: int)
    ensures MarchDays(y) == MarchDays(y - 1) + YearDays(y)
  {
    assert y / 4 == (y - 1) / 4 + if y % 4 == 0 then 1 else 0;
    assert y / 100 == (y - 1) / 100 + if y % 100 == 0 then 1 else 0;
    assert y / 400 == (y - 1) / 400 + if y % 400 == 0 then 1 else 0;
    if y % 400 == 0 {
      MultiplesOf400(y);
    }
    if y % 100 == 0 {
      MultiplesOf100(y);
    }
  }

  lemma {:induction false} MultiplesOf400(y: int)
    requires y % 400 == 0
    ensures y % 100 == 0
  {}

  lemma {:induction false} MultiplesOf100(y: int)
    requires y % 100 == 0
    ensures y % 4 == 0
  {}

  /** The days of a year that starts in March before one of its months. */
  function MarchMonth(month: int): int {
    (153 * (month + if month > 2 then -3 else 9) + 2) / 5
  }

  lemma {:induction false} MarchMonths(month: int)
    requires 1 <= month <= 12
    ensures MarchMonth(3) == 0 && MarchMonth(2) == 337 && MarchMonth(12) == 275 && MarchMonth(1) == 306
    ensures month != 2 && month < 12 ==> MarchMonth(month + 1) == MarchMonth(month) + MonthDays(2001, month)
  {}

  lemma {:induction false} NextOfYear(year: int)
    ensures Days(Date(year + 1, 1, 1)) == Days(Date(year, 12, 31)) + 1
  {}

  lemma {:induction false} NextOfMonth(year: int, month: int)
    requires 1 <= month < 12
    ensures Days(Date(year, month + 1, 1)) == Days(Date(year, month, MonthDays(year, month))) + 1
  {
    var last := Date(year, month, MonthDays(year, month));
    ClosedIsMarch(last);
    ClosedIsMarch(Date(year, month + 1, 1));
    MarchMonths(month);
    MarchStep(year);
    hide Days, MarchDays, MarchMonth;
    assert month != 2 ==> MonthDays(year, month) == MonthDays(2001, month);
  }

  lemma {:induction false} NextOfDay(d: Date)
    requires 1 <= d.month <= 12
    ensures Days(Date(d.year, d.month, d.day + 1)) == Days(d) + 1
  {}

  lemma {:induction false} NextIsOneMore(d: Date)
    requires Valid(d)
    ensures Valid(Next(d)) && Days(Next(d)) == Days(d) + 1
  {
    hide Days, Leap;
    if d.day < MonthDays(d.year, d.month) {
      NextOfDay(d);
    } else if d.month < 12 {
      NextOfMonth(d.year, d.month);
    } else {
      NextOfYear(d.year);
    }
  }

  lemma {:induction false} PreviousNext(d: Date)
    requires Valid(d)
    ensures Valid(Previous(d)) && Next(Previous(d)) == d
  {}

  /**
   The closed form is 0 on 1970-01-01, and counting any number of days from there, either way, gives a date it
   takes to that number.
   */
  lemma {:induction false} ClosedFormCounts(n: int)
    ensures Valid(Counted(n)) && Days(Counted(n)) == n
    decreases if n < 0 then -n else n
  {
    if n > 0 {
      ClosedFormCounts(n - 1);
      assert Counted(n) == Next(Counted(n - 1));
      hide Days, Next, Counted, Valid;
      NextIsOneMore(Counted(n - 1));
    } else if n < 0 {
      ClosedFormCounts(n + 1);
      assert Counted(n) == Previous(Counted(n + 1));
      hide Days, Next, Previous, Counted, Valid;
      PreviousNext(Counted(n + 1));
      NextIsOneMore(Counted(n));
    } else {
      assert Days(Date(1970, 1, 1)) == 0;
    }
  }

  // ---- Order ----

  function BeforeMonth(year: int, month: int): nat
    requires 1 <= month <= 12
    decreases month
  {
    if month == 1 then 0 else BeforeMonth(year, month - 1) + MonthDays(year, month - 1)
  }

  lemma {:induction false} MonthTable(year: int, month: int)
    requires 1 <= month <= 12
    ensures month > 2 ==> BeforeMonth(year, month) == MarchMonth(month) + 59 + YearDays(year) - 365
    ensures month <= 2 ==> BeforeMonth(year, month) == 31 * (month - 1)
    ensures BeforeMonth(year, month) + MonthDays(year, month) <= YearDays(year)
    decreases month
  {
    if month > 1 {
      MonthTable(year, month - 1);
    }
  }

  /** The days of the year before the date. */
  function YearDay(d: Date): int
    requires 1 <= d.month <= 12
  {
    BeforeMonth(d.year, d.month) + d.day - 1
  }

  /** The day count as that of the first of the year and the day of the year. */
  lemma {:induction false} DaysOfYear(d: Date)
    requires Valid(d)
    ensures Days(d) == MarchDays(d.year - 1) + 306 - 719468 + YearDay(d)
    ensures 0 <= YearDay(d) < YearDays(d.year)
  {
    ClosedIsMarch(d);
    MonthTable(d.year, d.month);
    MarchStep(d.year);
    MarchMonths(d.month);
    hide MarchDays, Days, YearDays, MarchMonth;
  }

  lemma {:induction false} MonthsGrow(year: int, a: int, b: int)
    requires 1 <= a < b <= 12
    ensures BeforeMonth(year, a) + MonthDays(year, a) <= BeforeMonth(year, b)
    decreases b
  {
    if a < b - 1 {
      MonthsGrow(year, a, b - 1);
    }
  }

  lemma {:induction false} YearsGrow(a: int, b: int)
    requires a < b
    ensures MarchDays(a - 1) + YearDays(a) <= MarchDays(b - 1)
    decreases b - a
  {
    MarchStep(b - 1);
    if a < b - 1 {
      YearsGrow(a, b - 1);
    }
  }

  lemma {:induction false} DaysGrow(a: Date, b: Date)
    requires Valid(a) && Valid(b) && Before(a, b)
    ensures Days(a) < Days(b)
  {
    if a.year < b.year {
      YearDayBound(a, b);
    } else {
      DaysOfYear(a);
      DaysOfYear(b);
      YearDaysGrow(a, b);
      hide Days, MarchDays, YearDay, YearDays, Valid, Before;
    }
  }

  lemma {:induction false} YearDayBound(a: Date, b: Date)
    requires Valid(a) && Valid(b) && a.year < b.year
    ensures Days(a) < Days(b)
  {
    DaysOfYear(a);
    DaysOfYear(b);
    YearsGrow(a.year, b.year);
    hide Days, MarchDays, YearDay, YearDays, Valid;
  }

  lemma {:induction false} YearDaysGrow(a: Date, b: Date)
    requires Valid(a) && Valid(b) && Before(a, b) && a.year == b.year
    ensures YearDay(a) < YearDay(b)
  {
    if a.month < b.month {
      MonthsGrow(a.year, a.month, b.month);
    }
    hide BeforeMonth, MonthDays;
  }

  /**
   Counting as many days from 1970-01-01 as the closed form says comes to the date: it is the day-by-day count
   of every date, of any year.
   */
  lemma {:induction false} CountedBack(d: Date)
    requires Valid(d)
    ensures Counted(Days(d)) == d
  {
    var c := Counted(Days(d));
    ClosedFormCounts(Days(d));
    if Before(c, d) {
      DaysGrow(c, d);
    } else if Before(d, c) {
      DaysGrow(d, c);
    }
  }

  // ---- With the time of day ----

  datatype Moment = Moment(date: Date, hour: int, min: int, sec: int)

  predicate ValidMoment(t: Moment) {
    Valid(t.date) && 0 <= t.hour < 24 && 0 <= t.min < 60 && 0 <= t.sec < 60
  }

  function SecondOfDay(t: Moment): int {
    t.hour * 3600 + t.min * 60 + t.sec
  }

  function Epoch(t: Moment): int {
    UtcEpoch(t.date.year, t.date.month - 1, t.date.day, t.hour, t.min, t.sec)
  }

  predicate Earlier(a: Moment, b: Moment) {
    || Before(a.date, b.date)
    || (a.date == b.date
        && (a.hour < b.hour || (a.hour == b.hour && (a.min < b.min || (a.min == b.min && a.sec < b.sec)))))
  }

  /** The conversion is strictly increasing in calendar order, whatever the years. */
  lemma {:induction false} EpochIsOrdered(a: Moment, b: Moment)
    requires ValidMoment(a) && ValidMoment(b)
    ensures Earlier(a, b) <==> Epoch(a) < Epoch(b)
  {
    hide Days, ClosedDays;
    assert Epoch(a) == 86400 * Days(a.date) + SecondOfDay(a) by {
      EpochSplits(a);
    }
    assert Epoch(b) == 86400 * Days(b.date) + SecondOfDay(b) by {
      EpochSplits(b);
    }
    hide Epoch;
    if Before(a.date, b.date) {
      DaysGrow(a.date, b.date);
    } else if Before(b.date, a.date) {
      DaysGrow(b.date, a.date);
    }
  }

  /** It is 86400 times the count of days, plus the seconds of the day. */
  lemma {:induction false} EpochSplits(t: Moment)
    ensures Epoch(t) == 86400 * Days(t.date) + SecondOfDay(t)
  {}

  /** The formula of POSIX.1-2017 Base Definitions, section 4.16; tmYear counts from 1900. */
  function PosixEpoch(sec: int, min: int, hour: int, yday: int, tmYear: int): int {
    sec + min * 60 + hour * 3600 + yday * 86400 + (tmYear - 70) * 31536000
      + Quotient(tmYear - 69, 4) * 86400 - Quotient(tmYear - 1, 100) * 86400 + Quotient(tmYear + 299, 400) * 86400
  }

  /** From 1970 on the conversion is the POSIX formula. */
  lemma {:induction false} EpochIsPosix(t: Moment)
    requires ValidMoment(t) && t.date.year >= 1970
    ensures Epoch(t) == PosixEpoch(t.sec, t.min, t.hour, YearDay(t.date), t.date.year - 1900)
  {
    var y := t.date.year;
    DaysOfYear(t.date);
    EpochSplits(t);
    assert MarchDays(y - 1) == 365 * (y - 1) + (y - 1) / 4 - (y - 1) / 100 + (y - 1) / 400;
    assert (y - 1) / 4 == (y - 1969) / 4 + 492;
    assert (y - 1) / 100 == (y - 1901) / 100 + 19;
    assert (y - 1) / 400 == (y - 1601) / 400 + 4;
    hide Days, Epoch, MarchDays;
  }
}
