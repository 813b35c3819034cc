/** Adding seconds to a calendar date, and how the driver's calendar relates to the Gregorian one. */
module RtcCalendar {

  const DAY: nat := 86400
  const INT_MAX: int := 0x7fff_ffff

  /** rtc_time_t; week runs from 1, Monday, to 7. */
  datatype Time = Time(year: nat, mon: nat, day: nat, hour: nat, min: nat, sec: nat, week: nat)

  /** The leap years: every fourth, as is_leap_year has it, or those of the Gregorian calendar. */
  datatype Rule = Fourth | Gregorian

  predicate Leap(rule: Rule, y: nat) {
    match rule
    case Fourth => y % 4 == 0
    case Gregorian => y % 4 == 0 && (y % 100 != 0 || y % 400 == 0)
  }

  function YearDays(rule: Rule, y: nat): nat {
    if Leap(rule, y) then 366 else 365
  }

  const DAYS: seq<nat> := [31, 28, 31, 30, 31, 30, 31, 31, 30, 31, 30, 31]

  /** get_month_day. */
  function MonthDays(rule: Rule, y: nat, m: nat): nat
    requires 1 <= m <= 12
  {
    if Leap(rule, y) && m == 2 then 29 else DAYS[m - 1]
  }

  /** Days from the start of 2000 to the start of year y. */
  function YearStart(rule: Rule, y: nat): nat {
    if y <= 2000 then 0 else YearStart(rule, y - 1) + YearDays(rule, y - 1)
  }

  /** Days from the start of the year to the start of month m. */
  function MonthStart(rule: Rule, y: nat, m: nat): nat
    requires 1 <= m <= 12
  {
    if m == 1 then 0 else MonthStart(rule, y, m - 1) + MonthDays(rule, y, m - 1)
  }

  predicate Normal(rule: Rule, t: Time) {
    && t.year >= 2000 && 1 <= t.mon <= 12 && 1 <= t.day <= MonthDays(rule, t.year, t.mon)
    && t.hour < 24 && t.min < 60 && t.sec < 60 && 1 <= t.week <= 7
  }

  /** Days since 2000-01-01. */
  function DayNumber(rule: Rule, t: Time): int
    requires 1 <= t.mon <= 12
  {
    YearStart(rule, t.year) + MonthStart(rule, t.year, t.mon) + t.day - 1
  }

  function SecondOfDay(t: Time): nat {
    t.hour * 3600 + t.min * 60 + t.sec
  }

  /** Seconds since 2000-01-01 00:00:00. */
  function Instant(rule: Rule, t: Time): int
    requires 1 <= t.mon <= 12
  {
    DayNumber(rule, t) * DAY + SecondOfDay(t)
  }

  /** Seconds since the start of the year. */
  function SecondOfYear(t: Time): int
    requires 1 <= t.mon <= 12
  {
    (MonthStart(Fourth, t.year, t.mon) + t.day - 1) * DAY + SecondOfDay(t)
  }

  lemma YearIsMonths(rule: Rule, y: nat)
    ensures MonthStart(rule, y, 12) + 31 == YearDays(rule, y)
  {
    assert MonthStart(rule, y, 2) == 31;
    assert MonthStart(rule, y, 3) == 31 + MonthDays(rule, y, 2);
    assert MonthStart(rule, y, 4) == MonthStart(rule, y, 3) + 31;
    assert MonthStart(rule, y, 5) == MonthStart(rule, y, 4) + 30;
    assert MonthStart(rule, y, 6) == MonthStart(rule, y, 5) + 31;
    assert MonthStart(rule, y, 7) == MonthStart(rule, y, 6) + 30;
    assert MonthStart(rule, y, 8) == MonthStart(rule, y, 7) + 31;
    assert MonthStart(rule, y, 9) == MonthStart(rule, y, 8) + 31;
    assert MonthStart(rule, y, 10) == MonthStart(rule, y, 9) + 30;
    assert MonthStart(rule, y, 11) == MonthStart(rule, y, 10) + 31;
    assert MonthStart(rule, y, 12) == MonthStart(rule, y, 11) + 30;
  }

  /** The month table, in closed form. */
  lemma {:induction false} MonthFormula(rule: Rule, y: nat, m: nat)
    requires 1 <= m <= 12
    ensures MonthStart(rule, y, m) ==
            if m <= 2 then 31 * (m - 1) else 59 + (if Leap(rule, y) then 1 else 0) + (153 * (m - 3) + 2) / 5
  {
    if m == 1 {
    } else {
      MonthFormula(rule, y, m - 1);
    }
  }

  /** How many of the k years from 2000 on are leap years. */
  function LeapCount(rule: Rule, k: nat): int {
    (k + 3) / 4 + if rule.Fourth? then 0 else (k + 399) / 400 - (k + 99) / 100
  }

  /** The years, in closed form. */
  lemma {:induction false} YearFormula(rule: Rule, y: nat)
    requires y >= 2000
    ensures YearStart(rule, y) == 365 * (y - 2000) + LeapCount(rule, y - 2000)
  {
    hide LeapCount, Leap;
    if y == 2000 {
      NoneYet(rule);
    } else {
      YearFormula(rule, y - 1);
      LeapStep(rule, y - 1);
    }
  }

  lemma NoneYet(rule: Rule)
    ensures LeapCount(rule, 0) == 0
  {
  }

  /** A leap year raises the count by one. */
  lemma LeapStep(rule: Rule, y: nat)
    requires y >= 2000
    ensures LeapCount(rule, y - 1999) - LeapCount(rule, y - 2000) == if Leap(rule, y) then 1 else 0
  {
    Fourths(y - 2000);
    Hundredths(y - 2000);
    FourHundredths(y - 2000);
    Divides(y);
  }

  lemma Fourths(k: nat)
    ensures (k + 4) / 4 - (k + 3) / 4 == if (2000 + k) % 4 == 0 then 1 else 0
  {
  }

  lemma Hundredths(k: nat)
    ensures (k + 100) / 100 - (k + 99) / 100 == if (2000 + k) % 100 == 0 then 1 else 0
  {
  }

  lemma FourHundredths(k: nat)
    ensures (k + 400) / 400 - (k + 399) / 400 == if (2000 + k) % 400 == 0 then 1 else 0
  {
  }

  lemma Divides(y: nat)
    ensures y % 100 == 0 ==> y % 4 == 0
    ensures y % 400 == 0 ==> y % 100 == 0
  {
    if y % 100 == 0 { FourDivides(y / 100); }
    if y % 400 == 0 { HundredDivides(y / 400); }
  }

  lemma FourDivides(q: nat)
    ensures 100 * q % 4 == 0
  {
  }

  lemma HundredDivides(q: nat)
    ensures 400 * q % 100 == 0
  {
  }

  // ---- A date is told by its instant ----

  lemma {:induction false} MonthsRise(rule: Rule, y: nat, m: nat, n: nat)
    requires 1 <= m < n <= 12
    ensures MonthStart(rule, y, m) + MonthDays(rule, y, m) <= MonthStart(rule, y, n)
    decreases n - m
  {
    if n == m + 1 {
    } else {
      MonthsRise(rule, y, m, n - 1);
    }
  }

  lemma {:induction false} YearsRise(rule: Rule, y: nat, z: nat)
    requires 2000 <= y < z
    ensures YearStart(rule, y) + YearDays(rule, y) <= YearStart(rule, z)
    decreases z - y
  {
    hide Leap;
    if z == y + 1 {
    } else {
      YearsRise(rule, y, z - 1);
    }
  }

  /** The day lies in its year. */
  lemma InYear(rule: Rule, t: Time)
    requires Normal(rule, t)
    ensures YearStart(rule, t.year) <= DayNumber(rule, t) < YearStart(rule, t.year) + YearDays(rule, t.year)
  {
    hide YearStart, Leap, MonthStart, YearDays;
    YearIsMonths(rule, t.year);
    if t.mon < 12 { MonthsRise(rule, t.year, t.mon, 12); }
  }

  /** An earlier year or month means an earlier day. */
  lemma DaysRise(rule: Rule, t: Time, u: Time)
    requires Normal(rule, t) && Normal(rule, u)
    requires t.year < u.year || (t.year == u.year && t.mon < u.mon)
    ensures DayNumber(rule, t) < DayNumber(rule, u)
  {
    hide YearStart, Leap, MonthStart;
    if t.year < u.year {
      InYear(rule, t);
      InYear(rule, u);
      YearsRise(rule, t.year, u.year);
    } else {
      MonthsRise(rule, t.year, t.mon, u.mon);
    }
  }

  lemma SameDay(a: int, s: nat, b: int, r: nat)
    requires s < DAY && r < DAY && a * DAY + s == b * DAY + r
    ensures a == b && s == r
  {
  }

  lemma SameClock(t: Time, u: Time)
    requires t.min < 60 && t.sec < 60 && u.min < 60 && u.sec < 60 && SecondOfDay(t) == SecondOfDay(u)
    ensures t.hour == u.hour && t.min == u.min && t.sec == u.sec
  {
  }

  /** Two normal times with the same instant are the same, but for the weekday they carry: the result
      of adding an interval is determined by its instant. */
  lemma InstantTells(rule: Rule, t: Time, u: Time)
    requires Normal(rule, t) && Normal(rule, u) && Instant(rule, t) == Instant(rule, u)
    ensures t == u.(week := t.week)
  {
    hide YearStart, Leap, MonthStart, DayNumber;
    SameDay(DayNumber(rule, t), SecondOfDay(t), DayNumber(rule, u), SecondOfDay(u));
    SameClock(t, u);
    if t.year < u.year || (t.year == u.year && t.mon < u.mon) {
      DaysRise(rule, t, u);
      assert false;
    }
    if u.year < t.year || (t.year == u.year && u.mon < t.mon) {
      DaysRise(rule, u, t);
      assert false;
    }
    SameMonth(rule, t, u);
  }

  lemma SameMonth(rule: Rule, t: Time, u: Time)
    requires Normal(rule, t) && Normal(rule, u) && t.year == u.year && t.mon == u.mon
    requires DayNumber(rule, t) == DayNumber(rule, u)
    ensures t.day == u.day
  {
  }

  /** rtc_time_t updated in place. */
  class Clock {
    var year: nat
    var mon: nat
    var day: nat
    var hour: nat
    var min: nat
    var sec: nat
    var week: nat

    function Value(): Time
      reads this
    {
      Time(year, mon, day, hour, min, sec, week)
    }

    constructor (t: Time)
      ensures Value() == t
    {
      year, mon, day, hour, min, sec, week := t.year, t.mon, t.day, t.hour, t.min, t.sec, t.week;
    }

    /** The first loop of interval2time: the seconds from the start of the year to the start of the month. */
    method MonthSeconds() returns (total: int)
      requires 1 <= mon <= 12
      ensures total == MonthStart(Fourth, year, mon) * DAY
    {
      total := 0;
      for i := 1 to mon
        invariant total == MonthStart(Fourth, year, i) * DAY
      {
        total := total + MonthDays(Fourth, year, i) * DAY;
      }
    }

    /** interval2time: the date moves on by exactly `interval` seconds, with its weekday. */
    method AddInterval(interval: nat)
      requires Normal(Fourth, Value()) && interval + SecondOfYear(Value()) <= INT_MAX
      modifies this
      ensures Normal(Fourth, Value())
      ensures Instant(Fourth, Value()) == Instant(Fourth, old(Value())) + interval
      ensures (week - old(week)) % 7 == (DayNumber(Fourth, Value()) - DayNumber(Fourth, old(Value()))) % 7
    {
      hide YearStart, MonthStart, MonthDays, YearDays, DayNumber;
      ghost var t := Value();
      var passed := (interval + hour * 3600 + min * 60 + sec) / DAY;
      week := (week + passed) % 7;
      var total := MonthSeconds();
      total := total + (day - 1) * DAY + hour * 3600 + min * 60 + sec;
      var left: nat := interval + total;
      assert left <= INT_MAX;
      mon, day, hour, min, sec := 1, 1, 0, 0, 0;
      left := SkipYears(left);
      left := SkipMonths(left);
      SpreadOut(left);
      if week == 0 { week := 7; }
      Assembled(t, Value(), left, interval);
      DaysPassed(t, Value(), interval);
      WeekMoves(t.week, week, passed);
    }

    /** Whole days, hours and minutes. */
    method SpreadOut(seconds: nat)
      requires day == 1 && hour == min == sec == 0
      modifies this`day, this`hour, this`min, this`sec
      ensures day == 1 + seconds / DAY && hour < 24 && min < 60 && sec < 60 && SecondOfDay(Value()) == seconds % DAY
    {
      var left := seconds;
      day := day + left / DAY;
      left := left % DAY;
      hour := hour + left / 3600;
      left := left % 3600;
      min := min + left / 60;
      sec := sec + left % 60;
    }

    /** Whole years. */
    method SkipYears(seconds: nat) returns (left: nat)
      requires year >= 2000
      modifies this`year
      ensures year >= old(year) && left < YearDays(Fourth, year) * DAY
      ensures YearStart(Fourth, year) * DAY + left == YearStart(Fourth, old(year)) * DAY + seconds
    {
      left := seconds;
      while left > 0
        invariant year >= old(year)
        invariant YearStart(Fourth, year) * DAY + left == YearStart(Fourth, old(year)) * DAY + seconds
        decreases left
      {
        var delta := if year % 4 == 0 then 366 * DAY else 365 * DAY;
        if left >= delta {
          left := left - delta;
          year := year + 1;
        } else {
          break;
        }
      }
    }

    /** Whole months. */
    method SkipMonths(seconds: nat) returns (left: nat)
      requires mon == 1 && seconds < YearDays(Fourth, year) * DAY
      modifies this`mon
      ensures 1 <= mon <= 12 && left < MonthDays(Fourth, year, mon) * DAY
      ensures MonthStart(Fourth, year, mon) * DAY + left == seconds
    {
      YearIsMonths(Fourth, year);
      left := seconds;
      for i := 1 to 12
        invariant mon == i && MonthStart(Fourth, year, mon) * DAY + left == seconds
      {
        var delta := MonthDays(Fourth, year, i) * DAY;
        if left >= delta {
          left := left - delta;
          mon := mon + 1;
        } else {
          break;
        }
      }
    }
  }

  /** The parts put together again. */
  lemma Assembled(t: Time, r: Time, left: nat, interval: nat)
    requires Normal(Fourth, t) && 1 <= r.mon <= 12 && left < MonthDays(Fourth, r.year, r.mon) * DAY
    requires r.day == 1 + left / DAY && SecondOfDay(r) == left % DAY
    requires YearStart(Fourth, r.year) * DAY + MonthStart(Fourth, r.year, r.mon) * DAY + left ==
             YearStart(Fourth, t.year) * DAY + SecondOfYear(t) + interval
    ensures 1 <= r.day <= MonthDays(Fourth, r.year, r.mon) && SecondOfDay(t) < DAY && SecondOfDay(r) < DAY
    ensures Instant(Fourth, r) == Instant(Fourth, t) + interval
  {
    hide YearStart, MonthStart, MonthDays;
    assert left == left / DAY * DAY + left % DAY;
  }

  /** The days passed are those the weekday was moved by. */
  lemma DaysPassed(t: Time, r: Time, interval: nat)
    requires 1 <= t.mon <= 12 && 1 <= r.mon <= 12 && SecondOfDay(r) < DAY && SecondOfDay(t) < DAY
    requires Instant(Fourth, r) == Instant(Fourth, t) + interval
    ensures DayNumber(Fourth, r) - DayNumber(Fourth, t) == (interval + SecondOfDay(t)) / DAY
  {
    hide DayNumber, SecondOfDay;
    var a, b := DayNumber(Fourth, r), DayNumber(Fourth, t);
    assert (a - b) * DAY + SecondOfDay(r) == interval + SecondOfDay(t);
  }

  lemma WeekMoves(was: nat, now: nat, passed: nat)
    requires 1 <= was <= 7 && now == if (was + passed) % 7 == 0 then 7 else (was + passed) % 7
    ensures 1 <= now <= 7 && (now - was) % 7 == passed % 7
  {
  }

  // ---- The Gregorian calendar ----

  lemma {:induction false} YearsAgree(y: nat)
    requires y <= 2100
    ensures YearStart(Fourth, y) == YearStart(Gregorian, y)
  {
    if y <= 2000 {
    } else {
      YearsAgree(y - 1);
    }
  }

  lemma NextYear(rule: Rule, y: nat)
    requires y >= 2000
    ensures YearStart(rule, y + 1) == YearStart(rule, y) + YearDays(rule, y)
  {
  }

  /** From 2101 on the driver's calendar is at least a day ahead. */
  lemma {:induction false} YearsDiffer(y: nat, parting: nat)
    requires y > parting == 2100
    ensures YearStart(Gregorian, y) + 1 <= YearStart(Fourth, y)
    ensures YearStart(Fourth, parting) + 366 <= YearStart(Fourth, y)
  {
    hide YearStart;
    NextYear(Fourth, y - 1);
    NextYear(Gregorian, y - 1);
    if y == parting + 1 { YearsAgree(parting); } else { YearsDiffer(y - 1, parting); }
  }

  lemma {:induction false} YearsBefore(y: nat, parting: nat)
    requires 2000 <= y < parting
    ensures YearStart(Fourth, y) + YearDays(Fourth, y) <= YearStart(Fourth, parting)
    decreases parting - y
  {
    hide YearStart;
    NextYear(Fourth, y);
    if y + 1 == parting {
    } else {
      YearsBefore(y + 1, parting);
    }
  }

  lemma {:induction false} MonthsCompare(y: nat, m: nat)
    requires 2000 <= y && 1 <= m <= 12
    ensures MonthStart(Gregorian, y, m) <= MonthStart(Fourth, y, m)
    ensures y < 2100 || m <= 2 ==> MonthStart(Gregorian, y, m) == MonthStart(Fourth, y, m)
    ensures y == 2100 && m >= 3 ==>
              MonthStart(Gregorian, y, m) + 1 == MonthStart(Fourth, y, m) && MonthStart(Fourth, y, m) >= 60
    ensures (m == 1 ==> MonthStart(Fourth, y, m) == 0) && (m == 2 ==> MonthStart(Fourth, y, m) == 31)
    ensures y == 2100 && m == 3 ==> MonthStart(Fourth, y, m) == 60
  {
    if m == 1 {
    } else {
      MonthsCompare(y, m - 1);
    }
  }

  lemma {:induction false} MonthInYear(y: nat, m: nat)
    requires 1 <= m <= 12
    ensures MonthStart(Fourth, y, m) + MonthDays(Fourth, y, m) <= YearDays(Fourth, y)
    decreases 12 - m
  {
    if m == 12 { YearIsMonths(Fourth, y); } else { MonthInYear(y, m + 1); }
  }

  /** 1 March 2100, the first day on which the two calendars differ. */
  predicate Parting(p: Time) {
    p.year == 2100 && p.mon == 3 && p.day == 1 && p.hour == 0 && p.min == 0 && p.sec == 0
  }

  /** A date of the driver's calendar before 29 February 2100. */
  predicate Common(r: Time) {
    r.year < 2100 || (r.year == 2100 && (r.mon == 1 || (r.mon == 2 && r.day < 29)))
  }

  lemma PartingDay(p: Time)
    requires Parting(p)
    ensures DayNumber(Gregorian, p) == YearStart(Fourth, p.year) + 59 && SecondOfDay(p) == 0
  {
    hide YearStart, MonthStart;
    YearsAgree(p.year);
    MonthsCompare(p.year, p.mon);
  }

  /** Where a date of the driver's calendar lies with respect to the parting. */
  lemma BeforeParting(r: Time, p: Time)
    requires Normal(Fourth, r) && Parting(p)
    ensures Common(r) ==> Normal(Gregorian, r) && DayNumber(Gregorian, r) == DayNumber(Fourth, r)
    ensures !Common(r) ==> !Normal(Gregorian, r) || DayNumber(Gregorian, r) < DayNumber(Fourth, r)
    ensures Common(r) <==> DayNumber(Fourth, r) < DayNumber(Gregorian, p)
  {
    hide YearStart, MonthStart;
    PartingDay(p);
    MonthsCompare(r.year, r.mon);
    MonthInYear(r.year, r.mon);
    if r.year <= p.year { YearsAgree(r.year); }
    if r.year < p.year { YearsBefore(r.year, p.year); }
    if r.year > p.year { YearsDiffer(r.year, p.year); }
  }

  /** The order of instants is that of their days. */
  lemma DayOrder(d: int, s: nat, e: int)
    requires s < DAY
    ensures d < e <==> d * DAY + s < e * DAY
  {
  }

  lemma Agreeing(t: Time)
    requires Normal(Gregorian, t) && t.year <= 2099
    ensures 1 <= t.mon <= 12 && DayNumber(Gregorian, t) == DayNumber(Fourth, t)
  {
    hide YearStart, MonthStart;
    MonthsCompare(t.year, t.mon);
    YearsAgree(t.year);
  }

  lemma Clocked(r: Time)
    requires Normal(Fourth, r)
    ensures 1 <= r.mon <= 12 && SecondOfDay(r) < DAY
  {
  }

  /** From a date in 2000-2099 the date interval2time arrives at is the Gregorian one exactly as
      long as it lies before 1 March 2100. */
  lemma GregorianExact(t: Time, interval: nat, r: Time, p: Time)
    requires Normal(Gregorian, t) && t.year <= 2099 && Parting(p)
    requires Normal(Fourth, r) && Instant(Fourth, r) == Instant(Fourth, t) + interval
    ensures (Normal(Gregorian, r) && Instant(Gregorian, r) == Instant(Gregorian, t) + interval) <==>
              Instant(Gregorian, t) + interval < Instant(Gregorian, p)
  {
    hide DayNumber, Normal, SecondOfDay, Common;
    Agreeing(t);
    Clocked(r);
    BeforeParting(r, p);
    PartingDay(p);
    DayOrder(DayNumber(Fourth, r), SecondOfDay(r), DayNumber(Gregorian, p));
  }

  /** 29 February 2100, which does not exist, is 60 days after 31 December 2099. */
  lemma NoLeapDay2100(t: Time, r: Time)
    requires t.year == 2099 && t.mon == 12 && t.day == 31 && Normal(Gregorian, t)
    requires r == t.(year := 2100, mon := 2, day := 29)
    ensures Normal(Fourth, r) && !Normal(Gregorian, r) && Instant(Fourth, r) == Instant(Fourth, t) + 60 * DAY
  {
    hide YearStart, MonthStart;
    YearIsMonths(Fourth, t.year);
    NextYear(Fourth, t.year);
    MonthsCompare(r.year, r.mon);
  }
}
