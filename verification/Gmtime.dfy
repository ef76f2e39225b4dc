/** Broken-down Gregorian time from a count of seconds: the closed formulas of ngx_gmtime against a
  * calendar that is counted out year by year, month by month and day by day. */
module Gmtime {
  datatype Tm = Tm(sec: int, min: int, hour: int, mday: int, mon: int, year: int, wday: int)

  // ---------------------------------------------------------------- the calendar

  predicate IsLeap(y: int) { y % 4 == 0 && (y % 100 != 0 || y % 400 == 0) }

  function YearLength(y: int): int { if IsLeap(y) then 366 else 365 }

  function MonthLength(y: int, m: int): int {
    if m == 2 then (if IsLeap(y) then 29 else 28)
    else if m == 4 || m == 6 || m == 9 || m == 11 then 30
    else 31
  }

  /** Days from January 1, 1970 to January 1 of year y. */
  function YearStart(y: int): (d: nat)
    requires y >= 1970
    decreases y
  {
    if y == 1970 then 0 else YearStart(y - 1) + YearLength(y - 1)
  }

  /** Days from January 1 to the first of month m. */
  function MonthStart(y: int, m: int): (d: nat)
    requires 1 <= m <= 12
    decreases m
  {
    if m == 1 then 0 else MonthStart(y, m - 1) + MonthLength(y, m - 1)
  }

  /** 0 is Sunday; January 1, 1970 was a Thursday. */
  function Weekday(day: nat): int {
    if day == 0 then 4
    else var w := Weekday(day - 1); if w == 6 then 0 else w + 1
  }

  predicate ValidTime(tm: Tm) {
    && tm.year >= 1970 && 1 <= tm.mon <= 12 && 1 <= tm.mday <= MonthLength(tm.year, tm.mon)
    && 0 <= tm.hour < 24 && 0 <= tm.min < 60 && 0 <= tm.sec < 60
  }

  function DayNumber(tm: Tm): (d: nat)
    requires ValidTime(tm)
  {
    YearStart(tm.year) + MonthStart(tm.year, tm.mon) + tm.mday - 1
  }

  /** The seconds since January 1, 1970, 00:00:00. */
  function Seconds(tm: Tm): nat
    requires ValidTime(tm)
  {
    ((DayNumber(tm) * 24 + tm.hour) * 60 + tm.min) * 60 + tm.sec
  }

  // ---------------------------------------------------------------- closed forms

  /** Days from March 1 of year 0 to March 1 of year y. */
  function MarchStart(y: nat): int { 365 * y + y / 4 - y / 100 + y / 400 }

  lemma MarchStep(y: nat)
    requires y > 0
    ensures MarchStart(y) - MarchStart(y - 1) == YearLength(y)
  {
    Quotient(y, 4);
    Quotient(y, 100);
    Quotient(y, 400);
    Dividing(y);
  }

  lemma Dividing(y: nat)
    ensures y % 400 == 0 ==> y % 100 == 0
    ensures y % 100 == 0 ==> y % 4 == 0
  {
    assert y % 400 == 0 ==> y == 100 * (4 * (y / 400));
    assert y % 100 == 0 ==> y == 4 * (25 * (y / 100));
  }

  lemma Quotient(y: nat, k: nat)
    requires y > 0 && (k == 4 || k == 100 || k == 400)
    ensures y / k - (y - 1) / k == if y % k == 0 then 1 else 0
  {
  }

  lemma {:induction false} YearStartMarch(y: int)
    requires y >= 1970
    ensures YearStart(y) == MarchStart(y) - 719527 - (if IsLeap(y) then 1 else 0)
    decreases y
  {
    if y > 1970 {
      YearStartMarch(y - 1);
      MarchStep(y);
    }
  }

  /** The year estimate is never too small and at most one too large. */
  lemma Estimate(days: nat) returns (year: nat)
    ensures year == (days + 2) * 400 / 146097
    ensures days < MarchStart(year + 1)
    ensures year > 0 ==> MarchStart(year - 1) <= days
    ensures days >= 366 ==> year > 0
  {
    var q, e := (days + 2) / 146097, (days + 2) % 146097;
    var r := e * 400 / 146097;
    year := (days + 2) * 400 / 146097;
    assert year == 400 * q + r by {
      assert (days + 2) * 400 == 146097 * (400 * q) + e * 400;
    }
    InCycle(e, r);
    Cycles(q, r + 1);
    if r > 0 { Cycles(q, r - 1); } else if q > 0 { Cycles(q - 1, 399); }
  }

  lemma InCycle(e: nat, r: nat)
    requires e < 146097 && r == e * 400 / 146097
    ensures r < 400 && e - 2 < MarchStart(r + 1)
    ensures r > 0 ==> MarchStart(r - 1) <= e - 2
  {
    assert 146097 * r <= 400 * e < 146097 * (r + 1);
  }

  /** The calendar repeats after 400 years. */
  lemma Cycles(q: nat, r: nat)
    requires r <= 400
    ensures MarchStart(400 * q + r) == 146097 * q + MarchStart(r)
  {
    Fours(q, r);
    Hundreds(q, r);
    FourHundreds(q, r);
  }

  lemma Fours(q: nat, r: nat)
    ensures (400 * q + r) / 4 == 100 * q + r / 4
  {
  }

  lemma Hundreds(q: nat, r: nat)
    ensures (400 * q + r) / 100 == 4 * q + r / 100
  {
  }

  lemma FourHundreds(q: nat, r: nat)
    ensures (400 * q + r) / 400 == q + r / 400
  {
  }

  /** The formulas for the month and the day from the day of a year that starts in March. */
  lemma MonthFormula(yday: int)
    requires 0 <= yday <= 365
    ensures var mon := (yday + 31) * 10 / 306;
      var mday := yday - (367 * mon / 12 - 30) + 1;
      && 1 <= mon <= 12 && (yday >= 306 <==> mon >= 11) && 1 <= mday <= 31
      && (mon == 2 || mon == 4 || mon == 7 || mon == 9 ==> mday <= 30)
      && (mon == 12 ==> mday <= 29 && (mday == 29 <==> yday == 365))
  {
  }

  /** The day of the year that starts in March, placed in its month. */
  lemma MonthPlace(y: int, yday: int, mon: int, mday: int)
    requires y >= 0 && mon == (yday + 31) * 10 / 306 && mday == yday - (367 * mon / 12 - 30) + 1
    requires 0 <= yday < YearLength(y + 1)
    ensures yday < 306 ==> 3 <= mon + 2 <= 12 && 1 <= mday <= MonthLength(y, mon + 2)
    ensures yday < 306 ==> MonthStart(y, mon + 2) + mday - 1 == 59 + (if IsLeap(y) then 1 else 0) + yday
    ensures yday >= 306 ==> 1 <= mon - 10 <= 2 && 1 <= mday <= MonthLength(y + 1, mon - 10)
    ensures yday >= 306 ==> MonthStart(y + 1, mon - 10) + mday - 1 == yday - 306
  {
    MonthFormula(yday);
    MonthStarts(y);
    MonthStarts(y + 1);
  }

  lemma MonthStarts(y: int)
    ensures var f := if IsLeap(y) then 1 else 0;
      && MonthStart(y, 1) == 0 && MonthStart(y, 2) == 31 && MonthStart(y, 3) == 59 + f && MonthStart(y, 4) == 90 + f
      && MonthStart(y, 5) == 120 + f && MonthStart(y, 6) == 151 + f && MonthStart(y, 7) == 181 + f
      && MonthStart(y, 8) == 212 + f && MonthStart(y, 9) == 243 + f && MonthStart(y, 10) == 273 + f
      && MonthStart(y, 11) == 304 + f && MonthStart(y, 12) == 334 + f
  {
  }

  lemma {:induction false} WeekdayFormula(day: nat)
    ensures Weekday(day) == (4 + day) % 7
    decreases day
  {
    if day > 0 { WeekdayFormula(day - 1); }
  }

  lemma {:induction false} YearsApart(y: int, z: int)
    requires 1970 <= y < z
    ensures YearStart(y) + YearLength(y) <= YearStart(z)
    decreases z
  {
    if y < z - 1 { YearsApart(y, z - 1); }
  }

  lemma {:induction false} MonthsApart(y: int, m: int, k: int)
    requires 1 <= m < k <= 12
    ensures MonthStart(y, m) + MonthLength(y, m) <= MonthStart(y, k)
    decreases k
  {
    if m < k - 1 { MonthsApart(y, m, k - 1); }
  }

  lemma DayInYear(tm: Tm)
    requires ValidTime(tm)
    ensures YearStart(tm.year) <= DayNumber(tm) < YearStart(tm.year) + YearLength(tm.year)
  {
    MonthStarts(tm.year);
    if tm.mon < 12 { MonthsApart(tm.year, tm.mon, 12); }
  }

  /** No two valid dates and times share their count of seconds. */
  lemma SameTime(a: Tm, b: Tm)
    requires ValidTime(a) && ValidTime(b) && Seconds(a) == Seconds(b)
    ensures a == b.(wday := a.wday)
  {
    SameClock(DayNumber(a), a, DayNumber(b), b);
    hide YearStart, MonthStart, MonthLength, YearLength, Seconds;
    SameYear(a, b);
    if a.mon < b.mon { MonthsApart(a.year, a.mon, b.mon); }
    if b.mon < a.mon { MonthsApart(a.year, b.mon, a.mon); }
  }

  lemma SameYear(a: Tm, b: Tm)
    requires ValidTime(a) && ValidTime(b) && DayNumber(a) == DayNumber(b)
    ensures a.year == b.year
  {
    DayInYear(a);
    DayInYear(b);
    hide YearStart, MonthStart, MonthLength, DayNumber;
    if a.year < b.year { YearsApart(a.year, b.year); }
    if b.year < a.year { YearsApart(b.year, a.year); }
  }

  lemma SameClock(d: nat, a: Tm, e: nat, b: Tm)
    requires ValidTime(a) && ValidTime(b)
    requires ((d * 24 + a.hour) * 60 + a.min) * 60 + a.sec == ((e * 24 + b.hour) * 60 + b.min) * 60 + b.sec
    ensures d == e && a.hour == b.hour && a.min == b.min && a.sec == b.sec
  {
  }

  /** After the correction the year and the day in it are exact. */
  lemma Corrected(days: nat, year: nat, yday: int)
    requires days >= 719468 && year == (days + 2) * 400 / 146097 && yday == days - MarchStart(year)
    ensures year > 0
    ensures var y, d := if yday < 0 then year - 1 else year, if yday < 0 then YearLength(year) + yday else yday;
      && y >= 1969 && days == MarchStart(y) + d && 0 <= d < YearLength(y + 1)
  {
    var estimate := Estimate(days);
    MarchStep(year);
    MarchStep(year + 1);
  }

  /** A day counted from March 1 of year 0, once placed in its month, is that day counted from 1970. */
  lemma Placed(days: nat, y: nat, yday: int, tm: Tm)
    requires days >= 719468 && y >= 1969 && days == MarchStart(y) + yday && 0 <= yday < YearLength(y + 1)
    requires var mon := (yday + 31) * 10 / 306;
      && tm.mday == yday - (367 * mon / 12 - 30) + 1
      && tm.mon == (if yday >= 306 then mon - 10 else mon + 2) && tm.year == if yday >= 306 then y + 1 else y
    requires 0 <= tm.hour < 24 && 0 <= tm.min < 60 && 0 <= tm.sec < 60
    ensures ValidTime(tm) && DayNumber(tm) == days - 719468
  {
    MonthPlace(y, yday, (yday + 31) * 10 / 306, tm.mday);
    MarchStep(y + 1);
    assert tm.year >= 1970 by { assert MarchStart(1969) + 306 == 719468; }
    YearStartMarch(tm.year);
  }

  lemma Clock(t: nat, day: nat, hour: int, min: int, sec: int)
    requires day == t / 86400 && hour == t % 86400 / 3600
    requires min == t % 86400 % 3600 / 60 && sec == t % 86400 % 3600 % 60
    ensures ((day * 24 + hour) * 60 + min) * 60 + sec == t
    ensures 0 <= hour < 24 && 0 <= min < 60 && 0 <= sec < 60
  {
  }

  /** ngx_gmtime: the one valid date and time that lies t seconds after the start of 1970. */
  method Gmtime(t: nat) returns (tm: Tm)
    ensures ValidTime(tm) && Seconds(tm) == t && tm.wday == Weekday(DayNumber(tm))
    ensures forall other :: ValidTime(other) && Seconds(other) == t && other.wday == tm.wday ==> other == tm
  {
    hide MarchStart, YearStart, MonthStart, MonthLength, Weekday;
    var n: int := t;
    var days := n / 86400;
    ghost var today := days;
    var wday := (4 + days) % 7;
    n := n % 86400;
    var hour := n / 3600;
    n := n % 3600;
    var min, sec := n / 60, n % 60;
    Clock(t, today, hour, min, sec);

    days := days - (31 + 28) + 719527;
    var year := (days + 2) * 400 / (365 * 400 + 100 - 4 + 1);
    var yday := days - (365 * year + year / 4 - year / 100 + year / 400);
    assert yday == days - MarchStart(year) by { March(year); }
    Corrected(days, year, yday);
    if yday < 0 {
      var leap := if year % 4 == 0 && (year % 100 != 0 || year % 400 == 0) then 1 else 0;
      yday := 365 + leap + yday;
      year := year - 1;
    }
    ghost var y := year;
    var mon := (yday + 31) * 10 / 306;
    var mday := yday - (367 * mon / 12 - 30) + 1;
    if yday >= 306 {
      year := year + 1;
      mon := mon - 10;
    } else {
      mon := mon + 2;
    }
    tm := Tm(sec, min, hour, mday, mon, year, wday);
    Placed(days, y, yday, tm);
    WeekdayFormula(today);
    assert Seconds(tm) == t;
    forall other | ValidTime(other) && Seconds(other) == t && other.wday == tm.wday ensures other == tm {
      SameTime(other, tm);
    }
  }

  lemma March(y: nat)
    ensures MarchStart(y) == 365 * y + y / 4 - y / 100 + y / 400
  {
  }
}
