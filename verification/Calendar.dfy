/**
  The date an instant falls on, in UTC and the proleptic Gregorian calendar, as `toISOString`
  reads it. Instants are milliseconds since 1 January 1970; days count from 1 January of year 0.
 */
module Calendar {
  import opened Codecs

  const DAY_MS := 86_400_000
  const EPOCH_DAY := 719_528
  const DAYS := 3_652_425      // in the years 0 to 9999

  predicate Leap(year: nat) {
    year % 4 == 0 && (year % 100 != 0 || year % 400 == 0)
  }

  function YearLength(year: nat): nat { if Leap(year) then 366 else 365 }

  /** The day a year begins. */
  function YearStart(year: nat): nat {
    if year == 0 then 0 else YearStart(year - 1) + YearLength(year - 1)
  }

  lemma YearsAdjoin(year: nat)
    ensures YearStart(year + 1) == YearStart(year) + YearLength(year)
  {}

  lemma FourthYears(year: nat)
    ensures (year + 4) / 4 == (year + 3) / 4 + (if year % 4 == 0 then 1 else 0)
  {}

  lemma Centuries(year: nat)
    ensures (year + 100) / 100 == (year + 99) / 100 + (if year % 100 == 0 then 1 else 0)
  {
    assert year == 100 * (year / 100) + year % 100;
  }

  lemma CenturiesAreFourthYears(year: nat)
    requires year % 100 == 0
    ensures year % 4 == 0
  {
    var quarter := 25 * (year / 100);
    assert year == 4 * quarter;
    FourTimes(quarter);
  }

  lemma FourTimes(n: nat)
    ensures 4 * n % 4 == 0
  {
  }

  lemma FourthCenturies(year: nat)
    ensures (year + 400) / 400 == (year + 399) / 400 + (if year % 400 == 0 then 1 else 0)
  {
    assert year == 400 * (year / 400) + year % 400;
  }

  lemma FourthCenturiesAreCenturies(year: nat)
    requires year % 400 == 0
    ensures year % 100 == 0
  {
    assert year == 100 * (4 * (year / 400));
  }

  lemma LeapDays(year: nat)
    ensures YearLength(year) ==
      365 + (if year % 4 == 0 then 1 else 0) - (if year % 100 == 0 then 1 else 0) + (if year % 400 == 0 then 1 else 0)
  {
    if year % 100 == 0 { CenturiesAreFourthYears(year); }
    if year % 400 == 0 { FourthCenturiesAreCenturies(year); }
  }

  /** A day more for every fourth year, but for the centuries that are not fourth ones. */
  function DaysBefore(year: nat): int {
    365 * year + (year + 3) / 4 - (year + 99) / 100 + (year + 399) / 400
  }

  lemma DaysBeforeAdjoin(year: nat)
    ensures DaysBefore(year + 1) == DaysBefore(year) + YearLength(year)
  {
    FourthYears(year);
    Centuries(year);
    FourthCenturies(year);
    LeapDays(year);
  }

  lemma {:induction false} YearStartCounts(year: nat)
    ensures YearStart(year) == DaysBefore(year)
    decreases year
  {
    if year == 0 {
    } else {
      YearStartCounts(year - 1);
      DaysBeforeAdjoin(year - 1);
    }
  }

  lemma LastYearEnds(year: nat)
    requires year == 10000
    ensures YearStart(year) == DAYS
  {
    YearStartCounts(year);
  }

  /** `day` days into `year`, or the years after it: the year, and the day within it. */
  function SplitYear(day: nat, year: nat): (nat, nat)
    decreases day
  {
    if day < YearLength(year) then (year, day) else SplitYear(day - YearLength(year), year + 1)
  }

  function MonthLength(leap: bool, month: nat): nat {
    if month == 1 then (if leap then 29 else 28) else if month in {3, 5, 8, 10} then 30 else 31
  }

  /** Months count from 0 here. */
  function MonthStart(leap: bool, month: nat): nat {
    if month == 0 then 0 else MonthStart(leap, month - 1) + MonthLength(leap, month - 1)
  }

  function SplitMonth(leap: bool, day: nat, month: nat): (nat, nat)
    requires month < 12
    decreases 12 - month
  {
    if day < MonthLength(leap, month) || month == 11 then (month, day)
    else SplitMonth(leap, day - MonthLength(leap, month), month + 1)
  }

  lemma {:induction false} SplitYearAdds(day: nat, year: nat)
    ensures var (y, d) := SplitYear(day, year);
      y >= year && d < YearLength(y) && YearStart(y) + d == YearStart(year) + day
    decreases day
  {
    if day < YearLength(year) {
    } else {
      YearsAdjoin(year);
      SplitYearAdds(day - YearLength(year), year + 1);
    }
  }

  lemma MonthsAdjoin(leap: bool, month: nat)
    ensures MonthStart(leap, month + 1) == MonthStart(leap, month) + MonthLength(leap, month)
  {}

  lemma {:induction false} SplitMonthAdds(leap: bool, day: nat, month: nat)
    requires month < 12 && MonthStart(leap, month) + day < (if leap then 366 else 365)
    ensures var (m, d) := SplitMonth(leap, day, month);
      m < 12 && d < 31 && MonthStart(leap, m) + d == MonthStart(leap, month) + day
    decreases 12 - month
  {
    if month == 11 {
      LastMonthStart(leap);
      assert SplitMonth(leap, day, month) == (month, day);
    } else if day < MonthLength(leap, month) {
      assert SplitMonth(leap, day, month) == (month, day);
    } else {
      MonthsAdjoin(leap, month);
      SplitMonthAdds(leap, day - MonthLength(leap, month), month + 1);
    }
  }

  lemma LastMonthStart(leap: bool)
    ensures MonthStart(leap, 11) + 31 == if leap then 366 else 365
  {
    assert MonthStart(leap, 1) == 31;
    assert MonthStart(leap, 2) == if leap then 60 else 59;
    assert MonthStart(leap, 4) == MonthStart(leap, 2) + 61;
    assert MonthStart(leap, 6) == MonthStart(leap, 4) + 61;
    assert MonthStart(leap, 8) == MonthStart(leap, 6) + 62;
    assert MonthStart(leap, 10) == MonthStart(leap, 8) + 61;
  }

  /** Within the years 0 to 9999. */
  predicate Dated(t: int) {
    0 <= t + EPOCH_DAY * DAY_MS < DAYS * DAY_MS
  }

  lemma DayIsInRange(day: nat)
    requires day < DAYS
    ensures SplitYear(day, 0).0 < 10000
  {
    var (y, d) := SplitYear(day, 0);
    SplitYearAdds(day, 0);
    var end: nat := 10000;
    LastYearEnds(end);
    YearStartGrows(end, y);
  }

  lemma {:induction false} YearStartGrows(a: nat, b: nat)
    ensures a <= b ==> YearStart(a) <= YearStart(b)
    decreases b
  {
    if b <= a {
    } else {
      YearsAdjoin(b - 1);
      YearStartGrows(a, b - 1);
    }
  }

  /** The date of a day, and the time that `rest` milliseconds into it are. */
  function DateTime(day: nat, rest: nat): Instant
    requires day < DAYS && rest < DAY_MS
  {
    var (year, dayOfYear) := SplitYear(day, 0);
    SplitYearAdds(day, 0);
    DayIsInRange(day);
    var (month, dayOfMonth) := SplitMonth(Leap(year), dayOfYear, 0);
    SplitMonthAdds(Leap(year), dayOfYear, 0);
    Fields(year, month + 1, dayOfMonth + 1, rest / 3_600_000, rest / 60_000 % 60, rest / 1000 % 60, rest % 1000)
  }

  function InstantOf(t: int): Instant
    requires Dated(t)
  {
    var ms := t + EPOCH_DAY * DAY_MS;
    DateTime(ms / DAY_MS, ms % DAY_MS)
  }

  /** Reads the fields back. */
  function Milliseconds(f: Fields): int
    requires f.month >= 1
  {
    var day := YearStart(f.year) + MonthStart(Leap(f.year), f.month - 1) + f.day - 1;
    (day - EPOCH_DAY) * DAY_MS + f.hour * 3_600_000 + f.minute * 60_000 + f.second * 1000 + f.milli
  }

  lemma TimeOfDayAdds(rest: nat)
    ensures rest ==
      rest / 3_600_000 * 3_600_000 + rest / 60_000 % 60 * 60_000 + rest / 1000 % 60 * 1000 + rest % 1000
  {
    assert rest / 60_000 == rest / 1000 / 60 && rest / 3_600_000 == rest / 60_000 / 60;
  }

  lemma DayAdds(day: nat)
    requires day < DAYS
    ensures var (year, dayOfYear) := SplitYear(day, 0);
      var (month, dayOfMonth) := SplitMonth(Leap(year), dayOfYear, 0);
      YearStart(year) + MonthStart(Leap(year), month) + dayOfMonth == day
  {
    var (year, dayOfYear) := SplitYear(day, 0);
    SplitYearAdds(day, 0);
    SplitMonthAdds(Leap(year), dayOfYear, 0);
    assert YearStart(0) == 0;
  }

  lemma DateTimeAdds(day: nat, rest: nat)
    requires day < DAYS && rest < DAY_MS
    ensures var f := DateTime(day, rest);
      f.month >= 1 && Milliseconds(f) == (day - EPOCH_DAY) * DAY_MS + rest
  {
    DayAdds(day);
    TimeOfDayAdds(rest);
    var (year, dayOfYear) := SplitYear(day, 0);
    var (month, dayOfMonth) := SplitMonth(Leap(year), dayOfYear, 0);
    assert DateTime(day, rest).year == year && DateTime(day, rest).month == month + 1;
    assert DateTime(day, rest).day == dayOfMonth + 1;
  }

  /** The calendar loses nothing, so no two instants share a date and time. */
  lemma InstantRoundTrip(t: int)
    requires Dated(t)
    ensures InstantOf(t).month >= 1 && Milliseconds(InstantOf(t)) == t
  {
    DateTimeAdds((t + EPOCH_DAY * DAY_MS) / DAY_MS, (t + EPOCH_DAY * DAY_MS) % DAY_MS);
  }

  /** A date and time there really is. */
  predicate Proper(f: Fields) {
    && f.year < 10000 && 1 <= f.month <= 12 && 1 <= f.day <= MonthLength(Leap(f.year), f.month - 1)
    && f.hour < 24 && f.minute < 60 && f.second < 60 && f.milli < 1000
  }

  lemma {:induction false} SplitYearFinds(year: nat, dayOfYear: nat, from: nat)
    requires from <= year && dayOfYear < YearLength(year)
    ensures YearStart(from) <= YearStart(year)
    ensures SplitYear(YearStart(year) - YearStart(from) + dayOfYear, from) == (year, dayOfYear)
    decreases year - from
  {
    if from == year {
    } else {
      YearsAdjoin(from);
      YearStartGrows(from + 1, year);
      SplitYearFinds(year, dayOfYear, from + 1);
    }
  }

  lemma {:induction false} MonthStartGrows(leap: bool, a: nat, b: nat)
    ensures a <= b ==> MonthStart(leap, a) <= MonthStart(leap, b)
    decreases b
  {
    if b <= a {
    } else {
      MonthStartGrows(leap, a, b - 1);
    }
  }

  lemma {:induction false} SplitMonthFinds(leap: bool, month: nat, day: nat, from: nat)
    requires from <= month < 12 && day < MonthLength(leap, month)
    ensures MonthStart(leap, from) <= MonthStart(leap, month)
    ensures SplitMonth(leap, MonthStart(leap, month) - MonthStart(leap, from) + day, from) == (month, day)
    decreases month - from
  {
    if from == month {
    } else {
      MonthsAdjoin(leap, from);
      MonthStartGrows(leap, from + 1, month);
      SplitMonthFinds(leap, month, day, from + 1);
    }
  }

  lemma DayOfYearFits(leap: bool, month: nat, day: nat)
    requires month < 12 && day < MonthLength(leap, month)
    ensures MonthStart(leap, month) + day < if leap then 366 else 365
  {
    MonthsAdjoin(leap, month);
    MonthStartGrows(leap, month + 1, 12);
    MonthsAdjoin(leap, 11);
    LastMonthStart(leap);
  }

  lemma TimeOfDaySplits(hour: nat, minute: nat, second: nat, milli: nat)
    requires hour < 24 && minute < 60 && second < 60 && milli < 1000
    ensures var rest := hour * 3_600_000 + minute * 60_000 + second * 1000 + milli;
      && rest < DAY_MS && rest / 3_600_000 == hour && rest / 60_000 % 60 == minute
      && rest / 1000 % 60 == second && rest % 1000 == milli
  {
    var rest := hour * 3_600_000 + minute * 60_000 + second * 1000 + milli;
    assert rest / 60_000 == hour * 60 + minute && rest / 1000 == hour * 3600 + minute * 60 + second;
  }

  lemma DayFits(year: nat, dayOfYear: nat)
    requires year < 10000 && dayOfYear < YearLength(year)
    ensures YearStart(year) + dayOfYear < DAYS
  {
    var end: nat := 10000;
    LastYearEnds(end);
    YearsAdjoin(year);
    YearStartGrows(year + 1, end);
  }

  lemma DaySplits(day: nat, rest: nat)
    requires day < DAYS && rest < DAY_MS
    ensures Dated((day - EPOCH_DAY) * DAY_MS + rest)
    ensures (((day - EPOCH_DAY) * DAY_MS + rest) + EPOCH_DAY * DAY_MS) / DAY_MS == day
    ensures (((day - EPOCH_DAY) * DAY_MS + rest) + EPOCH_DAY * DAY_MS) % DAY_MS == rest
  {
    assert ((day - EPOCH_DAY) * DAY_MS + rest) + EPOCH_DAY * DAY_MS == day * DAY_MS + rest;
  }

  lemma MonthIsFound(leap: bool, month: nat, day: nat)
    requires month < 12 && day < MonthLength(leap, month)
    ensures SplitMonth(leap, MonthStart(leap, month) + day, 0) == (month, day)
  {
    StartsAtZero(leap);
    SplitMonthFinds(leap, month, day, 0);
  }

  lemma YearIsFound(year: nat, dayOfYear: nat)
    requires year < 10000 && dayOfYear < YearLength(year)
    ensures YearStart(year) + dayOfYear < DAYS && SplitYear(YearStart(year) + dayOfYear, 0) == (year, dayOfYear)
  {
    StartsAtZero(false);
    SplitYearFinds(year, dayOfYear, 0);
    DayFits(year, dayOfYear);
  }

  lemma DayIsFound(year: nat, month: nat, day: nat)
    requires year < 10000 && month < 12 && day < MonthLength(Leap(year), month)
    ensures var dayOfYear := MonthStart(Leap(year), month) + day;
      && YearStart(year) + dayOfYear < DAYS
      && SplitYear(YearStart(year) + dayOfYear, 0) == (year, dayOfYear)
      && SplitMonth(Leap(year), dayOfYear, 0) == (month, day)
  {
    DayOfYearFits(Leap(year), month, day);
    MonthIsFound(Leap(year), month, day);
    YearIsFound(year, MonthStart(Leap(year), month) + day);
  }

  lemma DateTimeFinds(f: Fields)
    requires Proper(f)
    ensures var day := YearStart(f.year) + MonthStart(Leap(f.year), f.month - 1) + f.day - 1;
      var rest := f.hour * 3_600_000 + f.minute * 60_000 + f.second * 1000 + f.milli;
      day < DAYS && rest < DAY_MS && DateTime(day, rest) == f
  {
    DayIsFound(f.year, f.month - 1, f.day - 1);
    TimeOfDaySplits(f.hour, f.minute, f.second, f.milli);
  }

  /** And every date and time is that of one instant. */
  lemma DateRoundTrip(f: Fields)
    requires Proper(f)
    ensures Dated(Milliseconds(f)) && InstantOf(Milliseconds(f)) == f
  {
    DateTimeFinds(f);
    var day := YearStart(f.year) + MonthStart(Leap(f.year), f.month - 1) + f.day - 1;
    DaySplits(day, f.hour * 3_600_000 + f.minute * 60_000 + f.second * 1000 + f.milli);
  }

  lemma StartsAtZero(leap: bool)
    ensures YearStart(0) == 0 && MonthStart(leap, 0) == 0
  {}

  lemma EpochIsZero(f: Fields)
    requires f == Fields(1970, 1, 1, 0, 0, 0, 0)
    ensures Milliseconds(f) == 0
  {
    YearStartCounts(f.year);
  }

  /** Thirty days have September, April, June and November. */
  lemma MonthsHaveTheirLengths(f: Fields)
    ensures var leap := f.year % 400 == 0 || (f.year % 4 == 0 && f.year % 100 != 0);
      var last := if f.month == 2 then (if leap then 29 else 28) else if f.month in {4, 6, 9, 11} then 30 else 31;
      Proper(f) <==>
        && f.year < 10000 && 1 <= f.month <= 12 && 1 <= f.day <= last
        && f.hour < 24 && f.minute < 60 && f.second < 60 && f.milli < 1000
  {
  }

  lemma MonthStarts(leap: bool, month: nat)
    requires month in {2, 11}
    ensures MonthStart(leap, month) == (if month == 2 then 59 else 334) + (if leap then 1 else 0)
  {
    assert MonthStart(leap, 1) == 31 && MonthStart(leap, 2) == 59 + (if leap then 1 else 0);
    if month == 11 {
      var february := MonthStart(leap, 2);
      assert MonthStart(leap, 4) == february + 61 && MonthStart(leap, 6) == february + 122;
      assert MonthStart(leap, 8) == february + 184 && MonthStart(leap, 10) == february + 245;
    }
  }

  /** The day after the leap day of the year 2000. */
  lemma AfterLeapDay(f: Fields)
    requires f == Fields(2000, 3, 1, 12, 30, 15, 7)
    ensures Milliseconds(f) == 951_913_815_007
  {
    YearStartCounts(f.year);
    MonthStarts(true, 2);
  }

  lemma LastInstantBeforeEpoch(f: Fields)
    requires f == Fields(1969, 12, 31, 23, 59, 59, 999)
    ensures Milliseconds(f) == -1
  {
    YearStartCounts(f.year);
    MonthStarts(false, 11);
  }

  /** `toISOString` of an instant. */
  function StampOf(t: int): Stamp
    requires Dated(t)
  {
    Iso(InstantOf(t))
  }

  lemma StampsAreInjective(t: int, u: int)
    requires Dated(t) && Dated(u)
    ensures StampOf(t) == StampOf(u) <==> t == u
  {
    if StampOf(t) == StampOf(u) {
      IsoInjective(InstantOf(t), InstantOf(u));
      InstantRoundTrip(t);
      InstantRoundTrip(u);
    }
  }
}
