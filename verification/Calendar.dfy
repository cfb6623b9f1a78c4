/** The proleptic Gregorian calendar under buildroot/packages/configd/time_ops.c:
    timegm and gmtime_r as inverse functions, weekdays, and nth_weekday. */
module Calendar {

  predicate IsLeap(year: nat) {
    (year % 4 == 0 && year % 100 != 0) || year % 400 == 0
  }

  /** days_in_month. */
  function DaysInMonth(year: nat, month: nat): (d: nat)
    requires 1 <= month <= 12
    ensures 28 <= d <= 31
  {
    var days := [31, 28, 31, 30, 31, 30, 31, 31, 30, 31, 30, 31];
    if month == 2 && IsLeap(year) then days[month - 1] + 1 else days[month - 1]
  }

  function DaysInYear(year: nat): nat {
    if IsLeap(year) then 366 else 365
  }

  /** Days from 1970-01-01 to the first of January. */
  function YearStart(year: nat): (n: nat)
    requires 1970 <= year
  {
    if year == 1970 then 0 else YearStart(year - 1) + DaysInYear(year - 1)
  }

  /** Days from the first of January to the first of the month. */
  function MonthStart(year: nat, month: nat): (n: nat)
    requires 1 <= month <= 13
  {
    if month == 1 then 0 else MonthStart(year, month - 1) + DaysInMonth(year, month - 1)
  }

  datatype Civil = Civil(year: nat, month: nat, day: nat)

  predicate ValidDate(c: Civil) {
    1970 <= c.year && 1 <= c.month <= 12 && 1 <= c.day <= DaysInMonth(c.year, c.month)
  }

  /** The day number of a date. */
  function Days(c: Civil): nat
    requires ValidDate(c)
  {
    YearStart(c.year) + MonthStart(c.year, c.month) + c.day - 1
  }

  function FindYear(year: nat, rest: nat): (r: (nat, nat))
    requires 1970 <= year
    ensures year <= r.0 && r.1 < DaysInYear(r.0)
    ensures YearStart(year) + rest == YearStart(r.0) + r.1
    decreases rest
  {
    if rest < DaysInYear(year) then (year, rest) else FindYear(year + 1, rest - DaysInYear(year))
  }

  function FindMonth(year: nat, month: nat, rest: nat): (r: (nat, nat))
    requires 1 <= month <= 12 && MonthStart(year, month) + rest < DaysInYear(year)
    ensures month <= r.0 <= 12 && r.1 < DaysInMonth(year, r.0)
    ensures MonthStart(year, month) + rest == MonthStart(year, r.0) + r.1
    decreases 12 - month
  {
    YearIsMonths(year);
    if rest < DaysInMonth(year, month) then (month, rest)
    else FindMonth(year, month + 1, rest - DaysInMonth(year, month))
  }

  /** The date of a day number. */
  function DateOf(days: nat): (c: Civil)
    ensures ValidDate(c) && Days(c) == days
  {
    var (year, inYear) := FindYear(1970, days);
    var (month, inMonth) := FindMonth(year, 1, inYear);
    Civil(year, month, inMonth + 1)
  }

  /** Twelve months make a year. */
  lemma YearIsMonths(year: nat)
    ensures MonthStart(year, 13) == DaysInYear(year)
  {
    assert MonthStart(year, 3) == MonthStart(year, 1) + DaysInMonth(year, 1) + DaysInMonth(year, 2);
    assert MonthStart(year, 5) == MonthStart(year, 3) + 61;
    assert MonthStart(year, 7) == MonthStart(year, 5) + 61;
    assert MonthStart(year, 9) == MonthStart(year, 7) + 62;
    assert MonthStart(year, 11) == MonthStart(year, 9) + 61;
    assert MonthStart(year, 13) == MonthStart(year, 11) + 61;
  }

  lemma {:induction false} YearsApart(a: nat, b: nat)
    requires 1970 <= a < b
    ensures YearStart(a) + DaysInYear(a) <= YearStart(b)
  {
    if a + 1 < b {
      YearsApart(a, b - 1);
    }
  }

  lemma {:induction false} MonthsApart(year: nat, a: nat, b: nat)
    requires 1 <= a < b <= 13
    ensures MonthStart(year, a) + DaysInMonth(year, a) <= MonthStart(year, b)
  {
    if a + 1 < b {
      MonthsApart(year, a, b - 1);
    }
  }

  lemma InsideYear(c: Civil)
    requires ValidDate(c)
    ensures MonthStart(c.year, c.month) + c.day - 1 < DaysInYear(c.year)
  {
    YearIsMonths(c.year);
    MonthsApart(c.year, c.month, 13);
  }

  /** A day number determines its date. */
  lemma DaysInjective(a: Civil, b: Civil)
    requires ValidDate(a) && ValidDate(b) && Days(a) == Days(b)
    ensures a == b
  {
    InsideYear(a);
    InsideYear(b);
    if a.year < b.year {
      YearsApart(a.year, b.year);
    } else if b.year < a.year {
      YearsApart(b.year, a.year);
    } else if a.month < b.month {
      MonthsApart(a.year, a.month, b.month);
    } else if b.month < a.month {
      MonthsApart(a.year, b.month, a.month);
    }
  }

  /** gmtime undoes timegm on dates; `DateOf` promises the other direction. */
  lemma DateRoundTrip(c: Civil)
    requires ValidDate(c)
    ensures DateOf(Days(c)) == c
  {
    DaysInjective(DateOf(Days(c)), c);
  }

  // ---------------------------------------------------------------- weekdays

  /** weekday_utc: 0 is Sunday; 1970-01-01 was a Thursday. */
  function WeekdayUtc(c: Civil): (w: nat)
    requires ValidDate(c)
    ensures w < 7
  {
    (Days(c) + 4) % 7
  }

  /** nth_weekday. */
  function NthWeekday(year: nat, month: nat, week: nat, weekday: nat): int
    requires 1970 <= year && 1 <= month <= 12 && 1 <= week <= 5 && weekday <= 6
  {
    if week == 5 then
      var last := DaysInMonth(year, month);
      var w := WeekdayUtc(Civil(year, month, last));
      last - (w - weekday + 7) % 7
    else
      var first := WeekdayUtc(Civil(year, month, 1));
      var day := 1 + (weekday - first + 7) % 7 + (week - 1) * 7;
      var max := DaysInMonth(year, month);
      if day <= max then day else max
  }

  /** It is a day of the month, falls on the weekday, and is the `week`-th such
      day, or the last one for week 5. */
  lemma NthWeekdayCorrect(year: nat, month: nat, week: nat, weekday: nat)
    requires 1970 <= year && 1 <= month <= 12 && 1 <= week <= 5 && weekday <= 6
    ensures var day := NthWeekday(year, month, week, weekday);
            && 1 <= day <= DaysInMonth(year, month)
            && WeekdayUtc(Civil(year, month, day)) == weekday
            && (week < 5 ==> 7 * (week - 1) < day <= 7 * week)
            && (week == 5 ==> DaysInMonth(year, month) - 7 < day)
  {
    var base, max := YearStart(year) + MonthStart(year, month) + 4, DaysInMonth(year, month);
    if week == 5 {
      WeekdayBack(base + max - 1, weekday);
    } else {
      WeekdayForward(base, weekday, week - 1);
    }
  }

  lemma WeekdayBack(n: nat, weekday: nat)
    requires weekday <= 6
    ensures 0 <= (n % 7 - weekday + 7) % 7 < 7
    ensures (n - (n % 7 - weekday + 7) % 7) % 7 == weekday
  {
  }

  lemma WeekdayForward(n: nat, weekday: nat, weeks: nat)
    requires weekday <= 6
    ensures 0 <= (weekday - n % 7 + 7) % 7 < 7
    ensures (n + (weekday - n % 7 + 7) % 7 + weeks * 7) % 7 == weekday
  {
  }

  // ------------------------------------------------------------------- epochs

  const DAY := 86400

  /** struct tm as far as time_ops.c uses it. */
  datatype Clock = Clock(date: Civil, hour: nat, minute: nat, second: nat)

  predicate ValidClock(t: Clock) {
    ValidDate(t.date) && t.hour < 24 && t.minute < 60 && t.second < 60
  }

  function Timegm(t: Clock): nat
    requires ValidClock(t)
  {
    Days(t.date) * DAY + t.hour * 3600 + t.minute * 60 + t.second
  }

  function Gmtime(epoch: nat): (t: Clock)
    ensures ValidClock(t) && Timegm(t) == epoch
  {
    var s := epoch % DAY;
    Clock(DateOf(epoch / DAY), s / 3600, s % 3600 / 60, s % 60)
  }

  /** Reading the clock back gives the time that was put in. */
  lemma GmtimeRoundTrip(t: Clock)
    requires ValidClock(t)
    ensures Gmtime(Timegm(t)) == t
  {
    var s := t.hour * 3600 + t.minute * 60 + t.second;
    SplitDay(Days(t.date), s);
    DateRoundTrip(t.date);
    SplitSeconds(t.hour, t.minute, t.second);
  }

  lemma SplitDay(days: nat, s: nat)
    requires s < DAY
    ensures (days * DAY + s) / DAY == days && (days * DAY + s) % DAY == s
  {
  }

  lemma SplitSeconds(hour: nat, minute: nat, second: nat)
    requires minute < 60 && second < 60
    ensures var s := hour * 3600 + minute * 60 + second;
            s / 3600 == hour && s % 3600 / 60 == minute && s % 60 == second
  {
    var rest := minute * 60 + second;
    SplitPair(hour, rest);
    SplitMinute(minute, second);
    SplitMinute(hour * 60 + minute, second);
  }

  lemma SplitMinute(q: nat, second: nat)
    requires second < 60
    ensures (q * 60 + second) / 60 == q && (q * 60 + second) % 60 == second
  {
  }

  lemma SplitPair(q: nat, rest: nat)
    requires rest < 3600
    ensures (q * 3600 + rest) / 3600 == q && (q * 3600 + rest) % 3600 == rest
  {
  }
}
