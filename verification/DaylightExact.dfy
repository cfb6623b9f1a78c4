/** The regular policies are exactly those under which the wall times that do not
    exist, and those that exist twice, are the ones the rules name. */
module DaylightExact {
  import opened Bytes
  import opened Calendar
  import opened LocalTime
  import opened DaylightTime

  /** From 2000 on, exactly the skipped wall times have no reading and exactly the
      repeated ones have two. */
  ghost predicate Lawful(p: Policy)
    requires HasRules(p)
  {
    forall wall: nat :: FLOOR <= wall ==> AsTheRulesSay(p, wall)
  }

  ghost predicate AsTheRulesSay(p: Policy, wall: nat)
    requires HasRules(p)
  {
    (NoReading(p, wall) <==> InGap(p, wall)) && (TwoReadings(p, wall) <==> InOverlap(p, wall))
  }

  predicate Active(p: Policy, e: int)
    requires HasRules(p)
  {
    0 <= e && DstActive(p, e)
  }

  // ------------------------------------------------------------ from walls to epochs

  lemma ByActive(p: Policy, wall: nat)
    requires HasRules(p) && FLOOR <= wall
    ensures var a, b := Active(p, AsStandard(p, wall)), Active(p, AsDaylight(p, wall));
            && (NoReading(p, wall) <==> a && !b) && (TwoReadings(p, wall) <==> !a && b)
  {
    hide DstActive, Gmtime, Reads;
    var a, b := AsStandard(p, wall), AsDaylight(p, wall);
    LateEnough(p, wall, Standard(p));
    LateEnough(p, wall, Daylight(p));
    forall e: nat
      ensures Reads(p, e, wall) <==> (e == a && !DstActive(p, e)) || (e == b && DstActive(p, e))
    {
      TwoCandidates(p, wall, e);
    }
  }

  /** Two days past the floor every epoch has its wall times past the floor. */
  const LATE := FLOOR + 2 * DAY

  lemma RiseRule(p: Policy, e: int)
    requires HasRules(p) && Lawful(p) && LATE <= e
    ensures Active(p, e) && !Active(p, e - Jump(p)) <==> Rises(p, e)
  {
    hide Active, Rises, NoReading, TwoReadings, InGap, InOverlap, Lawful;
    var wall: nat := e + (if Daylight(p) > Standard(p) then Standard(p) else Daylight(p)) * 60;
    LawfulAt(p, wall);
    ByActive(p, wall);
    GapOnTheWall(p, true, wall);
    OverlapOnTheWall(p, true, wall);
  }

  lemma FallRule(p: Policy, e: int)
    requires HasRules(p) && Lawful(p) && LATE <= e
    ensures Active(p, e) && !Active(p, e + Jump(p)) <==> Falls(p, true, e)
  {
    hide Active, Falls, NoReading, TwoReadings, InGap, InOverlap, Lawful;
    var wall: nat := e + (if Daylight(p) > Standard(p) then Daylight(p) else Standard(p)) * 60;
    LawfulAt(p, wall);
    ByActive(p, wall);
    GapOnTheWall(p, true, wall);
    OverlapOnTheWall(p, true, wall);
  }

  lemma LawfulAt(p: Policy, wall: nat)
    requires HasRules(p) && Lawful(p) && FLOOR <= wall
    ensures NoReading(p, wall) <==> InGap(p, wall)
    ensures TwoReadings(p, wall) <==> InOverlap(p, wall)
  {
    hide NoReading, TwoReadings, InGap, InOverlap;
    assert AsTheRulesSay(p, wall);
  }

  // ---------------------------------------------------------------- around a change

  /** The changes of a year lie near it, and far from those of the next. */
  lemma NearItsYear(p: Policy, year: nat)
    requires HasRules(p) && 1970 <= year
    ensures Epoch(year) - 50400 <= Start(p, year) < Epoch(year + 1) + 43200
    ensures Epoch(year) - 50400 <= End(p, year) < Epoch(year + 1) + 43200
    ensures 60 <= Jump(p) <= 93600
  {
    hide Epoch, RuleWall;
    RuleInYear(year, p.dst.value.start.value);
    RuleInYear(year, p.dst.value.end.value);
  }

  lemma LateYear(year: nat)
    requires 2001 <= year
    ensures LATE + 100 * DAY <= Epoch(year)
  {
    hide Epoch;
    YearBounds();
    NextYear(2000);
    YearsBefore(2001, year);
  }

  lemma AroundStart(p: Policy, year: nat, e: int)
    requires HasRules(p) && Lawful(p) && 2001 <= year && Start(p, year) <= e < Start(p, year) + Jump(p)
    ensures Active(p, e) && !Active(p, e - Jump(p))
  {
    hide Start, End, Jump, HasRules, Active, Lawful, Epoch;
    NearItsYear(p, year);
    LateYear(year);
    assert Rises(p, e);
    RiseRule(p, e);
  }

  lemma AroundEnd(p: Policy, year: nat, e: int)
    requires HasRules(p) && Lawful(p) && 2001 <= year && End(p, year) - Jump(p) <= e < End(p, year)
    ensures Active(p, e) && !Active(p, e + Jump(p))
  {
    hide Start, End, Jump, HasRules, Active, Lawful, Epoch;
    NearItsYear(p, year);
    LateYear(year);
    assert Stop(p, true, year) == End(p, year);
    assert Falls(p, true, e);
    FallRule(p, e);
  }

  /** On just after a start and off just before, off just after an end and on just
      before. */
  lemma AtChanges(p: Policy, year: nat)
    requires HasRules(p) && Lawful(p) && 2001 <= year
    ensures Active(p, Start(p, year)) && !Active(p, Start(p, year) - 1)
    ensures !Active(p, End(p, year)) && Active(p, End(p, year) - 1)
    ensures Start(p, year) != End(p, year)
  {
    hide Start, End, Jump, HasRules, Active, Lawful, Epoch;
    NearItsYear(p, year);
    AroundStart(p, year, Start(p, year));
    AroundStart(p, year, Start(p, year) + Jump(p) - 1);
    AroundEnd(p, year, End(p, year) - 1);
    AroundEnd(p, year, End(p, year) - Jump(p));
  }

  // ------------------------------------------------------------- where changes happen

  lemma InForceThen(p: Policy, year: nat, e: int)
    requires HasRules(p) && 1970 <= year && Epoch(year) <= e < Epoch(year + 1)
    ensures Active(p, e) <==> InForce(p, year, e)
  {
    hide DstActive, Gmtime, InForce, HasRules, Epoch;
    assert 0 <= Epoch(year);
    YearOf(e, year);
    ActiveInYear(p, e);
  }

  /** active_offset turns summer time on at the start of its UTC year or at the UTC
      new year, nowhere else. */
  lemma RiseWhere(p: Policy, year: nat, t: int)
    requires HasRules(p) && 1970 <= year && Epoch(year) <= t < Epoch(year + 1) && Active(p, t) && !Active(p, t - 1)
    ensures t == Start(p, year) || t == Epoch(year)
  {
    hide Start, End, HasRules, Active, Epoch;
    InForceThen(p, year, t);
    if Epoch(year) < t {
      InForceThen(p, year, t - 1);
    }
  }

  lemma FallWhere(p: Policy, year: nat, t: int)
    requires HasRules(p) && 1970 <= year && Epoch(year) <= t < Epoch(year + 1) && !Active(p, t) && Active(p, t - 1)
    ensures t == End(p, year) || t == Epoch(year)
  {
    hide Start, End, HasRules, Active, Epoch;
    InForceThen(p, year, t);
    if Epoch(year) < t {
      InForceThen(p, year, t - 1);
    }
  }

  // ------------------------------------------------------------- one year and the next

  lemma {:induction false} MonthStartShape(year: nat, month: nat)
    requires 1 <= month <= 12
    ensures MonthStart(year, month) == MonthStart(1970, month) + if month > 2 && IsLeap(year) then 1 else 0
  {
    if month > 1 {
      MonthStartShape(year, month - 1);
    }
  }

  lemma ChangesApart(p: Policy, year: nat)
    requires HasRules(p) && 1970 <= year
    ensures Start(p, year) + 300 * DAY <= Start(p, year + 1) && End(p, year) + 300 * DAY <= End(p, year + 1)
  {
    hide RuleWall;
    RuleApart(year, p.dst.value.start.value);
    RuleApart(year, p.dst.value.end.value);
  }

  lemma RuleApart(year: nat, r: Rule)
    requires 1970 <= year && ValidateRule(Some(r))
    ensures RuleWall(year, r) + 300 * DAY <= RuleWall(year + 1, r)
  {
    hide RuleWall, Epoch, MonthStart, IsLeap;
    RuleInMonth(year, r);
    RuleInMonth(year + 1, r);
    NextYear(year);
    MonthStartShape(year, MonthOf(r));
    MonthStartShape(year + 1, MonthOf(r));
  }

  /** Three years around a change. */
  lemma ThreeYears(year: nat, t: int)
    requires 1971 <= year && Epoch(year) - 50400 <= t < Epoch(year + 1) + 43200
    ensures Epoch(year - 1) < t < Epoch(year + 2)
  {
    hide Epoch;
    NextYear(year - 1);
    NextYear(year);
    NextYear(year + 1);
  }

  lemma InOwnYear(p: Policy, year: nat)
    requires HasRules(p) && Lawful(p) && 2002 <= year
    ensures Epoch(year) <= Start(p, year) <= Epoch(year + 1) && Epoch(year) <= End(p, year) <= Epoch(year + 1)
  {
    hide Start, End, Jump, HasRules, Active, Lawful, Epoch;
    AtChanges(p, year);
    NearItsYear(p, year);
    ChangesApart(p, year - 1);
    ChangesApart(p, year);
    var s, e := Start(p, year), End(p, year);
    ThreeYears(year, s);
    ThreeYears(year, e);
    if s < Epoch(year) {
      RiseWhere(p, year - 1, s);
    } else if Epoch(year + 1) <= s {
      RiseWhere(p, year + 1, s);
    }
    if e < Epoch(year) {
      FallWhere(p, year - 1, e);
    } else if Epoch(year + 1) <= e {
      FallWhere(p, year + 1, e);
    }
  }

  predicate Northern(p: Policy, year: nat)
    requires HasRules(p) && 1970 <= year
  {
    Start(p, year) < End(p, year)
  }

  /** What holds at the last second of a year and at the first of the next. */
  lemma AtNewYear(p: Policy, year: nat)
    requires HasRules(p) && 1970 <= year
    ensures var t := Epoch(year + 1);
            (Active(p, t - 1) <==> InForce(p, year, t - 1)) && (Active(p, t) <==> InForce(p, year + 1, t))
  {
    hide Epoch, InForce, Active, HasRules;
    NextYear(year);
    NextYear(year + 1);
    InForceThen(p, year, Epoch(year + 1) - 1);
    InForceThen(p, year + 1, Epoch(year + 1));
  }

  /** The order of the changes does not turn from north to south at a new year:
      summer time would come on there without a start. */
  lemma NotSouthAfterNorth(p: Policy, year: nat)
    requires HasRules(p) && Lawful(p) && 2002 <= year && Northern(p, year)
    ensures Northern(p, year + 1)
  {
    hide Start, End, Jump, HasRules, Active, Lawful, Epoch, Rises;
    var t := Epoch(year + 1);
    BothYears(p, year);
    AtNewYear(p, year);
    OffAfter(p, year, t);
    if !Northern(p, year + 1) {
      assert Active(p, t);
      RiseRule(p, t);
      RiseAt(p, year, t);
    }
  }

  /** Both changes lie in their year and are where summer time comes on and goes
      off. */
  predicate Sharp(p: Policy, year: nat)
    requires HasRules(p) && 1970 <= year
  {
    && Epoch(year) <= Start(p, year) <= Epoch(year + 1) && Epoch(year) <= End(p, year) <= Epoch(year + 1)
    && Active(p, Start(p, year)) && !Active(p, Start(p, year) - 1)
    && !Active(p, End(p, year)) && Active(p, End(p, year) - 1) && Start(p, year) != End(p, year)
  }

  /** What two years of a lawful policy look like. */
  lemma BothYears(p: Policy, year: nat)
    requires HasRules(p) && Lawful(p) && 2002 <= year
    ensures Sharp(p, year) && Sharp(p, year + 1)
    ensures Start(p, year) + 300 * DAY <= Start(p, year + 1) && End(p, year) + 300 * DAY <= End(p, year + 1)
    ensures 60 <= Jump(p) <= 93600 && LATE + 100 * DAY <= Epoch(year) < Epoch(year + 1) < Epoch(year + 2)
  {
    hide Start, End, Jump, HasRules, Active, Lawful, Epoch;
    InOwnYear(p, year);
    InOwnYear(p, year + 1);
    AtChanges(p, year);
    AtChanges(p, year + 1);
    ChangesApart(p, year);
    NearItsYear(p, year);
    LateYear(year);
    NextYear(year);
    NextYear(year + 1);
  }

  /** In a northern year summer time stays off after the end. */
  lemma OffAfter(p: Policy, year: nat, t: int)
    requires HasRules(p) && Lawful(p) && 2002 <= year && Northern(p, year) && t == Epoch(year + 1)
    ensures End(p, year) < t ==> !Active(p, t - 1)
    ensures Active(p, t) ==> !Active(p, t - Jump(p))
  {
    hide Start, End, Jump, HasRules, Active, Lawful, Epoch;
    BothYears(p, year);
    var f := t - Jump(p);
    if End(p, year) < t {
      InForceThen(p, year, t - 1);
    }
    if End(p, year) <= f {
      YearRoom(p, year);
      InForceThen(p, year, f);
    } else if Active(p, t) {
      AroundEnd(p, year, f);
    }
  }

  lemma YearRoom(p: Policy, year: nat)
    requires HasRules(p) && 1970 <= year
    ensures Epoch(year) <= Epoch(year + 1) - Jump(p)
  {
    hide Epoch;
    NextYear(year);
  }

  /** The changes that can lie within a jump of a new year. */
  lemma NearNewYear(p: Policy, year: nat, y: nat, t: int)
    requires HasRules(p) && 1970 <= year && 1970 <= y && t == Epoch(year + 1)
    requires -93600 <= Start(p, y) - t <= 93600 || -93600 <= End(p, y) - t <= 93600
    ensures y == year || y == year + 1
  {
    hide Start, End, Jump, HasRules, Epoch;
    NearItsYear(p, y);
    NextYear(year);
    NextYear(year + 1);
    if y < year {
      YearsBefore(y + 1, year);
    } else if year + 2 <= y {
      YearsBefore(year + 2, y);
    }
  }

  /** A rise at the new year is a start. */
  lemma RiseAt(p: Policy, year: nat, t: int)
    requires HasRules(p) && Lawful(p) && 2002 <= year && t == Epoch(year + 1) && Rises(p, t) && !Active(p, t - 1)
    ensures t == Start(p, year) || t == Start(p, year + 1)
  {
    hide Start, End, Jump, HasRules, Active, Lawful, Epoch;
    var y: nat :| 1998 <= y && Start(p, y) <= t < Start(p, y) + Jump(p);
    NearItsYear(p, year);
    NearNewYear(p, year, y, t);
    if Start(p, y) < t {
      AroundStart(p, y, t - 1);
    }
  }

  /** A fall there is an end. */
  lemma FallAt(p: Policy, year: nat, t: int)
    requires HasRules(p) && Lawful(p) && 2002 <= year && t == Epoch(year + 1) && Falls(p, true, t - 1) && !Active(p, t)
    ensures t == End(p, year) || t == End(p, year + 1)
  {
    hide Start, End, Jump, HasRules, Active, Lawful, Epoch;
    var y: nat :| 1998 <= y && Stop(p, true, y) - Jump(p) <= t - 1 < Stop(p, true, y);
    assert Stop(p, true, y) == End(p, y);
    NearItsYear(p, year);
    NearNewYear(p, year, y, t);
    if t < End(p, y) {
      AroundEnd(p, y, t);
    }
  }

  /** Nor from south to north: summer time would go off without an end. */
  lemma NotNorthAfterSouth(p: Policy, year: nat)
    requires HasRules(p) && Lawful(p) && 2002 <= year && !Northern(p, year)
    ensures !Northern(p, year + 1)
  {
    hide Start, End, Jump, HasRules, Active, Lawful, Epoch, Falls;
    var t := Epoch(year + 1);
    BothYears(p, year);
    AtNewYear(p, year);
    if Northern(p, year + 1) {
      assert Start(p, year) < t && Active(p, t - 1) && !Active(p, t);
      OffUntil(p, year + 1, t);
      FallRule(p, t - 1);
      FallAt(p, year, t);
    }
  }

  /** In a northern year summer time is off until the start. */
  lemma OffUntil(p: Policy, year: nat, t: int)
    requires HasRules(p) && Lawful(p) && 2003 <= year && Northern(p, year) && t == Epoch(year)
    requires Active(p, t - 1) && !Active(p, t)
    ensures !Active(p, t - 1 + Jump(p))
  {
    hide Start, End, Jump, HasRules, Active, Lawful, Epoch;
    BothYears(p, year);
    var f := t - 1 + Jump(p);
    if f < Start(p, year) {
      InForceThen(p, year, f);
    } else {
      AroundStart(p, year, f);
    }
  }

  // ---------------------------------------------------------------- all the years

  lemma YearIsRegular(p: Policy, year: nat)
    requires HasRules(p) && Lawful(p) && 2002 <= year && Northern(p, year) == Northern(p, year + 1)
    ensures RegularYear(p, Northern(p, year), year)
  {
    hide Start, End, Jump, HasRules, Active, Lawful, Epoch;
    BothYears(p, year);
    var s, e, j := Start(p, year), End(p, year), Jump(p);
    if s <= e < s + j {
      AroundStart(p, year, e);
    }
    if e <= s < e + j {
      AroundEnd(p, year, s - j);
    }
    if e <= Start(p, year + 1) < e + j {
      AroundEnd(p, year, Start(p, year + 1) - j);
    }
    if s <= End(p, year + 1) < s + j {
      AroundStart(p, year, End(p, year + 1));
    }
  }

  lemma {:induction false} SameOrder(p: Policy, year: nat)
    requires HasRules(p) && Lawful(p) && 2002 <= year
    ensures Northern(p, year) == Northern(p, 2002)
  {
    hide HasRules, Lawful, Northern;
    if 2002 < year {
      SameOrder(p, year - 1);
      if Northern(p, year - 1) {
        NotSouthAfterNorth(p, year - 1);
      } else {
        NotNorthAfterSouth(p, year - 1);
      }
    }
  }

  // --------------------------------------------------------- the calendar's period

  const PERIOD := 146097

  /** Leap years before `year`, counted from some year on. */
  function Leaps(year: nat): int {
    (year - 1) / 4 - (year - 1) / 100 + (year - 1) / 400
  }

  lemma LeapsNext(year: nat)
    requires 1 <= year
    ensures Leaps(year + 1) == Leaps(year) + if IsLeap(year) then 1 else 0
  {
    EveryFour(year);
    EveryHundred(year);
    EveryFourHundred(year);
    Nested(year);
  }

  lemma EveryFour(year: nat)
    requires 1 <= year
    ensures year / 4 == (year - 1) / 4 + if year % 4 == 0 then 1 else 0
  {
  }

  lemma EveryHundred(year: nat)
    requires 1 <= year
    ensures year / 100 == (year - 1) / 100 + if year % 100 == 0 then 1 else 0
  {
  }

  lemma EveryFourHundred(year: nat)
    requires 1 <= year
    ensures year / 400 == (year - 1) / 400 + if year % 400 == 0 then 1 else 0
  {
  }

  lemma Nested(year: nat)
    ensures year % 400 == 0 ==> year % 100 == 0
    ensures year % 100 == 0 ==> year % 4 == 0
  {
    if year % 400 == 0 {
      Hundreds(year / 400 * 4);
      assert year == year / 400 * 4 * 100;
    }
    if year % 100 == 0 {
      Fours(year / 100 * 25);
      assert year == year / 100 * 25 * 4;
    }
  }

  lemma Hundreds(q: nat)
    ensures q * 100 % 100 == 0
  {
  }

  lemma Fours(q: nat)
    ensures q * 4 % 4 == 0
  {
  }

  lemma LeapsPeriod(year: nat)
    requires 1 <= year
    ensures Leaps(year + 400) == Leaps(year) + 97
  {
    PeriodByFour(year - 1);
    PeriodByHundred(year - 1);
    PeriodByFourHundred(year - 1);
  }

  lemma PeriodByFour(n: nat)
    ensures (n + 400) / 4 == n / 4 + 100 && (n + 400) % 4 == n % 4
  {
  }

  lemma PeriodByHundred(n: nat)
    ensures (n + 400) / 100 == n / 100 + 4 && (n + 400) % 100 == n % 100
  {
  }

  lemma PeriodByFourHundred(n: nat)
    ensures (n + 400) / 400 == n / 400 + 1 && (n + 400) % 400 == n % 400
  {
  }

  lemma {:induction false} YearStartIs(year: nat)
    requires 1970 <= year
    ensures YearStart(year) == 365 * (year - 1970) + Leaps(year) - Leaps(1970)
  {
    hide Leaps;
    if 1970 < year {
      YearStartIs(year - 1);
      LeapsNext(year - 1);
    }
  }

  lemma LeapPeriod(year: nat)
    ensures IsLeap(year + 400) == IsLeap(year)
  {
    PeriodByFour(year);
    PeriodByHundred(year);
    PeriodByFourHundred(year);
  }

  lemma YearPeriod(year: nat)
    requires 1970 <= year
    ensures YearStart(year + 400) == YearStart(year) + PERIOD
  {
    hide Leaps, YearStart;
    YearStartIs(year);
    YearStartIs(year + 400);
    LeapsPeriod(year);
  }

  lemma MonthPeriod(year: nat, month: nat)
    requires 1 <= month <= 12
    ensures MonthStart(year + 400, month) == MonthStart(year, month)
    ensures DaysInMonth(year + 400, month) == DaysInMonth(year, month)
  {
    hide MonthStart, IsLeap;
    LeapPeriod(year);
    MonthStartShape(year, month);
    MonthStartShape(year + 400, month);
  }

  lemma WeekdayPeriod(year: nat, month: nat, day: nat)
    requires ValidDate(Civil(year, month, day))
    ensures ValidDate(Civil(year + 400, month, day))
    ensures Days(Civil(year + 400, month, day)) == Days(Civil(year, month, day)) + PERIOD
    ensures WeekdayUtc(Civil(year + 400, month, day)) == WeekdayUtc(Civil(year, month, day))
  {
    hide MonthStart, YearStart, DaysInMonth;
    YearPeriod(year);
    MonthPeriod(year, month);
    WholeWeeks(Days(Civil(year, month, day)) + 4);
  }

  lemma WholeWeeks(n: nat)
    ensures (n + PERIOD) % 7 == n % 7
  {
  }

  lemma RulePeriod(year: nat, r: Rule)
    requires 1970 <= year && ValidateRule(Some(r))
    ensures RuleWall(year + 400, r) == RuleWall(year, r) + PERIOD * DAY
  {
    hide MonthStart, YearStart, DaysInMonth, WeekdayUtc, Days;
    var month, week, weekday := Integer(r.month, 3), Integer(r.week, 2), Integer(r.weekday, 0);
    MonthPeriod(year, month);
    WeekdayPeriod(year, month, 1);
    WeekdayPeriod(year, month, DaysInMonth(year, month));
    NthWeekdayCorrect(year, month, week, weekday);
    var day := NthWeekday(year, month, week, weekday);
    assert NthWeekday(year + 400, month, week, weekday) == day;
    WeekdayPeriod(year, month, day);
  }

  lemma ChangesPeriod(p: Policy, year: nat)
    requires HasRules(p) && 1970 <= year
    ensures Start(p, year + 400) == Start(p, year) + PERIOD * DAY && End(p, year + 400) == End(p, year) + PERIOD * DAY
    ensures Epoch(year + 400) == Epoch(year) + PERIOD * DAY
  {
    hide RuleWall;
    RulePeriod(year, p.dst.value.start.value);
    RulePeriod(year, p.dst.value.end.value);
    YearPeriod(year);
  }

  /** A year is regular exactly when the one four centuries later is. */
  lemma RegularPeriod(p: Policy, northern: bool, year: nat)
    requires HasRules(p) && 1970 <= year
    ensures RegularYear(p, northern, year + 400) <==> RegularYear(p, northern, year)
  {
    hide Start, End, Epoch, Jump, HasRules;
    ChangesPeriod(p, year);
    ChangesPeriod(p, year + 1);
  }

  /** Regular through one cycle of the calendar, which a caller can compute. */
  predicate RegularCycle(p: Policy, northern: bool) {
    HasRules(p) && forall year: nat | 1998 <= year < 2398 :: RegularYear(p, northern, year)
  }

  lemma {:induction false} CycleYear(p: Policy, northern: bool, year: nat)
    requires RegularCycle(p, northern) && 1998 <= year
    ensures RegularYear(p, northern, year)
  {
    hide RegularYear, HasRules;
    if 2398 <= year {
      CycleYear(p, northern, year - 400);
      RegularPeriod(p, northern, year - 400);
    }
  }

  /** Four hundred years decide. */
  lemma RegularIffCycle(p: Policy, northern: bool)
    requires HasRules(p)
    ensures Regular(p, northern) <==> RegularCycle(p, northern)
  {
    hide RegularYear, HasRules;
    if RegularCycle(p, northern) {
      forall year: nat | 1998 <= year
        ensures RegularYear(p, northern, year)
      {
        CycleYear(p, northern, year);
      }
    }
  }

  // -------------------------------------------------------------------- the theorem

  lemma LawfulRegular(p: Policy)
    requires HasRules(p) && Lawful(p)
    ensures Regular(p, Northern(p, 2002))
  {
    hide RegularYear, HasRules, Lawful, Northern;
    var northern := Northern(p, 2002);
    forall year: nat | 1998 <= year
      ensures RegularYear(p, northern, year)
    {
      var later: nat := if year < 2002 then year + 400 else year;
      SameOrder(p, later);
      SameOrder(p, later + 1);
      YearIsRegular(p, later);
      if year < 2002 {
        RegularPeriod(p, northern, year);
      }
    }
    assert Regular(p, northern);
  }

  /** The wall times without a reading and with two are those the rules skip and
      repeat, for all wall times from 2000 on, exactly when both changes fall in
      their own UTC year, in the same order, and at least the jump apart, in each
      of the years 1998 to 2397. */
  lemma LawfulIff(p: Policy)
    requires HasRules(p)
    ensures Lawful(p) <==> RegularCycle(p, true) || RegularCycle(p, false)
  {
    RegularIffCycle(p, true);
    RegularIffCycle(p, false);
    LawfulIffRegular(p);
    hide HasRules, Regular, RegularCycle, Lawful;
  }

  lemma LawfulIffRegular(p: Policy)
    requires HasRules(p)
    ensures Lawful(p) <==> Regular(p, true) || Regular(p, false)
  {
    hide HasRules, Regular, Northern, NoReading, TwoReadings, InGap, InOverlap;
    if Lawful(p) {
      LawfulRegular(p);
    }
    forall northern | Regular(p, northern)
      ensures Lawful(p)
    {
      forall wall: nat | FLOOR <= wall
        ensures AsTheRulesSay(p, wall)
      {
        ReadingsByRule(p, northern, wall);
      }
    }
  }
}
