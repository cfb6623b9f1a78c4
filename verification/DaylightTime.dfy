/** Which wall times do not exist and which exist twice under a daylight-saving
    policy of buildroot/packages/configd/time_ops.c, in terms of its rules. */
module DaylightTime {
  import opened Bytes
  import opened Calendar
  import opened LocalTime

  /** The first second of a year in UTC. */
  function Epoch(year: nat): nat
    requires 1970 <= year
  {
    YearStart(year) * DAY
  }

  /** The wall time a rule names in a year. */
  function RuleWall(year: nat, r: Rule): nat
    requires 1970 <= year && ValidateRule(Some(r))
  {
    NthWeekdayCorrect(year, Integer(r.month, 3), Integer(r.week, 2), Integer(r.weekday, 0));
    Timegm(Clock(Civil(year, Integer(r.month, 3),
                       NthWeekday(year, Integer(r.month, 3), Integer(r.week, 2), Integer(r.weekday, 0))),
                 Integer(r.hour, 2), Integer(r.minute, 0), 0))
  }

  predicate HasRules(p: Policy) { ValidatePolicy(p) && DstEnabled(p) && Daylight(p) != Standard(p) }

  /** The wall times of the two changes, and their UTC times. */
  function StartWall(p: Policy, year: nat): nat
    requires HasRules(p) && 1970 <= year
  {
    RuleWall(year, p.dst.value.start.value)
  }

  function EndWall(p: Policy, year: nat): nat
    requires HasRules(p) && 1970 <= year
  {
    RuleWall(year, p.dst.value.end.value)
  }

  function Start(p: Policy, year: nat): int
    requires HasRules(p) && 1970 <= year
  {
    StartWall(p, year) - Standard(p) * 60
  }

  function End(p: Policy, year: nat): int
    requires HasRules(p) && 1970 <= year
  {
    EndWall(p, year) - Daylight(p) * 60
  }

  /** How far the clock jumps, in seconds. */
  function Jump(p: Policy): (j: nat)
    requires HasRules(p)
    ensures j <= 93600
  {
    if Daylight(p) > Standard(p) then (Daylight(p) - Standard(p)) * 60 else (Standard(p) - Daylight(p)) * 60
  }

  // ---------------------------------------------------------- regular policies

  /** Both changes fall in their own UTC year, its very end included, in the same
      order every year, and consecutive changes are at least the jump apart. */
  predicate RegularYear(p: Policy, northern: bool, year: nat)
    requires HasRules(p) && 1970 <= year
  {
    && Epoch(year) <= Start(p, year) <= Epoch(year + 1) && Epoch(year) <= End(p, year) <= Epoch(year + 1)
    && if northern
       then Start(p, year) < End(p, year) && End(p, year) - Start(p, year) >= Jump(p)
            && Start(p, year + 1) - End(p, year) >= Jump(p)
       else End(p, year) <= Start(p, year) && Start(p, year) - End(p, year) >= Jump(p)
            && End(p, year + 1) - Start(p, year) >= Jump(p)
  }

  ghost predicate Regular(p: Policy, northern: bool) {
    HasRules(p) && forall year: nat :: 1998 <= year ==> RegularYear(p, northern, year)
  }

  /** The end of the daylight period that starts in this year. */
  function Stop(p: Policy, northern: bool, year: nat): int
    requires HasRules(p) && 1970 <= year
  {
    if northern then End(p, year) else End(p, year + 1)
  }

  predicate During(p: Policy, northern: bool, year: nat, e: int)
    requires HasRules(p) && 1970 <= year
  {
    Start(p, year) <= e < Stop(p, northern, year)
  }

  lemma YearOf(e: nat, year: nat)
    requires 1970 <= year
    ensures Epoch(year) <= e < Epoch(year + 1) <==> Gmtime(e).date.year == year
  {
    var t := Gmtime(e);
    InsideYear(t.date);
    var y := t.date.year;
    assert Epoch(y) <= e < Epoch(y + 1);
    hide Gmtime, Timegm;
    if y < year {
      YearsBefore(y + 1, year);
    } else if year < y {
      YearsBefore(year + 1, y);
    }
  }

  lemma YearsBefore(a: nat, b: nat)
    requires 1970 <= a <= b
    ensures Epoch(a) <= Epoch(b)
  {
    if a < b {
      YearsApart(a, b);
    }
  }

  /** Daylight-saving time is in force exactly during the periods between the
      changes. */
  lemma ActiveIff(p: Policy, northern: bool, e: nat)
    requires Regular(p, northern) && 1999 <= Gmtime(e).date.year
    ensures DstActive(p, e) <==> exists year: nat :: 1998 <= year && During(p, northern, year, e)
  {
    hide DstActive, Gmtime, Start, End, Epoch, ValidatePolicy, RegularYear, During;
    var y := Gmtime(e).date.year;
    YearOf(e, y);
    ActiveInYear(p, e);
    assert RegularYear(p, northern, y) && RegularYear(p, northern, y - 1);
    if DstActive(p, e) {
      assert RegularYear(p, northern, y + 1);
      ActiveDuring(p, northern, y, e);
    }
    if z: nat :| 1998 <= z && During(p, northern, z, e) {
      assert RegularYear(p, northern, z) && RegularYear(p, northern, z + 1);
      WhichYear(p, northern, z, y, e);
      DuringActive(p, northern, z, y, e);
    }
  }

  /** What active_offset looks at. */
  predicate InForce(p: Policy, y: nat, e: nat)
    requires HasRules(p) && 1970 <= y
  {
    if Start(p, y) < End(p, y) then Start(p, y) <= e < End(p, y) else Start(p, y) <= e || e < End(p, y)
  }

  lemma ActiveInYear(p: Policy, e: nat)
    requires HasRules(p)
    ensures DstActive(p, e) <==> InForce(p, Gmtime(e).date.year, e)
  {
    hide Gmtime, NthWeekday, Timegm;
  }

  lemma ActiveDuring(p: Policy, northern: bool, y: nat, e: nat)
    requires HasRules(p) && 1999 <= y && RegularYear(p, northern, y) && RegularYear(p, northern, y - 1)
    requires Epoch(y) <= e < Epoch(y + 1) && InForce(p, y, e)
    requires RegularYear(p, northern, y + 1)
    ensures During(p, northern, y, e) || During(p, northern, y - 1, e)
  {
    hide Start, End, Epoch, ValidatePolicy;
  }

  lemma DuringActive(p: Policy, northern: bool, z: nat, y: nat, e: nat)
    requires HasRules(p) && 1998 <= z && 1999 <= y && RegularYear(p, northern, z) && RegularYear(p, northern, y)
    requires During(p, northern, z, e) && (z == y || (!northern && z + 1 == y))
    ensures InForce(p, y, e)
  {
    hide Start, End, Epoch, ValidatePolicy;
  }

  /** A period reaches into its own year and, in the south, the next. */
  lemma WhichYear(p: Policy, northern: bool, z: nat, y: nat, e: nat)
    requires HasRules(p) && 1998 <= z && 1999 <= y && RegularYear(p, northern, z) && RegularYear(p, northern, z + 1)
    requires During(p, northern, z, e) && Epoch(y) <= e < Epoch(y + 1)
    ensures z == y || (!northern && z + 1 == y)
  {
    hide Start, End, Epoch, ValidatePolicy;
    if y < z {
      YearsBefore(y + 1, z);
    } else if northern && z < y {
      YearsBefore(z + 1, y);
    } else if z + 1 < y {
      YearsBefore(z + 2, y);
    }
  }

  /** Periods do not come closer than the jump. */
  lemma PeriodsApart(p: Policy, northern: bool, z: nat, y: nat)
    requires Regular(p, northern) && 1998 <= z
    ensures Stop(p, northern, z) - Start(p, z) >= Jump(p)
    ensures z < y ==> Stop(p, northern, z) + Jump(p) <= Start(p, y)
  {
    hide Start, End, Epoch, ValidatePolicy, Jump;
    assert RegularYear(p, northern, z) && RegularYear(p, northern, z + 1);
    if z + 1 < y {
      assert RegularYear(p, northern, y);
      YearsBefore(z + 2, y);
    }
  }

  // -------------------------------------------------------- gaps and overlaps

  /** The hour that the clock skips, by the rule: it follows the change at which
      the clock goes forward. */
  ghost predicate InGap(p: Policy, wall: int)
    requires HasRules(p)
  {
    exists year: nat :: 1999 <= year && SkippedIn(p, year, wall)
  }

  predicate SkippedIn(p: Policy, year: nat, wall: int)
    requires HasRules(p) && 1970 <= year
  {
    var change := if Daylight(p) > Standard(p) then StartWall(p, year) else EndWall(p, year);
    change <= wall < change + Jump(p)
  }

  /** The hour that the clock repeats: it precedes the change at which the clock
      goes back. */
  ghost predicate InOverlap(p: Policy, wall: int)
    requires HasRules(p)
  {
    exists year: nat :: 1999 <= year && RepeatedIn(p, year, wall)
  }

  predicate RepeatedIn(p: Policy, year: nat, wall: int)
    requires HasRules(p) && 1970 <= year
  {
    var change := if Daylight(p) > Standard(p) then EndWall(p, year) else StartWall(p, year);
    change - Jump(p) <= wall < change
  }

  /** The two epochs that could read as the wall time. */
  lemma TwoCandidates(p: Policy, wall: nat, e: nat)
    requires HasRules(p)
    ensures Reads(p, e, wall) <==>
              (e == wall - Standard(p) * 60 && !DstActive(p, e)) || (e == wall - Daylight(p) * 60 && DstActive(p, e))
  {
    hide DstActive;
  }

  /** Epochs of wall times from 2000 on. */
  lemma LateEnough(p: Policy, wall: nat, offset: int)
    requires FLOOR <= wall && -720 <= offset <= 840
    ensures 0 <= wall - offset * 60 && 1999 <= Gmtime(wall - offset * 60).date.year
  {
    var e := wall - offset * 60;
    YearBounds();
    YearOf(e, Gmtime(e).date.year);
    hide Gmtime, Epoch;
    if Gmtime(e).date.year < 1999 {
      YearsBefore(Gmtime(e).date.year + 1, 1999);
    }
  }

  lemma YearBounds()
    ensures Epoch(2000) == FLOOR && Epoch(1999) == FLOOR - 365 * DAY
  {
    DecadeStart();
    assert YearStart(2000) == YearStart(1999) + 365;
  }

  /** A wall time in a rule's year. */
  lemma RuleInYear(year: nat, r: Rule)
    requires 1970 <= year && ValidateRule(Some(r))
    ensures Epoch(year) <= RuleWall(year, r) < Epoch(year + 1)
  {
    var t := Gmtime(RuleWall(year, r));
    NthWeekdayCorrect(year, Integer(r.month, 3), Integer(r.week, 2), Integer(r.weekday, 0));
    InsideYear(Civil(year, Integer(r.month, 3),
                     NthWeekday(year, Integer(r.month, 3), Integer(r.week, 2), Integer(r.weekday, 0))));
    hide NthWeekday, MonthStart;
  }

  /** A change near a wall time from 2000 on is no older than 1999. */
  lemma RecentChange(p: Policy, year: nat, wall: nat)
    requires HasRules(p) && 1970 <= year && FLOOR <= wall
    requires StartWall(p, year) + Jump(p) > wall || EndWall(p, year) + Jump(p) > wall
    ensures 1999 <= year
  {
    YearBounds();
    RuleInYear(year, p.dst.value.start.value);
    RuleInYear(year, p.dst.value.end.value);
    hide Epoch, RuleWall, Jump;
    if year < 1999 {
      YearsBefore(year + 1, 1999);
    }
  }

  /** Daylight-saving time by the periods alone. */
  ghost predicate On(p: Policy, northern: bool, e: int)
    requires HasRules(p)
  {
    exists year: nat :: 1998 <= year && During(p, northern, year, e)
  }

  ghost predicate Rises(p: Policy, e: int)
    requires HasRules(p)
  {
    exists year: nat :: 1998 <= year && Start(p, year) <= e < Start(p, year) + Jump(p)
  }

  ghost predicate Falls(p: Policy, northern: bool, e: int)
    requires HasRules(p)
  {
    exists year: nat :: 1998 <= year && Stop(p, northern, year) - Jump(p) <= e < Stop(p, northern, year)
  }

  /** In force now and not a jump earlier: a start lies between. */
  lemma RiseIff(p: Policy, northern: bool, e: int)
    requires Regular(p, northern)
    ensures On(p, northern, e) && !On(p, northern, e - Jump(p)) <==> Rises(p, e)
  {
    hide Start, Stop, Jump, ValidatePolicy, RegularYear;
    if On(p, northern, e) && !On(p, northern, e - Jump(p)) {
      var y: nat :| 1998 <= y && During(p, northern, y, e);
      assert !During(p, northern, y, e - Jump(p));
    }
    if Rises(p, e) {
      var y: nat :| 1998 <= y && Start(p, y) <= e < Start(p, y) + Jump(p);
      PeriodsApart(p, northern, y, y);
      assert During(p, northern, y, e);
      var f := e - Jump(p);
      forall z: nat | 1998 <= z ensures !During(p, northern, z, f) {
        PeriodsApart(p, northern, z, y);
        PeriodsApart(p, northern, y, z);
      }
    }
  }

  /** In force now and not a jump later: an end lies between. */
  lemma FallIff(p: Policy, northern: bool, e: int)
    requires Regular(p, northern)
    ensures On(p, northern, e) && !On(p, northern, e + Jump(p)) <==> Falls(p, northern, e)
  {
    hide Start, Stop, Jump, ValidatePolicy, RegularYear;
    if On(p, northern, e) && !On(p, northern, e + Jump(p)) {
      var y: nat :| 1998 <= y && During(p, northern, y, e);
      assert !During(p, northern, y, e + Jump(p));
    }
    if Falls(p, northern, e) {
      var y: nat :| 1998 <= y && Stop(p, northern, y) - Jump(p) <= e < Stop(p, northern, y);
      PeriodsApart(p, northern, y, y);
      assert During(p, northern, y, e);
      var f := e + Jump(p);
      forall z: nat | 1998 <= z ensures !During(p, northern, z, f) {
        PeriodsApart(p, northern, z, y);
        PeriodsApart(p, northern, y, z);
      }
    }
  }

  /** A start near the standard-time epoch, as wall times. */
  lemma RisesOnTheWall(p: Policy, wall: nat, shift: int)
    requires HasRules(p) && FLOOR <= wall && (shift == 0 || shift == Jump(p))
    ensures Rises(p, wall - Standard(p) * 60 + shift)
       <==> exists year: nat ::
         1999 <= year && StartWall(p, year) - shift <= wall < StartWall(p, year) + Jump(p) - shift
  {
    hide StartWall, EndWall, ValidatePolicy, Jump;
    var e := wall - Standard(p) * 60 + shift;
    if Rises(p, e) {
      var y: nat :| 1998 <= y && Start(p, y) <= e < Start(p, y) + Jump(p);
      RecentChange(p, y, wall);
      assert StartWall(p, y) - shift <= wall < StartWall(p, y) + Jump(p) - shift;
    }
    if y: nat :| 1999 <= y && StartWall(p, y) - shift <= wall < StartWall(p, y) + Jump(p) - shift {
      assert Start(p, y) <= e < Start(p, y) + Jump(p);
    }
  }

  /** An end near the daylight-time epoch, as wall times. */
  lemma FallsOnTheWall(p: Policy, northern: bool, wall: nat, shift: int)
    requires HasRules(p) && FLOOR <= wall && (shift == 0 || shift == Jump(p))
    ensures Falls(p, northern, wall - Daylight(p) * 60 - shift)
       <==> exists year: nat :: 1999 <= year && EndWall(p, year) - Jump(p) + shift <= wall < EndWall(p, year) + shift
  {
    hide StartWall, EndWall, ValidatePolicy, Jump;
    var e := wall - Daylight(p) * 60 - shift;
    if Falls(p, northern, e) {
      var y: nat :| 1998 <= y && Stop(p, northern, y) - Jump(p) <= e < Stop(p, northern, y);
      var z := if northern then y else y + 1;
      RecentChange(p, z, wall);
      assert EndWall(p, z) - Jump(p) + shift <= wall < EndWall(p, z) + shift;
    }
    if z: nat :| 1999 <= z && EndWall(p, z) - Jump(p) + shift <= wall < EndWall(p, z) + shift {
      var y := if northern then z else z - 1;
      assert Stop(p, northern, y) - Jump(p) <= e < Stop(p, northern, y);
    }
  }

  /** The epoch that reads as the wall time in standard time, and in daylight
      time. */
  function AsStandard(p: Policy, wall: nat): int { wall - Standard(p) * 60 }

  function AsDaylight(p: Policy, wall: nat): int
    requires HasRules(p)
  {
    wall - Daylight(p) * 60
  }

  ghost predicate NoReading(p: Policy, wall: nat)
    requires HasRules(p)
  {
    forall e: nat :: !Reads(p, e, wall)
  }

  ghost predicate TwoReadings(p: Policy, wall: nat)
    requires HasRules(p)
  {
    exists e: nat, f: nat :: e != f && Reads(p, e, wall) && Reads(p, f, wall)
  }

  /** Readings by what is in force at the two candidates. */
  lemma ByCandidates(p: Policy, northern: bool, wall: nat)
    requires Regular(p, northern) && FLOOR <= wall
    ensures var a, b := On(p, northern, AsStandard(p, wall)), On(p, northern, AsDaylight(p, wall));
            && (NoReading(p, wall) <==> a && !b) && (TwoReadings(p, wall) <==> !a && b)
  {
    hide DstActive, Gmtime, During, RegularYear, Reads, On;
    var a, b := AsStandard(p, wall), AsDaylight(p, wall);
    LateEnough(p, wall, Standard(p));
    LateEnough(p, wall, Daylight(p));
    ActiveIff(p, northern, a);
    ActiveIff(p, northern, b);
    assert On(p, northern, a) == DstActive(p, a) && On(p, northern, b) == DstActive(p, b) by {
      Unfold(p, northern, a);
      Unfold(p, northern, b);
    }
    forall e: nat
      ensures Reads(p, e, wall) <==> (e == a && !DstActive(p, e)) || (e == b && DstActive(p, e))
    {
      TwoCandidates(p, wall, e);
    }
  }

  lemma Unfold(p: Policy, northern: bool, e: int)
    requires HasRules(p)
    ensures On(p, northern, e) <==> exists year: nat :: 1998 <= year && During(p, northern, year, e)
  {
    hide During;
  }

  /** A wall time from 2000 on has no reading exactly in the gap after a change
      forward, and two exactly in the overlap before a change back. */
  lemma ReadingsByRule(p: Policy, northern: bool, wall: nat)
    requires Regular(p, northern) && FLOOR <= wall
    ensures NoReading(p, wall) <==> InGap(p, wall)
    ensures TwoReadings(p, wall) <==> InOverlap(p, wall)
  {
    assert HasRules(p);
    hide NoReading, TwoReadings, InGap, InOverlap, Rises, Falls, On, Regular, Jump, Standard, Daylight, AsStandard,
         AsDaylight;
    ByCandidates(p, northern, wall);
    JumpBetween(p, wall);
    ByChanges(p, northern, AsStandard(p, wall), AsDaylight(p, wall));
    GapOnTheWall(p, northern, wall);
    OverlapOnTheWall(p, northern, wall);
  }

  /** What is in force at two epochs a jump apart, by the change between them. */
  lemma ByChanges(p: Policy, northern: bool, s: int, d: int)
    requires Regular(p, northern) && d == if Daylight(p) > Standard(p) then s - Jump(p) else s + Jump(p)
    ensures On(p, northern, s) && !On(p, northern, d) <==>
              if Daylight(p) > Standard(p) then Rises(p, s) else Falls(p, northern, s)
    ensures !On(p, northern, s) && On(p, northern, d) <==>
              if Daylight(p) > Standard(p) then Falls(p, northern, d) else Rises(p, d)
  {
    assert HasRules(p);
    hide Rises, Falls, On, Regular, Jump, Standard, Daylight, HasRules;
    if Daylight(p) > Standard(p) {
      RiseIff(p, northern, s);
      FallIff(p, northern, d);
      assert d + Jump(p) == s;
    } else {
      FallIff(p, northern, s);
      RiseIff(p, northern, d);
      assert d - Jump(p) == s;
    }
  }

  lemma JumpBetween(p: Policy, wall: nat)
    requires HasRules(p)
    ensures var s, d := AsStandard(p, wall), AsDaylight(p, wall);
            if Daylight(p) > Standard(p) then d == s - Jump(p) else d == s + Jump(p)
  {
  }

  lemma GapOnTheWall(p: Policy, northern: bool, wall: nat)
    requires HasRules(p) && FLOOR <= wall
    ensures InGap(p, wall) <==>
              if Daylight(p) > Standard(p) then Rises(p, AsStandard(p, wall))
              else Falls(p, northern, AsStandard(p, wall))
  {
    hide StartWall, EndWall, ValidatePolicy, Rises, Falls;
    if Daylight(p) > Standard(p) {
      RisesOnTheWall(p, wall, 0);
      forall year: nat | 1999 <= year
        ensures SkippedIn(p, year, wall) <==> StartWall(p, year) - 0 <= wall < StartWall(p, year) + Jump(p) - 0
      {
      }
    } else {
      FallsOnTheWall(p, northern, wall, Jump(p));
      assert AsDaylight(p, wall) - Jump(p) == AsStandard(p, wall);
      forall year: nat | 1999 <= year
        ensures SkippedIn(p, year, wall) <==> EndWall(p, year) - Jump(p) + Jump(p) <= wall < EndWall(p, year) + Jump(p)
      {
      }
    }
  }

  lemma OverlapOnTheWall(p: Policy, northern: bool, wall: nat)
    requires HasRules(p) && FLOOR <= wall
    ensures InOverlap(p, wall) <==>
              if Daylight(p) > Standard(p) then Falls(p, northern, AsDaylight(p, wall))
              else Rises(p, AsDaylight(p, wall))
  {
    hide StartWall, EndWall, ValidatePolicy, Rises, Falls;
    if Daylight(p) > Standard(p) {
      FallsOnTheWall(p, northern, wall, 0);
      forall year: nat | 1999 <= year
        ensures RepeatedIn(p, year, wall) <==> EndWall(p, year) - Jump(p) + 0 <= wall < EndWall(p, year) + 0
      {
      }
    } else {
      RisesOnTheWall(p, wall, Jump(p));
      assert AsStandard(p, wall) + Jump(p) == AsDaylight(p, wall);
      forall year: nat | 1999 <= year
        ensures RepeatedIn(p, year, wall) <==>
                  StartWall(p, year) - Jump(p) <= wall < StartWall(p, year) + Jump(p) - Jump(p)
      {
      }
    }
  }

  // ------------------------------------------------------ what time_set_local does

  /** time_set_local under a regular policy: a wall time more than fourteen hours
      past the floor fails exactly when the clock skips it, and one that comes
      twice is set to its standard-time reading. */
  lemma SetByRule(p: Policy, northern: bool, wall: nat, r: Result<nat, SetError>)
    requires Regular(p, northern) && FLOOR <= wall && Settled(p, wall, r)
    ensures InGap(p, wall) ==> r.Err?
    ensures FLOOR + 50400 <= wall ==> (r.Err? <==> InGap(p, wall))
    ensures r.Ok? && InOverlap(p, wall) ==> r.value == AsStandard(p, wall)
  {
    assert ValidatePolicy(p);
    ReadingsByRule(p, northern, wall);
    hide InGap, InOverlap, Regular, RegularYear, DstActive, TwoReadings, NoReading;
    if NoReading(p, wall) {
      NothingChosen(p, wall);
    } else if FLOOR + 50400 <= wall {
      SomethingChosen(p, wall);
    }
    if TwoReadings(p, wall) && r.Ok? {
      StandardChosen(p, wall, r.value);
    }
  }

  lemma NothingChosen(p: Policy, wall: nat)
    requires HasRules(p) && NoReading(p, wall)
    ensures forall e: nat :: !Chosen(p, e, wall)
  {
    hide Reads;
  }

  lemma SomethingChosen(p: Policy, wall: nat)
    requires HasRules(p) && !NoReading(p, wall) && FLOOR + 50400 <= wall
    ensures exists e: nat :: Chosen(p, e, wall) && FLOOR <= e
  {
    hide DstActive;
    var e: nat :| Reads(p, e, wall);
    var a := AsStandard(p, wall);
    TwoCandidates(p, wall, e);
    TwoCandidates(p, wall, a);
    if Reads(p, a, wall) {
      assert Chosen(p, a, wall);
    } else {
      assert Chosen(p, e, wall);
    }
  }

  lemma StandardChosen(p: Policy, wall: nat, e: nat)
    requires HasRules(p) && TwoReadings(p, wall) && Chosen(p, e, wall)
    ensures e == AsStandard(p, wall)
  {
    hide DstActive;
    var f: nat, g: nat :| f != g && Reads(p, f, wall) && Reads(p, g, wall);
    TwoCandidates(p, wall, f);
    TwoCandidates(p, wall, g);
  }

  /** Without daylight-saving rules every wall time has exactly one reading. */
  lemma OneReadingWithoutRules(p: Policy, wall: nat, e: nat)
    requires ValidatePolicy(p) && !HasRules(p) && FLOOR <= wall
    ensures Reads(p, e, wall) <==> e == wall - Standard(p) * 60
  {
    hide DstActive;
  }

  /** time_set_local without rules: it fails exactly when the one reading is before
      2000, and sets that reading otherwise. */
  lemma SetWithoutRules(p: Policy, wall: nat, r: Result<nat, SetError>)
    requires ValidatePolicy(p) && !HasRules(p) && FLOOR <= wall && Settled(p, wall, r)
    ensures r.Ok? <==> FLOOR <= AsStandard(p, wall)
    ensures r.Ok? ==> r.value == AsStandard(p, wall)
  {
    hide Reads, HasRules, ValidatePolicy;
    forall e: nat
      ensures Reads(p, e, wall) <==> e == AsStandard(p, wall)
    {
      OneReadingWithoutRules(p, wall, e);
    }
    if FLOOR <= AsStandard(p, wall) {
      assert Chosen(p, AsStandard(p, wall), wall);
    }
  }

  // -------------------------------------------------- which policies are regular

  function MonthOf(r: Rule): nat
    requires ValidateRule(Some(r))
  {
    Integer(r.month, 3)
  }

  lemma RuleInMonth(year: nat, r: Rule)
    requires 1970 <= year && ValidateRule(Some(r))
    ensures var m := MonthOf(r);
            && Epoch(year) + MonthStart(year, m) * DAY <= RuleWall(year, r)
            && RuleWall(year, r) < Epoch(year) + (MonthStart(year, m) + DaysInMonth(year, m)) * DAY
  {
    NthWeekdayCorrect(year, Integer(r.month, 3), Integer(r.week, 2), Integer(r.weekday, 0));
    hide NthWeekday, MonthStart, DaysInMonth, YearStart;
  }

  lemma EarlyMonths(year: nat)
    ensures MonthStart(year, 2) == 31 && MonthStart(year, 12) + 31 == DaysInYear(year)
  {
    YearIsMonths(year);
  }

  lemma TwoMonthsApart(year: nat, a: nat, b: nat)
    requires 2 <= a && a + 2 <= b <= 11
    ensures 31 <= MonthStart(year, a) && MonthStart(year, a) + DaysInMonth(year, a) + 28 <= MonthStart(year, b)
    ensures MonthStart(year, b) + DaysInMonth(year, b) + 31 <= DaysInYear(year)
  {
    EarlyMonths(year);
    MonthsApart(year, a, a + 1);
    MonthsApart(year, a + 1, b);
    MonthsApart(year, b, 12);
    if a > 2 {
      MonthsApart(year, 2, a);
    }
    hide MonthStart;
  }

  lemma NextYear(year: nat)
    requires 1970 <= year
    ensures Epoch(year + 1) == Epoch(year) + DaysInYear(year) * DAY
  {
  }

  /** A change as a UTC time, in days of its year. */
  lemma ChangeInMonth(p: Policy, year: nat)
    requires HasRules(p) && 1970 <= year
    ensures var m, n := MonthOf(p.dst.value.start.value), MonthOf(p.dst.value.end.value);
            && Epoch(year) + MonthStart(year, m) * DAY - 50400 <= Start(p, year)
            && Start(p, year) < Epoch(year) + (MonthStart(year, m) + DaysInMonth(year, m)) * DAY + 43200
            && Epoch(year) + MonthStart(year, n) * DAY - 50400 <= End(p, year)
            && End(p, year) < Epoch(year) + (MonthStart(year, n) + DaysInMonth(year, n)) * DAY + 43200
  {
    RuleInMonth(year, p.dst.value.start.value);
    RuleInMonth(year, p.dst.value.end.value);
    hide RuleWall, Epoch, MonthStart, DaysInMonth;
  }

  /** Rules for months from February to November, two or more months apart, are
      regular. */
  lemma UsualRulesRegular(p: Policy)
    requires HasRules(p)
    requires 2 <= MonthOf(p.dst.value.start.value) <= 11 && 2 <= MonthOf(p.dst.value.end.value) <= 11
    requires var m, n := MonthOf(p.dst.value.start.value), MonthOf(p.dst.value.end.value); m + 2 <= n || n + 2 <= m
    ensures Regular(p, MonthOf(p.dst.value.start.value) < MonthOf(p.dst.value.end.value))
  {
    var m, n := MonthOf(p.dst.value.start.value), MonthOf(p.dst.value.end.value);
    var northern := m < n;
    hide RegularYear, MonthOf;
    forall year: nat | 1998 <= year
      ensures RegularYear(p, northern, year)
    {
      UsualYear(p, northern, m, n, year);
    }
    assert Regular(p, northern);
  }

  lemma UsualYear(p: Policy, northern: bool, m: nat, n: nat, year: nat)
    requires HasRules(p) && 1998 <= year && northern == (m < n)
    requires m == MonthOf(p.dst.value.start.value) && n == MonthOf(p.dst.value.end.value)
    requires 2 <= m <= 11 && 2 <= n <= 11 && (m + 2 <= n || n + 2 <= m)
    ensures RegularYear(p, northern, year)
  {
    ChangeInMonth(p, year);
    ChangeInMonth(p, year + 1);
    NextYear(year);
    var a, b := if m < n then m else n, if m < n then n else m;
    TwoMonthsApart(year, a, b);
    TwoMonthsApart(year + 1, a, b);
    hide Start, End, Epoch, MonthStart, DaysInMonth, DaysInYear, MonthOf, HasRules, Jump;
    JumpBound(p);
  }

  lemma JumpBound(p: Policy)
    requires HasRules(p)
    ensures Jump(p) <= 93600
  {
  }

  // ------------------------------------------------ a change in the other UTC year

  /** Fourteen hours ahead of UTC in summer, thirteen otherwise, with a change at
      midnight on the first Sunday of January. */
  const NEW_YEAR :=
    Policy(Some(780), Some(Dst(true, Some(840), Some(FIRST_SUNDAY_OF_JANUARY), Some(FIRST_SUNDAY_OF_JULY))))
  const FIRST_SUNDAY_OF_JANUARY := Rule(Some(1), Some(1), Some(0), Some(0), Some(0))
  const FIRST_SUNDAY_OF_JULY := Rule(Some(7), Some(1), Some(0), Some(0), Some(0))

  lemma Year2023()
    ensures YearStart(2022) == 18993 && YearStart(2023) == 19358
  {
    DecadeStart();
    assert YearStart(2005) == 12784;
    assert YearStart(2010) == 14610;
    assert YearStart(2015) == 16436;
    assert YearStart(2020) == 18262;
  }

  lemma JanuaryAndJuly(year: nat)
    requires !IsLeap(year)
    ensures MonthStart(year, 1) == 0 && DaysInMonth(year, 1) == 31
    ensures MonthStart(year, 7) == 181 && DaysInMonth(year, 7) == 31
  {
    assert MonthStart(year, 2) == 31;
    assert MonthStart(year, 3) == 59;
    assert MonthStart(year, 5) == 120;
  }

  lemma NewYearRules()
    ensures HasRules(NEW_YEAR) && Standard(NEW_YEAR) == 780 && Daylight(NEW_YEAR) == 840 && Jump(NEW_YEAR) == 3600
    ensures MonthOf(NEW_YEAR.dst.value.start.value) == 1 && MonthOf(NEW_YEAR.dst.value.end.value) == 7
  {
  }

  /** 1 January 2023 was a Sunday. */
  lemma ChangeIn2023()
    requires HasRules(NEW_YEAR)
    ensures StartWall(NEW_YEAR, 2023) == Epoch(2023) && Epoch(2023) == 19358 * DAY
  {
    Year2023();
    FirstIsSunday();
    hide YearStart, NthWeekday, ValidatePolicy, ValidateRule;
  }

  lemma FirstIsSunday()
    ensures NthWeekday(2023, 1, 1, 0) == 1
  {
    Year2023();
    assert MonthStart(2023, 1) == 0;
    hide YearStart, MonthStart;
    assert Days(Civil(2023, 1, 1)) == 19358;
    assert WeekdayUtc(Civil(2023, 1, 1)) == 0;
  }

  /** Late in UTC 2022 the rules of that year leave summer time off. */
  lemma OffLateIn2022(e: nat)
    requires HasRules(NEW_YEAR) && Epoch(2023) - DAY <= e < Epoch(2023)
    ensures !DstActive(NEW_YEAR, e)
  {
    NewYearRules();
    Year2023();
    JanuaryAndJuly(2022);
    ChangeInMonth(NEW_YEAR, 2022);
    YearOf(e, 2022);
    ActiveInYear(NEW_YEAR, e);
    hide Start, End, DstActive, Gmtime, YearStart, MonthStart, DaysInMonth, HasRules, MonthOf;
  }

  /** Early in UTC 2023 they leave it on. */
  lemma OnEarlyIn2023(e: nat)
    requires HasRules(NEW_YEAR) && Epoch(2023) <= e < Epoch(2023) + DAY
    ensures DstActive(NEW_YEAR, e)
  {
    NewYearRules();
    Year2023();
    JanuaryAndJuly(2023);
    ChangeInMonth(NEW_YEAR, 2023);
    ChangeIn2023();
    assert Start(NEW_YEAR, 2023) <= e < End(NEW_YEAR, 2023) by {
      hide StartWall, EndWall, YearStart, MonthStart, DaysInMonth, HasRules, MonthOf;
    }
    YearsBefore(2024, 2024);
    assert Epoch(2024) == Epoch(2023) + 365 * DAY;
    YearOf(e, 2023);
    ActiveInYear(NEW_YEAR, e);
    hide Start, End, DstActive, Gmtime, YearStart, MonthStart, DaysInMonth, HasRules, MonthOf;
  }

  lemma SkippedOnlyAtMidnight(wall: nat)
    requires HasRules(NEW_YEAR) && Epoch(2023) + 3600 <= wall < Epoch(2023) + DAY
    ensures !InGap(NEW_YEAR, wall)
  {
    NewYearRules();
    ChangeIn2023();
    forall year: nat | 1999 <= year
      ensures !SkippedIn(NEW_YEAR, year, wall)
    {
      ChangeElsewhere(year, wall);
    }
  }

  lemma ChangeElsewhere(year: nat, wall: nat)
    requires HasRules(NEW_YEAR) && 1999 <= year && Epoch(2023) + 3600 <= wall < Epoch(2023) + DAY
    ensures !SkippedIn(NEW_YEAR, year, wall)
  {
    NewYearRules();
    ChangeIn2023();
    RuleInYear(year, NEW_YEAR.dst.value.start.value);
    RuleInMonth(year, NEW_YEAR.dst.value.start.value);
    assert StartWall(NEW_YEAR, year) < Epoch(year) + 31 * DAY;
    NextYear(year);
    hide RuleWall, Epoch, MonthStart, HasRules, MonthOf, Jump;
    if year < 2023 {
      YearsBefore(year + 1, 2023);
    } else if 2023 < year {
      YearsBefore(2024, year);
      NextYear(2023);
    }
  }

  /** active_offset looks the rules up for the UTC year, so a change at local
      midnight on 1 January that is still 31 December in UTC takes effect at the
      UTC new year instead: half past midnight, which the rule skips, can be set,
      and half past one in the afternoon, which it does not, cannot. */
  lemma NewYearMissed()
    ensures HasRules(NEW_YEAR)
    ensures var skipped, afternoon := 19358 * DAY + 1800, 19358 * DAY + 48600;
            && skipped == Timegm(Clock(Civil(2023, 1, 1), 0, 30, 0))
            && afternoon == Timegm(Clock(Civil(2023, 1, 1), 13, 30, 0))
            && InGap(NEW_YEAR, skipped) && !NoReading(NEW_YEAR, skipped)
            && !InGap(NEW_YEAR, afternoon) && NoReading(NEW_YEAR, afternoon)
  {
    NewYearRules();
    Year2023();
    ChangeIn2023();
    var skipped, afternoon := 19358 * DAY + 1800, 19358 * DAY + 48600;
    assert SkippedIn(NEW_YEAR, 2023, skipped);
    SkippedOnlyAtMidnight(afternoon);
    OffLateIn2022(skipped - 780 * 60);
    OffLateIn2022(afternoon - 840 * 60);
    OnEarlyIn2023(afternoon - 780 * 60);
    TwoCandidates(NEW_YEAR, skipped, skipped - 780 * 60);
    hide DstActive, InGap, Epoch, StartWall;
    forall e: nat
      ensures !Reads(NEW_YEAR, e, afternoon)
    {
      TwoCandidates(NEW_YEAR, afternoon, e);
    }
  }
}
