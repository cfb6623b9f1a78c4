/** Daylight-saving policy and local-time setting of
    buildroot/packages/configd/time_ops.c. */
module LocalTime {
  import opened Bytes
  import opened Calendar

  const FLOOR := 946684800

  /** A rule's members as found in the policy; a missing or ill-typed one is
      `None`. */
  datatype Rule = Rule(month: Option<int>, week: Option<int>, weekday: Option<int>, hour: Option<int>,
                       minute: Option<int>)

  datatype Dst = Dst(enabled: bool, offset: Option<int>, start: Option<Rule>, end: Option<Rule>)

  datatype Policy = Policy(standard: Option<int>, dst: Option<Dst>)

  /** integer(). */
  function Integer(v: Option<int>, fallback: int): int {
    match v
    case Some(i) => i
    case None => fallback
  }

  // ------------------------------------------------------------- validation

  /** validate_rule. */
  predicate ValidateRule(r: Option<Rule>) {
    r.Some? &&
    var m, w, d := Integer(r.value.month, 0), Integer(r.value.week, 0), Integer(r.value.weekday, -1);
    var h, min := Integer(r.value.hour, -1), Integer(r.value.minute, 0);
    1 <= m <= 12 && 1 <= w <= 5 && 0 <= d <= 6 && 0 <= h <= 23 && 0 <= min <= 59
  }

  predicate OffsetInRange(minutes: int) { -720 <= minutes <= 840 }

  /** The offset and daylight-saving part of validate_policy. */
  predicate ValidatePolicy(p: Policy) {
    && OffsetInRange(Integer(p.standard, 9999))
    && (p.dst.Some? && p.dst.value.enabled ==>
          && OffsetInRange(Integer(p.dst.value.offset, 9999))
          && ValidateRule(p.dst.value.start) && ValidateRule(p.dst.value.end))
  }

  // ---------------------------------------------------------- active offset

  /** transition_utc. */
  function TransitionUtc(year: nat, r: Rule, beforeOffset: int): int
    requires 1970 <= year && ValidateRule(Some(r))
  {
    var month, week := Integer(r.month, 3), Integer(r.week, 2);
    var weekday, hour, minute := Integer(r.weekday, 0), Integer(r.hour, 2), Integer(r.minute, 0);
    NthWeekdayCorrect(year, month, week, weekday);
    var day := NthWeekday(year, month, week, weekday);
    Timegm(Clock(Civil(year, month, day), hour, minute, 0)) - beforeOffset * 60
  }

  predicate DstEnabled(p: Policy) {
    p.dst.Some? && p.dst.value.enabled
  }

  function Standard(p: Policy): int { Integer(p.standard, 0) }

  function Daylight(p: Policy): int
    requires DstEnabled(p)
  {
    Integer(p.dst.value.offset, Standard(p) + 60)
  }

  /** Daylight-saving time is in force at `now`. */
  predicate DstActive(p: Policy, now: nat)
    requires ValidatePolicy(p)
  {
    DstEnabled(p) &&
    var year := Gmtime(now).date.year;
    var begin := TransitionUtc(year, p.dst.value.start.value, Standard(p));
    var finish := TransitionUtc(year, p.dst.value.end.value, Daylight(p));
    if begin < finish then begin <= now < finish else begin <= now || now < finish
  }

  /** active_offset, in minutes. */
  function ActiveOffset(p: Policy, now: nat): (offset: int)
    requires ValidatePolicy(p)
    ensures OffsetInRange(offset)
    ensures offset == Standard(p) || (DstEnabled(p) && offset == Daylight(p))
  {
    if DstActive(p, now) then Daylight(p) else Standard(p)
  }

  // ---------------------------------------------------------- local time set

  /** `epoch` is shown as the wall time under the policy. */
  predicate Reads(p: Policy, epoch: nat, wall: nat)
    requires ValidatePolicy(p)
  {
    epoch + ActiveOffset(p, epoch) * 60 == wall
  }

  /** The epoch to set: the standard-time reading if there is one. */
  ghost predicate Chosen(p: Policy, epoch: nat, wall: nat)
    requires ValidatePolicy(p)
  {
    && Reads(p, epoch, wall)
    && (forall e :: Reads(p, e, wall) && ActiveOffset(p, e) == Standard(p) ==> epoch == e)
  }

  /** The fields of the local time string, as sscanf leaves them. */
  datatype Fields = Fields(hour: int, minute: int, second: int, day: int, month: int, year: int)

  predicate InRange(f: Fields) {
    && 2000 <= f.year <= 2099 && 1 <= f.month <= 12 && 1 <= f.day && f.day <= DaysInMonth(f.year, f.month)
    && 0 <= f.hour <= 23 && 0 <= f.minute <= 59 && 0 <= f.second <= 59
  }

  function ClockOf(f: Fields): (t: Clock)
    requires InRange(f)
    ensures ValidClock(t)
  {
    Clock(Civil(f.year, f.month, f.day), f.hour, f.minute, f.second)
  }

  datatype SetError = BadFormat | OutsideRange | DoesNotExist

  /** A wall time in range is late enough for every offset to leave a
      non-negative epoch. */
  lemma WallLate(f: Fields)
    requires InRange(f)
    ensures FLOOR <= Timegm(ClockOf(f))
  {
    YearsFrom2000(f.year);
  }

  lemma {:induction false} YearsFrom2000(year: nat)
    requires 2000 <= year
    ensures 10957 <= YearStart(year)
  {
    if year == 2000 {
      DecadeStart();
    } else {
      YearsFrom2000(year - 1);
    }
  }

  lemma DecadeStart()
    ensures YearStart(2000) == 10957
  {
    assert YearStart(1975) == 1826;
    assert YearStart(1980) == 3652;
    assert YearStart(1985) == 5479;
    assert YearStart(1990) == 7305;
    assert YearStart(1995) == 9131;
  }

  /** The epoch the program tries for an offset reads as the wall time. */
  predicate Hits(p: Policy, offset: int, wall: nat)
    requires ValidatePolicy(p)
  {
    0 <= wall - offset * 60 && ActiveOffset(p, wall - offset * 60) == offset
  }

  /** The clock is set exactly when the wall time exists under the policy and
      its preferred reading is not before 2000. */
  ghost predicate Settled(p: Policy, wall: nat, r: Result<nat, SetError>)
    requires ValidatePolicy(p)
  {
    && (r.Ok? ==> Chosen(p, r.value, wall) && FLOOR <= r.value)
    && (r.Err? <==> forall e: nat :: Chosen(p, e, wall) ==> e < FLOOR)
  }

  lemma StandardHit(p: Policy, wall: nat, e: nat)
    requires ValidatePolicy(p) && Hits(p, Standard(p), wall)
    ensures Chosen(p, e, wall) <==> e == wall - Standard(p) * 60
  {
    hide DstActive;
  }

  lemma DaylightHit(p: Policy, wall: nat, e: nat)
    requires ValidatePolicy(p) && DstEnabled(p) && !Hits(p, Standard(p), wall) && Hits(p, Daylight(p), wall)
    ensures Chosen(p, e, wall) <==> e == wall - Daylight(p) * 60
  {
    hide DstActive;
  }

  lemma NoHit(p: Policy, wall: nat, e: nat)
    requires ValidatePolicy(p) && !Hits(p, Standard(p), wall)
    requires DstEnabled(p) ==> !Hits(p, Daylight(p), wall)
    ensures !Chosen(p, e, wall)
  {
    hide DstActive;
  }

  /** The result the program's loop reaches is the one asked for. */
  lemma LoopSettles(p: Policy, wall: nat)
    requires ValidatePolicy(p)
    ensures Settled(p, wall,
              if Hits(p, Standard(p), wall) then Floored(wall - Standard(p) * 60)
              else if DstEnabled(p) && Hits(p, Daylight(p), wall) then Floored(wall - Daylight(p) * 60)
              else Err(DoesNotExist))
  {
    hide Chosen, Hits;
    forall e: nat
      ensures Hits(p, Standard(p), wall) ==> (Chosen(p, e, wall) <==> e == wall - Standard(p) * 60)
      ensures !Hits(p, Standard(p), wall) && DstEnabled(p) && Hits(p, Daylight(p), wall) ==>
                (Chosen(p, e, wall) <==> e == wall - Daylight(p) * 60)
      ensures !Hits(p, Standard(p), wall) && !(DstEnabled(p) && Hits(p, Daylight(p), wall)) ==> !Chosen(p, e, wall)
    {
      if Hits(p, Standard(p), wall) {
        StandardHit(p, wall, e);
      } else if DstEnabled(p) && Hits(p, Daylight(p), wall) {
        DaylightHit(p, wall, e);
      } else {
        NoHit(p, wall, e);
      }
    }
    HitsLate(p, wall);
  }

  lemma HitsLate(p: Policy, wall: nat)
    requires ValidatePolicy(p)
    ensures Hits(p, Standard(p), wall) ==> 0 <= wall - Standard(p) * 60
    ensures DstEnabled(p) && Hits(p, Daylight(p), wall) ==> 0 <= wall - Daylight(p) * 60
  {
  }

  /** time_set_epoch under a clock that can be set. */
  function Floored(epoch: int): (r: Result<nat, SetError>) {
    if epoch < FLOOR then Err(DoesNotExist) else Ok(epoch)
  }

  /** time_set_local.  Every failure past the range check is reported as a wall
      time that does not exist. */
  method TimeSetLocal(value: Option<Fields>, p: Policy) returns (r: Result<nat, SetError>)
    requires ValidatePolicy(p)
    ensures value.None? <==> r == Err(BadFormat)
    ensures value.Some? ==> (r == Err(OutsideRange) <==> !InRange(value.value))
    ensures value.Some? && InRange(value.value) ==> Settled(p, Timegm(ClockOf(value.value)), r)
  {
    if value.None? {
      return Err(BadFormat);
    }
    if !InRange(value.value) {
      return Err(OutsideRange);
    }
    var local := ClockOf(value.value);
    var wall := Timegm(local);
    WallLate(value.value);
    r := TryOffsets(p, local, wall);
  }

  /** The candidate loop of time_set_local. */
  method TryOffsets(p: Policy, local: Clock, wall: nat) returns (r: Result<nat, SetError>)
    requires ValidatePolicy(p) && ValidClock(local) && wall == Timegm(local) && FLOOR <= wall
    ensures Settled(p, wall, r) && (r.Err? ==> r.error == DoesNotExist)
  {
    hide Timegm, Gmtime, DstActive, ValidClock, Settled;
    var offsets := [Standard(p)];
    if DstEnabled(p) && Daylight(p) != Standard(p) {
      offsets := offsets + [Daylight(p)];
    }
    LoopSettles(p, wall);
    GmtimeRoundTrip(local);
    var i := 0;
    while i < |offsets|
      invariant 0 <= i <= |offsets|
      invariant forall k :: 0 <= k < i ==> !Hits(p, offsets[k], wall)
    {
      var candidate := wall - offsets[i] * 60;
      var actual := ActiveOffset(p, candidate);
      if actual == offsets[i] {
        var roundtrip := Gmtime(candidate + actual * 60);
        if roundtrip == local {
          assert Hits(p, offsets[i], wall) && (i == 1 ==> !Hits(p, offsets[0], wall));
          return Floored(candidate);
        }
      }
      i := i + 1;
    }
    assert !Hits(p, offsets[0], wall);
    if |offsets| == 2 {
      assert !Hits(p, offsets[1], wall);
    }
    r := Err(DoesNotExist);
  }
}
