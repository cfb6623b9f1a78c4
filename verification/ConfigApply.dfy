/** The programming loops of click_port.c and click_global.c as they run, and
    the transactions of config_apply.c around them. */
module ConfigApply {
  import opened Bytes
  import opened Json
  import opened ConfigModel
  import opened ConfigReplay

  /** Handlers whose failure only draws a warning. */
  predicate Optional(r: Register) {
    r.PortStorm? || r.IgmpSnoop? || r.IgmpDefaultInterval? || r.IgmpQueryInterval?
    || r.MldSnoop? || r.MldDefaultInterval? || r.MldQueryInterval?
  }

  /** struct apply_result. */
  class ApplyResult {
    var requiredFailed: bool
    var degraded: bool

    constructor ()
      ensures !requiredFailed && !degraded
    {
      requiredFailed, degraded := false, false;
    }

    ghost function Seen(): Flags reads this { Flags(requiredFailed, degraded) }

    method Fail()
      modifies this
      ensures Seen() == Flags(true, true)
    {
      requiredFailed, degraded := true, true;
    }

    method Warn()
      modifies this
      ensures Seen() == Flags(old(requiredFailed), true)
    {
      degraded := true;
    }
  }

  /** The two flags of an apply_result as a value. */
  datatype Flags = Flags(requiredFailed: bool, degraded: bool)

  ghost predicate SomeLost(made: seq<Attempt>) {
    exists a :: a in made && !a.ok
  }

  /** What a run over the writes `ws` amounts to.  A run that returns 0 has
      attempted every write in order and lost only optional ones, and the
      result is degraded just when it lost some.  A run that fails has attempted
      only writes of `ws` and has recorded the failure.  On a board where
      nothing fails, the run returns 0 and loses nothing. */
  ghost predicate Outcome(ws: seq<Write>, rc: bool, made: seq<Attempt>, able: bool, before: Flags, after: Flags) {
    && (forall a :: a in made ==> a.write in ws)
    && (if rc
        then && Attempted(made) == ws
             && (forall a :: a in made && !a.ok ==> Optional(a.write.reg))
             && after == Flags(before.requiredFailed, before.degraded || SomeLost(made))
        else after == Flags(true, true))
    && (able ==> rc && !SomeLost(made))
  }

  lemma AttemptedJoin(a: seq<Attempt>, b: seq<Attempt>)
    ensures Attempted(a + b) == Attempted(a) + Attempted(b)
  {
  }

  lemma LostJoin(a: seq<Attempt>, b: seq<Attempt>)
    ensures SomeLost(a + b) <==> SomeLost(a) || SomeLost(b)
  {
    if SomeLost(a) {
      var x :| x in a && !x.ok;
      assert x in a + b;
    }
    if SomeLost(b) {
      var x :| x in b && !x.ok;
      assert x in a + b;
    }
  }

  lemma {:induction false} LandedJoin(regs: Registers, a: seq<Attempt>, b: seq<Attempt>)
    ensures Landed(regs, a + b) == Landed(Landed(regs, a), b)
    decreases |a|
  {
    if a == [] {
      assert a + b == b;
    } else {
      assert (a + b)[1..] == a[1..] + b && (a + b)[0] == a[0];
      LandedJoin(if a[0].ok then regs[a[0].write.reg := a[0].write.cmd] else regs, a[1..], b);
    }
  }

  /** One run after another. */
  lemma OutcomeJoin(ws: seq<Write>, r: bool, a: seq<Attempt>, vs: seq<Write>, s: bool, b: seq<Attempt>, able: bool,
                    f: Flags, g: Flags, h: Flags)
    requires Outcome(ws, r, a, able, f, g) && Outcome(vs, s, b, able, g, h)
    ensures Outcome(ws + vs, r && s, a + b, able, f, h)
  {
    AttemptedJoin(a, b);
    LostJoin(a, b);
    hide Attempted, SomeLost;
  }

  /** A run that stopped early, seen as a failed run over more writes. */
  lemma OutcomeWiden(ws: seq<Write>, made: seq<Attempt>, vs: seq<Write>, able: bool, f: Flags, g: Flags)
    requires Outcome(ws, false, made, able, f, g) && forall w :: w in ws ==> w in vs
    ensures Outcome(vs, false, made, able, f, g)
  {
  }

  // ------------------------------------------------------- the table of fields

  const FIELDS: seq<(string, Group)> :=
    [("enabled", Phy), ("speed", Phy), ("flow_control", Phy), ("eee", Phy),
     ("storm_control", Storm), ("vlan", Vlan), ("stp", PortStp), ("poe", Poe)]

  /** A row of the table applies in a full run or when the delta has its key. */
  predicate RowDue(changed: Option<Json>, key: string) {
    changed.None? || Has(changed.value, key)
  }

  /** The groups applied by the first n rows. */
  function AppliedBy(changed: Option<Json>, n: nat): seq<Group>
    requires n <= |FIELDS|
  {
    if n == 0 then [] else
    var before := AppliedBy(changed, n - 1);
    var (key, g) := FIELDS[n - 1];
    if RowDue(changed, key) && g !in before then before + [g] else before
  }

  function Flat(hw: Hardware, port: nat, p: Json, gs: seq<Group>): seq<Write>
    decreases |gs|
  {
    if gs == [] then [] else Flat(hw, port, p, gs[..|gs| - 1]) + GroupWrites(hw, port, p, gs[|gs| - 1])
  }

  function If(due: bool, g: Group): seq<Group> { if due then [g] else [] }

  lemma PhyRows(changed: Option<Json>)
    ensures AppliedBy(changed, 4) == If(Due(changed, Phy), Phy)
  {
    assert Due(changed, Phy) <==>
        RowDue(changed, "enabled") || RowDue(changed, "speed") || RowDue(changed, "flow_control")
        || RowDue(changed, "eee") by {
      assert forall k :: k in Keys(Phy) <==> k == "enabled" || k == "speed" || k == "flow_control" || k == "eee";
    }
    hide Due, RowDue;
    assert AppliedBy(changed, 0) == [];
    assert AppliedBy(changed, 1) == If(RowDue(changed, "enabled"), Phy);
    assert AppliedBy(changed, 2) == If(RowDue(changed, "enabled") || RowDue(changed, "speed"), Phy);
    assert AppliedBy(changed, 3) == If(RowDue(changed, "enabled") || RowDue(changed, "speed")
                                       || RowDue(changed, "flow_control"), Phy);
  }

  lemma SingleRow(changed: Option<Json>, key: string, g: Group)
    requires Keys(g) == {key}
    ensures RowDue(changed, key) <==> Due(changed, g)
  {
    assert key in Keys(g);
  }

  /** The table applies each due group once, in the order of the groups. */
  lemma TableRows(changed: Option<Json>)
    ensures AppliedBy(changed, 8) == If(Due(changed, Phy), Phy) + If(Due(changed, Storm), Storm)
            + If(Due(changed, Vlan), Vlan)
                                     + If(Due(changed, PortStp), PortStp) + If(Due(changed, Poe), Poe)
  {
    PhyRows(changed);
    SingleRow(changed, "storm_control", Storm);
    SingleRow(changed, "vlan", Vlan);
    SingleRow(changed, "stp", PortStp);
    SingleRow(changed, "poe", Poe);
    hide Due, RowDue;
    assert AppliedBy(changed, 5) == AppliedBy(changed, 4) + If(Due(changed, Storm), Storm);
    assert AppliedBy(changed, 6) == AppliedBy(changed, 5) + If(Due(changed, Vlan), Vlan);
    assert AppliedBy(changed, 7) == AppliedBy(changed, 6) + If(Due(changed, PortStp), PortStp);
    assert AppliedBy(changed, 8) == AppliedBy(changed, 7) + If(Due(changed, Poe), Poe);
  }

  lemma {:induction false} FlatJoin(hw: Hardware, port: nat, p: Json, a: seq<Group>, b: seq<Group>)
    ensures Flat(hw, port, p, a + b) == Flat(hw, port, p, a) + Flat(hw, port, p, b)
    decreases |b|
  {
    hide GroupWrites;
    if b == [] {
      assert a + b == a;
    } else {
      assert (a + b)[..|a + b| - 1] == a + b[..|b| - 1];
      FlatJoin(hw, port, p, a, b[..|b| - 1]);
    }
  }

  lemma FlatIf(hw: Hardware, port: nat, p: Json, changed: Option<Json>, g: Group)
    ensures Flat(hw, port, p, If(Due(changed, g), g)) == if Due(changed, g) then GroupWrites(hw, port, p, g) else []
  {
    hide GroupWrites, Due;
    assert [g][..0] == [];
    assert Flat(hw, port, p, []) == [];
  }

  /** One group after those before it. */
  lemma FlatNext(hw: Hardware, port: nat, p: Json, changed: Option<Json>, before: seq<Group>, g: Group)
    ensures Flat(hw, port, p, before + If(Due(changed, g), g))
         == Flat(hw, port, p, before) + if Due(changed, g) then GroupWrites(hw, port, p, g) else []
  {
    hide GroupWrites, Due, Flat, If;
    FlatJoin(hw, port, p, before, If(Due(changed, g), g));
    FlatIf(hw, port, p, changed, g);
  }

  lemma {:induction false} WritesOfLast(hw: Hardware, port: nat, p: Json, changed: Option<Json>, gs: seq<Group>,
                                        g: Group)
    ensures WritesOf(hw, port, p, changed, gs + [g])
         == WritesOf(hw, port, p, changed, gs) + if Due(changed, g) then GroupWrites(hw, port, p, g) else []
    decreases |gs|
  {
    hide GroupWrites, Due;
    if gs == [] {
      assert gs + [g] == [g];
      assert WritesOf(hw, port, p, changed, [g][1..]) == [];
    } else {
      assert (gs + [g])[1..] == gs[1..] + [g];
      WritesOfLast(hw, port, p, changed, gs[1..], g);
    }
  }

  lemma {:induction false} FlatIsWritesOf(hw: Hardware, port: nat, p: Json, changed: Option<Json>, gs: seq<Group>)
    ensures Flat(hw, port, p, Dues(changed, gs)) == WritesOf(hw, port, p, changed, gs)
    decreases |gs|
  {
    hide GroupWrites, Due, If;
    if gs != [] {
      var init, g := gs[..|gs| - 1], gs[|gs| - 1];
      FlatIsWritesOf(hw, port, p, changed, init);
      FlatNext(hw, port, p, changed, Dues(changed, init), g);
      WritesOfLast(hw, port, p, changed, init, g);
      assert gs == init + [g];
    }
  }

  function Dues(changed: Option<Json>, gs: seq<Group>): seq<Group>
    decreases |gs|
  {
    if gs == [] then [] else Dues(changed, gs[..|gs| - 1]) + If(Due(changed, gs[|gs| - 1]), gs[|gs| - 1])
  }

  lemma DuesOfAll(changed: Option<Json>)
    ensures Dues(changed, GROUPS) == If(Due(changed, Phy), Phy) + If(Due(changed, Storm), Storm)
            + If(Due(changed, Vlan), Vlan)
                                     + If(Due(changed, PortStp), PortStp) + If(Due(changed, Poe), Poe)
  {
    hide Due, If;
    assert GROUPS[..4] == [Phy, Storm, Vlan, PortStp];
    assert [Phy, Storm, Vlan, PortStp][..3] == [Phy, Storm, Vlan];
    assert [Phy, Storm, Vlan][..2] == [Phy, Storm];
    assert [Phy, Storm][..1] == [Phy];
    assert [Phy][..0] == [];
    assert Dues(changed, []) == [];
    assert Dues(changed, [Phy]) == If(Due(changed, Phy), Phy);
    assert Dues(changed, [Phy, Storm]) == Dues(changed, [Phy]) + If(Due(changed, Storm), Storm);
    assert Dues(changed, [Phy, Storm, Vlan]) == Dues(changed, [Phy, Storm]) + If(Due(changed, Vlan), Vlan);
    assert Dues(changed, [Phy, Storm, Vlan, PortStp]) == Dues(changed, [Phy, Storm, Vlan])
           + If(Due(changed, PortStp), PortStp);
  }

  /** The loop over the table writes what the groups ask for. */
  lemma TableWrites(hw: Hardware, port: nat, p: Json, changed: Option<Json>)
    ensures Flat(hw, port, p, AppliedBy(changed, |FIELDS|)) == PortWrites(hw, port, p, changed)
  {
    hide GroupWrites, Due, If, Flat, Dues, AppliedBy;
    TableRows(changed);
    DuesOfAll(changed);
    FlatIsWritesOf(hw, port, p, changed, GROUPS);
  }

  /** A stretch of programming: its effect on the registers and its outcome. */
  datatype Stretch = Stretch(ws: seq<Write>, rc: bool, made: seq<Attempt>)

  ghost predicate Ran(x: Stretch, able: bool, before: Registers, after: Registers, f: Flags, g: Flags) {
    after == Landed(before, x.made) && Outcome(x.ws, x.rc, x.made, able, f, g)
  }

  function Then(x: Stretch, y: Stretch): Stretch {
    Stretch(x.ws + y.ws, x.rc && y.rc, x.made + y.made)
  }

  lemma RanThen(x: Stretch, y: Stretch, able: bool, r: Registers, s: Registers, t: Registers, f: Flags, g: Flags,
                h: Flags)
    requires Ran(x, able, r, s, f, g) && Ran(y, able, s, t, g, h)
    ensures Ran(Then(x, y), able, r, t, f, h)
  {
    LandedJoin(r, x.made, y.made);
    OutcomeJoin(x.ws, x.rc, x.made, y.ws, y.rc, y.made, able, f, g, h);
    hide Outcome, Landed;
  }

  lemma RanNothing(able: bool, r: Registers, f: Flags)
    ensures Ran(Stretch([], true, []), able, r, r, f, f)
  {
  }

  lemma RanWiden(x: Stretch, ws: seq<Write>, able: bool, r: Registers, s: Registers, f: Flags, g: Flags)
    requires Ran(x, able, r, s, f, g) && !x.rc && x.ws <= ws
    ensures Ran(Stretch(ws, false, x.made), able, r, s, f, g)
    ensures Straight(x) ==> Straight(Stretch(ws, false, x.made))
  {
    OutcomeWiden(x.ws, x.made, ws, able, f, g);
    hide Outcome, Landed;
  }

  /** A run made its writes in their order without leaving one out, and made none after
      a required one that failed, except that the state of a powered port follows its
      mode in any case. */
  ghost predicate Straight(x: Stretch) {
    && Attempted(x.made) <= x.ws
    && forall i :: 0 <= i < |x.made| - 1 && !x.made[i].ok ==>
         Optional(x.made[i].write.reg) || (x.made[i].write.reg.PoeMode? && i == |x.made| - 2)
  }

  lemma StraightOne(w: Write, ok: bool, rc: bool)
    ensures Straight(Stretch([w], rc, [Attempt(w, ok)])) && Attempted([Attempt(w, ok)]) == [w]
  {
    assert [Attempt(w, ok)][1..] == [];
  }

  lemma StraightNothing()
    ensures Straight(Stretch([], true, []))
  {
  }

  lemma StraightRefused(ws: seq<Write>)
    ensures Straight(Stretch(ws, false, []))
  {
  }

  /** A mode and the state after it. */
  lemma StraightPair(x: Stretch, y: Stretch)
    requires |x.made| == |y.made| == 1 && Attempted(x.made) == x.ws && Attempted(y.made) == y.ws
    requires x.made[0].write.reg.PoeMode?
    ensures Straight(Then(x, y)) && Attempted(Then(x, y).made) == Then(x, y).ws
  {
    AttemptedJoin(x.made, y.made);
  }

  lemma StraightThen(x: Stretch, y: Stretch, able: bool, r: Registers, s: Registers, f: Flags, g: Flags)
    requires Ran(x, able, r, s, f, g) && x.rc && Straight(y)
    ensures Straight(Then(x, y))
  {
    AttemptedJoin(x.made, y.made);
    var a: seq<Attempt>, b: seq<Attempt> := x.made, y.made;
    var all: seq<Attempt> := a + b;
    forall i | 0 <= i < |all| - 1 && !all[i].ok
      ensures Optional(all[i].write.reg) || (all[i].write.reg.PoeMode? && i == |all| - 2)
    {
      if i < |a| {
        assert a[i] in a;
      } else {
        assert all[i] == b[i - |a|];
      }
    }
  }

  /** A run that returned 0 attempted everything. */
  lemma AllAttempted(x: Stretch, able: bool, r: Registers, s: Registers, f: Flags, g: Flags)
    requires Ran(x, able, r, s, f, g) && x.rc
    ensures Attempted(x.made) == x.ws
  {
  }

  lemma GlobalsFirst(x: Stretch, y: Stretch)
    requires Attempted(x.made) == x.ws && Straight(y)
    ensures x.ws <= Attempted(Then(x, y).made) <= Then(x, y).ws
  {
    AttemptedJoin(x.made, y.made);
  }

  lemma AttemptedThen(x: Stretch, y: Stretch)
    requires Attempted(x.made) == x.ws
    ensures Attempted(Then(x, y).made) == x.ws + Attempted(y.made)
  {
    AttemptedJoin(x.made, y.made);
  }

  // ------------------------------------------------------------ speeds

  const SPEED_TABLE: seq<(string, string)> := [
    ("auto", "aneg"), ("10half", "10hdx"), ("10full", "10fdx"), ("100half", "100hdx"), ("100full", "100fdx"),
    ("1000full", "1000fdx")]

  /** speed_json_to_click searches the table; what it does not hold negotiates. */
  method SpeedJsonToClick(speed: string) returns (mode: string)
    ensures mode == ClickMode(speed)
  {
    for i := 0 to |SPEED_TABLE|
      invariant forall k :: 0 <= k < i ==> SPEED_TABLE[k].0 != speed
    {
      if SPEED_TABLE[i].0 == speed {
        return SPEED_TABLE[i].1;
      }
    }
    NoSpeed(speed);
    mode := "aneg";
  }

  lemma NoSpeed(speed: string)
    requires forall k :: 0 <= k < |SPEED_TABLE| ==> SPEED_TABLE[k].0 != speed
    ensures ClickMode(speed) == "aneg"
  {
    assert SPEED_TABLE[1].0 != speed && SPEED_TABLE[2].0 != speed && SPEED_TABLE[3].0 != speed;
    assert SPEED_TABLE[4].0 != speed && SPEED_TABLE[5].0 != speed;
  }

  // ------------------------------------------------------------ the switch

  class Switch {
    const hw: Hardware
    /** No handler write and no runtime service ever fails. */
    const reliable: bool
    var regs: Registers

    constructor (hw: Hardware, reliable: bool, regs: Registers)
      ensures this.hw == hw && this.reliable == reliable && this.regs == regs
    {
      this.hw, this.reliable, this.regs := hw, reliable, regs;
    }

    ghost predicate Able() {
      reliable && hw.macKnown && (hw.poePorts == {} || hw.poeAvailable)
    }

    /** One handler write; a write that fails leaves the register alone. */
    method Put(w: Write) returns (ok: bool)
      modifies this
      ensures regs == if ok then old(regs)[w.reg := w.cmd] else old(regs)
      ensures reliable ==> ok
    {
      ok := true;
      if !reliable {
        ok := *;
      }
      if ok {
        regs := regs[w.reg := w.cmd];
      }
    }

    /** checked_write of click_global.c; `x.rc` is what the result records. */
    method CheckedWrite(w: Write, required: bool, result: ApplyResult) returns (rc: bool, ghost x: Stretch)
      requires required <==> !Optional(w.reg)
      modifies this, result
      ensures x == Stretch([w], rc || !required, [Attempt(w, rc)])
      ensures Ran(x, Able(), old(regs), regs, old(result.Seen()), result.Seen())
    {
      rc := Put(w);
      if !rc && required {
        result.Fail();
      } else if !rc {
        result.Warn();
      }
      x := Stretch([w], rc || !required, [Attempt(w, rc)]);
      PutRan(x, w, rc, Able(), old(regs), regs, old(result.Seen()), result.Seen());
    }

    /** write_handler of click_port.c: an optional write that fails only warns. */
    method PutChecked(w: Write, required: bool, result: ApplyResult) returns (rc: bool, ghost x: Stretch)
      requires required <==> !Optional(w.reg)
      modifies this, result
      ensures !required ==> rc
      ensures x.ws == [w] && x.rc == rc && Ran(x, Able(), old(regs), regs, old(result.Seen()), result.Seen())
      ensures Straight(x) && |x.made| == 1 && x.made[0].write == w && Attempted(x.made) == x.ws
    {
      hide Ran;
      rc, x := CheckedWrite(w, required, result);
      StraightOne(w, rc, x.rc);
      if !required {
        rc := true;
      }
    }

    // -------------------------------------------------- click_port.c

    method ApplyPhy(port: nat, p: Json, result: ApplyResult) returns (rc: bool, ghost x: Stretch)
      modifies this, result
      ensures x.ws == GroupWrites(hw, port, p, Phy) && x.rc == rc
      ensures Ran(x, Able(), old(regs), regs, old(result.Seen()), result.Seen()) && Straight(x)
    {
      hide Ran, Straight;
      var enabled := AsBool(Member(p, "enabled"));
      var mode := "off";
      if enabled {
        mode := SpeedJsonToClick(AsString(Member(p, "speed")));
      }
      rc, x := PutChecked(Write(PortPhy(port),
                                PhyCommand(AsBool(Member(p, "flow_control")), AsBool(Member(p, "eee")),
                                           mode)), true, result);
    }

    method ApplyStorm(port: nat, p: Json, result: ApplyResult) returns (rc: bool, ghost x: Stretch)
      modifies this, result
      ensures x.ws == GroupWrites(hw, port, p, Storm) && x.rc == rc
      ensures Ran(x, Able(), old(regs), regs, old(result.Seen()), result.Seen()) && Straight(x)
    {
      hide Ran, Straight;
      rc, x := PutChecked(Write(PortStorm(port), SwitchCommand(AsBool(Member(p, "storm_control")))), false, result);
    }

    method ApplyVlan(port: nat, p: Json, result: ApplyResult) returns (rc: bool, ghost x: Stretch)
      modifies this, result
      ensures x.ws == GroupWrites(hw, port, p, Vlan) && x.rc == rc
      ensures Ran(x, Able(), old(regs), regs, old(result.Seen()), result.Seen()) && Straight(x)
    {
      hide Ran, Straight;
      var vlan := Member(p, "vlan");
      var pvid := AsInt(Member(vlan, "pvid"));
      var allowed := Listed(AsString(Member(vlan, "allowed")));
      var untagged := AsInt(Member(vlan, "untagged_vid"));
      var tagged := AsString(Member(vlan, "mode")) != "access";
      if !tagged {
        allowed := Only(pvid);
        untagged := pvid;
      }
      rc, x := PutChecked(Write(PortVlan(port),
                                VlanCommand(allowed, tagged, AsBool(Member(vlan, "ingress_filter")), pvid,
                                            untagged)), true, result);
    }

    method ApplyPortStp(port: nat, p: Json, result: ApplyResult) returns (rc: bool, ghost x: Stretch)
      modifies this, result
      ensures x.ws == GroupWrites(hw, port, p, PortStp) && x.rc == rc
      ensures Ran(x, Able(), old(regs), regs, old(result.Seen()), result.Seen()) && Straight(x)
    {
      if !hw.macKnown {
        result.Fail();
        StraightRefused(GroupWrites(hw, port, p, PortStp));
        return false, Stretch(GroupWrites(hw, port, p, PortStp), false, []);
      }
      hide Ran, Straight;
      var stp := Member(p, "stp");
      var cmd := PortStpCommand(AsBool(Member(stp, "enabled")), AsBool(Member(stp, "auto_edge")),
                                AsBool(Member(stp, "edge")),
                                AsInt(Member(stp, "priority")), AsInt(Member(stp, "cost")));
      rc, x := PutChecked(Write(PortStpCfg(port), cmd), true, result);
    }

    method ApplyPoe(port: nat, p: Json, result: ApplyResult) returns (rc: bool, ghost x: Stretch)
      modifies this, result
      ensures hw.poeAvailable ==> Attempted(x.made) == x.ws
      ensures x.ws == GroupWrites(hw, port, p, Poe) && x.rc == rc
      ensures Ran(x, Able(), old(regs), regs, old(result.Seen()), result.Seen()) && Straight(x)
    {
      if port !in hw.poePorts {
        return true, Stretch([], true, []);
      }
      if !hw.poeAvailable {
        result.Fail();
        StraightRefused(GroupWrites(hw, port, p, Poe));
        return false, Stretch(GroupWrites(hw, port, p, Poe), false, []);
      }
      hide Ran, Straight;
      var poe := Member(p, "poe");
      var first, y := PutChecked(Write(PoeMode(port), PoeModeCommand(AsString(Member(poe, "mode")) == "af")), true,
                                 result);
      ghost var r, f := regs, result.Seen();
      var second, z := PutChecked(Write(PoeEnable(port), SwitchCommand(AsBool(Member(poe, "enabled")))), true, result);
      RanThen(y, z, Able(), old(regs), r, regs, old(result.Seen()), f, result.Seen());
      StraightPair(y, z);
      rc, x := first && second, Then(y, z);
    }

    /** fields[i].apply. */
    method ApplyGroup(port: nat, p: Json, g: Group, result: ApplyResult) returns (rc: bool, ghost x: Stretch)
      modifies this, result
      ensures x.ws == GroupWrites(hw, port, p, g) && x.rc == rc
      ensures Ran(x, Able(), old(regs), regs, old(result.Seen()), result.Seen()) && Straight(x)
    {
      hide Ran, Straight;
      match g
      case Phy => rc, x := ApplyPhy(port, p, result);
      case Storm => rc, x := ApplyStorm(port, p, result);
      case Vlan => rc, x := ApplyVlan(port, p, result);
      case PortStp => rc, x := ApplyPortStp(port, p, result);
      case Poe => rc, x := ApplyPoe(port, p, result);
    }

    /** apply_port_fields: a handler is called for the first of its rows that is
        due and never again; the first failure ends the port. */
    method ApplyPortFields(port: nat, p: Json, changed: Option<Json>, result: ApplyResult)
      returns (rc: bool, ghost x: Stretch)
      modifies this, result
      ensures x.ws == PortWrites(hw, port, p, changed) && x.rc == rc
      ensures Ran(x, Able(), old(regs), regs, old(result.Seen()), result.Seen()) && Straight(x)
    {
      hide Ran, Straight, GroupWrites, RowDue, Flat, PortWrites, AppliedBy;
      var applied: seq<Group> := [];
      x := Stretch([], true, []);
      RanNothing(Able(), regs, result.Seen());
      StraightNothing();
      AppliedNone(hw, port, p, changed);
      var i := 0;
      while i < |FIELDS|
        invariant 0 <= i <= |FIELDS|
        invariant applied == AppliedBy(changed, i)
        invariant x.rc && x.ws == Flat(hw, port, p, applied)
        invariant Ran(x, Able(), old(regs), regs, old(result.Seen()), result.Seen()) && Straight(x)
      {
        var (key, g) := FIELDS[i];
        AppliedNext(hw, port, p, changed, i);
        if RowDue(changed, key) && g !in applied {
          ghost var r, f := regs, result.Seen();
          var ok, y := ApplyGroup(port, p, g, result);
          RanThen(x, y, Able(), old(regs), r, regs, old(result.Seen()), f, result.Seen());
          StraightThen(x, y, Able(), old(regs), r, old(result.Seen()), f);
          x := Then(x, y);
          if !ok {
            TableHolds(hw, port, p, changed, i + 1);
            RanWiden(x, PortWrites(hw, port, p, changed), Able(), old(regs), regs, old(result.Seen()), result.Seen());
            return false, Stretch(PortWrites(hw, port, p, changed), false, x.made);
          }
          applied := applied + [g];
        }
        i := i + 1;
      }
      TableWrites(hw, port, p, changed);
      rc := true;
    }

    /** apply_ports: the keys in the order the object keeps them, until a port
        fails. */
    method ApplyPorts(ports: Json, keys: set<string>, delta: Option<Json>, result: ApplyResult)
      returns (rc: bool, ghost order: seq<string>, ghost x: Stretch)
      modifies this, result
      ensures IsOrder(order, keys)
      ensures x.ws == PortsWrites(hw, ports, delta, order) && x.rc == rc
      ensures Ran(x, Able(), old(regs), regs, old(result.Seen()), result.Seen()) && Straight(x)
    {
      hide Ran, Straight, KeyWrites, PortsWrites, PortWrites;
      var left := keys;
      order := [];
      x := Stretch([], true, []);
      RanNothing(Able(), regs, result.Seen());
      StraightNothing();
      assert PortsWrites(hw, ports, delta, order) == [] by { PortsNone(hw, ports, delta); }
      while left != {}
        invariant left <= keys && IsOrder(order, keys - left)
        invariant x.rc && x.ws == PortsWrites(hw, ports, delta, order)
        invariant Ran(x, Able(), old(regs), regs, old(result.Seen()), result.Seen()) && Straight(x)
        decreases left
      {
        var key :| key in left;
        OrderNext(order, keys - left, key);
        assert keys - (left - {key}) == keys - left + {key};
        left := left - {key};
        PortsWritesLast(hw, ports, delta, order, key);
        order := order + [key];
        ghost var r, f := regs, result.Seen();
        var ok, y := ApplyKey(ports, key, delta, result);
        RanThen(x, y, Able(), old(regs), r, regs, old(result.Seen()), f, result.Seen());
        StraightThen(x, y, Able(), old(regs), r, old(result.Seen()), f);
        x := Then(x, y);
        if !ok {
          ghost var rest := SomeOrder(left);
          OrderJoin(order, keys - left, rest, left);
          PortsHold(hw, ports, delta, order, rest);
          order := order + rest;
          RanWiden(x, PortsWrites(hw, ports, delta, order), Able(), old(regs), regs, old(result.Seen()), result.Seen());
          return false, order, Stretch(PortsWrites(hw, ports, delta, order), false, x.made);
        }
      }
      rc := true;
    }

    /** One turn of apply_ports; a key the configuration does not have is passed
        over. */
    method ApplyKey(ports: Json, key: string, delta: Option<Json>, result: ApplyResult)
      returns (rc: bool, ghost x: Stretch)
      modifies this, result
      ensures x.ws == KeyWrites(hw, ports, delta, key) && x.rc == rc
      ensures Ran(x, Able(), old(regs), regs, old(result.Seen()), result.Seen()) && Straight(x)
    {
      hide Ran, Straight, PortWrites, Decimal;
      if !Has(ports, key) {
        RanNothing(Able(), regs, result.Seen());
        StraightNothing();
        return true, Stretch([], true, []);
      }
      rc, x := ApplyPortFields(Decimal(key), Member(ports, key), Changed(delta, key), result);
    }

    // ------------------------------------------------ click_global.c

    method ApplyStp(stp: Json, result: ApplyResult) returns (rc: bool, ghost x: Stretch)
      modifies this, result
      ensures x.ws == StpWrites(stp) && x.rc == rc
      ensures Ran(x, Able(), old(regs), regs, old(result.Seen()), result.Seen()) && Attempted(x.made) == x.ws
    {
      hide Ran;
      var cmd := GlobalStpCommand(AsInt(Member(stp, "priority")), AsInt(Member(stp, "hello_time")),
                                  AsInt(Member(stp, "forward_delay")), AsInt(Member(stp, "max_age")),
                                  AsInt(Member(stp, "hold_count")));
      rc, x := CheckedWrite(Write(GlobalStp, cmd), true, result);
      StraightOne(Write(GlobalStp, cmd), rc, rc);
    }

    method ApplyLacp(lacp: Json, result: ApplyResult) returns (rc: bool, ghost x: Stretch)
      modifies this, result
      ensures x.ws == LacpWrites(lacp) && x.rc == rc
      ensures Ran(x, Able(), old(regs), regs, old(result.Seen()), result.Seen()) && Attempted(x.made) == x.ws
    {
      hide Ran;
      var w := Write(Lacp, SwitchCommand(AsBool(Member(lacp, "enabled"))));
      rc, x := CheckedWrite(w, true, result);
      StraightOne(w, rc, rc);
    }

    /** apply_multicast: six optional writes, none stopping the next; it fails
        when one of them does, though its caller does not mind. */
    method ApplyMulticast(m: Json, result: ApplyResult) returns (rc: bool, ghost x: Stretch)
      modifies this, result
      ensures x.ws == MulticastWrites(m) && x.rc && (rc <==> !SomeLost(x.made))
      ensures Ran(x, Able(), old(regs), regs, old(result.Seen()), result.Seen()) && Attempted(x.made) == x.ws
    {
      hide Ran, AsInt, AsBool, Member;
      var igmp, mld := AsInt(Member(m, "igmp_querier_interval")), AsInt(Member(m, "mld_querier_interval"));
      rc, x := Snooping(IgmpSnoop, IgmpDefaultInterval, IgmpQueryInterval, AsBool(Member(m, "igmp_snooping")), igmp,
                        result);
      ghost var r, f := regs, result.Seen();
      var ok;
      ghost var y;
      ok, y := Snooping(MldSnoop, MldDefaultInterval, MldQueryInterval, AsBool(Member(m, "mld_snooping")), mld, result);
      RanThen(x, y, Able(), old(regs), r, regs, old(result.Seen()), f, result.Seen());
      rc, x := rc && ok, Then(x, y);
      AllAttempted(x, Able(), old(regs), regs, old(result.Seen()), result.Seen());
    }

    /** The three writes of one multicast protocol. */
    method Snooping(snoop: Register, default: Register, query: Register, on: bool, interval: int, result: ApplyResult)
      returns (rc: bool, ghost x: Stretch)
      requires Optional(snoop) && Optional(default) && Optional(query)
      modifies this, result
      ensures x.ws == [Write(snoop, SwitchCommand(on)), Write(default, NumberCommand(interval * 1000)),
                       Write(query, NumberCommand(interval))]
      ensures x.rc && Ran(x, Able(), old(regs), regs, old(result.Seen()), result.Seen())
      ensures rc <==> !SomeLost(x.made)
    {
      var ok;
      ghost var r, f, y;
      rc, x := CheckedWrite(Write(snoop, SwitchCommand(on)), false, result);
      r, f := regs, result.Seen();
      ok, y := CheckedWrite(Write(default, NumberCommand(interval * 1000)), false, result);
      RanThen(x, y, Able(), old(regs), r, regs, old(result.Seen()), f, result.Seen());
      rc, x := rc && ok, Then(x, y);
      r, f := regs, result.Seen();
      ok, y := CheckedWrite(Write(query, NumberCommand(interval)), false, result);
      RanThen(x, y, Able(), old(regs), r, regs, old(result.Seen()), f, result.Seen());
      rc, x := rc && ok, Then(x, y);
    }

    /** apply_globals: every section is tried even when an earlier one failed. */
    method ApplyGlobals(config: Json, delta: Option<Json>, result: ApplyResult) returns (rc: bool, ghost x: Stretch)
      modifies this, result
      ensures x.ws == GlobalsWrites(config, delta) && x.rc == rc
      ensures Ran(x, Able(), old(regs), regs, old(result.Seen()), result.Seen()) && Attempted(x.made) == x.ws
    {
      hide Ran, StpWrites, LacpWrites, MulticastWrites, Mentioned, Has, Member;
      rc := true;
      x := Stretch([], true, []);
      RanNothing(Able(), regs, result.Seen());
      ghost var y;
      if Mentioned(delta, "stp") && Has(config, "stp") {
        rc, x := ApplyStp(Member(config, "stp"), result);
      }
      ghost var stp := x.ws;
      ghost var lacp := [];
      if Mentioned(delta, "lacp") && Has(config, "lacp") {
        ghost var r, f := regs, result.Seen();
        var ok;
        ok, y := ApplyLacp(Member(config, "lacp"), result);
        RanThen(x, y, Able(), old(regs), r, regs, old(result.Seen()), f, result.Seen());
        AttemptedThen(x, y);
        rc, x, lacp := rc && ok, Then(x, y), y.ws;
      }
      assert x.ws == stp + lacp;
      ghost var multicast := [];
      if Mentioned(delta, "multicast") && Has(config, "multicast") {
        ghost var r, f := regs, result.Seen();
        var optional;
        optional, y := ApplyMulticast(Member(config, "multicast"), result);
        RanThen(x, y, Able(), old(regs), r, regs, old(result.Seen()), f, result.Seen());
        AttemptedThen(x, y);
        x, multicast := Then(x, y), y.ws;
      }
      assert x.ws == stp + lacp + multicast;
    }

    // ------------------------------------------------- config_apply.c

    /** network_manager_configure and telemetry_apply: they touch none of these
        registers, may fail, and may warn or record a failure either way. */
    method RunService(result: ApplyResult) returns (rc: bool)
      modifies result
      ensures old(result.requiredFailed) ==> result.requiredFailed
      ensures old(result.degraded) ==> result.degraded
      ensures reliable ==> rc && result.requiredFailed == old(result.requiredFailed)
    {
      rc := true;
      if * {
        result.Warn();
      }
      if !reliable {
        rc := *;
        if * {
          result.Fail();
        }
      }
    }

    /** config_apply_full (no delta) and config_apply_delta: globals, ports and
        the services, all of them tried; a recorded failure fails the run. */
    method Apply(config: Json, delta: Option<Json>, result: ApplyResult)
      returns (rc: bool, ghost order: seq<string>, ghost x: Stretch)
      requires !result.requiredFailed
      modifies this, result
      ensures IsOrder(order, Iterated(config, delta))
      ensures x.ws == ConfigWrites(hw, config, delta, order) && x.rc == rc
      ensures Applied(x, Able(), old(regs), regs, result.Seen())
      // the globals are all tried first, then the ports in order up to the first failure
      ensures GlobalsWrites(config, delta) <= Attempted(x.made) <= x.ws
    {
      hide Ran, Straight, GlobalsWrites, PortsWrites, IsOrder, Iterated, Mentioned, Applied;
      rc, x := ApplyGlobals(config, delta, result);
      order := SomeOrder(Iterated(config, delta));
      if Mentioned(delta, "ports") {
        ghost var r, f := regs, result.Seen();
        var ok;
        ghost var y;
        ok, order, y := ApplyPorts(Member(config, "ports"), Iterated(config, delta), DeltaPorts(delta), result);
        RanThen(x, y, Able(), old(regs), r, regs, old(result.Seen()), f, result.Seen());
        GlobalsFirst(x, y);
        rc, x := rc && ok, Then(x, y);
      }
      ghost var f := result.Seen();
      var ok := RunServices(delta, result);
      RanApplied(x, ok && !result.requiredFailed, Able(), old(regs), regs, old(result.Seen()), f, result.Seen());
      rc := rc && ok && !result.requiredFailed;
      x := Stretch(x.ws, rc, x.made);
    }

    method RunServices(delta: Option<Json>, result: ApplyResult) returns (rc: bool)
      modifies result
      ensures old(result.requiredFailed) ==> result.requiredFailed
      ensures old(result.degraded) ==> result.degraded
      ensures reliable ==> rc && result.requiredFailed == old(result.requiredFailed)
    {
      hide Mentioned;
      rc := true;
      if Mentioned(delta, "network") {
        rc := RunService(result);
      }
      if Mentioned(delta, "telemetry") {
        var ok := RunService(result);
        rc := rc && ok;
      }
    }
  }

  /** What a whole application amounts to, services included. */
  ghost predicate Applied(x: Stretch, able: bool, before: Registers, after: Registers, g: Flags) {
    && after == Landed(before, x.made)
    && (forall a :: a in x.made ==> a.write in x.ws)
    && (x.rc ==>
          && Attempted(x.made) == x.ws && !g.requiredFailed
          && (forall a :: a in x.made && !a.ok ==> Optional(a.write.reg))
          && (SomeLost(x.made) ==> g.degraded))
    && (able ==> x.rc && !SomeLost(x.made))
  }

  /** The services after the writes. */
  lemma RanApplied(x: Stretch, ok: bool, able: bool, r: Registers, s: Registers, f: Flags, g: Flags, h: Flags)
    requires Ran(x, able, r, s, f, g) && !f.requiredFailed
    requires ok ==> !h.requiredFailed
    requires g.degraded ==> h.degraded
    requires able && !g.requiredFailed ==> ok
    ensures Applied(Stretch(x.ws, x.rc && ok, x.made), able, r, s, h)
  {
    hide Landed;
  }

  lemma PutRan(x: Stretch, w: Write, ok: bool, able: bool, r: Registers, s: Registers, f: Flags, g: Flags)
    requires s == if ok then r[w.reg := w.cmd] else r
    requires able ==> ok
    requires x == Stretch([w], ok || Optional(w.reg), [Attempt(w, ok)])
    requires g == if ok then f else if Optional(w.reg) then Flags(f.requiredFailed, true) else Flags(true, true)
    ensures Ran(x, able, r, s, f, g)
  {
    assert x.made[1..] == [];
    assert x.made[0] in x.made;
  }

  lemma PortsNone(hw: Hardware, ports: Json, delta: Option<Json>)
    ensures PortsWrites(hw, ports, delta, []) == []
  {
  }

  lemma OrderNext(order: seq<string>, keys: set<string>, key: string)
    requires IsOrder(order, keys) && key !in keys
    ensures IsOrder(order + [key], keys + {key})
  {
  }

  lemma OrderJoin(order: seq<string>, keys: set<string>, rest: seq<string>, left: set<string>)
    requires IsOrder(order, keys) && IsOrder(rest, left) && keys !! left
    ensures IsOrder(order + rest, keys + left)
  {
    forall i, j | 0 <= i < j < |order + rest| ensures (order + rest)[i] != (order + rest)[j] {
      if i < |order| <= j {
        assert order[i] in keys && rest[j - |order|] in left;
      }
    }
  }

  /** The ports already programmed are the start of the whole loop. */
  lemma {:induction false} PortsHold(hw: Hardware, ports: Json, delta: Option<Json>, order: seq<string>,
                                     rest: seq<string>)
    ensures PortsWrites(hw, ports, delta, order) <= PortsWrites(hw, ports, delta, order + rest)
    decreases |rest|
  {
    hide KeyWrites, PortsWrites;
    if rest == [] {
      assert order + rest == order;
    } else {
      var key := rest[|rest| - 1];
      PortsHold(hw, ports, delta, order, rest[..|rest| - 1]);
      PortsWritesLast(hw, ports, delta, order + rest[..|rest| - 1], key);
      assert order + rest == order + rest[..|rest| - 1] + [key];
    }
  }

  lemma AppliedNone(hw: Hardware, port: nat, p: Json, changed: Option<Json>)
    ensures AppliedBy(changed, 0) == [] && Flat(hw, port, p, []) == []
  {
  }

  lemma AppliedNext(hw: Hardware, port: nat, p: Json, changed: Option<Json>, i: nat)
    requires i < |FIELDS|
    ensures var before := AppliedBy(changed, i);
            var (key, g) := FIELDS[i];
            AppliedBy(changed, i + 1) == if RowDue(changed, key) && g !in before then before + [g] else before
    ensures var before := AppliedBy(changed, i);
            var (key, g) := FIELDS[i];
            Flat(hw, port, p, before + [g]) == Flat(hw, port, p, before) + GroupWrites(hw, port, p, g)
  {
    hide RowDue, GroupWrites;
    var before := AppliedBy(changed, i);
    var (key, g) := FIELDS[i];
    assert (before + [g])[..|before + [g]| - 1] == before;
  }

  /** What has been applied so far is the start of the port's writes. */
  lemma {:induction false} TableHolds(hw: Hardware, port: nat, p: Json, changed: Option<Json>, i: nat)
    requires i <= |FIELDS|
    ensures Flat(hw, port, p, AppliedBy(changed, i)) <= PortWrites(hw, port, p, changed)
    decreases |FIELDS| - i
  {
    hide RowDue, GroupWrites, Flat, PortWrites, AppliedBy;
    if i == |FIELDS| {
      TableWrites(hw, port, p, changed);
    } else {
      AppliedNext(hw, port, p, changed, i);
      TableHolds(hw, port, p, changed, i + 1);
    }
  }
}
