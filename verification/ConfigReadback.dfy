/** The readers of click_port.c and click_global.c, and that they undo the
    writers: what a programmed switch shows is the configuration it was given. */
module ConfigReadback {
  import opened Bytes
  import opened Json
  import opened ConfigModel
  import opened ConfigReplay
  import opened ConfigOrder
  import opened ConfigValidation
  import opened ConfigApply

  // ------------------------------------------------------------------ speeds

  predicate ShowsSpeed(mode: string, speed: string) { (speed, mode) in SPEED_TABLE }

  /** speed_click_to_json searches it the other way. */
  method SpeedClickToJson(mode: string) returns (speed: string)
    ensures ShowsSpeed(mode, speed) || (speed == "auto" && forall s :: !ShowsSpeed(mode, s))
  {
    for i := 0 to |SPEED_TABLE|
      invariant forall k :: 0 <= k < i ==> SPEED_TABLE[k].1 != mode
    {
      if SPEED_TABLE[i].1 == mode {
        assert SPEED_TABLE[i] in SPEED_TABLE;
        return SPEED_TABLE[i].0;
      }
    }
    speed := "auto";
  }

  /** The table pairs every speed of a configuration with one mode and no two with the
      same, and "off" is none of them. */
  lemma SpeedTable(speed: string, other: string)
    requires speed in {"auto", "10half", "10full", "100half", "100full", "1000full"}
    ensures ShowsSpeed(ClickMode(speed), speed) && ClickMode(speed) != "off"
    ensures ShowsSpeed(ClickMode(speed), other) ==> other == speed
  {
    assert SPEED_TABLE[0] == ("auto", "aneg") && SPEED_TABLE[1] == ("10half", "10hdx");
    assert SPEED_TABLE[2] == ("10full", "10fdx") && SPEED_TABLE[3] == ("100half", "100hdx");
    assert SPEED_TABLE[4] == ("100full", "100fdx") && SPEED_TABLE[5] == ("1000full", "1000fdx");
    assert "10hdx" != "10fdx" && "100hdx" != "100fdx";
    DifferentModes();
  }

  lemma DifferentModes()
    ensures |"aneg"| == 4 && |"10hdx"| == |"10fdx"| == 5 && |"100hdx"| == |"100fdx"| == 6 && |"1000fdx"| == 7
    ensures "10hdx" != "10fdx" && "100hdx" != "100fdx"
  {
    assert "10hdx"[2] == 'h' && "10fdx"[2] == 'f' && "100hdx"[3] == 'h' && "100fdx"[3] == 'f';
  }

  // ------------------------------------------------------------- what is shown

  /** read_phy. */
  predicate ReadEnabled(c: Command)
    requires c.PhyCommand?
  {
    c.mode != "off"
  }

  /** The PHY register of a port shows its members: the port is on exactly when
      enabled, and then with the speed that the table pairs with its mode. */
  ghost predicate ShowsPhy(regs: Registers, n: nat, p: Json) {
    && PortPhy(n) in regs && regs[PortPhy(n)].PhyCommand?
    && var c := regs[PortPhy(n)];
       && Member(p, "enabled") == Bool(ReadEnabled(c))
       && (ReadEnabled(c) ==>
             forall s: string :: ShowsSpeed(c.mode, s) <==> Member(p, "speed") == Str(s))
       && Member(p, "flow_control") == Bool(c.flowControl) && Member(p, "eee") == Bool(c.eee)
  }

  ghost predicate ShowsStorm(regs: Registers, n: nat, p: Json) {
    && PortStorm(n) in regs && regs[PortStorm(n)].SwitchCommand?
    && Member(p, "storm_control") == Bool(regs[PortStorm(n)].enabled)
  }

  /** read_vlan: the mode, as far as the register tells it. */
  function ReadVlanMode(c: Command): string
    requires c.VlanCommand?
  {
    if !c.tagged then "access" else if c.untaggedVid > 0 then "hybrid" else "trunk"
  }

  function ReadPvid(c: Command): int
    requires c.VlanCommand?
  {
    if c.pvid > 0 then c.pvid else 1
  }

  function ReadUntagged(c: Command): int
    requires c.VlanCommand?
  {
    if c.untaggedVid >= 0 then c.untaggedVid else 1
  }

  /** The VLAN register: an access port carries its own VLAN and no other, untagged;
      any other port its list.  The mode reads back as configured exactly when an
      untagged VLAN is what tells hybrid from trunk. */
  ghost predicate ShowsVlan(regs: Registers, n: nat, vlan: Json) {
    && PortVlan(n) in regs && regs[PortVlan(n)].VlanCommand?
    && var c := regs[PortVlan(n)];
       && Member(vlan, "pvid") == Int(ReadPvid(c)) && Member(vlan, "ingress_filter") == Bool(c.ingressFilter)
       && (Member(vlan, "mode") == Str("access") ==>
             ReadVlanMode(c) == "access" && c.allowed == Only(ReadPvid(c)) && ReadUntagged(c) == ReadPvid(c))
       && (Member(vlan, "mode") != Str("access") ==>
             && c.tagged && c.allowed.Listed? && Member(vlan, "allowed") == Str(c.allowed.text)
             && Member(vlan, "untagged_vid") == Int(ReadUntagged(c)))
       && (Member(vlan, "mode") == Str(ReadVlanMode(c)) <==>
             (Member(vlan, "mode") == Str("access")
              || (Member(vlan, "mode") == Str("hybrid") <==> AsInt(Member(vlan, "untagged_vid")) > 0)))
  }

  ghost predicate ShowsPortStp(regs: Registers, n: nat, stp: Json) {
    && PortStpCfg(n) in regs && regs[PortStpCfg(n)].PortStpCommand?
    && var c := regs[PortStpCfg(n)];
       && Member(stp, "enabled") == Bool(c.enabled) && Member(stp, "auto_edge") == Bool(c.autoEdge)
       && Member(stp, "edge") == Bool(c.edge) && Member(stp, "priority") == Int(c.priority)
       && Member(stp, "cost") == Int(c.cost)
  }

  /** read_poe. */
  ghost predicate ShowsPoe(regs: Registers, n: nat, poe: Json) {
    && PoeEnable(n) in regs && regs[PoeEnable(n)].SwitchCommand?
    && PoeMode(n) in regs && regs[PoeMode(n)].PoeModeCommand?
    && Member(poe, "enabled") == Bool(regs[PoeEnable(n)].enabled)
    && Member(poe, "mode") == Str(if regs[PoeMode(n)].af then "af" else "at")
  }

  ghost predicate ShowsGlobalStp(regs: Registers, stp: Json) {
    && GlobalStp in regs && regs[GlobalStp].GlobalStpCommand?
    && var c := regs[GlobalStp];
       && Member(stp, "priority") == Int(c.priority) && Member(stp, "hello_time") == Int(c.helloTime)
       && Member(stp, "forward_delay") == Int(c.forwardDelay) && Member(stp, "max_age") == Int(c.maxAge)
       && Member(stp, "hold_count") == Int(c.holdCount)
  }

  /** read_lacp. */
  ghost predicate ShowsLacp(regs: Registers, lacp: Json) {
    Lacp in regs && regs[Lacp].SwitchCommand? && Member(lacp, "enabled") == Bool(regs[Lacp].enabled)
  }

  /** One multicast protocol: the switch, the interval in seconds and the same in
      milliseconds. */
  ghost predicate ShowsSnooping(regs: Registers, snoop: Register, inMillis: Register, inSeconds: Register, on: Json,
                                interval: Json)
  {
    && snoop in regs && regs[snoop].SwitchCommand? && on == Bool(regs[snoop].enabled)
    && inSeconds in regs && regs[inSeconds].NumberCommand? && interval == Int(regs[inSeconds].value)
    && inMillis in regs && regs[inMillis] == NumberCommand(1000 * regs[inSeconds].value)
  }

  ghost predicate ShowsMulticast(regs: Registers, m: Json) {
    && ShowsSnooping(regs, IgmpSnoop, IgmpDefaultInterval, IgmpQueryInterval, Member(m, "igmp_snooping"),
                     Member(m, "igmp_querier_interval"))
    && ShowsSnooping(regs, MldSnoop, MldDefaultInterval, MldQueryInterval, Member(m, "mld_snooping"),
                     Member(m, "mld_querier_interval"))
  }

  // ------------------------------------------------------------ one by one

  lemma PhyShown(b: Board, hw: Hardware, regs: Registers, n: nat, p: Json)
    requires PortOk(b, n, p) && ReadsAll(regs, GroupWrites(hw, n, p, Phy))
    ensures ShowsPhy(regs, n, p)
  {
    hide ClickMode, ShowsSpeed, VlanOk, PortStpOk, PoeOk;
    assert Reads(regs, GroupWrites(hw, n, p, Phy)[0]);
    var speed := AsString(Member(p, "speed"));
    forall s: string ensures ShowsSpeed(ClickMode(speed), s) <==> Member(p, "speed") == Str(s) {
      SpeedTable(speed, s);
    }
    SpeedTable(speed, speed);
  }

  lemma StormShown(b: Board, hw: Hardware, regs: Registers, n: nat, p: Json)
    requires PortOk(b, n, p) && ReadsAll(regs, GroupWrites(hw, n, p, Storm))
    ensures ShowsStorm(regs, n, p)
  {
    assert Reads(regs, GroupWrites(hw, n, p, Storm)[0]);
  }

  lemma VlanShown(b: Board, hw: Hardware, regs: Registers, n: nat, p: Json)
    requires PortOk(b, n, p) && ReadsAll(regs, GroupWrites(hw, n, p, Vlan))
    ensures ShowsVlan(regs, n, Member(p, "vlan"))
  {
    hide PortStpOk, PoeOk;
    assert Reads(regs, GroupWrites(hw, n, p, Vlan)[0]);
    assert "trunk" != "hybrid" by { assert |"trunk"| != |"hybrid"|; }
  }

  lemma PortStpShown(b: Board, hw: Hardware, regs: Registers, n: nat, p: Json)
    requires PortOk(b, n, p) && ReadsAll(regs, GroupWrites(hw, n, p, PortStp))
    ensures ShowsPortStp(regs, n, Member(p, "stp"))
  {
    hide VlanOk, PoeOk;
    assert Reads(regs, GroupWrites(hw, n, p, PortStp)[0]);
  }

  lemma PoeShown(b: Board, hw: Hardware, regs: Registers, n: nat, p: Json)
    requires PortOk(b, n, p) && n in hw.poePorts && Has(p, "poe") && ReadsAll(regs, GroupWrites(hw, n, p, Poe))
    ensures ShowsPoe(regs, n, Member(p, "poe"))
  {
    hide VlanOk, PortStpOk;
    var ws := GroupWrites(hw, n, p, Poe);
    assert Reads(regs, ws[0]) && Reads(regs, ws[1]);
  }

  lemma GlobalStpShown(regs: Registers, stp: Json)
    requires GlobalStpOk(stp) && ReadsAll(regs, StpWrites(stp))
    ensures ShowsGlobalStp(regs, stp)
  {
    assert Reads(regs, StpWrites(stp)[0]);
  }

  lemma LacpShown(regs: Registers, lacp: Json)
    requires LacpOk(lacp) && ReadsAll(regs, LacpWrites(lacp))
    ensures ShowsLacp(regs, lacp)
  {
    assert Reads(regs, LacpWrites(lacp)[0]);
  }

  lemma MulticastShown(regs: Registers, m: Json)
    requires MulticastOk(m) && ReadsAll(regs, MulticastWrites(m))
    ensures ShowsMulticast(regs, m)
  {
    var ws := MulticastWrites(m);
    assert Reads(regs, ws[0]) && Reads(regs, ws[1]) && Reads(regs, ws[2]);
    assert Reads(regs, ws[3]) && Reads(regs, ws[4]) && Reads(regs, ws[5]);
  }

  // ------------------------------------------------------------ all together

  /** The registers whose writes must not fail show a port. */
  ghost predicate ShowsPort(hw: Hardware, regs: Registers, n: nat, p: Json) {
    && ShowsPhy(regs, n, p) && ShowsVlan(regs, n, Member(p, "vlan")) && ShowsPortStp(regs, n, Member(p, "stp"))
    && (n in hw.poePorts && Has(p, "poe") ==> ShowsPoe(regs, n, Member(p, "poe")))
  }

  /** Of the keys that name one port this is the last in the order. */
  ghost predicate LastFor(ports: Json, order: seq<string>, key: string) {
    exists i :: 0 <= i < |order| && order[i] == key && Has(ports, key) && AloneAfter(ports, order, i)
  }

  ghost predicate AloneAfter(ports: Json, order: seq<string>, i: nat)
    requires i < |order|
  {
    forall j :: i < j < |order| && Has(ports, order[j]) ==> Decimal(order[j]) != Decimal(order[i])
  }

  lemma {:induction false} LastForDue(ports: Json, order: seq<string>, i: nat, g: Group)
    requires i < |order| && Has(ports, order[i]) && AloneAfter(ports, order, i)
    ensures LastDue(ports, None, order, Decimal(order[i]), g) == Some(order[i])
    decreases |order|
  {
    hide Has, Decimal;
    FullDue(g);
    var last := |order| - 1;
    if i < last {
      assert Has(ports, order[last]) ==> Decimal(order[last]) != Decimal(order[i]);
      LastForDue(ports, order[..last], i, g);
    }
  }

  /** Registers that reflect a configuration that validates show it: its global
      sections, and every port by the last key that names it. */
  lemma ReflectedShows(b: Board, hw: Hardware, regs: Registers, config: Json, order: seq<string>)
    requires Validates(b, config) && ReflectsIn(hw, regs, config, order)
    ensures ShowsGlobalStp(regs, Member(config, "stp")) && ShowsLacp(regs, Member(config, "lacp"))
    ensures ShowsMulticast(regs, Member(config, "multicast"))
    ensures var ports := Member(config, "ports");
            forall key :: LastFor(ports, order, key) ==>
              && ShowsPort(hw, regs, Decimal(key), Member(ports, key))
              && ShowsStorm(regs, Decimal(key), Member(ports, key))
  {
    GlobalsShown(b, hw, regs, config, order);
    hide Validates, ReflectsIn, ShowsPort, ShowsStorm, LastFor;
    var ports := Member(config, "ports");
    forall key | LastFor(ports, order, key)
      ensures ShowsPort(hw, regs, Decimal(key), Member(ports, key))
      ensures ShowsStorm(regs, Decimal(key), Member(ports, key))
    {
      PortShown(b, hw, regs, config, order, key);
    }
  }

  lemma GlobalsShown(b: Board, hw: Hardware, regs: Registers, config: Json, order: seq<string>)
    requires Validates(b, config) && ReflectsIn(hw, regs, config, order)
    ensures ShowsGlobalStp(regs, Member(config, "stp")) && ShowsLacp(regs, Member(config, "lacp"))
    ensures ShowsMulticast(regs, Member(config, "multicast"))
  {
    hide StpWrites, LacpWrites, MulticastWrites, GlobalStpOk, LacpOk, MulticastOk, PortsOk, NetworkOk, LastDue, Reads,
         ShowsGlobalStp, ShowsLacp, ShowsMulticast;
    SectionsThere(b, config);
    var ws := GlobalsWrites(config, None);
    assert forall w :: w in StpWrites(Member(config, "stp")) ==> w in ws;
    assert forall w :: w in LacpWrites(Member(config, "lacp")) ==> w in ws;
    assert forall w :: w in MulticastWrites(Member(config, "multicast")) ==> w in ws;
    GlobalStpShown(regs, Member(config, "stp"));
    LacpShown(regs, Member(config, "lacp"));
    MulticastShown(regs, Member(config, "multicast"));
  }

  lemma SectionsThere(b: Board, config: Json)
    requires Validates(b, config)
    ensures Has(config, "stp") && Has(config, "lacp") && Has(config, "multicast")
  {
    hide PortsOk, NetworkOk;
  }

  lemma PortShown(b: Board, hw: Hardware, regs: Registers, config: Json, order: seq<string>, key: string)
    requires Validates(b, config) && ReflectsIn(hw, regs, config, order)
    requires LastFor(Member(config, "ports"), order, key)
    ensures var p := Member(Member(config, "ports"), key);
            ShowsPort(hw, regs, Decimal(key), p) && ShowsStorm(regs, Decimal(key), p)
  {
    hide Reads, GlobalsWrites, GroupWrites, LastDue, PortOk, NetworkOk, GlobalStpOk, LacpOk, MulticastOk, KeyOk,
         Decimal, ShowsPhy, ShowsStorm, ShowsVlan, ShowsPortStp, ShowsPoe, AloneAfter;
    var ports := Member(config, "ports");
    var n, p := Decimal(key), Member(ports, key);
    var i :| 0 <= i < |order| && order[i] == key && Has(ports, key) && AloneAfter(ports, order, i);
    assert PortOk(b, n, p);
    forall g ensures ReadsAll(regs, GroupWrites(hw, n, p, g)) {
      LastForDue(ports, order, i, g);
      assert ReadsAll(regs, Asks(hw, ports, LastDue(ports, None, order, n, g), n, g));
    }
    PhyShown(b, hw, regs, n, p);
    StormShown(b, hw, regs, n, p);
    VlanShown(b, hw, regs, n, p);
    PortStpShown(b, hw, regs, n, p);
    if n in hw.poePorts && Has(p, "poe") {
      PoeShown(b, hw, regs, n, p);
    }
  }

  // --------------------------------------------------------- after a real run

  /** A register whose writes must not fail holds after a successful run what the
      writes without any loss leave. */
  lemma RequiredHeld(log: seq<Attempt>, regs: Registers, r: Register)
    requires forall a :: a in log && !a.ok ==> Optional(a.write.reg)
    requires !Optional(r)
    ensures SameAt(Landed(regs, log), WriteAll(regs, Attempted(log)), r)
  {
    NoneLost(log, r);
    LossAt(regs, log, r);
    hide Landed, WriteAll, LastTried, LastMade, Attempted;
  }

  lemma {:induction false} NoneLost(log: seq<Attempt>, r: Register)
    requires forall a :: a in log && !a.ok && a.write.reg == r ==> false
    ensures LastTried(log, r) == LastMade(log, r)
    decreases |log|
  {
    if log != [] {
      assert log[0] in log;
      forall a | a in log[1..] ensures a in log {
      }
      NoneLost(log[1..], r);
    }
  }

  lemma NoLoss(log: seq<Attempt>, regs: Registers)
    requires !SomeLost(log)
    ensures Landed(regs, log) == WriteAll(regs, Attempted(log))
  {
    forall r ensures SameAt(Landed(regs, log), WriteAll(regs, Attempted(log)), r) {
      NoneLost(log, r);
      LossAt(regs, log, r);
    }
    hide Landed, WriteAll, Attempted;
    SameEverywhere(Landed(regs, log), WriteAll(regs, Attempted(log)));
  }

  /** A full programming run that reports success, whatever optional writes it lost:
      the switch shows STP, LACP and every port as configured, and if no optional write
      was lost also the multicast section and storm control. */
  lemma SuccessShows(b: Board, hw: Hardware, config: Json, order: seq<string>, x: Stretch, able: bool,
                     before: Registers, after: Registers, g: Flags)
    requires Validates(b, config)
    requires Applied(x, able, before, after, g) && x.rc && x.ws == ConfigWrites(hw, config, None, order)
    ensures ShowsGlobalStp(after, Member(config, "stp")) && ShowsLacp(after, Member(config, "lacp"))
    ensures var ports := Member(config, "ports");
            forall key :: LastFor(ports, order, key) ==> ShowsPort(hw, after, Decimal(key), Member(ports, key))
    ensures !SomeLost(x.made) ==>
              && ShowsMulticast(after, Member(config, "multicast"))
              && var ports := Member(config, "ports");
                 forall key :: LastFor(ports, order, key) ==> ShowsStorm(after, Decimal(key), Member(ports, key))
  {
    hide Validates, LastFor, ConfigWrites, WriteAll, Landed, Attempted, SameAt, ShowsPort, ShowsStorm, ShowsMulticast,
         SomeLost;
    var full := WriteAll(before, x.ws);
    WholeRunReflectsIn(hw, before, config, order);
    ReflectedShows(b, hw, full, config, order);
    RequiredHeld(x.made, before, GlobalStp);
    RequiredHeld(x.made, before, Lacp);
    GlobalsSame(full, after, config);
    var ports := Member(config, "ports");
    forall key | LastFor(ports, order, key) ensures ShowsPort(hw, after, Decimal(key), Member(ports, key)) {
      var n := Decimal(key);
      RequiredHeld(x.made, before, PortPhy(n));
      RequiredHeld(x.made, before, PortVlan(n));
      RequiredHeld(x.made, before, PortStpCfg(n));
      RequiredHeld(x.made, before, PoeMode(n));
      RequiredHeld(x.made, before, PoeEnable(n));
      PortSame(hw, full, after, n, Member(ports, key));
    }
    if !SomeLost(x.made) {
      NoLoss(x.made, before);
    }
  }

  lemma GlobalsSame(a: Registers, b: Registers, config: Json)
    requires SameAt(b, a, GlobalStp) && SameAt(b, a, Lacp)
    requires ShowsGlobalStp(a, Member(config, "stp")) && ShowsLacp(a, Member(config, "lacp"))
    ensures ShowsGlobalStp(b, Member(config, "stp")) && ShowsLacp(b, Member(config, "lacp"))
  {
  }

  lemma PortSame(hw: Hardware, a: Registers, b: Registers, n: nat, p: Json)
    requires ShowsPort(hw, a, n, p)
    requires SameAt(b, a, PortPhy(n)) && SameAt(b, a, PortVlan(n)) && SameAt(b, a, PortStpCfg(n))
    requires SameAt(b, a, PoeMode(n)) && SameAt(b, a, PoeEnable(n))
    ensures ShowsPort(hw, b, n, p)
  {
    hide ShowsSpeed;
  }
}
