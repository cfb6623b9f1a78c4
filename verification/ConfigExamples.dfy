/** Configurations that validate and show where incremental programming and
    rollback fall short of what is promised. */
module ConfigExamples {
  import opened Bytes
  import opened Json
  import opened ConfigModel
  import opened ConfigReplay
  import opened ConfigOrder
  import opened ConfigValidation

  const FALLBACK := "169.254.0.10/16"

  const HW := Hardware({}, false, true)

  const BOARD := Board(10, {}, s => s == FALLBACK, _ => false, _ => false, _ => false, _ => false)

  // -------------------------------------------------------- plain settings

  function PlainVlan(): Json {
    Obj(map["mode" := Str("access"), "pvid" := Int(1), "allowed" := Str(""), "untagged_vid" := Int(1),
            "ingress_filter" := Bool(true)])
  }

  function PlainPortStp(): Json {
    Obj(map["enabled" := Bool(true), "priority" := Int(128), "cost" := Int(0), "edge" := Bool(false),
            "auto_edge" := Bool(true)])
  }

  function PlainPort(storm: bool): Json {
    Obj(map["enabled" := Bool(true), "speed" := Str("auto"), "flow_control" := Bool(false), "eee" := Bool(true),
            "storm_control" := Bool(storm), "vlan" := PlainVlan(), "stp" := PlainPortStp()])
  }

  function PlainNetwork(): Json {
    Obj(map["ipv4" := Obj(map["mode" := Str("dhcp"), "fallback_address" := Str(FALLBACK), "mtu" := Int(1500)])])
  }

  function PlainStp(): Json {
    Obj(map["priority" := Int(32768), "hello_time" := Int(2), "forward_delay" := Int(15), "max_age" := Int(20),
            "hold_count" := Int(6)])
  }

  function PlainLacp(): Json { Obj(map["enabled" := Bool(true)]) }

  function PlainMulticast(): Json {
    Obj(map["igmp_snooping" := Bool(true), "igmp_querier_interval" := Int(125), "mld_snooping" := Bool(true),
            "mld_querier_interval" := Int(125)])
  }

  function PlainConfig(ports: Json): Json {
    Obj(map["network" := PlainNetwork(), "ports" := ports, "stp" := PlainStp(), "lacp" := PlainLacp(),
            "multicast" := PlainMulticast()])
  }

  lemma PlainVlanOk()
    ensures VlanOk(BOARD, PlainVlan())
  {
  }

  lemma PlainPortOk(storm: bool, number: nat)
    ensures PortOk(BOARD, number, PlainPort(storm))
  {
    hide VlanOk, PortStpOk, PlainVlan, PlainPortStp, PlainPort;
    PlainVlanOk();
    PlainPortStpOk();
    PlainSettings(storm);
  }

  lemma PlainPortStpOk()
    ensures PortStpOk(PlainPortStp())
  {
  }

  lemma PlainSettings(storm: bool)
    ensures var p := PlainPort(storm);
            && p.Obj? && Member(p, "enabled") == Bool(true) && Member(p, "speed") == Str("auto")
            && Member(p, "flow_control") == Bool(false) && Member(p, "eee") == Bool(true)
            && Member(p, "storm_control") == Bool(storm)
            && Member(p, "vlan") == PlainVlan() && Member(p, "stp") == PlainPortStp()
            && p.members.Keys == {"enabled", "speed", "flow_control", "eee", "storm_control", "vlan", "stp"}
  {
    hide PlainVlan, PlainPortStp;
  }

  lemma PlainNetworkOk()
    ensures NetworkOk(BOARD, PlainNetwork())
  {
  }

  lemma PlainGlobalsOk()
    ensures GlobalStpOk(PlainStp()) && LacpOk(PlainLacp()) && MulticastOk(PlainMulticast())
  {
  }

  lemma PlainOk(ports: Json)
    requires PortsOk(BOARD, ports)
    ensures Validates(BOARD, PlainConfig(ports)) && Valid(PlainConfig(ports)) && Powered(HW, PlainConfig(ports))
  {
    PlainNetworkOk();
    PlainGlobalsOk();
    PlainSections(ports);
    ValidatesStructure(BOARD, PlainConfig(ports)) by {
      hide NetworkOk, PortsOk, GlobalStpOk, LacpOk, MulticastOk, PlainConfig;
    }
    hide Valid, Validates;
  }

  lemma PlainSections(ports: Json)
    ensures var c := PlainConfig(ports);
            && Member(c, "network") == PlainNetwork() && Member(c, "ports") == ports && Member(c, "stp") == PlainStp()
            && Member(c, "lacp") == PlainLacp() && Member(c, "multicast") == PlainMulticast()
            && !Has(c, "ssh") && !Has(c, "telemetry")
            && OnlyKeys(c, {"network", "ports", "stp", "lacp", "multicast", "ssh", "telemetry"})
  {
  }

  // ------------------------------------------------------------- spellings

  lemma TwoSpellings()
    ensures Decimal("1") == 1 && Decimal("01") == 1 && Decimal("2") == 2
    ensures KeyOk(BOARD, "1") && KeyOk(BOARD, "01") && KeyOk(BOARD, "2")
  {
    assert "1"[..0] == "" && "01"[..1] == "0" && "0"[..0] == "" && "2"[..0] == "";
  }

  /** Merging a patch of a single member. */
  lemma MergeOne(m: map<string, Json>, k: string, v: Json)
    requires !v.Null?
    ensures Merge(Obj(m), Obj(map[k := v])) == Obj(m[k := if k in m && m[k].Obj? && v.Obj? then Merge(m[k], v) else v])
  {
    var one := Obj(map[k := v]);
    var r := Merge(Obj(m), one);
    assert r.Obj? && forall j :: j in r.members ==> j == k || j in m;
    forall j | j in m || j == k
      ensures j in r.members && r.members[j] == if j != k then m[j] else MergeMember(Obj(m), one, k)
    {
      MergeAt(Obj(m), one, j);
    }
    hide Merge;
    assert r.members == m[k := MergeMember(Obj(m), one, k)];
  }

  lemma MergePorts(ports: Json, change: Json, after: Json)
    requires ports.Obj? && change.Obj? && Merge(ports, change) == after
    ensures Merge(PlainConfig(ports), Obj(map["ports" := change])) == PlainConfig(after)
  {
    hide Merge, PlainNetwork, PlainStp, PlainLacp, PlainMulticast;
    MergeOne(PlainConfig(ports).members, "ports", change);
    assert PlainConfig(ports).members["ports" := after] == PlainConfig(after).members;
  }

  // ------------------------------------------------- one port under two keys

  function StormOff(): Json { Obj(map["storm_control" := Bool(false)]) }

  /** Port 1 under "1", and again under "01" with this storm control. */
  function TwoKeys(storm: bool): Json { Obj(map["1" := PlainPort(true), "01" := PlainPort(storm)]) }

  function StormChange(): Json { Obj(map["01" := StormOff()]) }

  function StormDelta(): Json { Obj(map["ports" := StormChange()]) }

  lemma TwoKeysOk(storm: bool)
    ensures PortsOk(BOARD, TwoKeys(storm))
  {
    hide PlainPort, PortOk, KeyOk, Decimal;
    TwoSpellings();
    PlainPortOk(true, 1);
    PlainPortOk(storm, 1);
    TwoKeysMembers(storm);
    TwoKeysKeys(storm);
    var ports := TwoKeys(storm);
    forall key | key in ports.members ensures KeyOk(BOARD, key) && PortOk(BOARD, Decimal(key), ports.members[key]) {
      assert key == "1" || key == "01";
    }
  }

  lemma StormMerge()
    ensures Merge(PlainPort(true), StormOff()) == PlainPort(false)
  {
    hide Merge, PlainVlan, PlainPortStp;
    MergeOne(PlainPort(true).members, "storm_control", Bool(false));
    assert PlainPort(true).members["storm_control" := Bool(false)] == PlainPort(false).members;
  }

  lemma TwoKeysMerge()
    ensures Merge(TwoKeys(true), StormChange()) == TwoKeys(false)
  {
    assert PlainPort(true).Obj?;
    hide Merge, PlainPort;
    StormMerge();
    MergeOne(TwoKeys(true).members, "01", StormOff());
    assert TwoKeys(true).members["01" := PlainPort(false)] == TwoKeys(false).members;
  }

  lemma TwoKeysAgree()
    ensures Agree(HW, PlainConfig(TwoKeys(true)))
  {
    PlainSections(TwoKeys(true));
    hide PlainPort, GroupWrites, Decimal, PlainConfig;
  }

  lemma StormOnly(g: Group)
    ensures GroupWrites(HW, 1, PlainPort(true), g) == GroupWrites(HW, 1, PlainPort(false), g) <==> g != Storm
  {
    var a, b := PlainPort(true), PlainPort(false);
    assert Member(a, "vlan") == Member(b, "vlan") && Member(a, "stp") == Member(b, "stp");
    assert Member(a, "storm_control") == Bool(true) && Member(b, "storm_control") == Bool(false);
    assert PhyValue(a) == PhyValue(b);
    hide PlainPort, PhyValue, VlanValue, StpValue, Member;
  }

  lemma StormDue(g: Group)
    ensures Due(Changed(Some(StormChange()), "01"), g) <==> g == Storm
  {
    assert Member(StormChange(), "01") == StormOff();
    hide Changed;
    assert "storm_control" in Keys(Storm);
    forall h: Group | h != Storm ensures "storm_control" !in Keys(h) {
    }
    assert Due(Some(StormOff()), g) <==> g == Storm;
  }

  /** The two keys validate, and so does the configuration merged with a delta for
      "01".  With the keys in the order "1", "01" the delta's run equals full
      programming; in the order "01", "1" it does not. */
  lemma TwoKeysOnePort() returns (regs: Registers, current: Json, delta: Json)
    ensures Validates(BOARD, current) && Validates(BOARD, Merge(current, delta)) && Mergeable(HW, current, delta)
    ensures Reflects(HW, regs, current) && !Agree(HW, Merge(current, delta))
    ensures IsOrder(["01"], Iterated(Merge(current, delta), Some(delta)))
    ensures IsOrder(["1", "01"], Iterated(Merge(current, delta), None))
    ensures IsOrder(["01", "1"], Iterated(Merge(current, delta), None))
    ensures SameAs(HW, regs, Merge(current, delta), delta, ["01"], ["1", "01"])
    ensures !SameAs(HW, regs, Merge(current, delta), delta, ["01"], ["01", "1"])
  {
    hide Valid, Agree, Merge, Reflects, ConfigWrites, Decimal, PlainConfig, TwoKeys, IsOrder, Iterated, PortsOk,
         Validates, StormChange, SameAs, LastWordsAgree, ReflectsIn, Powered;
    current, delta := PlainConfig(TwoKeys(true)), StormDelta();
    TwoKeysMerge();
    MergePorts(TwoKeys(true), StormChange(), TwoKeys(false)) by { TwoKeysShape(); }
    TwoKeysOk(true);
    TwoKeysOk(false);
    PlainOk(TwoKeys(true));
    PlainOk(TwoKeys(false));
    TwoKeysAgree();
    TwoKeysOrders();
    regs := WriteAll(map[], ConfigWrites(HW, current, None, ["1", "01"]));
    FullReflects(HW, map[], current, ["1", "01"]);
    ReflectsInAny(HW, regs, current, ["1", "01"]);
    FixedOrderIff(HW, regs, current, delta, ["1", "01"], ["01"], ["1", "01"]);
    FixedOrderIff(HW, regs, current, delta, ["1", "01"], ["01"], ["01", "1"]);
    forall n, g
      ensures LastWordsAgree(HW, current, Merge(current, delta), delta, ["1", "01"], ["01"], ["1", "01"], n, g)
    {
      InOrder(n, g);
    }
    OutOfOrder();
    if Agree(HW, Merge(current, delta)) {
      AgreeSame(regs, current, delta, ["01"], ["01", "1"]);
    }
  }

  lemma AgreeSame(regs: Registers, current: Json, delta: Json, some: seq<string>, all: seq<string>)
    requires Mergeable(HW, current, delta) && Agree(HW, Merge(current, delta)) && Reflects(HW, regs, current)
    requires IsOrder(some, Iterated(Merge(current, delta), Some(delta)))
    requires IsOrder(all, Iterated(Merge(current, delta), None))
    ensures SameAs(HW, regs, Merge(current, delta), delta, some, all)
  {
    hide Mergeable, Agree, Merge, Reflects, ConfigWrites, IsOrder, Iterated;
    IncrementalIsFull(HW, regs, current, delta, some, all);
  }

  lemma TwoKeysShape()
    ensures TwoKeys(true).Obj? && StormChange().Obj?
  {
  }

  lemma TwoKeysOrders()
    ensures IsOrder(["01"], Iterated(PlainConfig(TwoKeys(false)), Some(StormDelta())))
    ensures IsOrder(["1", "01"], Iterated(PlainConfig(TwoKeys(true)), None))
    ensures IsOrder(["1", "01"], Iterated(PlainConfig(TwoKeys(false)), None))
    ensures IsOrder(["01", "1"], Iterated(PlainConfig(TwoKeys(false)), None))
  {
    DeltaKeys();
    PlainSections(TwoKeys(true));
    PlainSections(TwoKeys(false));
    TwoKeysKeys(true);
    TwoKeysKeys(false);
    TwoOrders();
    hide PlainConfig, StormDelta, PlainPort, Member, IsOrder, TwoKeys;
  }

  lemma DeltaKeys()
    ensures Iterated(PlainConfig(TwoKeys(false)), Some(StormDelta())) == {"01"}
  {
    assert Member(StormDelta(), "ports") == StormChange();
    hide PlainConfig, TwoKeys, StormOff;
  }

  lemma TwoKeysKeys(storm: bool)
    ensures TwoKeys(storm).Obj? && TwoKeys(storm).members.Keys == {"1", "01"}
  {
    hide PlainPort;
  }

  lemma TwoOrders()
    ensures IsOrder(["01"], {"01"}) && IsOrder(["1", "01"], {"1", "01"}) && IsOrder(["01", "1"], {"1", "01"})
  {
  }

  /** The last of two keys that both name port 1. */
  lemma LastOfTwo(ports: Json, delta: Option<Json>, a: string, b: string, n: nat, g: Group)
    requires Has(ports, a) && Has(ports, b) && Decimal(a) == 1 && Decimal(b) == 1
    ensures LastDue(ports, delta, [a, b], n, g)
         == if n != 1 then None else if Due(Changed(delta, b), g) then Some(b)
            else if Due(Changed(delta, a), g) then Some(a) else None
  {
    hide Due, Changed, Decimal, Has;
    assert [a, b][..1] == [a];
    LastOfOne(ports, delta, a, n, g);
  }

  lemma LastOfOne(ports: Json, delta: Option<Json>, a: string, n: nat, g: Group)
    requires Has(ports, a) && Decimal(a) == 1
    ensures LastDue(ports, delta, [a], n, g) == if n == 1 && Due(Changed(delta, a), g) then Some(a) else None
  {
    hide Due, Changed, Decimal, Has;
    assert [a][..0] == [];
  }

  lemma TwoKeysMembers(storm: bool)
    ensures var p := TwoKeys(storm);
            && Has(p, "1") && Has(p, "01") && Member(p, "1") == PlainPort(true) && Member(p, "01") == PlainPort(storm)
  {
    hide PlainPort;
  }

  lemma WhatIsDue(n: nat, g: Group)
    ensures LastDue(TwoKeys(false), DeltaPorts(Some(StormDelta())), RunOrder(Some(StormDelta()), ["01"]), n, g)
         == if n == 1 && g == Storm then Some("01") else None
  {
    assert Member(StormDelta(), "ports") == StormChange() && Mentioned(Some(StormDelta()), "ports");
    TwoSpellings();
    TwoKeysMembers(false);
    StormDue(g);
    hide TwoKeys, StormDelta, StormChange, Due, Changed, Decimal, Has;
    LastOfOne(TwoKeys(false), Some(StormChange()), "01", n, g);
  }

  lemma InOrder(n: nat, g: Group)
    ensures LastWordsAgree(HW, PlainConfig(TwoKeys(true)), PlainConfig(TwoKeys(false)), StormDelta(), ["1", "01"],
                           ["01"], ["1", "01"], n, g)
  {
    PlainSections(TwoKeys(true));
    PlainSections(TwoKeys(false));
    TwoSpellings();
    TwoKeysMembers(true);
    TwoKeysMembers(false);
    FullDue(g);
    StormOnly(g);
    WhatIsDue(n, g);
    hide TwoKeys, PlainConfig, PlainPort, Due, Decimal, GroupWrites, Has, Member, LastDue, StormDelta, RunOrder;
    LastOfTwo(TwoKeys(true), None, "1", "01", n, g);
    LastOfTwo(TwoKeys(false), None, "1", "01", n, g);
  }

  lemma OutOfOrder()
    ensures !LastWordsAgree(HW, PlainConfig(TwoKeys(true)), PlainConfig(TwoKeys(false)), StormDelta(), ["1", "01"],
                            ["01"], ["01", "1"], 1, Storm)
  {
    PlainSections(TwoKeys(false));
    TwoSpellings();
    TwoKeysMembers(false);
    FullDue(Storm);
    StormOnly(Storm);
    WhatIsDue(1, Storm);
    hide TwoKeys, PlainConfig, PlainPort, Due, Decimal, GroupWrites, Has, Member, LastDue, StormDelta, RunOrder;
    LastOfTwo(TwoKeys(false), None, "01", "1", 1, Storm);
  }
}
