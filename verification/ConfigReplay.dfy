/** Incremental programming against full programming: which writes a delta may
    skip, and when the order of the ports matters. */
module ConfigReplay {
  import opened Bytes
  import opened Json
  import opened ConfigModel

  /** The registers after a list of writes. */
  function WriteAll(regs: Registers, ws: seq<Write>): Registers
    decreases |ws|
  {
    if ws == [] then regs else WriteAll(regs[ws[0].reg := ws[0].cmd], ws[1..])
  }

  predicate Reads(regs: Registers, w: Write) {
    w.reg in regs && regs[w.reg] == w.cmd
  }

  ghost predicate Touches(ws: seq<Write>, r: Register) {
    exists w :: w in ws && w.reg == r
  }

  ghost predicate Consistent(ws: seq<Write>) {
    forall v, w :: v in ws && w in ws && v.reg == w.reg ==> v == w
  }

  lemma {:induction false} WriteAllOther(regs: Registers, ws: seq<Write>, r: Register)
    requires !Touches(ws, r)
    ensures r in WriteAll(regs, ws) <==> r in regs
    ensures r in regs ==> WriteAll(regs, ws)[r] == regs[r]
    decreases |ws|
  {
    if ws != [] {
      assert ws[0] in ws;
      WriteAllOther(regs[ws[0].reg := ws[0].cmd], ws[1..], r);
    }
  }

  lemma {:induction false} WriteAllReads(regs: Registers, ws: seq<Write>, w: Write)
    requires Consistent(ws) && w in ws
    ensures Reads(WriteAll(regs, ws), w)
    decreases |ws|
  {
    var next := regs[ws[0].reg := ws[0].cmd];
    if w in ws[1..] {
      WriteAllReads(next, ws[1..], w);
    } else {
      forall v | v in ws[1..] ensures v.reg != w.reg {
        assert v in ws;
      }
      WriteAllOther(next, ws[1..], w.reg);
    }
  }

  lemma {:induction false} WriteAllAppend(regs: Registers, a: seq<Write>, b: seq<Write>)
    ensures WriteAll(regs, a + b) == WriteAll(WriteAll(regs, a), b)
    decreases |a|
  {
    if a == [] {
      assert a + b == b;
    } else {
      assert (a + b)[1..] == a[1..] + b;
      WriteAllAppend(regs[a[0].reg := a[0].cmd], a[1..], b);
    }
  }

  // ----------------------------------------------------- membership in a run

  lemma {:induction false} InWritesOf(hw: Hardware, port: nat, p: Json, changed: Option<Json>, groups: seq<Group>,
                                      w: Write)
    ensures w in WritesOf(hw, port, p, changed, groups)
       <==> exists g :: g in groups && Due(changed, g) && w in GroupWrites(hw, port, p, g)
    decreases |groups|
  {
    hide Due, GroupWrites;
    if groups != [] {
      InWritesOf(hw, port, p, changed, groups[1..], w);
      assert groups == [groups[0]] + groups[1..];
    }
  }

  /** A port's run holds exactly the writes of its due groups. */
  lemma InPortWrites(hw: Hardware, port: nat, p: Json, changed: Option<Json>, w: Write)
    ensures w in PortWrites(hw, port, p, changed)
       <==> exists g :: Due(changed, g) && w in GroupWrites(hw, port, p, g)
  {
    hide Due, GroupWrites;
    InWritesOf(hw, port, p, changed, GROUPS, w);
    forall g: Group ensures g in GROUPS {
      AllGroups(g);
    }
  }

  lemma AllGroups(g: Group)
    ensures g in GROUPS
  {
    match g
    case Phy => assert GROUPS[0] == g;
    case Storm => assert GROUPS[1] == g;
    case Vlan => assert GROUPS[2] == g;
    case PortStp => assert GROUPS[3] == g;
    case Poe => assert GROUPS[4] == g;
  }

  lemma {:induction false} InPortsWrites(hw: Hardware, ports: Json, delta: Option<Json>, order: seq<string>, w: Write)
    ensures w in PortsWrites(hw, ports, delta, order)
       <==> exists key :: key in order && w in KeyWrites(hw, ports, delta, key)
    decreases |order|
  {
    hide KeyWrites;
    if order != [] {
      InPortsWrites(hw, ports, delta, order[1..], w);
      assert order == [order[0]] + order[1..];
    }
  }

  // ------------------------------------------------ what a configuration programs

  /** The writes of full programming. */
  ghost predicate Programs(hw: Hardware, config: Json, w: Write) {
    || w in GlobalsWrites(config, None)
    || exists key :: w in KeyWrites(hw, Member(config, "ports"), None, key)
  }

  /** The writes of a run, whatever order the ports come in. */
  ghost predicate RunPrograms(hw: Hardware, config: Json, delta: Option<Json>, w: Write) {
    || w in GlobalsWrites(config, delta)
    || (Mentioned(delta, "ports")
        && exists key ::
             key in Iterated(config, delta) && w in KeyWrites(hw, Member(config, "ports"), DeltaPorts(delta), key))
  }

  lemma InConfigWrites(hw: Hardware, config: Json, delta: Option<Json>, order: seq<string>, w: Write)
    requires IsOrder(order, Iterated(config, delta))
    ensures w in ConfigWrites(hw, config, delta, order) <==> RunPrograms(hw, config, delta, w)
  {
    hide GlobalsWrites, PortsWrites, KeyWrites, Member, Mentioned, Iterated;
    InPortsWrites(hw, Member(config, "ports"), DeltaPorts(delta), order, w);
  }

  lemma FullRun(hw: Hardware, config: Json, w: Write)
    ensures RunPrograms(hw, config, None, w) <==> Programs(hw, config, w)
  {
    hide GlobalsWrites, PortWrites, Decimal;
    var ports := Member(config, "ports");
    forall key | w in KeyWrites(hw, ports, None, key) ensures key in Iterated(config, None) {
    }
  }

  lemma RunOfMerged(hw: Hardware, config: Json, delta: Json, w: Write)
    requires RunPrograms(hw, config, Some(delta), w)
    ensures Programs(hw, config, w)
  {
    hide KeyWrites;
    if w in GlobalsWrites(config, Some(delta)) {
      GlobalsSkip(config, delta, w);
    } else {
      var ports := Member(config, "ports");
      var key :| w in KeyWrites(hw, ports, DeltaPorts(Some(delta)), key);
      PortRunOfFull(hw, ports, DeltaPorts(Some(delta)), key, w);
    }
  }

  lemma GlobalsSkip(config: Json, delta: Json, w: Write)
    requires w in GlobalsWrites(config, Some(delta))
    ensures w in GlobalsWrites(config, None)
  {
    hide StpWrites, LacpWrites, MulticastWrites;
  }

  lemma PortRunOfFull(hw: Hardware, ports: Json, delta: Option<Json>, key: string, w: Write)
    requires w in KeyWrites(hw, ports, delta, key)
    ensures w in KeyWrites(hw, ports, None, key)
  {
    hide GroupWrites, Decimal, PortWrites;
    InPortWrites(hw, Decimal(key), Member(ports, key), Changed(delta, key), w);
    InPortWrites(hw, Decimal(key), Member(ports, key), None, w);
  }

  // --------------------------------------------------------- which write is whose

  datatype Owner = PortGroup(port: nat, group: Group) | Global

  function OwnerOf(r: Register): Owner {
    match r
    case PortPhy(p) => PortGroup(p, Phy)
    case PortStorm(p) => PortGroup(p, Storm)
    case PortVlan(p) => PortGroup(p, Vlan)
    case PortStpCfg(p) => PortGroup(p, PortStp)
    case PoeMode(p) => PortGroup(p, Poe)
    case PoeEnable(p) => PortGroup(p, Poe)
    case _ => Global
  }

  lemma GroupOwns(hw: Hardware, port: nat, p: Json, g: Group, w: Write)
    requires w in GroupWrites(hw, port, p, g)
    ensures OwnerOf(w.reg) == PortGroup(port, g)
  {
    hide PhyValue, VlanValue, StpValue, Member, AsBool, AsString;
  }

  lemma GroupOnce(hw: Hardware, port: nat, p: Json, g: Group, v: Write, w: Write)
    requires v in GroupWrites(hw, port, p, g) && w in GroupWrites(hw, port, p, g) && v.reg == w.reg
    ensures v == w
  {
    hide PhyValue, VlanValue, StpValue, Member, AsBool, AsString;
  }

  lemma GlobalsOnce(config: Json, delta: Option<Json>, v: Write, w: Write)
    requires v in GlobalsWrites(config, delta)
    ensures OwnerOf(v.reg) == Global
    ensures w in GlobalsWrites(config, delta) && v.reg == w.reg ==> v == w
  {
    hide Member, AsBool, AsInt, Has, Mentioned;
    SectionsOnce(config, v, w);
  }

  lemma SectionsOnce(config: Json, v: Write, w: Write)
    ensures var s, l, m :=
              StpWrites(Member(config, "stp")), LacpWrites(Member(config, "lacp")),
              MulticastWrites(Member(config, "multicast"));
            v in s + l + m ==> OwnerOf(v.reg) == Global && (w in s + l + m && v.reg == w.reg ==> v == w)
  {
    hide Member, AsBool, AsInt;
  }

  /** Keys that spell the same port number ask for the same commands. */
  ghost predicate Agree(hw: Hardware, config: Json) {
    var ports := Member(config, "ports");
    forall j, k, g :: Has(ports, j) && Has(ports, k) && Decimal(j) == Decimal(k) ==>
      GroupWrites(hw, Decimal(j), Member(ports, j), g) == GroupWrites(hw, Decimal(k), Member(ports, k), g)
  }

  /** No port number is spelled twice. */
  ghost predicate DistinctPorts(config: Json) {
    var ports := Member(config, "ports");
    forall j, k :: Has(ports, j) && Has(ports, k) && Decimal(j) == Decimal(k) ==> j == k
  }

  lemma DistinctAgree(hw: Hardware, config: Json)
    requires DistinctPorts(config)
    ensures Agree(hw, config)
  {
    hide GroupWrites, Decimal;
  }

  lemma KeyWritesGroup(hw: Hardware, ports: Json, key: string, w: Write) returns (g: Group)
    requires w in KeyWrites(hw, ports, None, key)
    ensures Has(ports, key) && w in GroupWrites(hw, Decimal(key), Member(ports, key), g)
    ensures OwnerOf(w.reg) == PortGroup(Decimal(key), g)
  {
    hide GroupWrites, Decimal, PortWrites, OwnerOf;
    InPortWrites(hw, Decimal(key), Member(ports, key), None, w);
    g :| w in GroupWrites(hw, Decimal(key), Member(ports, key), g);
    GroupOwns(hw, Decimal(key), Member(ports, key), g, w);
  }

  /** Full programming of a configuration whose keys agree writes each register
      one value. */
  lemma ProgramsOnce(hw: Hardware, config: Json, v: Write, w: Write)
    requires Agree(hw, config) && Programs(hw, config, v) && Programs(hw, config, w) && v.reg == w.reg
    ensures v == w
  {
    hide GlobalsWrites, KeyWrites, GroupWrites, Decimal, OwnerOf;
    var ports := Member(config, "ports");
    if v in GlobalsWrites(config, None) {
      GlobalsOnce(config, None, v, w);
    }
    if w in GlobalsWrites(config, None) {
      GlobalsOnce(config, None, w, v);
    }
    if v !in GlobalsWrites(config, None) {
      var j :| v in KeyWrites(hw, ports, None, j);
      var g := KeyWritesGroup(hw, ports, j, v);
      if w !in GlobalsWrites(config, None) {
        var k :| w in KeyWrites(hw, ports, None, k);
        var h := KeyWritesGroup(hw, ports, k, w);
        GroupOnce(hw, Decimal(j), Member(ports, j), g, v, w);
      }
    } else if w !in GlobalsWrites(config, None) {
      var k :| w in KeyWrites(hw, ports, None, k);
      var h := KeyWritesGroup(hw, ports, k, w);
    }
  }

  // ----------------------------------------------------- what a delta may skip

  /** The registers hold what full programming would write. */
  ghost predicate Reflects(hw: Hardware, regs: Registers, config: Json) {
    forall w :: Programs(hw, config, w) ==> Reads(regs, w)
  }

  /** A group the delta does not mention asks for what it asked before. */
  lemma GroupUnchanged(hw: Hardware, port: nat, before: Json, change: Json, g: Group)
    requires before.Obj? && change.Obj? && !Due(Some(change), g)
    ensures GroupWrites(hw, port, Merge(before, change), g) == GroupWrites(hw, port, before, g)
  {
    hide PhyValue, VlanValue, StpValue, Merge, Due;
    var after := Merge(before, change);
    match g
    case Phy =>
      forall key | key in Keys(Phy) ensures Member(after, key) == Member(before, key) {
        MemberUnchanged(before, change, g, key);
      }
      PhyUnchanged(before, after);
    case Storm => MemberUnchanged(before, change, g, "storm_control");
    case Vlan => MemberUnchanged(before, change, g, "vlan");
    case PortStp => MemberUnchanged(before, change, g, "stp");
    case Poe => MemberUnchanged(before, change, g, "poe");
  }

  lemma PhyUnchanged(before: Json, after: Json)
    requires forall key :: key in Keys(Phy) ==> Member(after, key) == Member(before, key)
    ensures PhyValue(after) == PhyValue(before)
  {
    hide Member, AsBool, AsString, ClickMode;
    assert "enabled" in Keys(Phy) && "speed" in Keys(Phy) && "flow_control" in Keys(Phy) && "eee" in Keys(Phy);
  }

  lemma MemberUnchanged(before: Json, change: Json, g: Group, key: string)
    requires before.Obj? && change.Obj? && !Due(Some(change), g) && key in Keys(g)
    ensures Member(Merge(before, change), key) == Member(before, key)
  {
    MergeAt(before, change, key);
    hide Merge;
  }

  /** A merged ports section is the merge of the ports sections. */
  lemma MergedPorts(current: Json, delta: Json)
    requires Valid(current) && delta.Obj? && Valid(Merge(current, delta))
    ensures var before, after := Member(current, "ports"), Member(Merge(current, delta), "ports");
            if Has(delta, "ports") then Member(delta, "ports").Obj? && after == Merge(before, Member(delta, "ports"))
               else after == before
  {
    MergeAt(current, delta, "ports");
    hide Merge, ValidPort;
  }

  /** A merged port was untouched, created or merged. */
  lemma MergedPort(before: Json, change: Json, key: string)
    requires before.Obj? && change.Obj?
    requires var after := Merge(before, change); Has(after, key) && ValidPort(Member(after, key))
    requires Has(before, key) ==> ValidPort(Member(before, key))
    ensures var p, c := Member(Merge(before, change), key), Member(change, key);
            if !Has(change, key) then Has(before, key) && p == Member(before, key)
            else c.Obj? && p == (if Has(before, key) then Merge(Member(before, key), c) else c)
  {
    MergeAt(before, change, key);
    hide Merge;
  }

  /** A port that appears with the delta has every group due. */
  lemma NewPortDue(hw: Hardware, port: nat, p: Json, g: Group, w: Write)
    requires ValidPort(p) && (port in hw.poePorts ==> Has(p, "poe"))
    requires w in GroupWrites(hw, port, p, g)
    ensures Due(Some(p), g)
  {
    hide PhyValue, VlanValue, StpValue;
    var key :=
      match g
      case Phy => "enabled"
      case Storm => "storm_control"
      case Vlan => "vlan"
      case PortStp => "stp"
      case Poe => "poe";
    assert key in Keys(g) && Has(p, key);
  }

  lemma SkippedChange(hw: Hardware, port: nat, before: Option<Json>, change: Json, g: Group, w: Write)
    requires before.Some? ==> before.value.Obj?
    requires change.Obj? && !Due(Some(change), g)
    requires before.None? ==> ValidPort(change) && (port in hw.poePorts ==> Has(change, "poe"))
    requires w in GroupWrites(hw, port, if before.Some? then Merge(before.value, change) else change, g)
    ensures before.Some? && w in GroupWrites(hw, port, before.value, g)
  {
    hide GroupWrites, Due, ValidPort, Merge;
    match before
    case None => NewPortDue(hw, port, change, g, w);
    case Some(b) => GroupUnchanged(hw, port, b, change, g);
  }

  lemma DueWritten(hw: Hardware, ports: Json, delta: Option<Json>, key: string, g: Group, w: Write)
    requires Has(ports, key) && Due(Changed(delta, key), g) && w in GroupWrites(hw, Decimal(key), Member(ports, key), g)
    ensures w in KeyWrites(hw, ports, delta, key)
  {
    hide GroupWrites, Decimal, Due, PortWrites;
    InPortWrites(hw, Decimal(key), Member(ports, key), Changed(delta, key), w);
  }

  /** A port write the delta's run leaves out was a write of the current
      configuration. */
  lemma SkippedPort(hw: Hardware, before: Json, change: Json, key: string, w: Write)
    requires before.Obj? && change.Obj?
    requires forall k :: Has(before, k) ==> ValidPort(Member(before, k))
    requires var after := Merge(before, change);
             && (forall k :: Has(after, k) ==> ValidPort(Member(after, k)))
             && (forall k :: Has(after, k) && Decimal(k) in hw.poePorts ==> Has(Member(after, k), "poe"))
    requires w in KeyWrites(hw, Merge(before, change), None, key)
    requires Has(change, key) ==> w !in KeyWrites(hw, Merge(before, change), Some(change), key)
    ensures w in KeyWrites(hw, before, None, key)
  {
    hide GroupWrites, Decimal, Due, PortWrites, KeyWrites, Merge, OwnerOf;
    var after := Merge(before, change);
    var g := KeyWritesGroup(hw, after, key, w);
    MergedPort(before, change, key);
    if Has(change, key) {
      if Due(Some(Member(change, key)), g) {
        DueWritten(hw, after, Some(change), key, g, w);
      }
      var was := if Has(before, key) then Some(Member(before, key)) else None;
      SkippedChange(hw, Decimal(key), was, Member(change, key), g, w);
    }
    FullDue(g);
    DueWritten(hw, before, None, key, g, w);
  }

  lemma FullDue(g: Group)
    ensures Due(None, g)
  {
  }

  /** A global write the delta's run leaves out was a write of the current
      configuration. */
  lemma SkippedGlobal(current: Json, delta: Json, w: Write)
    requires current.Obj? && delta.Obj?
    requires w in GlobalsWrites(Merge(current, delta), None) && w !in GlobalsWrites(Merge(current, delta), Some(delta))
    ensures w in GlobalsWrites(current, None)
  {
    hide StpWrites, LacpWrites, MulticastWrites, Merge;
    MergeAt(current, delta, "stp");
    MergeAt(current, delta, "lacp");
    MergeAt(current, delta, "multicast");
  }

  /** What the delta's run leaves out, the current configuration programs. */
  lemma Skipped(hw: Hardware, current: Json, delta: Json, w: Write)
    requires Valid(current) && delta.Obj? && Valid(Merge(current, delta)) && Powered(hw, Merge(current, delta))
    requires Programs(hw, Merge(current, delta), w) && !RunPrograms(hw, Merge(current, delta), Some(delta), w)
    ensures Programs(hw, current, w)
  {
    hide GlobalsWrites, KeyWrites, Merge, Decimal, ValidPort;
    var merged := Merge(current, delta);
    if w in GlobalsWrites(merged, None) {
      SkippedGlobal(current, delta, w);
    } else {
      var key :| w in KeyWrites(hw, Member(merged, "ports"), None, key);
      MergedPorts(current, delta);
      if Has(delta, "ports") {
        assert DeltaPorts(Some(delta)) == Some(Member(delta, "ports"));
        assert Has(Member(delta, "ports"), key) ==> key in Iterated(merged, Some(delta));
        SkippedPort(hw, Member(current, "ports"), Member(delta, "ports"), key, w);
      }
    }
  }

  // ------------------------------------------------------- incremental is full

  lemma RunConsistent(hw: Hardware, config: Json, delta: Option<Json>, order: seq<string>)
    requires Agree(hw, config) && IsOrder(order, Iterated(config, delta))
    ensures Consistent(ConfigWrites(hw, config, delta, order))
  {
    hide ConfigWrites, Agree, RunPrograms, Programs, Iterated;
    forall v, w |
      v in ConfigWrites(hw, config, delta, order) && w in ConfigWrites(hw, config, delta, order) && v.reg == w.reg
      ensures v == w
    {
      WrittenIsProgrammed(hw, config, delta, order, v);
      WrittenIsProgrammed(hw, config, delta, order, w);
      ProgramsOnce(hw, config, v, w);
    }
  }

  lemma WrittenIsProgrammed(hw: Hardware, config: Json, delta: Option<Json>, order: seq<string>, w: Write)
    requires IsOrder(order, Iterated(config, delta)) && w in ConfigWrites(hw, config, delta, order)
    ensures Programs(hw, config, w)
  {
    hide ConfigWrites, RunPrograms, Programs, Iterated;
    InConfigWrites(hw, config, delta, order, w);
    match delta
    case None => FullRun(hw, config, w);
    case Some(d) => RunOfMerged(hw, config, d, w);
  }

  lemma ProgrammedIsWritten(hw: Hardware, config: Json, order: seq<string>, w: Write)
    requires IsOrder(order, Iterated(config, None)) && Programs(hw, config, w)
    ensures w in ConfigWrites(hw, config, None, order)
  {
    hide ConfigWrites, RunPrograms, Programs, Iterated;
    InConfigWrites(hw, config, None, order, w);
    FullRun(hw, config, w);
  }

  /** What the transactions rely on: a valid configuration merged with an
      object delta into a valid one, no powered port losing its poe section. */
  predicate Mergeable(hw: Hardware, current: Json, delta: Json) {
    Valid(current) && delta.Obj? && Valid(Merge(current, delta)) && Powered(hw, Merge(current, delta))
  }

  /** After the delta's run the registers reflect the merged configuration. */
  lemma DeltaReflects(hw: Hardware, regs: Registers, current: Json, delta: Json, order: seq<string>)
    requires Mergeable(hw, current, delta) && Agree(hw, Merge(current, delta)) && Reflects(hw, regs, current)
    requires IsOrder(order, Iterated(Merge(current, delta), Some(delta)))
    ensures Reflects(hw, WriteAll(regs, ConfigWrites(hw, Merge(current, delta), Some(delta), order)),
                     Merge(current, delta))
  {
    hide ConfigWrites, Agree, RunPrograms, Programs, Iterated, Merge, Valid, Powered;
    var merged := Merge(current, delta);
    var ws := ConfigWrites(hw, merged, Some(delta), order);
    RunConsistent(hw, merged, Some(delta), order);
    forall w | Programs(hw, merged, w) ensures Reads(WriteAll(regs, ws), w) {
      RegisterAfterDelta(hw, regs, current, delta, order, w);
    }
  }

  lemma RegisterAfterDelta(hw: Hardware, regs: Registers, current: Json, delta: Json, order: seq<string>, w: Write)
    requires Mergeable(hw, current, delta) && Agree(hw, Merge(current, delta)) && Reflects(hw, regs, current)
    requires IsOrder(order, Iterated(Merge(current, delta), Some(delta)))
    requires Programs(hw, Merge(current, delta), w)
    ensures Reads(WriteAll(regs, ConfigWrites(hw, Merge(current, delta), Some(delta), order)), w)
  {
    hide ConfigWrites, Agree, RunPrograms, Programs, Iterated, Merge, Valid, Powered;
    var merged := Merge(current, delta);
    var ws := ConfigWrites(hw, merged, Some(delta), order);
    RunConsistent(hw, merged, Some(delta), order);
    InConfigWrites(hw, merged, Some(delta), order, w);
    if Touches(ws, w.reg) {
      var v :| v in ws && v.reg == w.reg;
      WrittenIsProgrammed(hw, merged, Some(delta), order, v);
      ProgramsOnce(hw, merged, v, w);
      WriteAllReads(regs, ws, v);
    } else {
      Skipped(hw, current, delta, w);
      WriteAllOther(regs, ws, w.reg);
    }
  }

  lemma FullReflects(hw: Hardware, regs: Registers, config: Json, order: seq<string>)
    requires Agree(hw, config) && IsOrder(order, Iterated(config, None))
    ensures Reflects(hw, WriteAll(regs, ConfigWrites(hw, config, None, order)), config)
  {
    hide ConfigWrites, Agree, Programs, Iterated;
    RunConsistent(hw, config, None, order);
    forall w | Programs(hw, config, w) ensures Reads(WriteAll(regs, ConfigWrites(hw, config, None, order)), w) {
      ProgrammedIsWritten(hw, config, order, w);
      WriteAllReads(regs, ConfigWrites(hw, config, None, order), w);
    }
  }

  /** Two register states reached from the same one by writes of a
      configuration they both reflect are the same. */
  lemma SameRegisters(hw: Hardware, regs: Registers, config: Json, a: seq<Write>, b: seq<Write>)
    requires forall w :: w in a || w in b ==> Programs(hw, config, w)
    requires Reflects(hw, WriteAll(regs, a), config) && Reflects(hw, WriteAll(regs, b), config)
    requires forall w :: Programs(hw, config, w) ==> w in b
    ensures WriteAll(regs, a) == WriteAll(regs, b)
  {
    hide Programs;
    forall r: Register
      ensures r in WriteAll(regs, a) <==> r in WriteAll(regs, b)
      ensures r in WriteAll(regs, a) ==> WriteAll(regs, a)[r] == WriteAll(regs, b)[r]
    {
      if Touches(b, r) {
        var w :| w in b && w.reg == r;
        assert Reads(WriteAll(regs, a), w) && Reads(WriteAll(regs, b), w);
      } else {
        assert !Touches(a, r);
        WriteAllOther(regs, a, r);
        WriteAllOther(regs, b, r);
      }
    }
  }

  /** Programming only what the delta mentions leaves every register as
      programming the whole merged configuration would. */
  lemma IncrementalIsFull(hw: Hardware, regs: Registers, current: Json, delta: Json, some: seq<string>,
                          all: seq<string>)
    requires Mergeable(hw, current, delta) && Agree(hw, Merge(current, delta)) && Reflects(hw, regs, current)
    requires IsOrder(some, Iterated(Merge(current, delta), Some(delta)))
    requires IsOrder(all, Iterated(Merge(current, delta), None))
    ensures WriteAll(regs, ConfigWrites(hw, Merge(current, delta), Some(delta), some))
         == WriteAll(regs, ConfigWrites(hw, Merge(current, delta), None, all))
  {
    hide ConfigWrites, Agree, Programs, Iterated, Merge, Valid, Powered, Reflects;
    var merged := Merge(current, delta);
    var a, b := ConfigWrites(hw, merged, Some(delta), some), ConfigWrites(hw, merged, None, all);
    DeltaReflects(hw, regs, current, delta, some);
    FullReflects(hw, regs, merged, all);
    forall w | w in a || w in b ensures Programs(hw, merged, w) {
      WrittenIsProgrammed(hw, merged, if w in a then Some(delta) else None, if w in a then some else all, w);
    }
    forall w | Programs(hw, merged, w) ensures w in b {
      ProgrammedIsWritten(hw, merged, all, w);
    }
    SameRegisters(hw, regs, merged, a, b);
  }

  // ------------------------------------------------------- the exact condition

  lemma {:induction false} SomeOrder(keys: set<string>) returns (order: seq<string>)
    ensures IsOrder(order, keys)
    decreases keys
  {
    if keys == {} {
      order := [];
    } else {
      var k :| k in keys;
      var rest := SomeOrder(keys - {k});
      order := rest + [k];
    }
  }

  lemma {:induction false} PortsWritesLast(hw: Hardware, ports: Json, delta: Option<Json>, order: seq<string>,
                                           key: string)
    ensures PortsWrites(hw, ports, delta, order + [key]) == PortsWrites(hw, ports, delta, order)
            + KeyWrites(hw, ports, delta, key)
    decreases |order|
  {
    hide KeyWrites;
    if order == [] {
      assert PortsWrites(hw, ports, delta, ([] + [key])[1..]) == [];
    } else {
      assert (order + [key])[1..] == order[1..] + [key];
      PortsWritesLast(hw, ports, delta, order[1..], key);
    }
  }

  /** The port that comes last has the last word. */
  lemma LastWord(hw: Hardware, regs: Registers, config: Json, key: string) returns (order: seq<string>)
    requires Has(Member(config, "ports"), key)
    ensures IsOrder(order, Iterated(config, None))
    ensures forall w :: w in KeyWrites(hw, Member(config, "ports"), None, key) ==>
              Reads(WriteAll(regs, ConfigWrites(hw, config, None, order)), w)
  {
    hide KeyWrites, GlobalsWrites;
    var ports := Member(config, "ports");
    var rest := SomeOrder(Iterated(config, None) - {key});
    order := rest + [key];
    var last := KeyWrites(hw, ports, None, key);
    var first := GlobalsWrites(config, None) + PortsWrites(hw, ports, None, rest);
    PortsWritesLast(hw, ports, None, rest, key);
    assert ConfigWrites(hw, config, None, order) == first + last;
    WriteAllAppend(regs, first, last);
    KeyOnce(hw, ports, key);
    forall w | w in last ensures Reads(WriteAll(regs, first + last), w) {
      WriteAllReads(WriteAll(regs, first), last, w);
    }
  }

  lemma KeyOnce(hw: Hardware, ports: Json, key: string)
    ensures Consistent(KeyWrites(hw, ports, None, key))
  {
    hide KeyWrites, GroupWrites, Decimal, OwnerOf;
    var ws := KeyWrites(hw, ports, None, key);
    forall v, w | v in ws && w in ws && v.reg == w.reg ensures v == w {
      var g := KeyWritesGroup(hw, ports, key, v);
      var h := KeyWritesGroup(hw, ports, key, w);
      GroupOnce(hw, Decimal(key), Member(ports, key), g, v, w);
    }
  }

  lemma GroupDiffers(hw: Hardware, port: nat, p: Json, q: Json, g: Group) returns (v: Write, w: Write)
    requires GroupWrites(hw, port, p, g) != GroupWrites(hw, port, q, g)
    ensures v in GroupWrites(hw, port, p, g) && w in GroupWrites(hw, port, q, g) && v.reg == w.reg && v.cmd != w.cmd
  {
    hide PhyValue, VlanValue, StpValue, Member, AsBool, AsString;
    var a, b := GroupWrites(hw, port, p, g), GroupWrites(hw, port, q, g);
    assert |a| == |b| && forall i :: 0 <= i < |a| ==> a[i].reg == b[i].reg;
    var i :| 0 <= i < |a| && a[i] != b[i];
    v, w := a[i], b[i];
  }

  /** Keys that disagree make full programming depend on their order. */
  lemma OrderMatters(hw: Hardware, regs: Registers, config: Json) returns (one: seq<string>, two: seq<string>)
    requires !Agree(hw, config)
    ensures IsOrder(one, Iterated(config, None)) && IsOrder(two, Iterated(config, None))
    ensures WriteAll(regs, ConfigWrites(hw, config, None, one)) != WriteAll(regs, ConfigWrites(hw, config, None, two))
  {
    hide ConfigWrites, KeyWrites, GroupWrites, Decimal, Iterated;
    var ports := Member(config, "ports");
    var j, k, g :| Has(ports, j) && Has(ports, k) && Decimal(j) == Decimal(k)
      && GroupWrites(hw, Decimal(j), Member(ports, j), g) != GroupWrites(hw, Decimal(k), Member(ports, k), g);
    var v, w := GroupDiffers(hw, Decimal(j), Member(ports, j), Member(ports, k), g);
    FullDue(g);
    DueWritten(hw, ports, None, j, g, v);
    DueWritten(hw, ports, None, k, g, w);
    one := LastWord(hw, regs, config, j);
    two := LastWord(hw, regs, config, k);
    assert Reads(WriteAll(regs, ConfigWrites(hw, config, None, one)), v);
    assert Reads(WriteAll(regs, ConfigWrites(hw, config, None, two)), w);
  }

  /** The delta's run and the full run give the same registers. */
  ghost predicate SameAs(hw: Hardware, regs: Registers, config: Json, delta: Json, some: seq<string>,
                         all: seq<string>)
  {
    WriteAll(regs, ConfigWrites(hw, config, Some(delta), some)) == WriteAll(regs, ConfigWrites(hw, config, None, all))
  }

  /** Incremental programming equals full programming, in every order of the
      ports, exactly when keys that spell the same port agree. */
  lemma IncrementalIff(hw: Hardware, regs: Registers, current: Json, delta: Json)
    requires Mergeable(hw, current, delta) && Reflects(hw, regs, current)
    ensures Agree(hw, Merge(current, delta)) <==>
              forall some, all ::
                IsOrder(some, Iterated(Merge(current, delta), Some(delta)))
                && IsOrder(all, Iterated(Merge(current, delta), None)) ==>
                SameAs(hw, regs, Merge(current, delta), delta, some, all)
  {
    hide ConfigWrites, Agree, Iterated, Merge, Mergeable, Reflects, IsOrder;
    var merged := Merge(current, delta);
    if Agree(hw, merged) {
      forall some, all | IsOrder(some, Iterated(merged, Some(delta))) && IsOrder(all, Iterated(merged, None))
        ensures SameAs(hw, regs, merged, delta, some, all)
      {
        IncrementalIsFull(hw, regs, current, delta, some, all);
      }
    } else {
      var some := SomeOrder(Iterated(merged, Some(delta)));
      var one, two := OrderMatters(hw, regs, merged);
      assert !SameAs(hw, regs, merged, delta, some, one) || !SameAs(hw, regs, merged, delta, some, two);
    }
  }

  // ------------------------------------------------------------- failed writes

  /** One handler write and whether it succeeded. */
  datatype Attempt = Attempt(write: Write, ok: bool)

  function Attempted(log: seq<Attempt>): (ws: seq<Write>)
    ensures |ws| == |log|
  {
    seq(|log|, i requires 0 <= i < |log| => log[i].write)
  }

  /** The registers after the attempts that succeeded. */
  function Landed(regs: Registers, log: seq<Attempt>): Registers
    decreases |log|
  {
    if log == [] then regs
    else Landed(if log[0].ok then regs[log[0].write.reg := log[0].write.cmd] else regs, log[1..])
  }

  /** The registers hold the command of this attempt afterwards anyway. */
  ghost predicate Covered(regs: Registers, log: seq<Attempt>, a: Attempt) {
    a.ok || Reads(regs, a.write) || Attempt(a.write, true) in log
  }

  lemma {:induction false} LandedReads(regs: Registers, log: seq<Attempt>, w: Write)
    requires forall a :: a in log && a.write.reg == w.reg ==> a.write == w
    ensures Reads(Landed(regs, log), w) <==> Reads(regs, w) || Attempt(w, true) in log
    decreases |log|
  {
    if log != [] {
      assert log == [log[0]] + log[1..];
      assert log[0] in log;
      LandedReads(if log[0].ok then regs[log[0].write.reg := log[0].write.cmd] else regs, log[1..], w);
    }
  }

  lemma {:induction false} LandedOther(regs: Registers, log: seq<Attempt>, r: Register)
    requires forall a :: a in log && a.ok ==> a.write.reg != r
    ensures r in Landed(regs, log) <==> r in regs
    ensures r in regs ==> Landed(regs, log)[r] == regs[r]
    decreases |log|
  {
    if log != [] {
      assert log[0] in log;
      LandedOther(if log[0].ok then regs[log[0].write.reg := log[0].write.cmd] else regs, log[1..], r);
    }
  }

  lemma InAttempted(log: seq<Attempt>, w: Write)
    ensures w in Attempted(log) <==> exists a :: a in log && a.write == w
  {
    if w in Attempted(log) {
      var i :| 0 <= i < |log| && Attempted(log)[i] == w;
      assert log[i] in log;
    }
    if a :| a in log && a.write == w {
      var i :| 0 <= i < |log| && log[i] == a;
      assert Attempted(log)[i] == w;
    }
  }

  /** Losing some attempts does no harm exactly when each lost command was in
      its register already, or got there by another attempt. */
  lemma LossIff(regs: Registers, log: seq<Attempt>)
    requires Consistent(Attempted(log))
    ensures Landed(regs, log) == WriteAll(regs, Attempted(log)) <==> forall a :: a in log ==> Covered(regs, log, a)
  {
    hide Landed, WriteAll, Attempted, Consistent;
    var ideal := WriteAll(regs, Attempted(log));
    forall a | a in log
      ensures Reads(ideal, a.write)
      ensures Reads(Landed(regs, log), a.write) <==> Covered(regs, log, a)
    {
      AttemptEffect(regs, log, a);
    }
    if forall a :: a in log ==> Covered(regs, log, a) {
      forall r: Register
        ensures r in Landed(regs, log) <==> r in ideal
        ensures r in ideal ==> Landed(regs, log)[r] == ideal[r]
      {
        if a :| a in log && a.write.reg == r {
          assert Reads(ideal, a.write) && Reads(Landed(regs, log), a.write);
        } else {
          Untouched(regs, log, r);
        }
      }
    }
  }

  lemma AttemptEffect(regs: Registers, log: seq<Attempt>, a: Attempt)
    requires Consistent(Attempted(log)) && a in log
    ensures Reads(WriteAll(regs, Attempted(log)), a.write)
    ensures Reads(Landed(regs, log), a.write) <==> Covered(regs, log, a)
  {
    hide Landed, WriteAll, Attempted;
    InAttempted(log, a.write);
    WriteAllReads(regs, Attempted(log), a.write);
    forall b | b in log && b.write.reg == a.write.reg ensures b.write == a.write {
      InAttempted(log, b.write);
    }
    LandedReads(regs, log, a.write);
    assert a == Attempt(a.write, a.ok);
  }

  lemma Untouched(regs: Registers, log: seq<Attempt>, r: Register)
    requires forall a :: a in log ==> a.write.reg != r
    ensures r in WriteAll(regs, Attempted(log)) <==> r in regs
    ensures r in regs ==> WriteAll(regs, Attempted(log))[r] == regs[r]
    ensures r in Landed(regs, log) <==> r in regs
    ensures r in regs ==> Landed(regs, log)[r] == regs[r]
  {
    hide Landed, WriteAll, Attempted;
    if Touches(Attempted(log), r) {
      var w :| w in Attempted(log) && w.reg == r;
      InAttempted(log, w);
    }
    WriteAllOther(regs, Attempted(log), r);
    LandedOther(regs, log, r);
  }

  /** A delta's run that lost some of its writes equals full programming of the
      merged configuration exactly when every lost write is covered. */
  lemma LossyIncrementalIff(hw: Hardware, regs: Registers, current: Json, delta: Json, log: seq<Attempt>,
                            some: seq<string>, all: seq<string>)
    requires Mergeable(hw, current, delta) && Agree(hw, Merge(current, delta)) && Reflects(hw, regs, current)
    requires IsOrder(some, Iterated(Merge(current, delta), Some(delta)))
    requires IsOrder(all, Iterated(Merge(current, delta), None))
    requires Attempted(log) == ConfigWrites(hw, Merge(current, delta), Some(delta), some)
    ensures Landed(regs, log) == WriteAll(regs, ConfigWrites(hw, Merge(current, delta), None, all))
       <==> forall a :: a in log ==> Covered(regs, log, a)
  {
    hide ConfigWrites, Agree, Iterated, Merge, Mergeable, Reflects, IsOrder, Covered, Landed, WriteAll;
    IncrementalIsFull(hw, regs, current, delta, some, all);
    RunConsistent(hw, Merge(current, delta), Some(delta), some);
    LossIff(regs, log);
  }

  // ------------------------------------------------------------------ rollback

  ghost predicate Programmed(hw: Hardware, config: Json, r: Register) {
    exists w :: Programs(hw, config, w) && w.reg == r
  }

  predicate SameAt(a: Registers, b: Registers, r: Register) {
    (r in a <==> r in b) && (r in a ==> a[r] == b[r])
  }

  /** Replaying the current configuration after a failed run brings back every
      register the configuration programs and leaves the others; the registers
      are all as before exactly when no other register was changed. */
  lemma RollbackRestoresIff(hw: Hardware, before: Registers, failed: Registers, current: Json, order: seq<string>)
    requires Reflects(hw, before, current) && Agree(hw, current) && IsOrder(order, Iterated(current, None))
    ensures Reflects(hw, WriteAll(failed, ConfigWrites(hw, current, None, order)), current)
    ensures WriteAll(failed, ConfigWrites(hw, current, None, order)) == before
       <==> forall r :: !Programmed(hw, current, r) ==> SameAt(failed, before, r)
  {
    hide ConfigWrites, Agree, Iterated, Programs, Programmed, SameAt;
    FullReflects(hw, failed, current, order);
    var after := WriteAll(failed, ConfigWrites(hw, current, None, order));
    forall r: Register
      ensures Programmed(hw, current, r) ==> SameAt(after, before, r)
      ensures !Programmed(hw, current, r) ==> SameAt(after, failed, r)
    {
      ReplayAt(hw, before, failed, current, order, r);
    }
    SameEverywhere(after, before);
    if after != before {
      var r: Register :| !SameAt(after, before, r);
      assert !SameAt(failed, before, r) by {
        SameAtLinks(after, before, failed, r);
      }
    }
    forall r | after == before && !Programmed(hw, current, r) ensures SameAt(failed, before, r) {
      SameAtLinks(after, failed, before, r);
    }
  }

  lemma SameEverywhere(a: Registers, b: Registers)
    ensures a == b <==> forall r: Register :: SameAt(a, b, r)
  {
    if forall r: Register :: SameAt(a, b, r) {
      forall r: Register ensures r in a <==> r in b {
        assert SameAt(a, b, r);
      }
      forall r | r in a ensures a[r] == b[r] {
        assert SameAt(a, b, r);
      }
      assert a == b;
    }
  }

  lemma SameAtLinks(a: Registers, b: Registers, c: Registers, r: Register)
    ensures SameAt(a, c, r) && SameAt(c, b, r) ==> SameAt(a, b, r)
    ensures a == c ==> (SameAt(a, b, r) <==> SameAt(b, c, r))
    ensures SameAt(a, b, r) <==> SameAt(b, a, r)
  {
  }

  lemma ReplayAt(hw: Hardware, before: Registers, failed: Registers, current: Json, order: seq<string>, r: Register)
    requires Reflects(hw, before, current) && IsOrder(order, Iterated(current, None))
    requires Reflects(hw, WriteAll(failed, ConfigWrites(hw, current, None, order)), current)
    ensures var after := WriteAll(failed, ConfigWrites(hw, current, None, order));
            if Programmed(hw, current, r) then SameAt(after, before, r) else SameAt(after, failed, r)
  {
    hide ConfigWrites, Iterated, Programs, IsOrder;
    var ws := ConfigWrites(hw, current, None, order);
    if Programmed(hw, current, r) {
      var w :| Programs(hw, current, w) && w.reg == r;
      assert Reads(before, w) && Reads(WriteAll(failed, ws), w);
    } else {
      if Touches(ws, r) {
        var w :| w in ws && w.reg == r;
        WrittenIsProgrammed(hw, current, None, order, w);
      }
      WriteAllOther(failed, ws, r);
    }
  }

  /** Every port of one configuration is a port of the other. */
  ghost predicate PortsWithin(config: Json, other: Json) {
    forall k :: Has(Member(config, "ports"), k) ==>
      exists j :: Has(Member(other, "ports"), j) && Decimal(j) == Decimal(k)
  }

  /** A configuration with no new port programs no new register. */
  lemma NoNewRegister(hw: Hardware, config: Json, current: Json, w: Write)
    requires Valid(config) && Valid(current) && PortsWithin(config, current) && Programs(hw, config, w)
    ensures Programmed(hw, current, w.reg)
  {
    hide GlobalsWrites, KeyWrites, GroupWrites, Decimal, OwnerOf, ValidPort;
    if w in GlobalsWrites(config, None) {
      GlobalsEverywhere(config, current, w);
    } else {
      var ports, mine := Member(config, "ports"), Member(current, "ports");
      var k :| w in KeyWrites(hw, ports, None, k);
      var g := KeyWritesGroup(hw, ports, k, w);
      var j :| Has(mine, j) && Decimal(j) == Decimal(k);
      var v := SameRegister(hw, Decimal(k), Member(ports, k), Member(mine, j), g, w);
      FullDue(g);
      DueWritten(hw, mine, None, j, g, v);
      assert Programs(hw, current, v);
    }
  }

  lemma SameRegister(hw: Hardware, port: nat, p: Json, q: Json, g: Group, w: Write) returns (v: Write)
    requires w in GroupWrites(hw, port, p, g)
    ensures v in GroupWrites(hw, port, q, g) && v.reg == w.reg
  {
    hide PhyValue, VlanValue, StpValue, Member, AsBool, AsString;
    var a, b := GroupWrites(hw, port, p, g), GroupWrites(hw, port, q, g);
    assert |a| == |b| && forall i :: 0 <= i < |a| ==> a[i].reg == b[i].reg;
    var i :| 0 <= i < |a| && a[i] == w;
    v := b[i];
  }

  lemma GlobalsEverywhere(config: Json, current: Json, w: Write)
    requires Valid(config) && Valid(current) && w in GlobalsWrites(config, None)
    ensures exists v :: v in GlobalsWrites(current, None) && v.reg == w.reg
  {
    hide ValidPort, AsBool, AsInt;
    var a, b := GlobalsWrites(config, None), GlobalsWrites(current, None);
    SectionsAlign(Member(config, "stp"), Member(config, "lacp"), Member(config, "multicast"),
                  Member(current, "stp"), Member(current, "lacp"), Member(current, "multicast"));
    assert |a| == |b| && forall i :: 0 <= i < |a| ==> a[i].reg == b[i].reg;
    var i :| 0 <= i < |a| && a[i] == w;
    assert b[i] in b;
  }

  lemma SectionsAlign(s: Json, l: Json, m: Json, t: Json, k: Json, n: Json)
    ensures var a, b :=
              StpWrites(s) + LacpWrites(l) + MulticastWrites(m), StpWrites(t) + LacpWrites(k) + MulticastWrites(n);
            |a| == |b| && forall i :: 0 <= i < |a| ==> a[i].reg == b[i].reg
  {
    hide Member, AsBool, AsInt;
  }
}
