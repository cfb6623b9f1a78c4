/** What a configuration programs: the handler writes of click_port.c and
    click_global.c as entries of a register map, and why writing only what a
    delta mentions gives the same registers as writing everything. */
module ConfigModel {
  import opened Bytes
  import opened Json

  // --------------------------------------------------------------- registers

  datatype Group = Phy | Storm | Vlan | PortStp | Poe

  datatype Register =
    | PortPhy(port: nat) | PortStorm(port: nat) | PortVlan(port: nat) | PortStpCfg(port: nat)
    | PoeMode(port: nat) | PoeEnable(port: nat)
    | GlobalStp | Lacp
    | IgmpSnoop | IgmpDefaultInterval | IgmpQueryInterval
    | MldSnoop | MldDefaultInterval | MldQueryInterval

  datatype VlanList = Listed(text: string) | Only(vid: int)

  /** The value a handler is given. */
  datatype Command =
    | PhyCommand(flowControl: bool, eee: bool, mode: string)
    | SwitchCommand(enabled: bool)
    | VlanCommand(allowed: VlanList, tagged: bool, ingressFilter: bool, pvid: int, untaggedVid: int)
    | PortStpCommand(enabled: bool, autoEdge: bool, edge: bool, priority: int, cost: int)
    | PoeModeCommand(af: bool)
    | GlobalStpCommand(priority: int, helloTime: int, forwardDelay: int, maxAge: int, holdCount: int)
    | NumberCommand(value: int)

  type Registers = map<Register, Command>

  datatype Write = Write(reg: Register, cmd: Command)

  /** What the board offers. */
  datatype Hardware = Hardware(poePorts: set<nat>, poeAvailable: bool, macKnown: bool)

  // ----------------------------------------------------------------- reading

  predicate Has(j: Json, key: string) { j.Obj? && key in j.members }

  /** json_object_object_get: a missing member reads as null. */
  function Member(j: Json, key: string): Json {
    if Has(j, key) then j.members[key] else Null
  }

  function AsBool(j: Json): bool { j.Bool? && j.b }

  function AsInt(j: Json): int { if j.Int? then j.i else 0 }

  function AsString(j: Json): string { if j.Str? then j.s else "" }

  /** strtoul on a key made of digits. */
  function Decimal(key: string): nat {
    if key == "" || !('0' <= key[|key| - 1] <= '9') then 0
    else 10 * Decimal(key[..|key| - 1]) + (key[|key| - 1] as int - '0' as int)
  }

  /** speed_json_to_click. */
  function ClickMode(speed: string): string {
    if speed == "10half" then "10hdx"
    else if speed == "10full" then "10fdx"
    else if speed == "100half" then "100hdx"
    else if speed == "100full" then "100fdx"
    else if speed == "1000full" then "1000fdx"
    else "aneg"
  }

  // ----------------------------------------------------------------- commands

  /** The members of a port that a group's commands are made from. */
  function Keys(g: Group): set<string> {
    match g
    case Phy => {"enabled", "speed", "flow_control", "eee"}
    case Storm => {"storm_control"}
    case Vlan => {"vlan"}
    case PortStp => {"stp"}
    case Poe => {"poe"}
  }

  function PhyValue(p: Json): Command {
    PhyCommand(AsBool(Member(p, "flow_control")), AsBool(Member(p, "eee")),
               if AsBool(Member(p, "enabled")) then ClickMode(AsString(Member(p, "speed"))) else "off")
  }

  function VlanValue(vlan: Json): Command {
    var tagged := AsString(Member(vlan, "mode")) != "access";
    var pvid := AsInt(Member(vlan, "pvid"));
    VlanCommand(if tagged then Listed(AsString(Member(vlan, "allowed"))) else Only(pvid), tagged,
                AsBool(Member(vlan, "ingress_filter")), pvid,
                if tagged then AsInt(Member(vlan, "untagged_vid")) else pvid)
  }

  function StpValue(stp: Json): Command {
    PortStpCommand(AsBool(Member(stp, "enabled")), AsBool(Member(stp, "auto_edge")), AsBool(Member(stp, "edge")),
                   AsInt(Member(stp, "priority")), AsInt(Member(stp, "cost")))
  }

  /** The writes of one group of a port, in order. */
  function GroupWrites(hw: Hardware, port: nat, p: Json, g: Group): seq<Write> {
    match g
    case Phy => [Write(PortPhy(port), PhyValue(p))]
    case Storm => [Write(PortStorm(port), SwitchCommand(AsBool(Member(p, "storm_control"))))]
    case Vlan => [Write(PortVlan(port), VlanValue(Member(p, "vlan")))]
    case PortStp => [Write(PortStpCfg(port), StpValue(Member(p, "stp")))]
    case Poe =>
      if port !in hw.poePorts then [] else
      var poe := Member(p, "poe");
      [Write(PoeMode(port), PoeModeCommand(AsString(Member(poe, "mode")) == "af")),
       Write(PoeEnable(port), SwitchCommand(AsBool(Member(poe, "enabled"))))]
  }

  const GROUPS: seq<Group> := [Phy, Storm, Vlan, PortStp, Poe]

  /** A group is due in a full run, or when the delta mentions one of its keys. */
  predicate Due(changed: Option<Json>, g: Group) {
    changed.None? || exists k :: k in Keys(g) && Has(changed.value, k)
  }

  function WritesOf(hw: Hardware, port: nat, p: Json, changed: Option<Json>, groups: seq<Group>): seq<Write>
    decreases |groups|
  {
    if groups == [] then []
    else (if Due(changed, groups[0]) then GroupWrites(hw, port, p, groups[0]) else [])
         + WritesOf(hw, port, p, changed, groups[1..])
  }

  /** apply_port_fields. */
  function PortWrites(hw: Hardware, port: nat, p: Json, changed: Option<Json>): seq<Write> {
    WritesOf(hw, port, p, changed, GROUPS)
  }

  /** What the delta says about one key of the ports section. */
  function Changed(delta: Option<Json>, key: string): Option<Json> {
    if delta.None? then None else Some(Member(delta.value, key))
  }

  /** One turn of the loop of apply_ports. */
  function KeyWrites(hw: Hardware, ports: Json, delta: Option<Json>, key: string): seq<Write> {
    if Has(ports, key) then PortWrites(hw, Decimal(key), Member(ports, key), Changed(delta, key)) else []
  }

  /** apply_ports over the ports named in `order`. */
  function PortsWrites(hw: Hardware, ports: Json, delta: Option<Json>, order: seq<string>): seq<Write>
    decreases |order|
  {
    if order == [] then [] else KeyWrites(hw, ports, delta, order[0]) + PortsWrites(hw, ports, delta, order[1..])
  }

  function StpWrites(stp: Json): seq<Write> {
    [Write(GlobalStp, GlobalStpCommand(AsInt(Member(stp, "priority")), AsInt(Member(stp, "hello_time")),
                                       AsInt(Member(stp, "forward_delay")), AsInt(Member(stp, "max_age")),
                                       AsInt(Member(stp, "hold_count"))))]
  }

  function LacpWrites(lacp: Json): seq<Write> {
    [Write(Lacp, SwitchCommand(AsBool(Member(lacp, "enabled"))))]
  }

  function MulticastWrites(m: Json): seq<Write> {
    var igmp, mld := AsInt(Member(m, "igmp_querier_interval")), AsInt(Member(m, "mld_querier_interval"));
    [Write(IgmpSnoop, SwitchCommand(AsBool(Member(m, "igmp_snooping")))),
     Write(IgmpDefaultInterval, NumberCommand(igmp * 1000)),
     Write(IgmpQueryInterval, NumberCommand(igmp)),
     Write(MldSnoop, SwitchCommand(AsBool(Member(m, "mld_snooping")))),
     Write(MldDefaultInterval, NumberCommand(mld * 1000)),
     Write(MldQueryInterval, NumberCommand(mld))]
  }

  predicate Mentioned(delta: Option<Json>, key: string) {
    delta.None? || Has(delta.value, key)
  }

  /** apply_globals. */
  function GlobalsWrites(config: Json, delta: Option<Json>): seq<Write> {
    (if Mentioned(delta, "stp") && Has(config, "stp") then StpWrites(Member(config, "stp")) else [])
    + (if Mentioned(delta, "lacp") && Has(config, "lacp") then LacpWrites(Member(config, "lacp")) else [])
    + (if Mentioned(delta, "multicast") && Has(config, "multicast") then MulticastWrites(Member(config, "multicast"))
       else [])
  }

  /** The ports section of the delta, if one is being applied. */
  function DeltaPorts(delta: Option<Json>): Option<Json> {
    match delta
    case None => None
    case Some(d) => Some(Member(d, "ports"))
  }

  /** Globals and then ports, as config_apply_full and config_apply_delta
      write them. */
  function ConfigWrites(hw: Hardware, config: Json, delta: Option<Json>, order: seq<string>): seq<Write> {
    GlobalsWrites(config, delta)
    + (if Mentioned(delta, "ports") then PortsWrites(hw, Member(config, "ports"), DeltaPorts(delta), order) else [])
  }

  /** The keys the port loop runs over, in whatever order the object keeps them. */
  function Iterated(config: Json, delta: Option<Json>): set<string> {
    var ports := if delta.None? then Member(config, "ports") else Member(delta.value, "ports");
    if ports.Obj? then ports.members.Keys else {}
  }

  ghost predicate IsOrder(order: seq<string>, keys: set<string>) {
    && (forall k :: k in order <==> k in keys)
    && (forall i, j :: 0 <= i < j < |order| ==> order[i] != order[j])
  }

  // -------------------------------------------------------------- validation

  /** The part of validate_configuration the programming relies on: the three
      global sections and every port with all its required sections. */
  predicate Valid(config: Json) {
    && config.Obj?
    && Member(config, "ports").Obj?
    && Member(config, "stp").Obj? && Member(config, "lacp").Obj? && Member(config, "multicast").Obj?
    && forall k :: k in Member(config, "ports").members ==> ValidPort(Member(config, "ports").members[k])
  }

  predicate ValidPort(p: Json) {
    && p.Obj?
    && Has(p, "enabled") && Has(p, "speed") && Has(p, "flow_control") && Has(p, "eee") && Has(p, "storm_control")
    && Member(p, "vlan").Obj? && Member(p, "stp").Obj?
    && (Has(p, "poe") ==> Member(p, "poe").Obj?)
  }

  /** Every port the board powers has its poe section; reading a missing one
      would dereference a null pointer. */
  predicate Powered(hw: Hardware, config: Json) {
    var ports := Member(config, "ports");
    ports.Obj? ==> forall k :: k in ports.members && Decimal(k) in hw.poePorts ==> Has(ports.members[k], "poe")
  }
}
