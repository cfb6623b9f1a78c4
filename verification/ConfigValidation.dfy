/** validate_configuration of buildroot/packages/configd/validation.c. */
module ConfigValidation {
  import opened Json
  import opened ConfigModel

  /** What validation asks of code outside this model: the IPv4 parser, the VLAN
      list parser and the validators of two optional sections. */
  datatype Board = Board(portCount: nat, poePorts: set<nat>, cidrOk: string -> bool, gatewayOk: Json -> bool,
                         vlanListOk: string -> bool, sshOk: Json -> bool, telemetryOk: Json -> bool)

  /** reject_unknown. */
  predicate OnlyKeys(j: Json, allowed: set<string>) {
    j.Obj? && j.members.Keys <= allowed
  }

  predicate BoolAt(j: Json, key: string) { Has(j, key) && Member(j, key).Bool? }

  predicate IntAt(j: Json, key: string, low: int, high: int) {
    Has(j, key) && Member(j, key).Int? && low <= Member(j, key).i <= high
  }

  predicate Printable(s: string) {
    forall k :: 0 <= k < |s| ==> s[k] >= ' ' && s[k] != 127 as char
  }

  predicate StringAt(j: Json, key: string, longest: nat) {
    Has(j, key) && Member(j, key).Str? && |Member(j, key).s| <= longest && Printable(Member(j, key).s)
  }

  predicate TextAt(j: Json, key: string, choices: set<string>) {
    Has(j, key) && Member(j, key).Str? && Member(j, key).s in choices
  }

  predicate VlanOk(b: Board, vlan: Json) {
    && OnlyKeys(vlan, {"mode", "pvid", "allowed", "untagged_vid", "ingress_filter"})
    && TextAt(vlan, "mode", {"access", "trunk", "hybrid"})
    && IntAt(vlan, "pvid", 1, 4094) && IntAt(vlan, "untagged_vid", 0, 4094)
    && BoolAt(vlan, "ingress_filter") && StringAt(vlan, "allowed", 511)
    && var allowed := AsString(Member(vlan, "allowed"));
       if allowed == "" then AsString(Member(vlan, "mode")) == "access" else b.vlanListOk(allowed)
  }

  predicate PortStpOk(stp: Json) {
    && OnlyKeys(stp, {"enabled", "priority", "cost", "edge", "auto_edge"})
    && BoolAt(stp, "enabled") && IntAt(stp, "priority", 0, 255) && IntAt(stp, "cost", 0, 200000000)
    && BoolAt(stp, "edge") && BoolAt(stp, "auto_edge")
  }

  predicate PoeOk(b: Board, port: nat, poe: Json) {
    && port in b.poePorts
    && OnlyKeys(poe, {"enabled", "mode", "policy", "observation_seconds"})
    && BoolAt(poe, "enabled") && TextAt(poe, "mode", {"af", "at"})
    && (Has(poe, "policy") ==> TextAt(poe, "policy", {"normal", "boot-prune"}))
    && (Has(poe, "observation_seconds") ==> IntAt(poe, "observation_seconds", 30, 3600))
  }

  /** Port keys are the spellings of a port number in decimal digits. */
  predicate KeyOk(b: Board, key: string) {
    && key != "" && (forall k :: 0 <= k < |key| ==> '0' <= key[k] <= '9')
    && 0 < Decimal(key) <= 128 && (b.portCount > 0 ==> Decimal(key) <= b.portCount)
  }

  predicate PortOk(b: Board, number: nat, port: Json) {
    && OnlyKeys(port, {"enabled", "name", "speed", "flow_control", "eee", "storm_control", "vlan", "stp", "poe"})
    && BoolAt(port, "enabled") && (Has(port, "name") ==> StringAt(port, "name", 64))
    && TextAt(port, "speed", {"auto", "10half", "10full", "100half", "100full", "1000full"})
    && BoolAt(port, "flow_control") && BoolAt(port, "eee") && BoolAt(port, "storm_control")
    && VlanOk(b, Member(port, "vlan")) && PortStpOk(Member(port, "stp"))
    && (Has(port, "poe") ==> PoeOk(b, number, Member(port, "poe")))
  }

  predicate PortsOk(b: Board, ports: Json) {
    ports.Obj? && forall key :: key in ports.members ==> KeyOk(b, key) && PortOk(b, Decimal(key), ports.members[key])
  }

  predicate GlobalStpOk(stp: Json) {
    && OnlyKeys(stp, {"priority", "hello_time", "forward_delay", "max_age", "hold_count"})
    && IntAt(stp, "priority", 0, 61440) && IntAt(stp, "hello_time", 1, 10) && IntAt(stp, "forward_delay", 4, 30)
    && IntAt(stp, "max_age", 6, 40) && IntAt(stp, "hold_count", 1, 10)
  }

  predicate LacpOk(lacp: Json) {
    OnlyKeys(lacp, {"enabled"}) && BoolAt(lacp, "enabled")
  }

  predicate MulticastOk(m: Json) {
    && OnlyKeys(m, {"igmp_snooping", "igmp_querier_interval", "mld_snooping", "mld_querier_interval"})
    && BoolAt(m, "igmp_snooping") && IntAt(m, "igmp_querier_interval", 1, 3600)
    && BoolAt(m, "mld_snooping") && IntAt(m, "mld_querier_interval", 1, 3600)
  }

  predicate Ipv4Ok(b: Board, ipv4: Json) {
    && ipv4.Obj? && TextAt(ipv4, "mode", {"dhcp", "static"}) && IntAt(ipv4, "mtu", 576, 9216)
    && if AsString(Member(ipv4, "mode")) == "static"
       then && OnlyKeys(ipv4, {"mode", "address", "gateway", "mtu"})
            && Member(ipv4, "address").Str? && b.cidrOk(Member(ipv4, "address").s)
            && (Has(ipv4, "gateway") ==> b.gatewayOk(ipv4))
       else && OnlyKeys(ipv4, {"mode", "fallback_address", "mtu"})
            && Member(ipv4, "fallback_address").Str? && b.cidrOk(Member(ipv4, "fallback_address").s)
  }

  predicate NetworkOk(b: Board, network: Json) {
    OnlyKeys(network, {"ipv4"}) && Ipv4Ok(b, Member(network, "ipv4"))
  }

  /** validate_configuration. */
  predicate Validates(b: Board, config: Json) {
    && OnlyKeys(config, {"network", "ports", "stp", "lacp", "multicast", "ssh", "telemetry"})
    && NetworkOk(b, Member(config, "network")) && PortsOk(b, Member(config, "ports"))
    && GlobalStpOk(Member(config, "stp")) && LacpOk(Member(config, "lacp")) && MulticastOk(Member(config, "multicast"))
    && (Has(config, "ssh") ==> b.sshOk(Member(config, "ssh")))
    && (Has(config, "telemetry") ==> b.telemetryOk(Member(config, "telemetry")))
  }

  lemma PortOkValid(b: Board, number: nat, port: Json)
    requires PortOk(b, number, port)
    ensures ValidPort(port)
  {
  }

  /** A configuration that validates has the structure the programming relies
      on. */
  lemma ValidatesStructure(b: Board, config: Json)
    requires Validates(b, config)
    ensures Valid(config)
  {
    hide PortOk, ValidPort, Ipv4Ok, KeyOk;
    var ports := Member(config, "ports");
    forall key | key in ports.members ensures ValidPort(ports.members[key]) {
      PortOkValid(b, Decimal(key), ports.members[key]);
    }
  }
}
