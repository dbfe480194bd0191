/**
 What the management network is wired like once the inventory is built, in terms of node attributes
 and port names (topology/topology.go, lines 142-225; runner/libvirt/runner.go, lines 364-433).
 */
module MgmtWiring {
  import opened Prelude
  import opened Decimal
  import opened IPAllocation
  import opened Graph
  import opened AutoManagement
  import opened Topology
  import opened Cabling
  import opened Pairing
  import opened RunnerState
  import opened Cables
  import opened ManagementNetwork

  /** Port a of device n is on a network of the host. */
  ghost predicate OnNetwork(inv: Inventory, n: string, a: string, network: string) {
    n in inv && exists x | x in inv[n] :: x.name == a && x.network == network && x.remoteTunnelIP == None
  }

  lemma {:induction false} PlainLinkJoins(cfg: Config, nodes: Nodes, ls: seq<Link>, inv: Inventory, k: nat)
    requires IsClean(cfg, nodes, ls, inv) && k < |ls| && !ls[k].libvirtNetwork && ls[k].to != ""
    requires ls[k].from in Simulated(nodes) && ls[k].to in Simulated(nodes)
    ensures Joined(cfg, nodes, inv, ls[k].from, ls[k].fromPort, ls[k].to, ls[k].toPort)
  {
    CableIsWired(cfg, nodes, ls, inv, k);
  }

  lemma {:induction false} UplinkIsOnDefault(cfg: Config, nodes: Nodes, ls: seq<Link>, inv: Inventory, k: nat, n: string)
    requires IsInventory(cfg, TunnelsOf(cfg, nodes), ls, inv) && k < |ls|
    requires ls[k] == PlainLink(n, "eth0", "", "") && n in Simulated(nodes) && n in {"oob-mgmt-server", "oob-mgmt-switch"}
    ensures OnNetwork(inv, n, "eth0", "default")
  {
    NetworkInterface(cfg, nodes, ls, inv, k);
  }

  /** The device joins the management network: it has one of the other roles, and no no_mgmt. */
  predicate Joins(a: Attributes) {
    a.role in {Exit, SuperSpine, Spine, Leaf, TOR, Host, NoFunction} && !a.noMgmt
  }

  lemma {:induction false} ManagedJoin(nodes: Nodes, n: string)
    ensures n in Managed(nodes) <==> n in nodes && Joins(nodes[n])
  {
  }

  /** The port of the switch with this number is joined to eth0 of the device. */
  ghost predicate HasPort(cfg: Config, nodes: Nodes, inv: Inventory, switch: string, n: string, number: nat) {
    Joined(cfg, nodes, inv, switch, "swp" + Itoa(number), n, "eth0")
  }

  lemma {:induction false} PortLinkOf(g: seq<Link>, order: seq<string>, i: nat)
    requires i < |order|
    ensures |g| + 3 + i < |AllLinks(g, order)|
    ensures AllLinks(g, order)[|g| + 3 + i] == PlainLink(SWITCH, "swp" + Itoa(i + 2), order[i], "eth0")
  {
    AllLinksAt(g, order, |g| + 3 + i);
    PortLinksAt(order, i);
  }

  lemma {:induction false} AttachedHasPort(cfg: Config, nodes: Nodes, ls: seq<Link>, inv: Inventory, k: nat,
                                           switch: string, n: string, number: nat)
    requires IsClean(cfg, nodes, ls, inv) && k < |ls| && ls[k] == PlainLink(switch, "swp" + Itoa(number), n, "eth0")
    requires switch in Simulated(nodes) && n in Simulated(nodes) && n != ""
    ensures HasPort(cfg, nodes, inv, switch, n, number)
  {
    PlainLinkJoins(cfg, nodes, ls, inv, k);
  }

  /** The server is joined to the first port of the switch with its eth1, and both have their eth0 on network "default". */
  lemma {:induction false} OOBDevicesAreWired(cfg: Config, nodes: Nodes, g: seq<Link>, order: seq<string>, inv: Inventory)
    requires IsClean(cfg, nodes, AllLinks(g, order), inv)
    requires "oob-mgmt-server" in Simulated(nodes) && "oob-mgmt-switch" in Simulated(nodes)
    ensures Joined(cfg, nodes, inv, "oob-mgmt-server", "eth1", "oob-mgmt-switch", "swp1")
    ensures OnNetwork(inv, "oob-mgmt-server", "eth0", "default") && OnNetwork(inv, "oob-mgmt-switch", "eth0", "default")
  {
    AllLinksAt(g, order, |g|);
    AllLinksAt(g, order, |g| + 1);
    AllLinksAt(g, order, |g| + 2);
    UplinkIsOnDefault(cfg, nodes, AllLinks(g, order), inv, |g|, "oob-mgmt-server");
    UplinkIsOnDefault(cfg, nodes, AllLinks(g, order), inv, |g| + 1, "oob-mgmt-switch");
    PlainLinkJoins(cfg, nodes, AllLinks(g, order), inv, |g| + 2);
  }

  /** The device joins, and it has a port among swp2 to swp(k+1). */
  ghost predicate IsServed(cfg: Config, nodes: Nodes, inv: Inventory, switch: string, n: string, k: nat) {
    n in nodes && Joins(nodes[n]) && exists q: nat | 2 <= q <= k + 1 :: HasPort(cfg, nodes, inv, switch, n, q)
  }

  /** The port has one of the devices that join. */
  ghost predicate IsUsed(cfg: Config, nodes: Nodes, inv: Inventory, switch: string, q: nat) {
    exists n | n in nodes && Joins(nodes[n]) :: HasPort(cfg, nodes, inv, switch, n, q)
  }

  lemma {:induction false} AttachedIsServed(cfg: Config, nodes: Nodes, g: seq<Link>, order: seq<string>, inv: Inventory,
                                            switch: string, i: nat)
    requires IsClean(cfg, nodes, AllLinks(g, order), inv) && i < |order| && switch == SWITCH
    requires switch in Simulated(nodes) && order[i] in Managed(nodes) && order[i] != ""
    ensures IsServed(cfg, nodes, inv, switch, order[i], |order|) && IsUsed(cfg, nodes, inv, switch, i + 2)
  {
    ManagedJoin(nodes, order[i]);
    PortLinkOf(g, order, i);
    AttachedHasPort(cfg, nodes, AllLinks(g, order), inv, |g| + 3 + i, switch, order[i], i + 2);
  }

  /** The devices that join. */
  ghost function Joining(nodes: Nodes): set<string> {
    set n | n in nodes && Joins(nodes[n])
  }

  lemma {:induction false} JoiningAreManaged(nodes: Nodes)
    ensures Joining(nodes) == Managed(nodes)
  {
    forall n ensures n in Managed(nodes) <==> n in Joining(nodes) {
      ManagedJoin(nodes, n);
    }
  }

  /** Each device that joins has a port of the switch, and the k devices have exactly the ports swp2 to swp(k+1). */
  lemma {:induction false} JoiningDevicesAreWired(cfg: Config, nodes: Nodes, g: seq<Link>, order: seq<string>,
                                                  inv: Inventory, switch: string, k: nat)
    requires IsClean(cfg, nodes, AllLinks(g, order), inv) && "" !in nodes
    requires Distinct(order) && Elements(order) == Managed(nodes)
    requires switch == "oob-mgmt-switch" && switch in Simulated(nodes) && k == |Joining(nodes)|
    ensures forall n | n in Joining(nodes) :: IsServed(cfg, nodes, inv, switch, n, k)
    ensures forall q | 2 <= q <= k + 1 :: IsUsed(cfg, nodes, inv, switch, q)
  {
    JoiningAreManaged(nodes);
    DistinctSize(order);
    EachIsServed(cfg, nodes, g, order, inv, switch);
    AllServed(cfg, nodes, inv, switch, order);
  }

  lemma {:induction false} EachIsServed(cfg: Config, nodes: Nodes, g: seq<Link>, order: seq<string>, inv: Inventory,
                                        switch: string)
    requires IsClean(cfg, nodes, AllLinks(g, order), inv) && "" !in nodes && Elements(order) == Managed(nodes)
    requires switch == SWITCH && switch in Simulated(nodes)
    ensures forall i: nat | i < |order| ::
      IsServed(cfg, nodes, inv, switch, order[i], |order|) && IsUsed(cfg, nodes, inv, switch, i + 2)
  {
    forall i: nat | i < |order|
      ensures IsServed(cfg, nodes, inv, switch, order[i], |order|) && IsUsed(cfg, nodes, inv, switch, i + 2)
    {
      assert order[i] in Elements(order);
      AttachedIsServed(cfg, nodes, g, order, inv, switch, i);
    }
  }

  lemma {:induction false} AllServed(cfg: Config, nodes: Nodes, inv: Inventory, switch: string, order: seq<string>)
    requires forall i: nat | i < |order| ::
      IsServed(cfg, nodes, inv, switch, order[i], |order|) && IsUsed(cfg, nodes, inv, switch, i + 2)
    ensures forall n | n in Elements(order) :: IsServed(cfg, nodes, inv, switch, n, |order|)
    ensures forall q | 2 <= q <= |order| + 1 :: IsUsed(cfg, nodes, inv, switch, q)
  {
    forall q | 2 <= q <= |order| + 1 ensures IsUsed(cfg, nodes, inv, switch, q) {
      assert IsServed(cfg, nodes, inv, switch, order[q - 2], |order|);
    }
  }

  // ----- addresses ------------------------------------------------------------------------

  /**
   Every device that joins, and nobody else, has an address, all different. It lies strictly between
   the network and the broadcast address of the server's prefix and is not that of the server.
   */
  lemma {:induction false} AddressesAreUsable(nodes: Nodes, ips: map<string, nat>, prefix: Prefix)
    requires CanManage(nodes) && IsAssignment(nodes, Pool(nodes), ips) && nodes[SERVER].mgmtPrefix == Some(prefix)
    ensures ips.Keys == Joining(nodes)
    ensures forall n | n in ips :: prefix.First() < ips[n] < prefix.Last() && ips[n] != prefix.ip
    ensures forall m, n | m in ips && n in ips && m != n :: ips[m] != ips[n]
    ensures forall n | n in ips && !nodes[n].mgmtIP.Missing? :: nodes[n].mgmtIP == Value(ips[n])
  {
    JoiningAreManaged(nodes);
    forall n | n in ips ensures prefix.First() < ips[n] < prefix.Last() && ips[n] != prefix.ip {
      assert ips[n] in Pool(nodes);
    }
    forall n | n in ips && !nodes[n].mgmtIP.Missing? ensures nodes[n].mgmtIP == Value(ips[n]) {
      assert n in Explicit(nodes);
    }
  }

  lemma {:induction false} LastByte(x: nat)
    ensures Pow2(8) == 256 && LowBits(x, 8) == x % 256
  {
    assert Pow2(2) == 4 && Pow2(4) == 16 && Pow2(6) == 64;
    var q := LowBitsRemainder(x, 8);
    assert x == q * 256 + LowBits(x, 8);
  }

  lemma {:induction false} LastByteCleared(p: Prefix)
    requires p.ip < IPV6_ORIGIN && p.bits == 24
    ensures p.First() == p.ip - p.ip % 256 && p.Last() == p.First() + 255
  {
    LastByte(p.ip);
  }

  lemma {:induction false} WithoutLast(lo: nat, a: nat)
    requires lo < a
    ensures Interval(lo, a + 1) - {a} == Interval(lo, a)
  {
  }

  lemma {:induction false} DefaultServer(nodes: Nodes)
    requires SERVER !in nodes
    ensures SERVER in WithOOB(nodes) && WithOOB(nodes)[SERVER].mgmtPrefix == Some(Prefix(0xC0A8_C8FE, 24))
  {
  }

  /** The devices that are added are an OOB server and an OOB switch, with an image each and without extras. */
  lemma {:induction false} AddedDevices(nodes: Nodes)
    ensures "oob-mgmt-server" !in nodes ==>
      "oob-mgmt-server" in WithOOB(nodes) && IsPlainDevice(WithOOB(nodes)["oob-mgmt-server"], OOBServer)
    ensures "oob-mgmt-switch" !in nodes ==>
      "oob-mgmt-switch" in WithOOB(nodes) && IsPlainDevice(WithOOB(nodes)["oob-mgmt-switch"], OOBSwitch)
  {
    assert |FEDORA_IMAGE| > 0 && |CUMULUS_IMAGE| > 0;
  }

  predicate IsPlainDevice(a: Attributes, role: DeviceFunction) {
    a.role == role && !a.noMgmt && a.tunnelIP.Missing? && a.config.Missing? && !a.bmc && a.osImage != ""
  }

  /** With the last address but one of 256 for the server, the pool is all in front of it but the first. */
  lemma {:induction false} PoolOf(nodes: Nodes, p: Prefix)
    requires SERVER in nodes && nodes[SERVER].mgmtPrefix == Some(p)
    requires p.ip < IPV6_ORIGIN && p.bits == 24 && p.ip % 256 == 254
    ensures Pool(nodes) == Interval(p.ip - 253, p.ip)
  {
    LastByteCleared(p);
    WithoutLast(p.ip - 253, p.ip);
  }

  /** Without a server in the graph, the addresses are 192.168.200.1 to 192.168.200.253. */
  lemma {:induction false} DefaultPool(nodes: Nodes)
    requires SERVER !in nodes
    ensures SERVER in WithOOB(nodes) && WithOOB(nodes)[SERVER].mgmtPrefix.Some?
    ensures Pool(WithOOB(nodes)) == Interval(0xC0A8_C801, 0xC0A8_C8FE)
  {
    DefaultServer(nodes);
    PoolOf(WithOOB(nodes), Prefix(0xC0A8_C8FE, 24));
  }
}
