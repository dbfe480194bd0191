/**
 From the graph to the host list: what setupAutoMgmtNetwork, buildInventory and gatherHosts achieve
 together (topology/topology.go, lines 142-241; runner/libvirt/runner.go, lines 302-435;
 runner/libvirt/customize.go, lines 206-229).
 */
module ManagementNetwork {
  import opened Prelude
  import opened Decimal
  import opened NaturalOrder
  import opened HardwareAddr
  import opened Graph
  import opened AutoManagement
  import opened Topology
  import opened Cabling
  import opened Pairing
  import opened InterfaceOrder
  import opened VirtualBMC
  import opened RunnerState
  import opened InventoryBuilder
  import opened Hosts

  /** The user attaches nothing to the eth0 of a managed device. */
  ghost predicate NoUserEth0(nodes: Nodes, g: seq<Link>) {
    forall l | l in g ::
      && (l.from in Managed(nodes) ==> l.fromPort != ETH0)
      && (l.to in Managed(nodes) ==> l.toPort != ETH0)
  }

  /** All links of a topology with a management network that attaches the devices in the given order. */
  function AllLinks(g: seq<Link>, order: seq<string>): seq<Link> {
    g + (FIXED_LINKS + PortLinks(order))
  }

  /** The slot of the management interface of order[i]: the right end of its link to the switch. */
  function MgmtSlot(g: seq<Link>, i: nat): Slot {
    Slot(|g| + 3 + i, Right)
  }

  lemma {:induction false} AllLinksAt(g: seq<Link>, order: seq<string>, k: nat)
    requires k < |AllLinks(g, order)|
    ensures |AllLinks(g, order)| == |g| + 3 + |order|
    ensures k < |g| ==> AllLinks(g, order)[k] == g[k]
    ensures |g| <= k < |g| + 3 ==> AllLinks(g, order)[k] == FIXED_LINKS[k - |g|]
    ensures |g| + 3 <= k ==> AllLinks(g, order)[k] == PortLinks(order)[k - |g| - 3]
  {
  }

  lemma {:induction false} FixedLinkEnds(k: nat)
    requires k < 3
    ensures IsOOBName(FIXED_LINKS[k].from)
    ensures FIXED_LINKS[k].to == "" || IsOOBName(FIXED_LINKS[k].to)
  {
  }

  /** Of all the slots of a managed device, only the management slot is called eth0. */
  lemma {:induction false} OnlyEth0(nodes: Nodes, tun: Tunnels, g: seq<Link>, order: seq<string>, i: nat, s: Slot)
    requires Distinct(order) && i < |order| && order[i] in Managed(nodes) && NoUserEth0(nodes, g)
    requires order[i] != "" && !IsOOBName(order[i])
    requires s.link < |AllLinks(g, order)| && EndName(AllLinks(g, order)[s.link], s.side) == order[i]
    ensures var l := AllLinks(g, order)[s.link];
      (if s.side == Left then l.fromPort else l.toPort) == ETH0 ==> s == MgmtSlot(g, i)
  {
    var k := s.link;
    AllLinksAt(g, order, k);
    if k < |g| {
      assert g[k] in g;
    } else if k < |g| + 3 {
      FixedLinkEnds(k - |g|);
    } else {
      var j := k - |g| - 3;
      PortLinksAt(order, j);
      assert s.side == Right;
      assert order[j] == order[i];
    }
  }

  lemma {:induction false} MgmtSlotExists(tun: Tunnels, g: seq<Link>, order: seq<string>, i: nat)
    requires i < |order| && order[i] in tun && order[i] != ""
    ensures var s := MgmtSlot(g, i);
      var ls := AllLinks(g, order);
      s.link < |ls| && HasEnd(tun, ls[s.link], s.side) && EndName(ls[s.link], s.side) == order[i]
      && ls[s.link].toPort == ETH0 && NeedsMAC(tun, ls[s.link], s.side)
  {
    AllLinksAt(g, order, |g| + 3 + i);
    PortLinksAt(order, i);
  }

  /** The first interface of a managed device is the one wired to the management switch. */
  lemma {:induction false} FirstIsMgmt(cfg: Config, nodes: Nodes, tun: Tunnels, g: seq<Link>, order: seq<string>,
                                       i: nat, xs: seq<Iface>)
    requires Distinct(order) && i < |order| && order[i] in Managed(nodes) && NoUserEth0(nodes, g)
    requires order[i] in tun && order[i] != "" && !IsOOBName(order[i])
    requires var ls := AllLinks(g, order);
      IsPermutation(xs, Ifaces(cfg, tun, ls, |ls|, order[i])) && Sorted(xs)
    ensures var ls := AllLinks(g, order);
      MgmtSlot(g, i).link < |ls| && xs != [] && xs[0] == Record(cfg, tun, ls, MgmtSlot(g, i))
      && xs[0].name == ETH0
  {
    var ls, n := AllLinks(g, order), order[i];
    var ys := Ifaces(cfg, tun, ls, |ls|, n);
    MgmtSlotExists(tun, g, order, i);
    var j := SlotPosition(cfg, tun, ls, MgmtSlot(g, i));
    PermutationMember(xs, ys, ys[j]);
    Eth0First(xs);
    PermutationMember(xs, ys, xs[0]);
    var k :| 0 <= k < |ys| && ys[k] == xs[0];
    var s := PositionSlot(cfg, tun, ls, n, k);
    OnlyEth0(nodes, tun, g, order, i, s);
  }

  // ----- port names -----------------------------------------------------------------

  /** Letters followed by a number that fits an int: two chunks, and the comparator cannot panic on it. */
  lemma {:induction false} NumberedNameFits(letters: string, number: nat)
    requires letters != "" && forall i | 0 <= i < |letters| :: !IsDigit(letters[i])
    requires number <= MAX_INT
    ensures DigitRunsFit(letters + Itoa(number))
  {
    NumberedChunks(letters, number);
  }

  lemma {:induction false} MgmtPortNames()
    ensures ETH0 == "eth" + Itoa(0) && "eth1" == "eth" + Itoa(1)
    ensures DigitRunsFit("") && DigitRunsFit(ETH0) && DigitRunsFit("eth1")
  {
    assert Chunks("") == [];
    assert ETH0 == "eth" + Itoa(0);
    NumberedNameFits("eth", 0);
    assert "eth1" == "eth" + Itoa(1);
    NumberedNameFits("eth", 1);
  }

  lemma {:induction false} MgmtLinkNamesFit(order: seq<string>, i: nat)
    requires i < |order| && |order| + 2 <= MAX_INT
    ensures DigitRunsFit(PortLinks(order)[i].fromPort) && DigitRunsFit(PortLinks(order)[i].toPort)
  {
    PortLinksAt(order, i);
    assert DigitRunsFit(PortLinks(order)[i].toPort) by {
      MgmtPortNames();
    }
    NumberedNameFits("swp", i + 2);
  }

  lemma {:induction false} FixedLinkNamesFit(k: nat)
    requires k < 3
    ensures DigitRunsFit(FIXED_LINKS[k].fromPort) && DigitRunsFit(FIXED_LINKS[k].toPort)
  {
    FixedPortNames(k);
    FixedNamesFit(FIXED_LINKS[k].fromPort, FIXED_LINKS[k].toPort, k == 2);
  }

  lemma {:induction false} FixedNamesFit(fromPort: string, toPort: string, last: bool)
    requires fromPort == if last then "eth1" else ETH0
    requires toPort == if last then "swp" + Itoa(1) else ""
    ensures DigitRunsFit(fromPort) && DigitRunsFit(toPort)
  {
    MgmtPortNames();
    NumberedNameFits("swp", 1);
  }

  lemma {:induction false} FixedPortNames(k: nat)
    requires k < 3
    ensures FIXED_LINKS[k].fromPort == if k == 2 then "eth1" else ETH0
    ensures FIXED_LINKS[k].toPort == if k == 2 then "swp" + Itoa(1) else ""
  {
  }

  lemma {:induction false} AllPortNamesFit(g: seq<Link>, order: seq<string>)
    requires PortNamesFit(g) && |order| + 2 <= MAX_INT
    ensures PortNamesFit(AllLinks(g, order))
  {
    var ls := AllLinks(g, order);
    forall l | l in ls ensures DigitRunsFit(l.fromPort) && DigitRunsFit(l.toPort) {
      var k :| 0 <= k < |ls| && ls[k] == l;
      AllLinksAt(g, order, k);
      if |g| <= k < |g| + 3 {
        FixedLinkNamesFit(k - |g|);
      } else if |g| <= k {
        MgmtLinkNamesFit(order, k - |g| - 3);
      }
    }
  }

  // ----- which devices have an interface ----------------------------------------------

  ghost predicate Linked(tun: Tunnels, ls: seq<Link>, n: string) {
    exists s: Slot :: s.link < |ls| && HasEnd(tun, ls[s.link], s.side) && EndName(ls[s.link], s.side) == n
  }

  lemma {:induction false} LinkedIffInterfaces(cfg: Config, tun: Tunnels, ls: seq<Link>, n: string, xs: seq<Iface>)
    requires IsPermutation(xs, Ifaces(cfg, tun, ls, |ls|, n))
    ensures xs != [] <==> Linked(tun, ls, n)
  {
    var ys := Ifaces(cfg, tun, ls, |ls|, n);
    if xs != [] {
      PermutationMember(xs, ys, xs[0]);
      var s := PositionSlot(cfg, tun, ls, n, 0);
    }
    if s: Slot :| s.link < |ls| && HasEnd(tun, ls[s.link], s.side) && EndName(ls[s.link], s.side) == n {
      var j := SlotPosition(cfg, tun, ls, s);
      PermutationMember(xs, ys, ys[j]);
    }
  }

  /** Every simulated device other than the two OOB devices has an end of some link. */
  ghost predicate AllLinked(tun: Tunnels, ls: seq<Link>) {
    forall n | n in tun && !IsOOBName(n) :: Linked(tun, ls, n)
  }

  /** For example, a single device without links is not linked, and gatherHosts panics on it. */
  lemma {:induction false} SingleDeviceIsNotLinked()
    ensures !AllLinked(map["a" := 0], [])
  {
    assert !IsOOBName("a") && !Linked(map["a" := 0], [], "a");
  }

  // ----- what the order of attachment does not change ------------------------------------

  lemma {:induction false} MacIndexPrefix(tun: Tunnels, a: seq<Link>, b: seq<Link>, k: nat)
    requires k <= |a| && k <= |b| && a[..k] == b[..k]
    ensures MacIndex(tun, a, k) == MacIndex(tun, b, k)
  {
    if k > 0 {
      assert a[..k - 1] == a[..k][..k - 1] && b[..k - 1] == b[..k][..k - 1];
      assert a[k - 1] == a[..k][k - 1] && b[k - 1] == b[..k][k - 1];
      MacIndexPrefix(tun, a, b, k - 1);
    }
  }

  /** The MAC addresses one more link takes. */
  function LinkMacs(tun: Tunnels, l: Link): nat {
    (if NeedsMAC(tun, l, Left) then 1 else 0) + if NeedsMAC(tun, l, Right) then 1 else 0
  }

  lemma {:induction false} MacIndexAppend(tun: Tunnels, ls: seq<Link>, l: Link)
    ensures MacIndex(tun, ls + [l], |ls| + 1) == MacIndex(tun, ls, |ls|) + LinkMacs(tun, l)
  {
    MacIndexPrefix(tun, ls + [l], ls, |ls|);
  }

  /** The switch, if it is simulated, has an end at every port. */
  function PortMacs(tun: Tunnels): nat {
    if SWITCH in tun then 2 else 1
  }

  /** The MAC addresses of a managed topology: those of the graph, of the fixed links and of the ports for m devices. */
  function ManagedMacs(tun: Tunnels, g: seq<Link>, m: nat): nat {
    MacIndex(tun, g, |g|) + (if SERVER in tun then 2 else 0) + (if SWITCH in tun then 2 else 0) + m * PortMacs(tun)
  }

  lemma {:induction false} FixedMacs(tun: Tunnels, g: seq<Link>)
    requires "" !in tun
    ensures MacIndex(tun, g + FIXED_LINKS, |g| + 3) == ManagedMacs(tun, g, 0)
  {
    MacIndexAppend(tun, g, SERVER_UPLINK);
    MacIndexAppend(tun, g + [SERVER_UPLINK], SWITCH_UPLINK);
    MacIndexAppend(tun, g + [SERVER_UPLINK] + [SWITCH_UPLINK], MGMT_LINK);
    assert g + FIXED_LINKS == g + [SERVER_UPLINK] + [SWITCH_UPLINK] + [MGMT_LINK];
  }

  lemma {:induction false} PortLinkMacs(tun: Tunnels, order: seq<string>, i: nat)
    requires i < |order| && order[i] in tun && order[i] != ""
    ensures LinkMacs(tun, PortLinks(order)[i]) == PortMacs(tun)
  {
    PortLinksAt(order, i);
  }

  lemma {:induction false} AttachedMacs(tun: Tunnels, base: seq<Link>, order: seq<string>)
    requires forall n | n in order :: n in tun && n != ""
    ensures MacIndex(tun, base + PortLinks(order), |base| + |order|) == MacIndex(tun, base, |base|) + |order| * PortMacs(tun)
  {
    if order == [] {
      assert base + PortLinks(order) == base;
    } else {
      var k := |order| - 1;
      var front, l := PortLinks(order[..k]), PortLinks(order)[k];
      assert order[k] in order && forall n | n in order[..k] :: n in order;
      AttachedMacs(tun, base, order[..k]);
      PortLinkMacs(tun, order, k);
      AppendAssociative(base, front, [l]);
      MacIndexAppend(tun, base + front, l);
      OneMore(k, PortMacs(tun));
    }
  }

  lemma {:induction false} OneMore(k: nat, p: nat)
    ensures (k + 1) * p == k * p + p
  {
  }

  lemma {:induction false} MacsOfAllLinks(tun: Tunnels, g: seq<Link>, order: seq<string>)
    requires "" !in tun && forall n | n in order :: n in tun
    ensures var ls := AllLinks(g, order); MacIndex(tun, ls, |ls|) == ManagedMacs(tun, g, |order|)
  {
    FixedMacs(tun, g);
    AttachedMacs(tun, g + FIXED_LINKS, order);
    AppendAssociative(g, FIXED_LINKS, PortLinks(order));
  }

  /** Only the graph can link a device that is neither attached nor an OOB device. */
  lemma {:induction false} LinkedByGraph(tun: Tunnels, g: seq<Link>, order: seq<string>, n: string)
    requires n !in order && !IsOOBName(n) && n != ""
    ensures Linked(tun, AllLinks(g, order), n) <==> Linked(tun, g, n)
  {
    var ls := AllLinks(g, order);
    if s: Slot :| s.link < |ls| && HasEnd(tun, ls[s.link], s.side) && EndName(ls[s.link], s.side) == n {
      AllLinksAt(g, order, s.link);
      if |g| + 3 <= s.link {
        PortLinksAt(order, s.link - |g| - 3);
      }
    }
    if s: Slot :| s.link < |g| && HasEnd(tun, g[s.link], s.side) && EndName(g[s.link], s.side) == n {
      AllLinksAt(g, order, s.link);
      assert ls[s.link] == g[s.link];
    }
  }

  /**
   What a caller can check beforehand: the devices can be set up, there are MAC addresses enough, and
   the graph links every simulated device that is neither managed nor an OOB device.
   */
  ghost predicate Feasible(cfg: Config, nodes: Nodes, g: seq<Link>) {
    var tun := TunnelsOf(cfg, nodes);
    var macs := ManagedMacs(tun, g, |Managed(nodes)|);
    && DevicesOK(cfg, nodes, {}) && (macs == 0 || MacStart(cfg) + macs <= EUI48_LIMIT)
    && forall n | n in tun && !IsOOBName(n) && n !in Managed(nodes) :: Linked(tun, g, n)
  }

  /** In whatever order the managed devices are attached, the inventory can be built exactly if that holds. */
  lemma {:induction false} BuildableIffFeasible(cfg: Config, nodes: Nodes, g: seq<Link>, order: seq<string>)
    requires "" !in Simulated(nodes) && Distinct(order) && Elements(order) == Managed(nodes)
    ensures Buildable(cfg, nodes, AllLinks(g, order)) <==> Feasible(cfg, nodes, g)
  {
    var tun, ls := TunnelsOf(cfg, nodes), AllLinks(g, order);
    forall n | n in order ensures n in tun {
      assert n in Elements(order);
    }
    DistinctSize(order);
    MacsOfAllLinks(tun, g, order);
    forall n | n in tun && !IsOOBName(n) ensures Linked(tun, ls, n) <==> n in Managed(nodes) || Linked(tun, g, n) {
      if n in Managed(nodes) {
        assert n in Elements(order);
        var i :| 0 <= i < |order| && order[i] == n;
        MgmtSlotExists(tun, g, order, i);
      } else {
        assert n !in order;
        LinkedByGraph(tun, g, order, n);
      }
    }
  }

  // ----- the theorem ------------------------------------------------------------------

  /** The entry a managed device must get: its own address, and the MAC of its end of the link to the switch. */
  ghost function MgmtHost(cfg: Config, tun: Tunnels, g: seq<Link>, order: seq<string>, ips: map<string, nat>, i: nat): EtherHost
    requires i < |order| && order[i] in ips
  {
    AllLinksAt(g, order, |g| + 3 + i);
    EtherHost(order[i], ips[order[i]], Record(cfg, tun, AllLinks(g, order), MgmtSlot(g, i)).mac)
  }

  /** One entry for each managed device, and no others. */
  ghost predicate HostListCorrect(cfg: Config, nodes: Nodes, g: seq<Link>, order: seq<string>, ips: map<string, nat>,
                                  hosts: seq<EtherHost>)
    requires Elements(order) == ips.Keys
  {
    && (forall i, j | 0 <= i < j < |hosts| :: hosts[i].name != hosts[j].name)
    && (forall h | h in hosts :: h.name in Managed(nodes))
    && (forall i | 0 <= i < |order| ::
          assert order[i] in Elements(order);
          MgmtHost(cfg, TunnelsOf(cfg, nodes), g, order, ips, i) in hosts)
  }

  /** Every entry of a correct host list carries the address that was assigned to its device. */
  lemma {:induction false} EntryAddress(cfg: Config, nodes: Nodes, g: seq<Link>, order: seq<string>,
                                        ips: map<string, nat>, hosts: seq<EtherHost>, h: EtherHost)
    requires Elements(order) == ips.Keys == Managed(nodes) && HostListCorrect(cfg, nodes, g, order, ips, hosts)
    requires h in hosts
    ensures h.name in ips && h.ip == ips[h.name]
  {
    assert h.name in Elements(order);
    var i :| 0 <= i < |order| && order[i] == h.name;
    var x := MgmtHost(cfg, TunnelsOf(cfg, nodes), g, order, ips, i);
    var j :| 0 <= j < |hosts| && hosts[j] == x;
    var k :| 0 <= k < |hosts| && hosts[k] == h;
    assert hosts[j].name == hosts[k].name;
  }

  /**
   What the host list means for the devices: one entry for each managed device, different addresses
   from the pool, and the requested ones where there are requests.
   */
  ghost predicate OneHostEach(nodes: Nodes, pool: set<nat>, hosts: seq<EtherHost>) {
    && (forall n | n in Managed(nodes) :: exists h | h in hosts :: h.name == n)
    && (forall i, j | 0 <= i < j < |hosts| :: hosts[i].name != hosts[j].name && hosts[i].ip != hosts[j].ip)
    && (forall h | h in hosts ::
          && h.name in Managed(nodes) && h.ip in pool
          && (IsExplicit(nodes[h.name]) ==> nodes[h.name].mgmtIP == Value(h.ip)))
  }

  lemma {:induction false} HostsAreAssigned(cfg: Config, nodes: Nodes, g: seq<Link>, order: seq<string>,
                                            pool: set<nat>, ips: map<string, nat>, hosts: seq<EtherHost>)
    requires Elements(order) == ips.Keys && IsAssignment(nodes, pool, ips)
    requires HostListCorrect(cfg, nodes, g, order, ips, hosts)
    ensures OneHostEach(nodes, pool, hosts)
  {
    forall h | h in hosts ensures h.name in ips && h.ip == ips[h.name] {
      EntryAddress(cfg, nodes, g, order, ips, hosts, h);
    }
    forall n | n in Managed(nodes) ensures exists h | h in hosts :: h.name == n {
      assert n in Elements(order);
      var i :| 0 <= i < |order| && order[i] == n;
      assert MgmtHost(cfg, TunnelsOf(cfg, nodes), g, order, ips, i).name == n;
    }
    forall h | h in hosts && IsExplicit(nodes[h.name]) ensures nodes[h.name].mgmtIP == Value(h.ip) {
      assert h.name in Explicit(nodes);
    }
  }

  /** The names of the two OOB devices belong to devices outside the management network; no node name is empty. */
  ghost predicate OOBNamesReserved(nodes: Nodes) {
    forall n | n in Managed(nodes) :: !IsOOBName(n) && n != ""
  }

  /** Everything known before the hosts are gathered: the inventory, and who has which management address. */
  ghost predicate Staged(cfg: Config, nodes: Nodes, ips: map<string, nat>, inv: Inventory, mgmt: map<string, Option<nat>>,
                         g: seq<Link>, order: seq<string>)
  {
    && IsInventory(cfg, TunnelsOf(cfg, nodes), AllLinks(g, order), inv)
    && (forall n | n in inv :: Sorted(inv[n]))
    && mgmt.Keys == inv.Keys && (forall n | n in mgmt :: mgmt[n] == if n in ips then Some(ips[n]) else None)
    && ips.Keys == Managed(nodes) == Elements(order) && Distinct(order)
    && NoUserEth0(nodes, g) && OOBNamesReserved(nodes)
  }

  lemma {:induction false} ManagedHost(cfg: Config, nodes: Nodes, ips: map<string, nat>, inv: Inventory,
                                       mgmt: map<string, Option<nat>>, g: seq<Link>, order: seq<string>,
                                       hosts: seq<EtherHost>, i: nat)
    requires Staged(cfg, nodes, ips, inv, mgmt, g, order) && Gathered(inv, mgmt, hosts, inv.Keys)
    requires i < |order| && order[i] in ips
    ensures MgmtHost(cfg, TunnelsOf(cfg, nodes), g, order, ips, i) in hosts
  {
    var n, tun := order[i], TunnelsOf(cfg, nodes);
    assert n in Managed(nodes) && n in tun && n in inv;
    assert HostOf(n, inv[n], mgmt[n]) == Some(MgmtHost(cfg, tun, g, order, ips, i)) by {
      FirstIsMgmt(cfg, nodes, tun, g, order, i, inv[n]);
    }
  }

  lemma {:induction false} HostNamesManaged(cfg: Config, nodes: Nodes, ips: map<string, nat>, inv: Inventory,
                                            mgmt: map<string, Option<nat>>, g: seq<Link>, order: seq<string>,
                                            hosts: seq<EtherHost>)
    requires Staged(cfg, nodes, ips, inv, mgmt, g, order) && Gathered(inv, mgmt, hosts, inv.Keys)
    ensures forall h | h in hosts :: h.name in Managed(nodes)
  {
    forall h | h in hosts ensures h.name in Managed(nodes) {
      assert h.name in inv && mgmt[h.name].Some?;
    }
  }

  lemma {:induction false} HostsAreCorrect(cfg: Config, nodes: Nodes, ips: map<string, nat>, inv: Inventory,
                                           mgmt: map<string, Option<nat>>, g: seq<Link>, order: seq<string>,
                                           hosts: seq<EtherHost>)
    requires Staged(cfg, nodes, ips, inv, mgmt, g, order) && Gathered(inv, mgmt, hosts, inv.Keys)
    ensures ips.Keys == Elements(order) && HostListCorrect(cfg, nodes, g, order, ips, hosts)
  {
    HostNamesManaged(cfg, nodes, ips, inv, mgmt, g, order, hosts);
    forall i | 0 <= i < |order|
      ensures order[i] in ips && MgmtHost(cfg, TunnelsOf(cfg, nodes), g, order, ips, i) in hosts
    {
      assert order[i] in Elements(order);
      ManagedHost(cfg, nodes, ips, inv, mgmt, g, order, hosts, i);
    }
  }

  /** All devices that gatherHosts looks at have an interface exactly when all of them are linked. */
  lemma {:induction false} InterfacesIffLinked(cfg: Config, tun: Tunnels, ls: seq<Link>, inv: Inventory)
    requires IsInventory(cfg, tun, ls, inv)
    ensures (forall n | n in inv && !IsOOBName(n) :: inv[n] != []) <==> AllLinked(tun, ls)
  {
    forall n | n in inv ensures inv[n] != [] <==> Linked(tun, ls, n) {
      LinkedIffInterfaces(cfg, tun, ls, n, inv[n]);
    }
  }

  /** The devices can be set up, there are MAC addresses enough, and no device lacks an interface. */
  ghost predicate Buildable(cfg: Config, nodes: Nodes, ls: seq<Link>) {
    var tun := TunnelsOf(cfg, nodes);
    DevicesOK(cfg, nodes, {}) && !MacsExhausted(cfg, tun, ls) && AllLinked(tun, ls)
  }

  /** The digit runs of all ports fit an int, those of the switch with m managed devices included. */
  ghost predicate PortsFit(g: seq<Link>, m: nat) {
    PortNamesFit(g) && m + 2 <= MAX_INT
  }

  /**
   The management network end to end, in the steps of TestDnsmasqHostsFile: a graph without uses of
   eth0 on managed devices either meets one of the conditions for an error, or the host list has
   exactly one entry for every managed device, with its own address and the MAC address of the
   interface wired to the management switch, and all the addresses are distinct. Only if a digit run
   in a port name does not fit an int may it fail otherwise, in the comparator.
   */
  method ManagementHosts(dot: string, nodes: Nodes, g: seq<Link>, cfg: Config, conf: BMCConfig, random: string)
    returns (ok: bool, hosts: seq<EtherHost>, ghost ips: map<string, nat>, ghost order: seq<string>)
    requires forall l | l in g :: l.from in nodes && l.to in nodes
    requires NoUserEth0(WithOOB(nodes), g) && OOBNamesReserved(WithOOB(nodes))
    ensures ok ==> GoodNames(nodes) && CanManage(WithOOB(nodes)) && Feasible(cfg, WithOOB(nodes), g)
    ensures GoodNames(nodes) && CanManage(WithOOB(nodes)) && Feasible(cfg, WithOOB(nodes), g) && !ok ==>
      !PortsFit(g, |Managed(WithOOB(nodes))|)
    ensures ok ==> CanManage(WithOOB(nodes)) && OneHostEach(WithOOB(nodes), Pool(WithOOB(nodes)), hosts)
    ensures ok ==>
      && IsAssignment(WithOOB(nodes), Pool(WithOOB(nodes)), ips)
      && Distinct(order) && Elements(order) == ips.Keys
      && HostListCorrect(cfg, WithOOB(nodes), g, order, ips, hosts)
  {
    var r := NewRunner(cfg, conf, random);
    var t;
    t, ok, ips, order := ParseManaged(dot, nodes, g);
    hosts := [];
    if ok {
      ok, hosts := HostsOf(r, t, cfg, WithOOB(nodes), ips, g, order);
      if ok {
        HostsAreAssigned(cfg, WithOOB(nodes), g, order, Pool(WithOOB(nodes)), ips, hosts);
      }
    }
  }

  lemma {:induction false} NoEmptyName(nodes: Nodes)
    ensures GoodNames(nodes) ==> "" !in Simulated(WithOOB(nodes))
  {
    assert !IsValidHostname("") && SERVER != "" && SWITCH != "";
  }

  /** Parse with the option WithAutoMgmtNetwork. */
  method ParseManaged(dot: string, nodes: Nodes, g: seq<Link>)
    returns (t: T, ok: bool, ghost ips: map<string, nat>, ghost order: seq<string>)
    requires forall l | l in g :: l.from in nodes && l.to in nodes
    ensures fresh(t) && fresh(t.objects) && t.Valid()
    ensures ok <==> GoodNames(nodes) && CanManage(WithOOB(nodes))
    ensures ok ==> "" !in Simulated(WithOOB(nodes))
    ensures ok ==>
      && t.Nodes() == WithOOB(nodes) && t.Links() == AllLinks(g, order) && ips == t.MgmtIPs()
      && IsAssignment(WithOOB(nodes), Pool(WithOOB(nodes)), ips)
      && Distinct(order) && Elements(order) == ips.Keys == Managed(WithOOB(nodes)) && |order| == |ips.Keys|
  {
    t, ok, order := Parse(dot, nodes, g, true);
    NoEmptyName(nodes);
    ips := t.MgmtIPs();
    if ok {
      DistinctSize(order);
    }
  }

  method NewRunner(cfg: Config, conf: BMCConfig, random: string) returns (r: Runner)
    ensures fresh(r) && fresh(r.bmcMan) && r.Valid() && r.bmcMan.Valid()
    ensures r.cfg == cfg && r.devices == map[] && r.objects == {} && r.bmcMan.all == map[]
  {
    var m := new BMCMan(conf, random);
    r := new Runner(cfg, m, Options([], false, false));
  }

  /** buildInventory on a new runner. */
  method StageInventory(r: Runner, t: T, ghost nodes: Nodes, ghost ips: map<string, nat>,
                        ghost g: seq<Link>, ghost order: seq<string>)
    returns (ok: bool, ghost inv: Inventory, ghost mgmt: map<string, Option<nat>>)
    requires r.Valid() && r.bmcMan.Valid() && r.devices == map[] && r.bmcMan.all == map[] && r.objects == {}
    requires t.Valid() && t.Links() == AllLinks(g, order)
    requires nodes == t.Nodes() && ips == t.MgmtIPs()
    requires ips.Keys == Managed(nodes) == Elements(order) && Distinct(order)
    requires NoUserEth0(nodes, g) && OOBNamesReserved(nodes)
    modifies r, r.bmcMan
    ensures r.Valid()
    ensures ok ==> DevicesOK(r.cfg, nodes, {}) && !MacsExhausted(r.cfg, TunnelsOf(r.cfg, nodes), AllLinks(g, order))
    ensures !ok ==>
      || !DevicesOK(r.cfg, nodes, {}) || MacsExhausted(r.cfg, TunnelsOf(r.cfg, nodes), AllLinks(g, order))
      || !PortsFit(g, |order|)
    ensures ok ==>
      inv == Lists(r) && mgmt == Mgmts(r) && Staged(r.cfg, nodes, ips, inv, mgmt, g, order)
  {
    if PortsFit(g, |order|) {
      AllPortNamesFit(g, order);
    }
    ok := BuildOnly(r, t, nodes, ips);
    inv, mgmt := Lists(r), Mgmts(r);
    if ok {
      BuiltIsStaged(r, t, g, order);
    }
  }

  /** buildInventory does not touch the topology. */
  method BuildOnly(r: Runner, t: T, ghost nodes: Nodes, ghost ips: map<string, nat>) returns (ok: bool)
    requires r.Valid() && t.Valid() && r.bmcMan.Valid() && r.devices == map[] && r.bmcMan.all == map[]
    requires nodes == t.Nodes() && ips == t.MgmtIPs()
    modifies r, r.bmcMan, r.objects`interfaces
    ensures r.Valid() && t.Nodes() == nodes && t.MgmtIPs() == ips && t.Links() == old(t.Links())
    ensures ok ==> DevicesOK(r.cfg, nodes, {}) && !MacsExhausted(r.cfg, TunnelsOf(r.cfg, nodes), t.Links())
    ensures !ok ==>
      || !DevicesOK(r.cfg, nodes, {}) || MacsExhausted(r.cfg, TunnelsOf(r.cfg, nodes), t.Links())
      || !PortNamesFit(t.Links())
    ensures ok ==> Built(r, t)
  {
    if PortNamesFit(t.Links()) {
      FittingPortsComparable(r.cfg, TunnelsOf(r.cfg, nodes), t.Links());
    }
    var built := BuildAfresh(r, t);
    return built == Ok;
  }

  lemma {:induction false} BuiltIsStaged(r: Runner, t: T, g: seq<Link>, order: seq<string>)
    requires r.Valid() && t.Valid() && Built(r, t) && t.Links() == AllLinks(g, order)
    requires t.MgmtIPs().Keys == Managed(t.Nodes()) == Elements(order) && Distinct(order)
    requires NoUserEth0(t.Nodes(), g) && OOBNamesReserved(t.Nodes())
    ensures Staged(r.cfg, t.Nodes(), t.MgmtIPs(), Lists(r), Mgmts(r), g, order)
  {
  }

  /** The last two stages: nodes and ips are those of the parsed topology. */
  method HostsOf(r: Runner, t: T, ghost cfg: Config, ghost nodes: Nodes, ghost ips: map<string, nat>,
                 ghost g: seq<Link>, ghost order: seq<string>)
    returns (ok: bool, hosts: seq<EtherHost>)
    requires r.Valid() && r.bmcMan.Valid() && r.devices == map[] && r.bmcMan.all == map[] && r.objects == {}
    requires t.Valid() && t.Links() == AllLinks(g, order)
    requires cfg == r.cfg && nodes == t.Nodes() && ips == t.MgmtIPs()
    requires ips.Keys == Managed(nodes) == Elements(order) && Distinct(order)
    requires NoUserEth0(nodes, g) && OOBNamesReserved(nodes) && "" !in Simulated(nodes)
    modifies r, r.bmcMan
    ensures ok ==> Feasible(cfg, nodes, g)
    ensures Feasible(cfg, nodes, g) && !ok ==> !PortsFit(g, |order|)
    ensures ok ==> HostListCorrect(cfg, nodes, g, order, ips, hosts)
  {
    ghost var inv, mgmt;
    hosts := [];
    BuildableIffFeasible(cfg, nodes, g, order);
    ok, inv, mgmt := StageInventory(r, t, nodes, ips, g, order);
    if ok {
      InterfacesIffLinked(cfg, TunnelsOf(cfg, nodes), AllLinks(g, order), inv);
      ok, hosts := GatherHosts(r, inv, mgmt);
      if ok {
        HostsAreCorrect(cfg, nodes, ips, inv, mgmt, g, order, hosts);
      }
    }
  }
}
