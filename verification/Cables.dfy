/**
 What the interfaces of an inventory do for the links they were made for, on the attributes of links
 and nodes alone (runner/libvirt/runner.go, lines 325-332 and 364-423).
 */
module Cables {
  import opened Prelude
  import opened HardwareAddr
  import opened Graph
  import opened AutoManagement
  import opened Cabling
  import opened Pairing
  import opened RunnerState

  /** The link names a network of the host: an uplink of an OOB device, or one with libvirt_type "network". */
  predicate LeadsOutside(l: Link) {
    l.libvirtNetwork || ((l.from == "oob-mgmt-server" || l.from == "oob-mgmt-switch") && l.to == "")
  }

  /** The link is a cable: it does not lead outside from a simulated device. */
  ghost predicate IsCable(nodes: Nodes, l: Link) {
    l.from in Simulated(nodes) ==> !LeadsOutside(l)
  }

  /** The address at which the tunnels of a node end: its own, if it has one, or the default. */
  function TunnelEnd(cfg: Config, nodes: Nodes, n: string): nat {
    if n in nodes && nodes[n].role != Fake && nodes[n].tunnelIP.Value? then nodes[n].tunnelIP.v else cfg.tunnelIP
  }

  /** The cables in front of link k that take a pair of ports. */
  ghost function CablesBefore(nodes: Nodes, ls: seq<Link>, k: nat): set<nat>
    requires k <= |ls|
  {
    set j: nat | j < k && IsCable(nodes, ls[j])
  }

  lemma {:induction false} CablesTakePorts(cfg: Config, nodes: Nodes, l: Link)
    ensures TakesPort(TunnelsOf(cfg, nodes), l) <==> IsCable(nodes, l)
  {
  }

  lemma {:induction false} TunnelEndIs(cfg: Config, nodes: Nodes, n: string)
    ensures TunnelOf(cfg, TunnelsOf(cfg, nodes), n) == TunnelEnd(cfg, nodes, n)
  {
  }

  ghost function PortTakers(tun: Tunnels, ls: seq<Link>, k: nat): set<nat>
    requires k <= |ls|
  {
    set j: nat | j < k && TakesPort(tun, ls[j])
  }

  lemma {:induction false} PortTakersNext(tun: Tunnels, ls: seq<Link>, k: nat)
    requires k < |ls|
    ensures k !in PortTakers(tun, ls, k)
    ensures PortTakers(tun, ls, k + 1) == PortTakers(tun, ls, k) + if TakesPort(tun, ls[k]) then {k} else {}
  {
  }

  lemma {:induction false} PortIndexCounts(tun: Tunnels, ls: seq<Link>, k: nat)
    requires k <= |ls|
    ensures PortIndex(tun, ls, k) == |PortTakers(tun, ls, k)|
  {
    if k > 0 {
      PortIndexCounts(tun, ls, k - 1);
      PortTakersNext(tun, ls, k - 1);
    }
  }

  lemma {:induction false} CablesCounted(cfg: Config, nodes: Nodes, ls: seq<Link>, k: nat)
    requires k <= |ls|
    ensures PortIndex(TunnelsOf(cfg, nodes), ls, k) == |CablesBefore(nodes, ls, k)|
  {
    forall j: nat | j < k ensures j in CablesBefore(nodes, ls, k) <==> j in PortTakers(TunnelsOf(cfg, nodes), ls, k) {
      CablesTakePorts(cfg, nodes, ls[j]);
    }
    assert CablesBefore(nodes, ls, k) == PortTakers(TunnelsOf(cfg, nodes), ls, k);
    PortIndexCounts(TunnelsOf(cfg, nodes), ls, k);
  }

  ghost predicate IsAutomaticEnd(nodes: Nodes, l: Link, side: Side) {
    match side
    case Left => l.from in Simulated(nodes) && l.fromMAC.None?
    case Right => l.to in Simulated(nodes) && IsCable(nodes, l) && l.toMAC.None?
  }

  /** The links in front of link k whose end on this side is given an address automatically. */
  ghost function AutomaticBefore(nodes: Nodes, ls: seq<Link>, k: nat, side: Side): set<nat>
    requires k <= |ls|
  {
    set j: nat | j < k && IsAutomaticEnd(nodes, ls[j], side)
  }

  lemma {:induction false} AutomaticEndsNeedMACs(cfg: Config, nodes: Nodes, l: Link, side: Side)
    ensures NeedsMAC(TunnelsOf(cfg, nodes), l, side) <==> IsAutomaticEnd(nodes, l, side)
  {
    CablesTakePorts(cfg, nodes, l);
  }

  ghost function MacTakers(tun: Tunnels, ls: seq<Link>, k: nat, side: Side): set<nat>
    requires k <= |ls|
  {
    set j: nat | j < k && NeedsMAC(tun, ls[j], side)
  }

  lemma {:induction false} MacTakersNext(tun: Tunnels, ls: seq<Link>, k: nat, side: Side)
    requires k < |ls|
    ensures k !in MacTakers(tun, ls, k, side)
    ensures MacTakers(tun, ls, k + 1, side) == MacTakers(tun, ls, k, side) + if NeedsMAC(tun, ls[k], side) then {k} else {}
  {
  }

  lemma {:induction false} MacIndexCounts(tun: Tunnels, ls: seq<Link>, k: nat)
    requires k <= |ls|
    ensures MacIndex(tun, ls, k) == |MacTakers(tun, ls, k, Left)| + |MacTakers(tun, ls, k, Right)|
  {
    if k > 0 {
      MacIndexCounts(tun, ls, k - 1);
      MacTakersNext(tun, ls, k - 1, Left);
      MacTakersNext(tun, ls, k - 1, Right);
    }
  }

  lemma {:induction false} AutomaticTakers(cfg: Config, nodes: Nodes, ls: seq<Link>, k: nat, side: Side)
    requires k <= |ls|
    ensures MacTakers(TunnelsOf(cfg, nodes), ls, k, side) == AutomaticBefore(nodes, ls, k, side)
  {
    forall j: nat | j < k ensures NeedsMAC(TunnelsOf(cfg, nodes), ls[j], side) <==> IsAutomaticEnd(nodes, ls[j], side) {
      AutomaticEndsNeedMACs(cfg, nodes, ls[j], side);
    }
  }

  /** The number of automatic addresses in front of an end of link k. */
  ghost function AutomaticNumber(nodes: Nodes, ls: seq<Link>, k: nat, side: Side): nat
    requires k < |ls|
  {
    |AutomaticBefore(nodes, ls, k, Left)| + |AutomaticBefore(nodes, ls, k, Right)|
    + if side == Right && IsAutomaticEnd(nodes, ls[k], Left) then 1 else 0
  }

  lemma {:induction false} MacNumberCounts(cfg: Config, nodes: Nodes, ls: seq<Link>, k: nat, side: Side)
    requires k < |ls|
    ensures MacNumber(TunnelsOf(cfg, nodes), ls, Slot(k, side)) == AutomaticNumber(nodes, ls, k, side)
  {
    MacIndexCounts(TunnelsOf(cfg, nodes), ls, k);
    AutomaticTakers(cfg, nodes, ls, k, Left);
    AutomaticTakers(cfg, nodes, ls, k, Right);
    AutomaticEndsNeedMACs(cfg, nodes, ls[k], Left);
  }

  /** The address of an end of link k: the explicit one, or else the base plus the number of automatic ones before. */
  ghost function EndMac(cfg: Config, nodes: Nodes, ls: seq<Link>, k: nat, side: Side): seq<Byte>
    requires k < |ls|
  {
    var explicit := if side == Left then ls[k].fromMAC else ls[k].toMAC;
    if explicit.Some? then explicit.value
    else Encode(Wrap(Decode(cfg.macBase)) + AutomaticNumber(nodes, ls, k, side), 6)
  }

  lemma {:induction false} EndMacIs(cfg: Config, nodes: Nodes, ls: seq<Link>, k: nat, side: Side)
    requires k < |ls|
    ensures MacOf(cfg, TunnelsOf(cfg, nodes), ls, Slot(k, side)) == EndMac(cfg, nodes, ls, k, side)
  {
    MacNumberCounts(cfg, nodes, ls, k, side);
  }

  /** The interface of a slot is in the final list of its device. */
  lemma {:induction false} RecordInList(cfg: Config, tun: Tunnels, ls: seq<Link>, inv: Inventory, s: Slot)
    requires IsInventory(cfg, tun, ls, inv) && s.link < |ls| && HasEnd(tun, ls[s.link], s.side)
    ensures var n := EndName(ls[s.link], s.side); n in inv && Record(cfg, tun, ls, s) in inv[n]
  {
    var n := EndName(ls[s.link], s.side);
    var i := SlotPosition(cfg, tun, ls, s);
    PermutationMember(inv[n], Ifaces(cfg, tun, ls, |ls|, n), Record(cfg, tun, ls, s));
  }

  /** An interface on a network of the host: no tunnel, no ports, and not booted from. */
  ghost predicate IsNetworkEnd(x: Iface, l: Link, network: string, mac: seq<Byte>) {
    && x.name == l.fromPort && x.network == network && x.mac == mac
    && x.remoteTunnelIP == None && x.port == x.localPort == 0 && !x.pxe
  }

  /** The network an interface at the left end is on: that of an uplink is called "default". */
  function NetworkOf(l: Link): string {
    if l.to == "" && (l.from == "oob-mgmt-server" || l.from == "oob-mgmt-switch") then "default" else l.to
  }

  lemma {:induction false} NetworkRecord(cfg: Config, tun: Tunnels, ls: seq<Link>, k: nat)
    requires k < |ls| && ls[k].from in tun && LeadsOutside(ls[k])
    ensures IsNetworkEnd(Record(cfg, tun, ls, Slot(k, Left)), ls[k], NetworkOf(ls[k]), MacOf(cfg, tun, ls, Slot(k, Left)))
  {
  }

  /** An uplink or a link to a libvirt network puts its device on network "default" or on the one that was named. */
  lemma {:induction false} NetworkInterface(cfg: Config, nodes: Nodes, ls: seq<Link>, inv: Inventory, k: nat)
    requires IsInventory(cfg, TunnelsOf(cfg, nodes), ls, inv)
    requires k < |ls| && ls[k].from in Simulated(nodes) && LeadsOutside(ls[k])
    ensures ls[k].from in inv && exists x | x in inv[ls[k].from] ::
      IsNetworkEnd(x, ls[k], NetworkOf(ls[k]), EndMac(cfg, nodes, ls, k, Left))
  {
    EndMacIs(cfg, nodes, ls, k, Left);
    NetworkRecord(cfg, TunnelsOf(cfg, nodes), ls, k);
    RecordInList(cfg, TunnelsOf(cfg, nodes), ls, inv, Slot(k, Left));
  }

  /** What is common to both ends of a cable: no network, and the name, the address and the boot flag of its side. */
  ghost predicate IsCableEnd(x: Iface, name: string, mac: seq<Byte>, pxe: bool, far: nat) {
    x.name == name && x.mac == mac && x.network == "" && x.pxe == pxe && x.remoteTunnelIP == Some(far)
  }

  /** The two ends of the cable with the given number; far is the other end. */
  ghost predicate IsLeftEnd(x: Iface, cfg: Config, l: Link, mac: seq<Byte>, number: nat, far: nat) {
    && IsCableEnd(x, l.fromPort, mac, l.leftPXE, far)
    && x.port == Wrap(cfg.portBase + number) && x.localPort == Wrap(cfg.portBase + number + cfg.portGap)
  }

  ghost predicate IsRightEnd(x: Iface, cfg: Config, l: Link, mac: seq<Byte>, number: nat, far: nat) {
    && IsCableEnd(x, l.toPort, mac, l.rightPXE, far)
    && x.localPort == Wrap(cfg.portBase + number) && x.port == Wrap(cfg.portBase + number + cfg.portGap)
  }

  lemma {:induction false} LeftRecord(cfg: Config, tun: Tunnels, ls: seq<Link>, k: nat)
    requires k < |ls| && TakesPort(tun, ls[k]) && ls[k].from in tun
    ensures IsLeftEnd(Record(cfg, tun, ls, Slot(k, Left)), cfg, ls[k],
                      MacOf(cfg, tun, ls, Slot(k, Left)), PortIndex(tun, ls, k), TunnelOf(cfg, tun, ls[k].to))
  {
  }

  lemma {:induction false} RightRecord(cfg: Config, tun: Tunnels, ls: seq<Link>, k: nat)
    requires k < |ls| && TakesPort(tun, ls[k]) && ls[k].to in tun
    ensures IsRightEnd(Record(cfg, tun, ls, Slot(k, Right)), cfg, ls[k],
                       MacOf(cfg, tun, ls, Slot(k, Right)), PortIndex(tun, ls, k), TunnelOf(cfg, tun, ls[k].from))
  {
  }

  /** The interface at the left end of link k, if that is simulated. */
  ghost predicate HasLeftEnd(cfg: Config, devices: set<string>, inv: Inventory, l: Link,
                             mac: seq<Byte>, number: nat, far: nat)
  {
    l.from in devices ==> l.from in inv && exists x | x in inv[l.from] :: IsLeftEnd(x, cfg, l, mac, number, far)
  }

  ghost predicate HasRightEnd(cfg: Config, devices: set<string>, inv: Inventory, l: Link,
                              mac: seq<Byte>, number: nat, far: nat)
  {
    l.to in devices ==> l.to in inv && exists x | x in inv[l.to] :: IsRightEnd(x, cfg, l, mac, number, far)
  }

  lemma {:induction false} CableLeft(cfg: Config, tun: Tunnels, ls: seq<Link>, inv: Inventory, k: nat)
    requires IsInventory(cfg, tun, ls, inv) && k < |ls| && TakesPort(tun, ls[k])
    ensures HasLeftEnd(cfg, tun.Keys, inv, ls[k],
                       MacOf(cfg, tun, ls, Slot(k, Left)), PortIndex(tun, ls, k), TunnelOf(cfg, tun, ls[k].to))
  {
    if ls[k].from in tun {
      var x := Record(cfg, tun, ls, Slot(k, Left));
      LeftRecord(cfg, tun, ls, k);
      RecordInList(cfg, tun, ls, inv, Slot(k, Left));
      assert x in inv[ls[k].from];
    }
  }

  lemma {:induction false} CableRight(cfg: Config, tun: Tunnels, ls: seq<Link>, inv: Inventory, k: nat)
    requires IsInventory(cfg, tun, ls, inv) && k < |ls| && TakesPort(tun, ls[k])
    ensures HasRightEnd(cfg, tun.Keys, inv, ls[k],
                        MacOf(cfg, tun, ls, Slot(k, Right)), PortIndex(tun, ls, k), TunnelOf(cfg, tun, ls[k].from))
  {
    if ls[k].to in tun {
      var x := Record(cfg, tun, ls, Slot(k, Right));
      RightRecord(cfg, tun, ls, k);
      RecordInList(cfg, tun, ls, inv, Slot(k, Right));
      assert x in inv[ls[k].to];
    }
  }

  /**
   A cable gives its simulated ends an interface each, also if the other end is not simulated. The
   left one sends to the base port plus the number of cables in front of it, and listens the gap
   above; the right one has the ports the other way round.
   */
  lemma {:induction false} CableInterfaces(cfg: Config, nodes: Nodes, ls: seq<Link>, inv: Inventory, k: nat)
    requires IsInventory(cfg, TunnelsOf(cfg, nodes), ls, inv) && k < |ls| && IsCable(nodes, ls[k])
    ensures HasLeftEnd(cfg, Simulated(nodes), inv, ls[k],
                       EndMac(cfg, nodes, ls, k, Left), |CablesBefore(nodes, ls, k)|, TunnelEnd(cfg, nodes, ls[k].to))
    ensures HasRightEnd(cfg, Simulated(nodes), inv, ls[k],
                        EndMac(cfg, nodes, ls, k, Right), |CablesBefore(nodes, ls, k)|, TunnelEnd(cfg, nodes, ls[k].from))
  {
    CablesTakePorts(cfg, nodes, ls[k]);
    CableLeft(cfg, TunnelsOf(cfg, nodes), ls, inv, k);
    CableRight(cfg, TunnelsOf(cfg, nodes), ls, inv, k);
    CablesCounted(cfg, nodes, ls, k);
    TunnelEndIs(cfg, nodes, ls[k].from);
    TunnelEndIs(cfg, nodes, ls[k].to);
    EndMacIs(cfg, nodes, ls, k, Left);
    EndMacIs(cfg, nodes, ls, k, Right);
    assert TunnelsOf(cfg, nodes).Keys == Simulated(nodes);
  }

  /** The ends of links at device n, in raw terms. */
  ghost function EndsOf(nodes: Nodes, ls: seq<Link>, n: string): set<Slot> {
    (set k: nat | k < |ls| && ls[k].from == n :: Slot(k, Left)) +
    (set k: nat | k < |ls| && ls[k].to == n && IsCable(nodes, ls[k]) :: Slot(k, Right))
  }

  /** A simulated device has exactly as many interfaces as link ends, so those named above are all there are. */
  lemma {:induction false} OneInterfaceEach(cfg: Config, nodes: Nodes, ls: seq<Link>, inv: Inventory, n: string)
    requires IsInventory(cfg, TunnelsOf(cfg, nodes), ls, inv) && n in Simulated(nodes)
    ensures n in inv && |inv[n]| == |EndsOf(nodes, ls, n)|
  {
    var tun := TunnelsOf(cfg, nodes);
    var slots := Slots(tun, ls, |ls|, n);
    SlotsDistinct(tun, ls, |ls|, n);
    DistinctSize(slots);
    forall s: Slot ensures s in Elements(slots) <==> s in EndsOf(nodes, ls, n) {
      SlotMember(tun, ls, |ls|, n, s);
      EndIsSlot(cfg, nodes, ls, n, s);
    }
    assert Elements(slots) == EndsOf(nodes, ls, n);
    assert |multiset(inv[n])| == |multiset(Ifaces(cfg, tun, ls, |ls|, n))|;
  }

  lemma {:induction false} EndIsSlot(cfg: Config, nodes: Nodes, ls: seq<Link>, n: string, s: Slot)
    requires n in Simulated(nodes)
    ensures s in EndsOf(nodes, ls, n) <==>
      s.link < |ls| && HasEnd(TunnelsOf(cfg, nodes), ls[s.link], s.side) && EndName(ls[s.link], s.side) == n
  {
    if s.link < |ls| {
      CablesTakePorts(cfg, nodes, ls[s.link]);
    }
  }

  /** Only the i-th interface of device n listens on the port. */
  ghost predicate OnlyListener(inv: Inventory, port: nat, n: string, i: nat) {
    forall x, y | x in inv && 0 <= y < |inv[x]| && inv[x][y].IsTunnel() && inv[x][y].localPort == port :: x == n && y == i
  }

  ghost predicate JoinedAt(inv: Inventory, n: string, i: nat, m: string, j: nat, a: string, b: string, aEnd: nat, bEnd: nat)
    requires n in inv && m in inv && i < |inv[n]| && j < |inv[m]|
  {
    && inv[n][i].name == a && inv[m][j].name == b && AreMutualPeers(inv[n][i], inv[m][j], aEnd, bEnd)
    && OnlyListener(inv, inv[n][i].port, m, j) && OnlyListener(inv, inv[m][j].port, n, i)
  }

  /** Port a of device n and port b of device m send to each other, and nobody else listens where they send to. */
  ghost predicate Joined(cfg: Config, nodes: Nodes, inv: Inventory, n: string, a: string, m: string, b: string) {
    n in inv && m in inv && exists i: nat, j: nat | i < |inv[n]| && j < |inv[m]| ::
      JoinedAt(inv, n, i, m, j, a, b, TunnelEnd(cfg, nodes, n), TunnelEnd(cfg, nodes, m))
  }

  /** An inventory in which no two links clash. */
  ghost predicate IsClean(cfg: Config, nodes: Nodes, ls: seq<Link>, inv: Inventory) {
    && |ls| < UINT64_LIMIT && NoClash(cfg, TunnelsOf(cfg, nodes), ls)
    && IsInventory(cfg, TunnelsOf(cfg, nodes), ls, inv)
  }

  lemma {:induction false} SlotsAreJoined(cfg: Config, tun: Tunnels, ls: seq<Link>, inv: Inventory, k: nat)
    returns (i: nat, j: nat)
    requires |ls| < UINT64_LIMIT && IsInventory(cfg, tun, ls, inv) && NoClash(cfg, tun, ls)
    requires k < |ls| && TakesPort(tun, ls[k]) && ls[k].from in tun && ls[k].to in tun
    ensures i < |inv[ls[k].from]| && j < |inv[ls[k].to]|
    ensures JoinedAt(inv, ls[k].from, i, ls[k].to, j, ls[k].fromPort, ls[k].toPort, tun[ls[k].from], tun[ls[k].to])
  {
    i, j := LinkIsWired(cfg, tun, ls, inv, k);
  }

  /**
   The wiring theorem in terms of node attributes: without clashes, the two ends of a cable between
   simulated devices are joined, at the tunnel addresses their nodes ask for.
   */
  lemma {:induction false} CableIsWired(cfg: Config, nodes: Nodes, ls: seq<Link>, inv: Inventory, k: nat)
    requires IsClean(cfg, nodes, ls, inv) && k < |ls| && IsCable(nodes, ls[k])
    requires ls[k].from in Simulated(nodes) && ls[k].to in Simulated(nodes)
    ensures Joined(cfg, nodes, inv, ls[k].from, ls[k].fromPort, ls[k].to, ls[k].toPort)
  {
    CablesTakePorts(cfg, nodes, ls[k]);
    TunnelEndIs(cfg, nodes, ls[k].from);
    TunnelEndIs(cfg, nodes, ls[k].to);
    var i, j := SlotsAreJoined(cfg, TunnelsOf(cfg, nodes), ls, inv, k);
  }
}
