/**
 The interfaces buildInventory creates (runner/libvirt/runner.go, lines 364-423), given in closed
 form: an end of a link is a slot, and the record in a slot depends only on how many earlier links
 used a port and how many earlier slots were given a MAC address automatically.
 */
module Cabling {
  import opened Prelude
  import opened HardwareAddr
  import opened Graph

  /** remoteTunnelIP is None where the source leaves it nil, on the interfaces of libvirt networks. */
  datatype Iface = Iface(
    name: string, mac: seq<Byte>, network: string,
    port: nat, localPort: nat, remoteTunnelIP: Option<nat>, pxe: bool)
  {
    predicate IsTunnel() { remoteTunnelIP.Some? }
  }

  /** The RunnerOptions that matter for the inventory. */
  datatype Config = Config(
    namePrefix: string, tunnelIP: nat, macBase: seq<Byte>, portBase: int, portGap: int)

  /** The tunnel addresses of the simulated devices. */
  type Tunnels = map<string, nat>

  datatype Side = Left | Right
  datatype Slot = Slot(link: nat, side: Side)

  predicate IsOOBUplink(l: Link) {
    (l.from == SERVER || l.from == SWITCH) && l.to == ""
  }

  /** Whether the loop reaches "nextPort++" for the link. */
  predicate TakesPort(tun: Tunnels, l: Link) {
    !(l.from in tun && (IsOOBUplink(l) || l.libvirtNetwork))
  }

  /** Whether the loop creates an interface for this end of the link. */
  predicate HasEnd(tun: Tunnels, l: Link, side: Side) {
    match side
    case Left => l.from in tun
    case Right => TakesPort(tun, l) && l.to in tun
  }

  function EndName(l: Link, side: Side): string {
    if side == Left then l.from else l.to
  }

  predicate NeedsMAC(tun: Tunnels, l: Link, side: Side) {
    HasEnd(tun, l, side) && (if side == Left then l.fromMAC.None? else l.toMAC.None?)
  }

  /** The number of ports used by the first k links. */
  function PortIndex(tun: Tunnels, ls: seq<Link>, k: nat): (n: nat)
    requires k <= |ls|
    ensures n <= k
  {
    if k == 0 then 0 else PortIndex(tun, ls, k - 1) + if TakesPort(tun, ls[k - 1]) then 1 else 0
  }

  /** The number of MAC addresses allocated for the first k links. */
  function MacIndex(tun: Tunnels, ls: seq<Link>, k: nat): nat
    requires k <= |ls|
  {
    if k == 0 then 0 else
      MacIndex(tun, ls, k - 1)
      + (if NeedsMAC(tun, ls[k - 1], Left) then 1 else 0)
      + (if NeedsMAC(tun, ls[k - 1], Right) then 1 else 0)
  }

  /** The number of allocations before the one for this slot. */
  function MacNumber(tun: Tunnels, ls: seq<Link>, s: Slot): nat
    requires s.link < |ls|
  {
    MacIndex(tun, ls, s.link) + if s.side == Right && NeedsMAC(tun, ls[s.link], Left) then 1 else 0
  }

  /** The number the base address is folded to, in uint64 arithmetic. */
  function MacStart(cfg: Config): nat {
    Wrap(Decode(cfg.macBase))
  }

  /** The allocations for the first k links stay below 2^48. */
  predicate FitsSoFar(cfg: Config, tun: Tunnels, ls: seq<Link>, k: nat)
    requires k <= |ls|
  {
    MacIndex(tun, ls, k) == 0 || MacStart(cfg) + MacIndex(tun, ls, k) <= EUI48_LIMIT
  }

  /** Some allocation would have to exceed 48 bits. */
  predicate MacsExhausted(cfg: Config, tun: Tunnels, ls: seq<Link>) {
    !FitsSoFar(cfg, tun, ls, |ls|)
  }

  function TunnelOf(cfg: Config, tun: Tunnels, n: string): nat {
    if n in tun then tun[n] else cfg.tunnelIP
  }

  function MacOf(cfg: Config, tun: Tunnels, ls: seq<Link>, s: Slot): seq<Byte>
    requires s.link < |ls|
  {
    var l := ls[s.link];
    var explicit := if s.side == Left then l.fromMAC else l.toMAC;
    if explicit.Some? then explicit.value else Encode(MacStart(cfg) + MacNumber(tun, ls, s), 6)
  }

  /** The two ports of a link: the left end listens on the upper one, the right end on the lower one. */
  function LowerPort(cfg: Config, p: nat): nat { Wrap(cfg.portBase + p) }
  function UpperPort(cfg: Config, p: nat): nat { Wrap(cfg.portBase + p + cfg.portGap) }

  /** The interface created for a slot. */
  function Record(cfg: Config, tun: Tunnels, ls: seq<Link>, s: Slot): Iface
    requires s.link < |ls|
  {
    var l := ls[s.link];
    var mac := MacOf(cfg, tun, ls, s);
    var p := PortIndex(tun, ls, s.link);
    match s.side
    case Left =>
      if IsOOBUplink(l) then Iface(l.fromPort, mac, "default", 0, 0, None, false)
      else if l.libvirtNetwork then Iface(l.fromPort, mac, l.to, 0, 0, None, false)
      else Iface(l.fromPort, mac, "", LowerPort(cfg, p), UpperPort(cfg, p), Some(TunnelOf(cfg, tun, l.to)), l.leftPXE)
    case Right =>
      Iface(l.toPort, mac, "", UpperPort(cfg, p), LowerPort(cfg, p), Some(TunnelOf(cfg, tun, l.from)), l.rightPXE)
  }

  /** The slots link i gives to device n. */
  function SlotsOf(tun: Tunnels, ls: seq<Link>, i: nat, n: string): seq<Slot>
    requires i < |ls|
  {
    (if HasEnd(tun, ls[i], Left) && ls[i].from == n then [Slot(i, Left)] else [])
    + (if HasEnd(tun, ls[i], Right) && ls[i].to == n then [Slot(i, Right)] else [])
  }

  /** The slots of device n among the first k links, in the order of creation. */
  function Slots(tun: Tunnels, ls: seq<Link>, k: nat, n: string): seq<Slot>
    requires k <= |ls|
  {
    if k == 0 then [] else Slots(tun, ls, k - 1, n) + SlotsOf(tun, ls, k - 1, n)
  }

  ghost predicate InRange(slots: seq<Slot>, bound: nat) {
    forall s | s in slots :: s.link < bound
  }

  /** The records of some slots. */
  function Records(cfg: Config, tun: Tunnels, ls: seq<Link>, slots: seq<Slot>): (rs: seq<Iface>)
    requires InRange(slots, |ls|)
    ensures |rs| == |slots|
  {
    if slots == [] then [] else
      var n := |slots| - 1;
      Records(cfg, tun, ls, slots[..n]) + [Record(cfg, tun, ls, slots[n])]
  }

  lemma {:induction false} RecordsAt(cfg: Config, tun: Tunnels, ls: seq<Link>, slots: seq<Slot>, i: nat)
    requires InRange(slots, |ls|) && i < |slots|
    ensures Records(cfg, tun, ls, slots)[i] == Record(cfg, tun, ls, slots[i])
  {
    var n := |slots| - 1;
    if i < n {
      RecordsAt(cfg, tun, ls, slots[..n], i);
    }
  }

  lemma {:induction false} RecordsAppend(cfg: Config, tun: Tunnels, ls: seq<Link>, xs: seq<Slot>, ys: seq<Slot>)
    requires InRange(xs, |ls|) && InRange(ys, |ls|)
    ensures InRange(xs + ys, |ls|)
    ensures Records(cfg, tun, ls, xs + ys) == Records(cfg, tun, ls, xs) + Records(cfg, tun, ls, ys)
  {
    if ys == [] {
      assert xs + ys == xs;
    } else {
      var n := |ys| - 1;
      RecordsAppend(cfg, tun, ls, xs, ys[..n]);
      assert (xs + ys)[..|xs| + n] == xs + ys[..n];
    }
  }

  lemma {:induction false} SlotsInRange(tun: Tunnels, ls: seq<Link>, k: nat, n: string)
    requires k <= |ls|
    ensures InRange(Slots(tun, ls, k, n), k)
  {
    if k > 0 {
      SlotsInRange(tun, ls, k - 1, n);
    }
  }

  /** A slot belongs to the device at its end of the link. */
  lemma {:induction false} SlotMember(tun: Tunnels, ls: seq<Link>, k: nat, n: string, s: Slot)
    requires k <= |ls|
    ensures s in Slots(tun, ls, k, n) <==>
      s.link < k && HasEnd(tun, ls[s.link], s.side) && EndName(ls[s.link], s.side) == n
  {
    if k > 0 {
      SlotMember(tun, ls, k - 1, n, s);
      SlotsOfMember(tun, ls, k - 1, n, s);
    }
  }

  lemma {:induction false} SlotsOfMember(tun: Tunnels, ls: seq<Link>, i: nat, n: string, s: Slot)
    requires i < |ls|
    ensures s in SlotsOf(tun, ls, i, n) <==>
      s.link == i && HasEnd(tun, ls[i], s.side) && EndName(ls[i], s.side) == n
  {
  }

  /** No device has a slot twice. */
  lemma {:induction false} SlotsDistinct(tun: Tunnels, ls: seq<Link>, k: nat, n: string)
    requires k <= |ls|
    ensures Distinct(Slots(tun, ls, k, n))
  {
    if k > 0 {
      SlotsDistinct(tun, ls, k - 1, n);
      SlotsInRange(tun, ls, k - 1, n);
      DistinctAppend(Slots(tun, ls, k - 1, n), SlotsOf(tun, ls, k - 1, n), k - 1);
    }
  }

  lemma {:induction false} DistinctAppend(xs: seq<Slot>, ys: seq<Slot>, k: nat)
    requires Distinct(xs) && InRange(xs, k)
    requires |ys| <= 2 && (forall y | y in ys :: y.link == k) && (|ys| == 2 ==> ys[0] != ys[1])
    ensures Distinct(xs + ys)
  {
  }

  /** The interfaces of device n after the first k links. */
  function Ifaces(cfg: Config, tun: Tunnels, ls: seq<Link>, k: nat, n: string): seq<Iface>
    requires k <= |ls|
  {
    SlotsInRange(tun, ls, k, n);
    Records(cfg, tun, ls, Slots(tun, ls, k, n))
  }

  lemma {:induction false} IfacesNext(cfg: Config, tun: Tunnels, ls: seq<Link>, k: nat, n: string)
    requires k < |ls|
    ensures InRange(SlotsOf(tun, ls, k, n), |ls|)
    ensures Ifaces(cfg, tun, ls, k + 1, n) ==
      Ifaces(cfg, tun, ls, k, n) + Records(cfg, tun, ls, SlotsOf(tun, ls, k, n))
  {
    SlotsInRange(tun, ls, k, n);
    RecordsAppend(cfg, tun, ls, Slots(tun, ls, k, n), SlotsOf(tun, ls, k, n));
  }

  /** What link i appends to the interfaces of device n. */
  function LinkRecords(cfg: Config, tun: Tunnels, ls: seq<Link>, i: nat, n: string): seq<Iface>
    requires i < |ls|
  {
    EndRecords(cfg, tun, ls, Slot(i, Left), n) + EndRecords(cfg, tun, ls, Slot(i, Right), n)
  }

  /** What one end of a link appends to the interfaces of device n. */
  function EndRecords(cfg: Config, tun: Tunnels, ls: seq<Link>, s: Slot, n: string): seq<Iface>
    requires s.link < |ls|
  {
    if HasEnd(tun, ls[s.link], s.side) && EndName(ls[s.link], s.side) == n then [Record(cfg, tun, ls, s)] else []
  }

  lemma {:induction false} IfacesAppend(cfg: Config, tun: Tunnels, ls: seq<Link>, i: nat, n: string)
    requires i < |ls|
    ensures Ifaces(cfg, tun, ls, i + 1, n) == Ifaces(cfg, tun, ls, i, n) + LinkRecords(cfg, tun, ls, i, n)
  {
    IfacesNext(cfg, tun, ls, i, n);
    var lefts := if HasEnd(tun, ls[i], Left) && ls[i].from == n then [Slot(i, Left)] else [];
    var rights := if HasEnd(tun, ls[i], Right) && ls[i].to == n then [Slot(i, Right)] else [];
    RecordsAppend(cfg, tun, ls, lefts, rights);
    OneRecord(cfg, tun, ls, Slot(i, Left));
    OneRecord(cfg, tun, ls, Slot(i, Right));
  }

  lemma {:induction false} OneRecord(cfg: Config, tun: Tunnels, ls: seq<Link>, s: Slot)
    requires s.link < |ls|
    ensures Records(cfg, tun, ls, [s]) == [Record(cfg, tun, ls, s)]
    ensures Records(cfg, tun, ls, []) == []
  {
  }

  /** The port arithmetic of the loop, in uint. */
  lemma {:induction false} PortSteps(cfg: Config, p: nat)
    ensures LowerPort(cfg, 0) == Wrap(cfg.portBase)
    ensures Wrap(LowerPort(cfg, p) + Wrap(cfg.portGap)) == UpperPort(cfg, p)
    ensures Wrap(LowerPort(cfg, p) + 1) == LowerPort(cfg, p + 1)
  {
    var x := cfg.portBase + p;
    WrapAdd(x, 1);
    WrapAdd(x, Wrap(cfg.portGap));
    WrapAdd(cfg.portGap, x);
  }
}
