/**
 The tunnels of an inventory form a perfect pairing (runner/libvirt/runner.go, lines 364-433).

 An inventory is whatever the final sort makes of the interface lists: each device has a
 permutation of the interfaces that were created for it.
 */
module Pairing {
  import opened Prelude
  import opened HardwareAddr
  import opened Graph
  import opened Cabling

  type Inventory = map<string, seq<Iface>>

  ghost predicate IsInventory(cfg: Config, tun: Tunnels, ls: seq<Link>, inv: Inventory) {
    && inv.Keys == tun.Keys
    && forall n | n in tun :: IsPermutation(inv[n], Ifaces(cfg, tun, ls, |ls|, n))
  }

  /** No two tunnel interfaces of the whole inventory listen on the same local port. */
  ghost predicate LocalPortsDistinct(inv: Inventory) {
    forall n, m, i, j | n in inv && m in inv && 0 <= i < |inv[n]| && 0 <= j < |inv[m]|
                        && (n != m || i != j) && inv[n][i].IsTunnel() && inv[m][j].IsTunnel() ::
      inv[n][i].localPort != inv[m][j].localPort
  }

  /** The upper port of link i, used by its left end, is the lower port of link j, used by its right end. */
  predicate Clash(cfg: Config, tun: Tunnels, ls: seq<Link>, i: nat, j: nat)
    requires i < |ls| && j < |ls|
  {
    && TakesPort(tun, ls[i]) && HasEnd(tun, ls[i], Left)
    && HasEnd(tun, ls[j], Right)
    && Wrap(PortIndex(tun, ls, i) + cfg.portGap - PortIndex(tun, ls, j)) == 0
  }

  ghost predicate NoClash(cfg: Config, tun: Tunnels, ls: seq<Link>) {
    forall i: nat, j: nat | i < |ls| && j < |ls| :: !Clash(cfg, tun, ls, i, j)
  }

  // ----- slots and their ports ----------------------------------------------------

  predicate IsTunnelSlot(tun: Tunnels, ls: seq<Link>, s: Slot)
    requires s.link < |ls|
  {
    TakesPort(tun, ls[s.link]) && HasEnd(tun, ls[s.link], s.side)
  }

  lemma {:induction false} TunnelSlotRecord(cfg: Config, tun: Tunnels, ls: seq<Link>, s: Slot)
    requires s.link < |ls| && HasEnd(tun, ls[s.link], s.side)
    ensures var r := Record(cfg, tun, ls, s);
      var p := PortIndex(tun, ls, s.link);
      && (r.IsTunnel() <==> IsTunnelSlot(tun, ls, s))
      && (r.IsTunnel() ==> r.localPort == if s.side == Left then UpperPort(cfg, p) else LowerPort(cfg, p))
  {
  }

  lemma {:induction false} PortIndexGrows(tun: Tunnels, ls: seq<Link>, i: nat, j: nat)
    requires i < j <= |ls| && TakesPort(tun, ls[i])
    ensures PortIndex(tun, ls, i) < PortIndex(tun, ls, j)
    decreases j
  {
    if i < j - 1 {
      PortIndexGrows(tun, ls, i, j - 1);
    }
  }

  lemma {:induction false} UpperMeetsLower(cfg: Config, p: nat, q: nat)
    ensures UpperPort(cfg, p) == LowerPort(cfg, q) <==> Wrap(p + cfg.portGap - q) == 0
  {
  }

  /** Two slots share a local port exactly when they are the two ends of a clash. */
  lemma {:induction false} SlotsShareLocalPort(cfg: Config, tun: Tunnels, ls: seq<Link>, s: Slot, t: Slot)
    requires |ls| < UINT64_LIMIT && s.link < |ls| && t.link < |ls| && s != t
    requires IsTunnelSlot(tun, ls, s) && IsTunnelSlot(tun, ls, t)
    ensures Record(cfg, tun, ls, s).localPort == Record(cfg, tun, ls, t).localPort <==>
      || (s.side == Left && t.side == Right && Clash(cfg, tun, ls, s.link, t.link))
      || (s.side == Right && t.side == Left && Clash(cfg, tun, ls, t.link, s.link))
  {
    TunnelSlotRecord(cfg, tun, ls, s);
    TunnelSlotRecord(cfg, tun, ls, t);
    var p, q := PortIndex(tun, ls, s.link), PortIndex(tun, ls, t.link);
    if s.side == t.side {
      if s.link < t.link {
        PortIndexGrows(tun, ls, s.link, t.link);
      } else {
        PortIndexGrows(tun, ls, t.link, s.link);
      }
      var shift := if s.side == Left then cfg.portBase + cfg.portGap else cfg.portBase;
      if Wrap(shift + p) == Wrap(shift + q) {
        WrapInjective(shift + p, shift + q);
      }
    } else if s.side == Left {
      UpperMeetsLower(cfg, p, q);
    } else {
      UpperMeetsLower(cfg, q, p);
    }
  }

  // ----- positions in an inventory ------------------------------------------------

  /** Where the interface of a slot ended up. */
  lemma {:induction false} SlotPosition(cfg: Config, tun: Tunnels, ls: seq<Link>, s: Slot) returns (i: nat)
    requires s.link < |ls| && HasEnd(tun, ls[s.link], s.side)
    ensures var n := EndName(ls[s.link], s.side);
      i < |Ifaces(cfg, tun, ls, |ls|, n)| && i < |Slots(tun, ls, |ls|, n)|
      && Slots(tun, ls, |ls|, n)[i] == s && Ifaces(cfg, tun, ls, |ls|, n)[i] == Record(cfg, tun, ls, s)
  {
    var n := EndName(ls[s.link], s.side);
    var slots := Slots(tun, ls, |ls|, n);
    SlotMember(tun, ls, |ls|, n, s);
    SlotsInRange(tun, ls, |ls|, n);
    i :| 0 <= i < |slots| && slots[i] == s;
    RecordsAt(cfg, tun, ls, slots, i);
  }

  lemma {:induction false} PositionSlot(cfg: Config, tun: Tunnels, ls: seq<Link>, n: string, i: nat) returns (s: Slot)
    requires i < |Ifaces(cfg, tun, ls, |ls|, n)|
    ensures i < |Slots(tun, ls, |ls|, n)| && s == Slots(tun, ls, |ls|, n)[i]
    ensures s.link < |ls| && HasEnd(tun, ls[s.link], s.side) && EndName(ls[s.link], s.side) == n
    ensures Ifaces(cfg, tun, ls, |ls|, n)[i] == Record(cfg, tun, ls, s)
  {
    var slots := Slots(tun, ls, |ls|, n);
    SlotsInRange(tun, ls, |ls|, n);
    s := slots[i];
    assert s in slots;
    SlotMember(tun, ls, |ls|, n, s);
    RecordsAt(cfg, tun, ls, slots, i);
  }

  /** The interface at a place of an inventory is that of a slot of its device. */
  lemma {:induction false} PlaceToSlot(cfg: Config, tun: Tunnels, ls: seq<Link>, inv: Inventory, n: string, i: nat)
    returns (s: Slot)
    requires IsInventory(cfg, tun, ls, inv) && n in inv && i < |inv[n]|
    ensures s.link < |ls| && HasEnd(tun, ls[s.link], s.side) && EndName(ls[s.link], s.side) == n
    ensures inv[n][i] == Record(cfg, tun, ls, s)
  {
    var xs := Ifaces(cfg, tun, ls, |ls|, n);
    PermutationMember(inv[n], xs, inv[n][i]);
    var k :| 0 <= k < |xs| && xs[k] == inv[n][i];
    s := PositionSlot(cfg, tun, ls, n, k);
  }

  /** Two places of one device have different slots. */
  lemma {:induction false} PlacesOfDevice(cfg: Config, tun: Tunnels, ls: seq<Link>, inv: Inventory, n: string, i: nat, j: nat)
    returns (s: Slot, t: Slot)
    requires IsInventory(cfg, tun, ls, inv) && n in inv && i < |inv[n]| && j < |inv[n]| && i != j
    ensures s != t && s.link < |ls| && t.link < |ls|
    ensures HasEnd(tun, ls[s.link], s.side) && EndName(ls[s.link], s.side) == n
    ensures HasEnd(tun, ls[t.link], t.side) && EndName(ls[t.link], t.side) == n
    ensures inv[n][i] == Record(cfg, tun, ls, s) && inv[n][j] == Record(cfg, tun, ls, t)
  {
    var i', j' := PairTransfers(inv[n], Ifaces(cfg, tun, ls, |ls|, n), i, j);
    SlotsDistinct(tun, ls, |ls|, n);
    s := PositionSlot(cfg, tun, ls, n, i');
    t := PositionSlot(cfg, tun, ls, n, j');
  }

  /** Two different places of an inventory hold the interfaces of two different slots. */
  lemma {:induction false} PlacesToSlots(cfg: Config, tun: Tunnels, ls: seq<Link>, inv: Inventory,
                                         n: string, i: nat, m: string, j: nat) returns (s: Slot, t: Slot)
    requires IsInventory(cfg, tun, ls, inv)
    requires n in inv && m in inv && i < |inv[n]| && j < |inv[m]| && (n != m || i != j)
    ensures s != t && s.link < |ls| && t.link < |ls|
    ensures HasEnd(tun, ls[s.link], s.side) && EndName(ls[s.link], s.side) == n
    ensures HasEnd(tun, ls[t.link], t.side) && EndName(ls[t.link], t.side) == m
    ensures inv[n][i] == Record(cfg, tun, ls, s) && inv[m][j] == Record(cfg, tun, ls, t)
  {
    if n == m {
      s, t := PlacesOfDevice(cfg, tun, ls, inv, n, i, j);
    } else {
      s := PlaceToSlot(cfg, tun, ls, inv, n, i);
      t := PlaceToSlot(cfg, tun, ls, inv, m, j);
    }
  }

  /** Two different slots have their interfaces in two different places of an inventory. */
  lemma {:induction false} SlotsToPlaces(cfg: Config, tun: Tunnels, ls: seq<Link>, inv: Inventory, s: Slot, t: Slot)
    returns (i: nat, j: nat)
    requires IsInventory(cfg, tun, ls, inv)
    requires s != t && s.link < |ls| && t.link < |ls|
    requires HasEnd(tun, ls[s.link], s.side) && HasEnd(tun, ls[t.link], t.side)
    ensures var n, m := EndName(ls[s.link], s.side), EndName(ls[t.link], t.side);
      && n in inv && m in inv && i < |inv[n]| && j < |inv[m]| && (n != m || i != j)
      && inv[n][i] == Record(cfg, tun, ls, s) && inv[m][j] == Record(cfg, tun, ls, t)
  {
    var n, m := EndName(ls[s.link], s.side), EndName(ls[t.link], t.side);
    var xs, ys := Ifaces(cfg, tun, ls, |ls|, n), Ifaces(cfg, tun, ls, |ls|, m);
    var i' := SlotPosition(cfg, tun, ls, s);
    var j' := SlotPosition(cfg, tun, ls, t);
    if n == m {
      i, j := PairTransfers(xs, inv[n], i', j');
    } else {
      PermutationMember(inv[n], xs, xs[i']);
      PermutationMember(inv[m], ys, ys[j']);
      i :| 0 <= i < |inv[n]| && inv[n][i] == xs[i'];
      j :| 0 <= j < |inv[m]| && inv[m][j] == ys[j'];
    }
  }

  // ----- the theorems ---------------------------------------------------------------

  lemma {:induction false} PlacesDiffer(cfg: Config, tun: Tunnels, ls: seq<Link>, inv: Inventory,
                                        n: string, i: nat, m: string, j: nat)
    requires |ls| < UINT64_LIMIT && IsInventory(cfg, tun, ls, inv) && NoClash(cfg, tun, ls)
    requires n in inv && m in inv && i < |inv[n]| && j < |inv[m]| && (n != m || i != j)
    requires inv[n][i].IsTunnel() && inv[m][j].IsTunnel()
    ensures inv[n][i].localPort != inv[m][j].localPort
  {
    var s, t := PlacesToSlots(cfg, tun, ls, inv, n, i, m, j);
    TunnelSlotRecord(cfg, tun, ls, s);
    TunnelSlotRecord(cfg, tun, ls, t);
    SlotsShareLocalPort(cfg, tun, ls, s, t);
  }

  lemma {:induction false} ClashCollides(cfg: Config, tun: Tunnels, ls: seq<Link>, inv: Inventory, k: nat, l: nat)
    requires |ls| < UINT64_LIMIT && IsInventory(cfg, tun, ls, inv)
    requires k < |ls| && l < |ls| && Clash(cfg, tun, ls, k, l)
    ensures !LocalPortsDistinct(inv)
  {
    var s, t := Slot(k, Left), Slot(l, Right);
    var i, j := SlotsToPlaces(cfg, tun, ls, inv, s, t);
    TunnelSlotRecord(cfg, tun, ls, s);
    TunnelSlotRecord(cfg, tun, ls, t);
    SlotsShareLocalPort(cfg, tun, ls, s, t);
    assert inv[ls[k].from][i].localPort == inv[ls[l].to][j].localPort;
  }

  /** All local ports of the inventory are distinct exactly when no two links clash. */
  lemma {:induction false} DistinctIffNoClash(cfg: Config, tun: Tunnels, ls: seq<Link>, inv: Inventory)
    requires |ls| < UINT64_LIMIT && IsInventory(cfg, tun, ls, inv)
    ensures LocalPortsDistinct(inv) <==> NoClash(cfg, tun, ls)
  {
    if NoClash(cfg, tun, ls) {
      forall n, m, i, j | n in inv && m in inv && 0 <= i < |inv[n]| && 0 <= j < |inv[m]|
                          && (n != m || i != j) && inv[n][i].IsTunnel() && inv[m][j].IsTunnel()
        ensures inv[n][i].localPort != inv[m][j].localPort
      {
        PlacesDiffer(cfg, tun, ls, inv, n, i, m, j);
      }
    } else {
      var k: nat, l: nat :| k < |ls| && l < |ls| && Clash(cfg, tun, ls, k, l);
      ClashCollides(cfg, tun, ls, inv, k, l);
    }
  }

  /** A gap of at least the number of port-consuming links rules clashes out, as WithPortGap promises. */
  lemma {:induction false} GapSuffices(cfg: Config, tun: Tunnels, ls: seq<Link>)
    requires |ls| < 0x8000_0000_0000_0000 && cfg.portGap < 0x8000_0000_0000_0000
    requires PortIndex(tun, ls, |ls|) <= cfg.portGap
    ensures NoClash(cfg, tun, ls)
  {
    forall i: nat, j: nat | i < |ls| && j < |ls| ensures !Clash(cfg, tun, ls, i, j) {
      if HasEnd(tun, ls[j], Right) {
        PortIndexGrows(tun, ls, j, |ls|);
        var d := PortIndex(tun, ls, i) + cfg.portGap - PortIndex(tun, ls, j);
        RemainderUnique(d, 0, d);
      }
    }
  }

  /** When every link joins two simulated devices, the gap is also the exact limit on their number. */
  lemma {:induction false} GapIsTheLimit(cfg: Config, tun: Tunnels, ls: seq<Link>)
    requires |ls| < 0x8000_0000_0000_0000 && 0 <= cfg.portGap < 0x8000_0000_0000_0000
    requires forall l | l in ls :: TakesPort(tun, l) && l.from in tun && l.to in tun
    ensures NoClash(cfg, tun, ls) <==> |ls| <= cfg.portGap
  {
    AllTakePorts(tun, ls, |ls|);
    if |ls| <= cfg.portGap {
      GapSuffices(cfg, tun, ls);
    } else {
      var g: nat := cfg.portGap;
      AllTakePorts(tun, ls, 0);
      AllTakePorts(tun, ls, g);
      assert ls[0] in ls && ls[g] in ls;
      RemainderUnique(0, 0, 0);
      assert Clash(cfg, tun, ls, 0, g);
    }
  }

  /** For example, a gap of one is too small for two links: the port of the left end of the first is taken by the second. */
  lemma {:induction false} GapOfOneIsTooSmall()
    ensures var ls := [PlainLink("a", "eth1", "b", "eth1"), PlainLink("a", "eth2", "b", "eth2")];
      !NoClash(Config("runtopo-", 0, [], 10000, 1), map["a" := 0, "b" := 0], ls)
  {
    var ls := [PlainLink("a", "eth1", "b", "eth1"), PlainLink("a", "eth2", "b", "eth2")];
    GapIsTheLimit(Config("runtopo-", 0, [], 10000, 1), map["a" := 0, "b" := 0], ls);
  }

  lemma {:induction false} AllTakePorts(tun: Tunnels, ls: seq<Link>, k: nat)
    requires k <= |ls| && forall l | l in ls :: TakesPort(tun, l)
    ensures PortIndex(tun, ls, k) == k
  {
    if k > 0 {
      assert ls[k - 1] in ls;
      AllTakePorts(tun, ls, k - 1);
    }
  }

  ghost predicate AreMutualPeers(a: Iface, b: Iface, aTunnelIP: nat, bTunnelIP: nat) {
    && a.port == b.localPort && b.port == a.localPort
    && a.remoteTunnelIP == Some(bTunnelIP) && b.remoteTunnelIP == Some(aTunnelIP)
    && a.network == b.network == ""
  }

  /** The interfaces at the two ends of an ordinary link between simulated devices point at each other. */
  lemma {:induction false} EndsArePeers(cfg: Config, tun: Tunnels, ls: seq<Link>, k: nat)
    requires k < |ls| && TakesPort(tun, ls[k]) && ls[k].from in tun && ls[k].to in tun
    ensures AreMutualPeers(Record(cfg, tun, ls, Slot(k, Left)), Record(cfg, tun, ls, Slot(k, Right)),
                           tun[ls[k].from], tun[ls[k].to])
  {
  }

  /**
   The wiring theorem: without clashes, the two ends of an ordinary link between simulated devices
   are in the inventory, they are mutual peers, and nobody else listens where they send to.
   */
  lemma {:induction false} LinkIsWired(cfg: Config, tun: Tunnels, ls: seq<Link>, inv: Inventory, k: nat)
    returns (i: nat, j: nat)
    requires |ls| < UINT64_LIMIT && IsInventory(cfg, tun, ls, inv) && NoClash(cfg, tun, ls)
    requires k < |ls| && TakesPort(tun, ls[k]) && ls[k].from in tun && ls[k].to in tun
    ensures var n, m := ls[k].from, ls[k].to;
      && i < |inv[n]| && j < |inv[m]| && (n != m || i != j)
      && inv[n][i].name == ls[k].fromPort && inv[m][j].name == ls[k].toPort
      && AreMutualPeers(inv[n][i], inv[m][j], tun[n], tun[m])
      && (forall x, y | x in inv && 0 <= y < |inv[x]| && inv[x][y].IsTunnel() && inv[x][y].localPort == inv[n][i].port ::
            x == m && y == j)
      && (forall x, y | x in inv && 0 <= y < |inv[x]| && inv[x][y].IsTunnel() && inv[x][y].localPort == inv[m][j].port ::
            x == n && y == i)
  {
    DistinctIffNoClash(cfg, tun, ls, inv);
    EndsArePeers(cfg, tun, ls, k);
    i, j := SlotsToPlaces(cfg, tun, ls, inv, Slot(k, Left), Slot(k, Right));
  }

  // ----- MAC addresses --------------------------------------------------------------

  lemma {:induction false} MacIndexGrows(tun: Tunnels, ls: seq<Link>, i: nat, j: nat)
    requires i <= j <= |ls|
    ensures MacIndex(tun, ls, i) <= MacIndex(tun, ls, j)
    decreases j
  {
    if i < j {
      MacIndexGrows(tun, ls, i, j - 1);
    }
  }

  /** The allocations are numbered 0, 1, 2, ... in the order of the slots. */
  lemma {:induction false} MacNumbersIncrease(tun: Tunnels, ls: seq<Link>, s: Slot, t: Slot)
    requires s.link < |ls| && t.link < |ls|
    requires s.link < t.link || (s.link == t.link && s.side == Left && t.side == Right)
    requires NeedsMAC(tun, ls[s.link], s.side)
    ensures MacNumber(tun, ls, s) < MacNumber(tun, ls, t)
  {
    if s.link < t.link {
      MacIndexGrows(tun, ls, s.link + 1, t.link);
    }
  }

  lemma {:induction false} SixByteStart(cfg: Config)
    requires |cfg.macBase| == 6
    ensures MacStart(cfg) == Decode(cfg.macBase) < EUI48_LIMIT
  {
    SixByteRoundTrip(cfg.macBase);
    RemainderUnique(Decode(cfg.macBase), 0, Decode(cfg.macBase));
  }

  lemma {:induction false} AutomaticMac(cfg: Config, tun: Tunnels, ls: seq<Link>, s: Slot)
    requires s.link < |ls| && NeedsMAC(tun, ls[s.link], s.side)
    requires |cfg.macBase| == 6 && Decode(cfg.macBase) + MacIndex(tun, ls, |ls|) <= EUI48_LIMIT
    ensures Record(cfg, tun, ls, s).mac == Encode(Decode(cfg.macBase) + MacNumber(tun, ls, s), 6)
    ensures Decode(cfg.macBase) + MacNumber(tun, ls, s) < EUI48_LIMIT
  {
    SixByteStart(cfg);
    MacIndexGrows(tun, ls, s.link + 1, |ls|);
  }

  lemma {:induction false} MacNumbersDiffer(tun: Tunnels, ls: seq<Link>, s: Slot, t: Slot)
    requires s.link < |ls| && t.link < |ls| && s != t
    requires NeedsMAC(tun, ls[s.link], s.side) && NeedsMAC(tun, ls[t.link], t.side)
    ensures MacNumber(tun, ls, s) != MacNumber(tun, ls, t)
  {
    if s.link < t.link || (s.link == t.link && s.side == Left) {
      MacNumbersIncrease(tun, ls, s, t);
    } else {
      MacNumbersIncrease(tun, ls, t, s);
    }
  }

  /**
   While the base and the number of allocations stay below the EUI-48 limit, the allocation with
   number i gets the address base + i, and so no two slots get the same automatic address.
   */
  lemma {:induction false} AutomaticMacs(cfg: Config, tun: Tunnels, ls: seq<Link>, s: Slot, t: Slot)
    requires s.link < |ls| && t.link < |ls| && s != t
    requires NeedsMAC(tun, ls[s.link], s.side) && NeedsMAC(tun, ls[t.link], t.side)
    requires |cfg.macBase| == 6 && Decode(cfg.macBase) + MacIndex(tun, ls, |ls|) <= EUI48_LIMIT
    ensures Decode(Record(cfg, tun, ls, s).mac) == Decode(cfg.macBase) + MacNumber(tun, ls, s)
    ensures Record(cfg, tun, ls, s).mac != Record(cfg, tun, ls, t).mac
  {
    AutomaticMac(cfg, tun, ls, s);
    AutomaticMac(cfg, tun, ls, t);
    MacNumbersDiffer(tun, ls, s, t);
    var base := Decode(cfg.macBase);
    AddressesDiffer(Record(cfg, tun, ls, s).mac, Record(cfg, tun, ls, t).mac,
                    base + MacNumber(tun, ls, s), base + MacNumber(tun, ls, t));
  }

  /** For example, one link with two automatic addresses is too much for the base ff:ff:ff:ff:ff:ff. */
  lemma {:induction false} LastBaseIsExhausted()
    ensures MacsExhausted(Config("runtopo-", 0, [255, 255, 255, 255, 255, 255], 10000, 1000), map["a" := 0, "b" := 0],
                          [PlainLink("a", "eth1", "b", "eth1")])
  {
    var base: seq<Byte> := [255, 255, 255, 255, 255, 255];
    var cfg, tun, l := Config("runtopo-", 0, base, 10000, 1000), map["a" := 0, "b" := 0], PlainLink("a", "eth1", "b", "eth1");
    DecodeLast(base[..5], 255);
    DecodeLast(base[..4], 255);
    DecodeLast(base[..3], 255);
    DecodeLast(base[..2], 255);
    DecodeLast(base[..1], 255);
    DecodeLast([], 255);
    assert base[..5] + [255] == base && base[..4] + [255] == base[..5] && base[..3] + [255] == base[..4];
    assert base[..2] + [255] == base[..3] && base[..1] + [255] == base[..2] && [] + [255] == base[..1];
    SixByteStart(cfg);
    assert NeedsMAC(tun, l, Left) && NeedsMAC(tun, l, Right);
    assert MacIndex(tun, [l], 1) == 2;
  }

  lemma {:induction false} DecodeLast(b: seq<Byte>, x: Byte)
    ensures Decode(b + [x]) == 256 * Decode(b) + x
  {
    assert (b + [x])[..|b|] == b;
  }

  lemma {:induction false} AddressesDiffer(m: seq<Byte>, m': seq<Byte>, x: nat, y: nat)
    requires x < EUI48_LIMIT && y < EUI48_LIMIT && x != y && m == Encode(x, 6) && m' == Encode(y, 6)
    ensures Decode(m) == x && m != m'
  {
    AssignedAddress(x, y);
  }
}
