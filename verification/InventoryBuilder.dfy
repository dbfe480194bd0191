/** buildInventory (runner/libvirt/runner.go, lines 302-435). */
module InventoryBuilder {
  import opened Prelude
  import opened NaturalOrder
  import opened HardwareAddr
  import opened Graph
  import opened AutoManagement
  import opened Topology
  import opened Cabling
  import opened Hypervisor
  import opened Pairing
  import opened InterfaceOrder
  import opened RunnerState

  datatype Outcome = Ok | Error | Panic

  // ----- devices ------------------------------------------------------------------

  /** The device object agrees with the node it was made for. */
  ghost predicate Reflects(cfg: Config, d: SimDevice, t: T, n: string)
    requires t.Valid() && n in t.devs
    reads t`devs, t`objects, t.objects`mgmtIP
  {
    && d.attrs == t.devs[n].attrs && d.mgmtIP == t.devs[n].mgmtIP
    && d.tunnelIP == TunnelAddr(cfg, d.attrs)
  }

  /** The BMC of a device has been registered and listed, if it wants one. */
  ghost predicate BMCAdded(all: map<string, BMC>, bmcs: seq<HostBMC>, all': map<string, BMC>, bmcs': seq<HostBMC>,
                           n: string, devName: string, wanted: bool)
  {
    if wanted then devName in all' && all' == all[devName := all'[devName]] && bmcs' == bmcs + [HostBMC(n, all'[devName])]
    else all' == all && bmcs' == bmcs
  }

  lemma {:induction false} BMCKeys(all: map<string, BMC>, bmcs: seq<HostBMC>, all': map<string, BMC>, bmcs': seq<HostBMC>,
                                   n: string, devName: string, wanted: bool)
    requires BMCAdded(all, bmcs, all', bmcs', n, devName, wanted)
    ensures all'.Keys == all.Keys + if wanted then {devName} else {}
  {
  }

  method AddBMC(r: Runner, n: string, devName: string) returns (ok: bool)
    requires r.bmcMan.Valid()
    modifies r`bmcs, r.bmcMan`all, r.bmcMan`nextPort, r.bmcMan`order
    ensures r.bmcMan.Valid()
    ensures ok <==> devName !in old(r.bmcMan.all)
    ensures ok ==> BMCAdded(old(r.bmcMan.all), old(r.bmcs), r.bmcMan.all, r.bmcs, n, devName, true)
    ensures !ok ==> r.bmcs == old(r.bmcs)
  {
    var bmc := r.bmcMan.Add(devName);
    if bmc.Some? {
      r.bmcs := r.bmcs + [HostBMC(n, bmc.value)];
    }
    return bmc.Some?;
  }

  /** The body of the loop over the devices. */
  method AddDevice(r: Runner, t: T, n: string) returns (ok: bool, ghost added: set<SimDevice>)
    requires r.Valid() && t.Valid() && r.bmcMan.Valid() && n in t.devs && t.devs[n].attrs.role != Fake
    modifies r`devices, r`objects, r`bmcs, r.bmcMan`all, r.bmcMan`nextPort, r.bmcMan`order
    ensures r.Valid() && r.bmcMan.Valid() && r.objects == old(r.objects) + added && fresh(added)
    ensures ok <==> DeviceOK(r.cfg, n, t.devs[n].attrs, old(r.bmcMan.all.Keys))
    ensures ok ==>
      && n in r.devices && r.devices == old(r.devices)[n := r.devices[n]]
      && fresh(r.devices[n]) && r.devices[n].interfaces == [] && Reflects(r.cfg, r.devices[n], t, n)
      && BMCAdded(old(r.bmcMan.all), old(r.bmcs), r.bmcMan.all, r.bmcs, n, r.cfg.namePrefix + n, t.devs[n].attrs.bmc)
    ensures !ok ==> r.devices == old(r.devices)
  {
    added := {};
    var topoDev := t.devs[n];
    var tunnelIP := r.cfg.tunnelIP;
    if !topoDev.attrs.tunnelIP.Missing? {
      if topoDev.attrs.tunnelIP.Malformed? {
        return false, added;
      }
      tunnelIP := topoDev.attrs.tunnelIP.v;
    }
    if topoDev.attrs.config.Malformed? {
      return false, added;
    }
    var devName := r.cfg.namePrefix + n;
    if topoDev.attrs.bmc {
      ok := AddBMC(r, n, devName);
      if !ok {
        return;
      }
    }
    var d := new SimDevice(devName, tunnelIP, topoDev.attrs, topoDev.mgmtIP);
    r.devices, r.objects := r.devices[n := d], r.objects + {d};
    return true, {d};
  }

  /** The devices of s have been set up, and none of the others has been touched. */
  ghost predicate Created(r: Runner, t: T, s: set<string>)
    requires r.Valid() && t.Valid()
    reads r`devices, r`objects, r.objects`interfaces, t`devs, t`objects, t.objects`mgmtIP
  {
    forall n | n in s :: n in t.devs && n in r.devices && r.devices[n].interfaces == [] && Reflects(r.cfg, r.devices[n], t, n)
  }

  /** The BMC manager knows what it knew before and the BMCs of done, whose devices were all usable. */
  ghost predicate RegisteredSoFar(r: Runner, nodes: Nodes, registered: set<string>, done: set<string>)
    reads r.bmcMan
  {
    && r.bmcMan.Valid() && r.bmcMan.all.Keys == registered + BMCNames(r.cfg, nodes, done)
    && forall n | n in done :: n in nodes && DeviceOK(r.cfg, n, nodes[n], registered)
  }

  /** Behind what it had before, the list of BMCs has those of done. */
  ghost predicate ListedSoFar(cfg: Config, nodes: Nodes, before: seq<HostBMC>, bmcs: seq<HostBMC>,
                              all: map<string, BMC>, done: set<string>)
  {
    before <= bmcs && IsListOf(cfg.namePrefix, bmcs[|before|..], BMCDevices(nodes, done), all)
  }

  lemma {:induction false} ListedNext(cfg: Config, nodes: Nodes, before: seq<HostBMC>,
                                      bmcs: seq<HostBMC>, all: map<string, BMC>,
                                      bmcs': seq<HostBMC>, all': map<string, BMC>, done: set<string>, n: string)
    requires ListedSoFar(cfg, nodes, before, bmcs, all, done) && n in nodes && n !in done
    requires BMCAdded(all, bmcs, all', bmcs', n, cfg.namePrefix + n, nodes[n].bmc)
    requires nodes[n].bmc ==> cfg.namePrefix + n !in all
    ensures ListedSoFar(cfg, nodes, before, bmcs', all', done + {n})
  {
    assert BMCDevices(nodes, done + {n}) == BMCDevices(nodes, done) + if nodes[n].bmc then {n} else {};
    if nodes[n].bmc {
      ListOfNext(cfg.namePrefix, bmcs[|before|..], BMCDevices(nodes, done), all, n, all'[cfg.namePrefix + n]);
      assert bmcs'[|before|..] == bmcs[|before|..] + [HostBMC(n, all'[cfg.namePrefix + n])];
    }
  }

  /** The devices are those of done, and otherwise those of before. */
  ghost predicate Kept(devices: map<string, SimDevice>, before: map<string, SimDevice>, done: set<string>) {
    devices.Keys == before.Keys + done && forall n | n in devices && n !in done :: devices[n] == before[n]
  }

  lemma {:induction false} KeptNext(devices: map<string, SimDevice>, before: map<string, SimDevice>, done: set<string>,
                                    n: string, d: SimDevice)
    requires Kept(devices, before, done)
    ensures Kept(devices[n := d], before, done + {n})
  {
  }

  /** The devices of done exist, without interfaces; the others are those of before. */
  ghost predicate CreatedSoFar(r: Runner, t: T, before: map<string, SimDevice>, done: set<string>)
    requires r.Valid() && t.Valid()
    reads r`devices, r`objects, r.objects`interfaces, t`devs, t`objects, t.objects`mgmtIP
  {
    Kept(r.devices, before, done) && Created(r, t, done)
  }

  lemma {:induction false} RegisterNext(cfg: Config, nodes: Nodes, registered: set<string>, done: set<string>, n: string)
    requires n in nodes && n !in done
    ensures DeviceOK(cfg, n, nodes[n], registered + BMCNames(cfg, nodes, done)) <==> DeviceOK(cfg, n, nodes[n], registered)
    ensures registered + BMCNames(cfg, nodes, done + {n}) ==
      registered + BMCNames(cfg, nodes, done) + if nodes[n].bmc then {cfg.namePrefix + n} else {}
  {
    BMCNamesNext(cfg, nodes, done, n);
  }

  method CreateNext(r: Runner, t: T, n: string, ghost nodes: Nodes, ghost before: map<string, SimDevice>,
                    ghost registered: set<string>, ghost listed: seq<HostBMC>, ghost done: set<string>)
    returns (ok: bool, ghost added: set<SimDevice>)
    requires r.Valid() && t.Valid() && nodes == t.Nodes()
    requires n in Simulated(nodes) && n !in done
    requires RegisteredSoFar(r, nodes, registered, done) && CreatedSoFar(r, t, before, done)
    requires ListedSoFar(r.cfg, nodes, listed, r.bmcs, r.bmcMan.all, done)
    modifies r`devices, r`objects, r`bmcs, r.bmcMan`all, r.bmcMan`nextPort, r.bmcMan`order
    ensures r.Valid() && r.bmcMan.Valid() && r.objects == old(r.objects) + added && fresh(added)
    ensures ok ==> RegisteredSoFar(r, nodes, registered, done + {n}) && CreatedSoFar(r, t, before, done + {n})
    ensures ok ==> ListedSoFar(r.cfg, nodes, listed, r.bmcs, r.bmcMan.all, done + {n})
    ensures !ok ==> !DeviceOK(r.cfg, n, nodes[n], registered) && r.devices == old(r.devices)
  {
    RegisterNext(r.cfg, nodes, registered, done, n);
    ghost var bmcs, all := r.bmcs, r.bmcMan.all;
    ok, added := CreateKeeping(r, t, n, before, done);
    if ok {
      BMCKeys(all, bmcs, r.bmcMan.all, r.bmcs, n, r.cfg.namePrefix + n, nodes[n].bmc);
      ListedNext(r.cfg, nodes, listed, bmcs, all, r.bmcs, r.bmcMan.all, done, n);
    }
  }

  /** The next device, with what that does to the others. */
  method CreateKeeping(r: Runner, t: T, n: string, ghost before: map<string, SimDevice>, ghost done: set<string>)
    returns (ok: bool, ghost added: set<SimDevice>)
    requires r.Valid() && t.Valid() && r.bmcMan.Valid() && n in t.devs && t.devs[n].attrs.role != Fake && n !in done
    requires CreatedSoFar(r, t, before, done)
    modifies r`devices, r`objects, r`bmcs, r.bmcMan`all, r.bmcMan`nextPort, r.bmcMan`order
    ensures r.Valid() && r.bmcMan.Valid() && r.objects == old(r.objects) + added && fresh(added)
    ensures ok <==> DeviceOK(r.cfg, n, t.devs[n].attrs, old(r.bmcMan.all.Keys))
    ensures ok ==> CreatedSoFar(r, t, before, done + {n})
    ensures ok ==>
      BMCAdded(old(r.bmcMan.all), old(r.bmcs), r.bmcMan.all, r.bmcs, n, r.cfg.namePrefix + n, t.devs[n].attrs.bmc)
    ensures !ok ==> r.devices == old(r.devices)
  {
    ghost var devices := r.devices;
    ok, added := AddDevice(r, t, n);
    if ok {
      KeptNext(devices, before, done, n, r.devices[n]);
    }
  }

  lemma {:induction false} UnionAssociative(a: set<SimDevice>, b: set<SimDevice>, c: set<SimDevice>)
    ensures (a + b) + c == a + (b + c)
  {
  }

  /** The loop over the devices. Devices of other topologies stay as they are. */
  method CreateDevices(r: Runner, t: T, ghost nodes: Nodes) returns (ok: bool, ghost added: set<SimDevice>)
    requires r.Valid() && t.Valid() && r.bmcMan.Valid() && nodes == t.Nodes()
    modifies r`devices, r`objects, r`bmcs, r.bmcMan`all, r.bmcMan`nextPort, r.bmcMan`order
    ensures r.Valid() && r.bmcMan.Valid() && r.objects == old(r.objects) + added && fresh(added)
    ensures ok <==> DevicesOK(r.cfg, nodes, old(r.bmcMan.all.Keys))
    ensures r.devices.Keys <= old(r.devices.Keys) + Simulated(nodes)
    ensures ok ==>
      && RegisteredSoFar(r, nodes, old(r.bmcMan.all.Keys), Simulated(nodes))
      && CreatedSoFar(r, t, old(r.devices), Simulated(nodes))
      && ListedSoFar(r.cfg, nodes, old(r.bmcs), r.bmcs, r.bmcMan.all, Simulated(nodes))
  {
    var todo := t.devs.Keys;
    ghost var registered, before, listed := r.bmcMan.all.Keys, r.devices, r.bmcs;
    ghost var done: set<string> := {};
    added := {};
    assert BMCNames(r.cfg, nodes, {}) == {} && registered + {} == registered;
    assert BMCDevices(nodes, {}) == {} && listed[|listed|..] == [];
    while todo != {}
      invariant r.Valid() && r.objects == old(r.objects) + added && fresh(added)
      invariant todo <= nodes.Keys && done == Simulated(nodes) - todo
      invariant RegisteredSoFar(r, nodes, registered, done) && CreatedSoFar(r, t, before, done)
      invariant ListedSoFar(r.cfg, nodes, listed, r.bmcs, r.bmcMan.all, done)
      decreases todo
    {
      var n :| n in todo;
      ghost var one: set<SimDevice>;
      ok, done, one := CreateOrSkip(r, t, n, nodes, before, registered, listed, todo, done);
      UnionAssociative(old(r.objects), added, one);
      assert fresh(one);
      forall d | d in added + one ensures fresh(d) {
        assert d in added || d in one;
      }
      added := added + one;
      if !ok {
        return;
      }
      todo := todo - {n};
    }
    assert done == Simulated(nodes);
    return true, added;
  }

  /** The body of the loop: a fake device is skipped. */
  method CreateOrSkip(r: Runner, t: T, n: string, ghost nodes: Nodes, ghost before: map<string, SimDevice>,
                      ghost registered: set<string>, ghost listed: seq<HostBMC>,
                      ghost todo: set<string>, ghost done: set<string>)
    returns (ok: bool, ghost done': set<string>, ghost added: set<SimDevice>)
    requires r.Valid() && t.Valid() && nodes == t.Nodes()
    requires n in todo && todo <= nodes.Keys && done == Simulated(nodes) - todo
    requires RegisteredSoFar(r, nodes, registered, done) && CreatedSoFar(r, t, before, done)
    requires ListedSoFar(r.cfg, nodes, listed, r.bmcs, r.bmcMan.all, done)
    modifies r`devices, r`objects, r`bmcs, r.bmcMan`all, r.bmcMan`nextPort, r.bmcMan`order
    ensures r.Valid() && r.bmcMan.Valid() && r.objects == old(r.objects) + added && fresh(added)
    ensures ok ==>
      && done' == Simulated(nodes) - (todo - {n})
      && RegisteredSoFar(r, nodes, registered, done') && CreatedSoFar(r, t, before, done')
      && ListedSoFar(r.cfg, nodes, listed, r.bmcs, r.bmcMan.all, done')
    ensures !ok ==> !DevicesOK(r.cfg, nodes, registered) && r.devices == old(r.devices)
  {
    if t.devs[n].attrs.role == Fake {
      assert Simulated(nodes) - (todo - {n}) == done;
      return true, done, {};
    }
    assert n in Simulated(nodes) && Simulated(nodes) - (todo - {n}) == done + {n};
    ok, added := CreateNext(r, t, n, nodes, before, registered, listed, done);
    done' := done + {n};
  }

  // ----- links --------------------------------------------------------------------

  /** The device objects are those of the tunnels. */
  ghost predicate Holds(r: Runner, tun: Tunnels)
    reads r`devices
  {
    r.devices.Keys == tun.Keys && forall n | n in tun :: r.devices[n].tunnelIP == tun[n]
  }

  /** The closure allocateMAC; None is the panic of macAddrFromUint64. */
  method AllocateMAC(macInt: nat) returns (mac: Option<seq<Byte>>, next: nat)
    requires macInt < UINT64_LIMIT
    ensures mac.None? <==> macInt >= EUI48_LIMIT
    ensures mac.Some? ==> mac.value == Encode(macInt, 6) && next == macInt + 1
  {
    mac := MacAddrFromUint64(macInt);
    next := Wrap(macInt + 1);
    if mac.Some? {
      RemainderUnique(macInt + 1, 0, macInt + 1);
    }
  }

  /** No other device has this object. */
  lemma {:induction false} OneDeviceEach(r: Runner, n: string)
    requires r.Valid() && n in r.devices
    ensures forall m | m in r.devices && m != n :: r.devices[m] != r.devices[n]
  {
    forall m | m in r.devices && r.devices[m] == r.devices[n] ensures m == n {
      PrefixInjective(r.cfg.namePrefix, m, n);
    }
  }

  /** "from.interfaces = append(from.interfaces, ...)", for the device called n. */
  method AppendIface(r: Runner, n: string, x: Iface)
    requires r.Valid() && n in r.devices
    modifies r.objects`interfaces
    ensures forall m | m in r.devices ::
      r.devices[m].interfaces == old(r.devices[m].interfaces) + if m == n then [x] else []
  {
    OneDeviceEach(r, n);
    var d := r.devices[n];
    d.interfaces := d.interfaces + [x];
    assert forall m | m in r.devices && m != n :: r.devices[m].interfaces + [] == old(r.devices[m].interfaces);
  }

  datatype Progress = Onward | NextLink | Panicked

  /** The first half of the loop body: the interface at the left end. NextLink is "continue". */
  method ConnectLeft(r: Runner, ls: seq<Link>, i: nat, macInt: nat, nextPort: nat, ghost tun: Tunnels)
    returns (res: Progress, next: nat)
    requires r.Valid() && Holds(r, tun) && i < |ls|
    requires macInt == MacStart(r.cfg) + MacIndex(tun, ls, i) < UINT64_LIMIT
    requires nextPort == LowerPort(r.cfg, PortIndex(tun, ls, i))
    modifies r.objects`interfaces
    ensures res == Panicked <==> NeedsMAC(tun, ls[i], Left) && macInt >= EUI48_LIMIT
    ensures res != Panicked ==>
      && (res == Onward <==> TakesPort(tun, ls[i]))
      && next == macInt + (if NeedsMAC(tun, ls[i], Left) then 1 else 0)
      && forall n | n in r.devices ::
           r.devices[n].interfaces == old(r.devices[n].interfaces) + EndRecords(r.cfg, tun, ls, Slot(i, Left), n)
  {
    var l := ls[i];
    next := macInt;
    if l.from !in r.devices {
      return Onward, next;
    }
    var mac := l.fromMAC;
    if mac.None? {
      mac, next := AllocateMAC(macInt);
      if mac.None? {
        return Panicked, next;
      }
    }
    if (l.from == SERVER || l.from == SWITCH) && l.to == "" {
      AppendIface(r, l.from, Iface(l.fromPort, mac.value, "default", 0, 0, None, false));
      return NextLink, next;
    }
    if l.libvirtNetwork {
      AppendIface(r, l.from, Iface(l.fromPort, mac.value, l.to, 0, 0, None, false));
      return NextLink, next;
    }
    var toTunnelIP := r.cfg.tunnelIP;
    if l.to in r.devices {
      toTunnelIP := r.devices[l.to].tunnelIP;
    }
    PortSteps(r.cfg, PortIndex(tun, ls, i));
    AppendIface(r, l.from, Iface(l.fromPort, mac.value, "", nextPort, Wrap(nextPort + Wrap(r.cfg.portGap)),
                                 Some(toTunnelIP), l.leftPXE));
    return Onward, next;
  }

  /** The second half: the interface at the right end. The result is false for a panic. */
  method ConnectRight(r: Runner, ls: seq<Link>, i: nat, macInt: nat, nextPort: nat, ghost tun: Tunnels)
    returns (ok: bool, next: nat)
    requires r.Valid() && Holds(r, tun) && i < |ls| && TakesPort(tun, ls[i])
    requires macInt == MacStart(r.cfg) + MacNumber(tun, ls, Slot(i, Right)) < UINT64_LIMIT
    requires nextPort == LowerPort(r.cfg, PortIndex(tun, ls, i))
    modifies r.objects`interfaces
    ensures ok <==> !(NeedsMAC(tun, ls[i], Right) && macInt >= EUI48_LIMIT)
    ensures ok ==>
      && next == macInt + (if NeedsMAC(tun, ls[i], Right) then 1 else 0)
      && forall n | n in r.devices ::
           r.devices[n].interfaces == old(r.devices[n].interfaces) + EndRecords(r.cfg, tun, ls, Slot(i, Right), n)
  {
    var l := ls[i];
    next := macInt;
    var fromTunnelIP := r.cfg.tunnelIP;
    if l.from in r.devices {
      fromTunnelIP := r.devices[l.from].tunnelIP;
    }
    if l.to !in r.devices {
      return true, next;
    }
    var mac := l.toMAC;
    if mac.None? {
      mac, next := AllocateMAC(macInt);
      if mac.None? {
        return false, next;
      }
    }
    PortSteps(r.cfg, PortIndex(tun, ls, i));
    AppendIface(r, l.to, Iface(l.toPort, mac.value, "", Wrap(nextPort + Wrap(r.cfg.portGap)), nextPort,
                               Some(fromTunnelIP), l.rightPXE));
    return true, next;
  }

  /** The body of the loop over the links. The result is false for a panic. */
  method ConnectLink(r: Runner, ls: seq<Link>, i: nat, macInt: nat, nextPort: nat, ghost tun: Tunnels)
    returns (ok: bool, mac: nat, port: nat)
    requires r.Valid() && Holds(r, tun) && i < |ls|
    requires macInt == MacStart(r.cfg) + MacIndex(tun, ls, i) && FitsSoFar(r.cfg, tun, ls, i)
    requires nextPort == LowerPort(r.cfg, PortIndex(tun, ls, i))
    modifies r.objects`interfaces
    ensures ok <==> FitsSoFar(r.cfg, tun, ls, i + 1)
    ensures ok ==>
      && mac == MacStart(r.cfg) + MacIndex(tun, ls, i + 1)
      && port == LowerPort(r.cfg, PortIndex(tun, ls, i + 1))
      && forall n | n in r.devices ::
           r.devices[n].interfaces == old(r.devices[n].interfaces) + LinkRecords(r.cfg, tun, ls, i, n)
  {
    mac, port := macInt, nextPort;
    var left, afterLeft := ConnectLeft(r, ls, i, macInt, nextPort, tun);
    if left == Panicked {
      return false, mac, port;
    }
    mac := afterLeft;
    if left == NextLink {
      return true, mac, port;
    }
    ok, mac := ConnectRight(r, ls, i, afterLeft, nextPort, tun);
    if ok {
      forall n | n in r.devices
        ensures r.devices[n].interfaces == old(r.devices[n].interfaces) + LinkRecords(r.cfg, tun, ls, i, n)
      {
        AppendAssociative(old(r.devices[n].interfaces), EndRecords(r.cfg, tun, ls, Slot(i, Left), n),
                          EndRecords(r.cfg, tun, ls, Slot(i, Right), n));
      }
    }
    PortSteps(r.cfg, PortIndex(tun, ls, i));
    port := Wrap(nextPort + 1);
  }

  /** The interface lists of all devices. */
  ghost function Lists(r: Runner): Inventory
    requires r.Valid()
    reads r`devices, r`objects, r.objects`interfaces
  {
    map n | n in r.devices :: r.devices[n].interfaces
  }

  /** The lists after the loop over the links, if they were start before it. */
  ghost function Grown(cfg: Config, tun: Tunnels, ls: seq<Link>, start: Inventory): Inventory {
    map n | n in start :: start[n] + Ifaces(cfg, tun, ls, |ls|, n)
  }

  /** Every device has the interfaces it started with and those of the first i links. */
  ghost predicate Connected(r: Runner, start: Inventory, tun: Tunnels, ls: seq<Link>, i: nat)
    requires r.Valid() && i <= |ls|
    reads r`devices, r`objects, r.objects`interfaces
  {
    && start.Keys == r.devices.Keys
    && forall n | n in r.devices :: r.devices[n].interfaces == start[n] + Ifaces(r.cfg, tun, ls, i, n)
  }

  method ConnectNext(r: Runner, ls: seq<Link>, i: nat, macInt: nat, nextPort: nat,
                     ghost start: Inventory, ghost tun: Tunnels)
    returns (ok: bool, mac: nat, port: nat)
    requires r.Valid() && Holds(r, tun) && i < |ls| && Connected(r, start, tun, ls, i)
    requires macInt == MacStart(r.cfg) + MacIndex(tun, ls, i) && FitsSoFar(r.cfg, tun, ls, i)
    requires nextPort == LowerPort(r.cfg, PortIndex(tun, ls, i))
    modifies r.objects`interfaces
    ensures ok <==> FitsSoFar(r.cfg, tun, ls, i + 1)
    ensures ok ==>
      && mac == MacStart(r.cfg) + MacIndex(tun, ls, i + 1)
      && port == LowerPort(r.cfg, PortIndex(tun, ls, i + 1))
      && Connected(r, start, tun, ls, i + 1)
  {
    ok, mac, port := ConnectLink(r, ls, i, macInt, nextPort, tun);
    if ok {
      forall n | n in r.devices ensures r.devices[n].interfaces == start[n] + Ifaces(r.cfg, tun, ls, i + 1, n) {
        IfacesAppend(r.cfg, tun, ls, i, n);
        AppendAssociative(start[n], Ifaces(r.cfg, tun, ls, i, n), LinkRecords(r.cfg, tun, ls, i, n));
      }
    }
  }

  /** The loop over the links. The result is false for a panic. */
  method ConnectLinks(r: Runner, ls: seq<Link>, ghost tun: Tunnels) returns (ok: bool)
    requires r.Valid() && Holds(r, tun)
    modifies r.objects`interfaces
    ensures ok <==> !MacsExhausted(r.cfg, tun, ls)
    ensures ok ==> Lists(r) == Grown(r.cfg, tun, ls, old(Lists(r)))
  {
    ghost var start := Lists(r);
    var macInt := Fold(r.cfg.macBase);
    var nextPort := Wrap(r.cfg.portBase);
    PortSteps(r.cfg, 0);
    for i := 0 to |ls|
      invariant macInt == MacStart(r.cfg) + MacIndex(tun, ls, i) && FitsSoFar(r.cfg, tun, ls, i)
      invariant nextPort == LowerPort(r.cfg, PortIndex(tun, ls, i))
      invariant Connected(r, start, tun, ls, i)
    {
      ok, macInt, nextPort := ConnectNext(r, ls, i, macInt, nextPort, start, tun);
      if !ok {
        MacIndexGrows(tun, ls, i + 1, |ls|);
        return;
      }
    }
    ok := true;
  }

  // ----- the final sort -------------------------------------------------------------

  /** The lists are those of goal in another order, and those of done are sorted. */
  ghost predicate SortedUpTo(goal: Inventory, inv: Inventory, done: set<string>) {
    && inv.Keys == goal.Keys
    && forall n | n in inv :: IsPermutation(inv[n], goal[n]) && (n in done ==> Sorted(inv[n]))
  }

  lemma {:induction false} SortedStep(goal: Inventory, inv: Inventory, done: set<string>, n: string, xs: seq<Iface>)
    requires SortedUpTo(goal, inv, done) && n in inv && IsPermutation(xs, inv[n]) && Sorted(xs)
    ensures SortedUpTo(goal, inv[n := xs], done + {n})
  {
  }

  /** No list has two port names on which the comparator panics. */
  ghost predicate AllComparable(inv: Inventory) {
    forall n | n in inv :: Comparable(inv[n])
  }

  /** The lists that only consist of interfaces of the links. */
  ghost function FromLinks(cfg: Config, tun: Tunnels, ls: seq<Link>): Inventory {
    map n | n in tun :: Ifaces(cfg, tun, ls, |ls|, n)
  }

  /** No device of a topology has two port names on which the comparator panics. */
  ghost predicate NamesComparable(cfg: Config, tun: Tunnels, ls: seq<Link>) {
    AllComparable(FromLinks(cfg, tun, ls))
  }

  /** The digit runs in the port names of the links fit an int. */
  ghost predicate PortNamesFit(ls: seq<Link>) {
    forall l | l in ls :: DigitRunsFit(l.fromPort) && DigitRunsFit(l.toPort)
  }

  lemma {:induction false} FittingPortsComparable(cfg: Config, tun: Tunnels, ls: seq<Link>)
    requires PortNamesFit(ls)
    ensures NamesComparable(cfg, tun, ls)
  {
    forall n | n in tun ensures Comparable(Ifaces(cfg, tun, ls, |ls|, n)) {
      IfaceNamesFit(cfg, tun, ls, n);
    }
  }

  lemma {:induction false} IfaceNamesFit(cfg: Config, tun: Tunnels, ls: seq<Link>, n: string)
    requires PortNamesFit(ls)
    ensures Comparable(Ifaces(cfg, tun, ls, |ls|, n))
  {
    var ys := Ifaces(cfg, tun, ls, |ls|, n);
    forall x | x in ys ensures DigitRunsFit(x.name) {
      var i :| 0 <= i < |ys| && ys[i] == x;
      var s := PositionSlot(cfg, tun, ls, n, i);
      assert ls[s.link] in ls;
    }
    FittingNamesComparable(ys);
  }

  method SetInterfaces(r: Runner, n: string, xs: seq<Iface>)
    requires r.Valid() && n in r.devices
    modifies r.objects`interfaces
    ensures Lists(r) == old(Lists(r))[n := xs]
  {
    OneDeviceEach(r, n);
    r.devices[n].interfaces := xs;
  }

  method SortOne(r: Runner, n: string, ghost goal: Inventory, ghost done: set<string>) returns (ok: bool)
    requires r.Valid() && n in r.devices && SortedUpTo(goal, Lists(r), done)
    modifies r.objects`interfaces
    ensures ok ==> SortedUpTo(goal, Lists(r), done + {n})
    ensures !ok ==> !AllComparable(goal)
  {
    ghost var inv := Lists(r);
    var sorted := SortInterfaces(r.devices[n].interfaces);
    if sorted.None? {
      if Comparable(goal[n]) {
        ComparablePermutation(inv[n], goal[n]);
      }
      return false;
    }
    SortedStep(goal, inv, done, n, sorted.value);
    SetInterfaces(r, n, sorted.value);
    return true;
  }

  /** The loop over the devices that sorts their interfaces. The result is false for a panic. */
  method SortAll(r: Runner) returns (ok: bool)
    requires r.Valid()
    modifies r.objects`interfaces
    ensures ok ==> SortedUpTo(old(Lists(r)), Lists(r), r.devices.Keys)
    ensures !ok ==> !AllComparable(old(Lists(r)))
  {
    var todo := r.devices.Keys;
    ghost var goal, done := Lists(r), {};
    while todo != {}
      invariant done + todo == r.devices.Keys
      invariant SortedUpTo(goal, Lists(r), done)
      decreases todo
    {
      var n :| n in todo;
      ok := SortOne(r, n, goal, done);
      if !ok {
        return;
      }
      todo, done := todo - {n}, done + {n};
    }
    return true;
  }

  // ----- buildInventory -------------------------------------------------------------

  /** What a successful buildInventory leaves in the runner. */
  ghost predicate Built(r: Runner, t: T)
    requires r.Valid() && t.Valid()
    reads r`devices, r`objects, r.objects`interfaces, t`devs, t`objects, t.objects`mgmtIP, t`mgmtLinks
  {
    && r.devices.Keys == Simulated(t.Nodes())
    && (forall n | n in r.devices :: n in t.devs && Reflects(r.cfg, r.devices[n], t, n))
    && IsInventory(r.cfg, TunnelsOf(r.cfg, t.Nodes()), t.Links(), Lists(r))
    && (forall n | n in r.devices :: Sorted(r.devices[n].interfaces))
  }

  /** The devices a runner holds before buildInventory, their tunnel addresses, and the interfaces they start with. */
  datatype Stock = Stock(devices: map<string, SimDevice>, tunnels: Tunnels, lists: Inventory)
  {
    ghost function Tunnels(cfg: Config, nodes: Nodes): Tunnels {
      tunnels + TunnelsOf(cfg, nodes)
    }

    ghost function Goal(cfg: Config, nodes: Nodes, ls: seq<Link>): Inventory {
      Grown(cfg, Tunnels(cfg, nodes), ls, lists)
    }
  }

  /** Every device of the topology starts without interfaces, a device of another one with those it had. */
  ghost function StockOf(r: Runner, nodes: Nodes): Stock
    requires r.Valid()
    reads r`devices, r`objects, r.objects`interfaces
  {
    Stock(r.devices, KnownTunnels(r.devices),
          map n | n in r.devices.Keys + Simulated(nodes) :: if n in Simulated(nodes) then [] else r.devices[n].interfaces)
  }

  ghost function KnownTunnels(devices: map<string, SimDevice>): Tunnels {
    map n | n in devices :: devices[n].tunnelIP
  }

  /** The runner has new devices for the nodes, and otherwise those it had before. */
  ghost predicate Stocked(r: Runner, t: T, nodes: Nodes, before: map<string, SimDevice>)
    requires t.Valid()
    reads r`devices, t`devs, t`objects, t.objects`mgmtIP
  {
    && Kept(r.devices, before, Simulated(nodes))
    && forall n | n in Simulated(nodes) :: n in t.devs && n in r.devices && Reflects(r.cfg, r.devices[n], t, n)
  }

  lemma {:induction false} StockedTunnels(r: Runner, t: T, nodes: Nodes, before: map<string, SimDevice>)
    requires t.Valid() && nodes == t.Nodes() && Stocked(r, t, nodes, before)
    ensures Holds(r, KnownTunnels(before) + TunnelsOf(r.cfg, nodes))
  {
  }

  /** The loop over the devices, with what it leaves for the loop over the links. */
  method CreateInventory(r: Runner, t: T, ghost nodes: Nodes, ghost stock: Stock) returns (ok: bool)
    requires r.Valid() && t.Valid() && r.bmcMan.Valid() && nodes == t.Nodes() && stock == StockOf(r, nodes)
    modifies r`devices, r`objects, r`bmcs, r.bmcMan`all, r.bmcMan`nextPort, r.bmcMan`order
    ensures r.Valid() && r.bmcMan.Valid() && r.objects >= old(r.objects) && fresh(r.objects - old(r.objects))
    ensures r.devices.Keys <= stock.devices.Keys + Simulated(nodes)
    ensures ok <==> DevicesOK(r.cfg, nodes, old(r.bmcMan.all.Keys))
    ensures ok ==>
      && Stocked(r, t, nodes, stock.devices) && Lists(r) == stock.lists
      && r.bmcMan.all.Keys == old(r.bmcMan.all.Keys) + BMCNames(r.cfg, nodes, Simulated(nodes))
      && ListedSoFar(r.cfg, nodes, old(r.bmcs), r.bmcs, r.bmcMan.all, Simulated(nodes))
  {
    ghost var added;
    ok, added := CreateDevices(r, t, nodes);
    if ok {
      forall n | n in r.devices ensures r.devices[n].interfaces == stock.lists[n] {
        if n !in Simulated(nodes) {
          assert r.devices[n] == stock.devices[n];
        }
      }
    }
  }

  /**
   buildInventory, on a runner that may hold devices already: those of other topologies keep their
   interfaces, get those of links that name them, and count in the numbering.
   */
  method BuildInventory(r: Runner, t: T, ghost nodes: Nodes, ghost stock: Stock) returns (res: Outcome)
    requires r.Valid() && t.Valid() && r.bmcMan.Valid() && nodes == t.Nodes() && stock == StockOf(r, nodes)
    modifies r`devices, r`objects, r`bmcs, r.bmcMan`all, r.bmcMan`nextPort, r.bmcMan`order, r.objects`interfaces
    ensures r.Valid() && r.bmcMan.Valid() && r.objects >= old(r.objects) && fresh(r.objects - old(r.objects))
    ensures r.devices.Keys <= stock.devices.Keys + Simulated(nodes)
    ensures res == Error <==> !DevicesOK(r.cfg, nodes, old(r.bmcMan.all.Keys))
    ensures res == Panic ==>
      || MacsExhausted(r.cfg, stock.Tunnels(r.cfg, nodes), t.Links())
      || !AllComparable(stock.Goal(r.cfg, nodes, t.Links()))
    ensures res == Ok ==>
      && !MacsExhausted(r.cfg, stock.Tunnels(r.cfg, nodes), t.Links())
      && Stocked(r, t, nodes, stock.devices)
      && SortedUpTo(stock.Goal(r.cfg, nodes, t.Links()), Lists(r), r.devices.Keys)
      && r.bmcMan.all.Keys == old(r.bmcMan.all.Keys) + BMCNames(r.cfg, nodes, Simulated(nodes))
      && ListedSoFar(r.cfg, nodes, old(r.bmcs), r.bmcs, r.bmcMan.all, Simulated(nodes))
  {
    var ok := CreateInventory(r, t, nodes, stock);
    if !ok {
      return Error;
    }
    ok := ConnectInventory(r, t, nodes, stock);
    return if ok then Ok else Panic;
  }

  /** The other two loops, with what they leave alone. The result is false for a panic. */
  method ConnectInventory(r: Runner, t: T, ghost nodes: Nodes, ghost stock: Stock) returns (ok: bool)
    requires r.Valid() && t.Valid() && nodes == t.Nodes() && Lists(r) == stock.lists
    requires stock.tunnels == KnownTunnels(stock.devices) && Stocked(r, t, nodes, stock.devices)
    modifies r.objects`interfaces
    ensures Stocked(r, t, nodes, stock.devices)
    ensures ok ==> !MacsExhausted(r.cfg, stock.Tunnels(r.cfg, nodes), t.Links())
    ensures ok ==> SortedUpTo(stock.Goal(r.cfg, nodes, t.Links()), Lists(r), r.devices.Keys)
    ensures !ok ==>
      || MacsExhausted(r.cfg, stock.Tunnels(r.cfg, nodes), t.Links())
      || !AllComparable(stock.Goal(r.cfg, nodes, t.Links()))
  {
    StockedTunnels(r, t, nodes, stock.devices);
    ok := ConnectAndSort(r, t.Links(), stock.Tunnels(r.cfg, nodes));
  }

  /** The loop over the links and the final sort. The result is false for a panic. */
  method ConnectAndSort(r: Runner, ls: seq<Link>, ghost tun: Tunnels) returns (ok: bool)
    requires r.Valid() && Holds(r, tun)
    modifies r.objects`interfaces
    ensures ok ==> !MacsExhausted(r.cfg, tun, ls)
    ensures ok ==> SortedUpTo(Grown(r.cfg, tun, ls, old(Lists(r))), Lists(r), r.devices.Keys)
    ensures !ok ==> MacsExhausted(r.cfg, tun, ls) || !AllComparable(Grown(r.cfg, tun, ls, old(Lists(r))))
  {
    ok := ConnectLinks(r, ls, tun);
    if ok {
      ok := SortAll(r);
    }
  }

  // ----- a runner without devices of other topologies ---------------------------------

  lemma {:induction false} GrownFromNothing(cfg: Config, tun: Tunnels, ls: seq<Link>, start: Inventory)
    requires start.Keys == tun.Keys && forall n | n in start :: start[n] == []
    ensures Grown(cfg, tun, ls, start) == FromLinks(cfg, tun, ls)
  {
    forall n | n in start ensures start[n] + Ifaces(cfg, tun, ls, |ls|, n) == Ifaces(cfg, tun, ls, |ls|, n) {
      assert [] + Ifaces(cfg, tun, ls, |ls|, n) == Ifaces(cfg, tun, ls, |ls|, n);
    }
  }

  lemma {:induction false} SortedIsInventory(cfg: Config, tun: Tunnels, ls: seq<Link>, inv: Inventory)
    requires SortedUpTo(FromLinks(cfg, tun, ls), inv, inv.Keys)
    ensures IsInventory(cfg, tun, ls, inv)
    ensures forall n | n in inv :: Sorted(inv[n])
  {
  }

  lemma {:induction false} StockedIsBuilt(r: Runner, t: T, nodes: Nodes, before: map<string, SimDevice>)
    requires r.Valid() && t.Valid() && nodes == t.Nodes() && before.Keys <= Simulated(nodes)
    requires Stocked(r, t, nodes, before)
    requires IsInventory(r.cfg, TunnelsOf(r.cfg, nodes), t.Links(), Lists(r))
    requires forall n | n in Lists(r) :: Sorted(Lists(r)[n])
    ensures Built(r, t)
  {
    assert r.devices.Keys == Simulated(nodes);
    forall n | n in r.devices ensures Sorted(r.devices[n].interfaces) {
      assert Lists(r)[n] == r.devices[n].interfaces;
    }
  }

  /** Whatever devices of the same topology there were, they are replaced. */
  method BuildAfresh(r: Runner, t: T) returns (res: Outcome)
    requires r.Valid() && t.Valid() && r.bmcMan.Valid() && r.devices.Keys <= Simulated(t.Nodes())
    modifies r`devices, r`objects, r`bmcs, r.bmcMan`all, r.bmcMan`nextPort, r.bmcMan`order, r.objects`interfaces
    ensures r.Valid() && r.bmcMan.Valid() && r.objects >= old(r.objects) && fresh(r.objects - old(r.objects))
    ensures r.devices.Keys <= Simulated(t.Nodes())
    ensures res == Error <==> !DevicesOK(r.cfg, t.Nodes(), old(r.bmcMan.all.Keys))
    ensures res == Panic ==>
      || MacsExhausted(r.cfg, TunnelsOf(r.cfg, t.Nodes()), t.Links())
      || !NamesComparable(r.cfg, TunnelsOf(r.cfg, t.Nodes()), t.Links())
    ensures res == Ok ==>
      && !MacsExhausted(r.cfg, TunnelsOf(r.cfg, t.Nodes()), t.Links())
      && Built(r, t)
      && r.bmcMan.all.Keys == old(r.bmcMan.all.Keys) + BMCNames(r.cfg, t.Nodes(), Simulated(t.Nodes()))
  {
    ghost var nodes, ls := t.Nodes(), t.Links();
    ghost var tun, stock := TunnelsOf(r.cfg, nodes), StockOf(r, nodes);
    assert stock.Tunnels(r.cfg, nodes) == tun;
    GrownFromNothing(r.cfg, tun, ls, stock.lists);
    res := BuildInventory(r, t, nodes, stock);
    if res == Ok {
      SortedIsInventory(r.cfg, tun, ls, Lists(r));
      StockedIsBuilt(r, t, nodes, stock.devices);
    }
  }
}
