/** gatherHosts (runner/libvirt/customize.go, lines 200-229), and the management network from the graph to the host list. */
module Hosts {
  import opened Prelude
  import opened HardwareAddr
  import opened Graph
  import opened Cabling
  import opened Pairing
  import opened InterfaceOrder
  import opened RunnerState
  import opened InventoryBuilder

  datatype EtherHost = EtherHost(name: string, ip: nat, mac: seq<Byte>)

  predicate IsOOBName(n: string) {
    n == SERVER || n == SWITCH
  }

  /** The host entry of a device, if it gets one. */
  function HostOf(n: string, interfaces: seq<Iface>, mgmtIP: Option<nat>): Option<EtherHost>
    requires interfaces != []
  {
    if !IsOOBName(n) && interfaces[0].name == ETH0 && mgmtIP.Some?
    then Some(EtherHost(n, mgmtIP.value, interfaces[0].mac)) else None
  }

  /** The management addresses the device objects carry. */
  ghost function Mgmts(r: Runner): map<string, Option<nat>>
    reads r`devices
  {
    map n | n in r.devices :: r.devices[n].mgmtIP
  }

  /** Every device of done that gets an entry has exactly one, and there are no other entries. */
  ghost predicate Gathered(inv: Inventory, mgmt: map<string, Option<nat>>, hosts: seq<EtherHost>, done: set<string>)
    requires done <= inv.Keys == mgmt.Keys
  {
    && (forall i, j | 0 <= i < j < |hosts| :: hosts[i].name != hosts[j].name)
    && (forall h | h in hosts :: h.name in done && !IsOOBName(h.name))
    && (forall n | n in done && !IsOOBName(n) ::
          && inv[n] != []
          && match HostOf(n, inv[n], mgmt[n])
             case Some(h) => h in hosts
             case None => forall h | h in hosts :: h.name != n)
  }

  /** The devices on which gatherHosts fails: they have no interface at all. */
  ghost function Lonely(inv: Inventory): set<string> {
    set n | n in inv && !IsOOBName(n) && inv[n] == []
  }

  /** gatherHosts. It fails, with an index out of range, when some device has no interface at all. */
  method GatherHosts(r: Runner, ghost inv: Inventory, ghost mgmt: map<string, Option<nat>>)
    returns (ok: bool, hosts: seq<EtherHost>)
    requires r.Valid() && inv == Lists(r) && mgmt == Mgmts(r)
    ensures ok <==> Lonely(inv) == {}
    ensures ok ==> Gathered(inv, mgmt, hosts, inv.Keys)
  {
    hosts := [];
    var todo := r.devices.Keys;
    ghost var done := {};
    while todo != {}
      invariant done + todo == inv.Keys && done !! todo
      invariant Gathered(inv, mgmt, hosts, done)
      decreases todo
    {
      var name :| name in todo;
      todo := todo - {name};
      done := done + {name};
      if name == SERVER || name == SWITCH {
        continue;
      }
      var d := r.devices[name];
      if d.interfaces == [] {
        assert name in Lonely(inv);
        return false, hosts;
      }
      var eth0 := d.interfaces[0];
      if eth0.name != ETH0 {
        continue;
      }
      if d.mgmtIP.None? {
        continue;
      }
      hosts := hosts + [EtherHost(name, d.mgmtIP.value, eth0.mac)];
    }
    ok := true;
  }

  /** The entry is that of a device: its name, its management address, and the MAC of its first interface, an eth0. */
  ghost predicate IsEntry(inv: Inventory, mgmt: map<string, Option<nat>>, h: EtherHost) {
    && h.name in inv && h.name in mgmt && h.name != "oob-mgmt-server" && h.name != "oob-mgmt-switch"
    && mgmt[h.name] == Some(h.ip) && inv[h.name] != []
    && inv[h.name][0].name == "eth0" && inv[h.name][0].mac == h.mac
  }

  lemma {:induction false} EntryOf(inv: Inventory, mgmt: map<string, Option<nat>>, h: EtherHost)
    requires h.name in inv && h.name in mgmt && !IsOOBName(h.name) && inv[h.name] != []
    ensures HostOf(h.name, inv[h.name], mgmt[h.name]) == Some(h) <==> IsEntry(inv, mgmt, h)
  {
  }

  lemma {:induction false} EntryIsGathered(inv: Inventory, mgmt: map<string, Option<nat>>, hosts: seq<EtherHost>, h: EtherHost)
    requires inv.Keys == mgmt.Keys && Gathered(inv, mgmt, hosts, inv.Keys)
    ensures h in hosts <==> IsEntry(inv, mgmt, h)
  {
    if h.name in inv && !IsOOBName(h.name) {
      EntryOf(inv, mgmt, h);
      match HostOf(h.name, inv[h.name], mgmt[h.name])
      case Some(x) => SameEntry(hosts, x, h);
      case None =>
    }
  }

  /** An entry is determined by its name. */
  lemma {:induction false} SameEntry(hosts: seq<EtherHost>, x: EtherHost, y: EtherHost)
    requires forall i, j | 0 <= i < j < |hosts| :: hosts[i].name != hosts[j].name
    requires x in hosts && x.name == y.name
    ensures y in hosts <==> y == x
  {
    var i :| 0 <= i < |hosts| && hosts[i] == x;
    forall j | 0 <= j < |hosts| && hosts[j] == y ensures j == i {
    }
  }

  /**
   The list that gatherHosts returns has exactly the entries of the devices, one each. It fails
   exactly if some device other than the two OOB devices has no interface.
   */
  lemma {:induction false} HostEntries(inv: Inventory, mgmt: map<string, Option<nat>>, hosts: seq<EtherHost>)
    requires inv.Keys == mgmt.Keys && Gathered(inv, mgmt, hosts, inv.Keys)
    ensures forall h :: h in hosts <==> IsEntry(inv, mgmt, h)
    ensures forall n | n in inv :: n == "oob-mgmt-server" || n == "oob-mgmt-switch" || inv[n] != []
  {
    forall h ensures h in hosts <==> IsEntry(inv, mgmt, h) {
      EntryIsGathered(inv, mgmt, hosts, h);
    }
  }
}
