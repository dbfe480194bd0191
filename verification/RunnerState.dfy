/** The state of a Runner (runner/libvirt/runner.go, lines 23-45 and 826-834). */
module RunnerState {
  import opened Prelude
  import opened Graph
  import opened AutoManagement
  import opened Cabling
  import opened Hypervisor
  import opened VirtualBMC

  /** The internal representation of a simulated device. */
  class SimDevice {
    const name: string
    const tunnelIP: nat
    const attrs: Attributes
    const mgmtIP: Option<nat>
    var interfaces: seq<Iface>

    constructor (name: string, tunnelIP: nat, attrs: Attributes, mgmtIP: Option<nat>)
      ensures this.name == name && this.tunnelIP == tunnelIP && this.attrs == attrs && this.mgmtIP == mgmtIP
      ensures interfaces == []
    {
      this.name, this.tunnelIP, this.attrs, this.mgmtIP := name, tunnelIP, attrs, mgmtIP;
      interfaces := [];
    }
  }

  /** The RunnerOptions that do not matter for the inventory. */
  datatype Options = Options(authorizedKeys: seq<string>, writesSSHConfig: bool, writesBMCConfig: bool)

  class Runner {
    const cfg: Config
    const bmcMan: BMCMan
    const authorizedKeys: seq<string>
    const writesSSHConfig: bool
    const writesBMCConfig: bool

    var devices: map<string, SimDevice>
    var bmcs: seq<HostBMC>
    // Handles of domains and of base image volumes; None is a nil map.
    var domains: Option<set<string>>
    var baseImages: Option<map<string, string>>

    ghost var objects: set<SimDevice>

    ghost predicate Valid()
      reads `devices, `objects
    {
      forall n | n in devices :: devices[n] in objects && devices[n].name == cfg.namePrefix + n
    }

    /** NewRunner, with the options given as arguments. */
    constructor (cfg: Config, bmcMan: BMCMan, options: Options)
      ensures Valid() && devices == map[] && objects == {} && domains == Some({}) && bmcs == []
      ensures this.cfg == cfg && this.bmcMan == bmcMan && authorizedKeys == options.authorizedKeys
      ensures writesSSHConfig == options.writesSSHConfig && writesBMCConfig == options.writesBMCConfig
    {
      this.cfg, this.bmcMan, authorizedKeys := cfg, bmcMan, options.authorizedKeys;
      writesSSHConfig, writesBMCConfig := options.writesSSHConfig, options.writesBMCConfig;
      devices, bmcs, domains, baseImages, objects := map[], [], Some({}), None, {};
    }
  }

  // ----- what buildInventory reads off the nodes ------------------------------------

  ghost function Simulated(nodes: Nodes): set<string> {
    set n | n in nodes && nodes[n].role != Fake
  }

  function TunnelAddr(cfg: Config, a: Attributes): nat {
    if a.tunnelIP.Value? then a.tunnelIP.v else cfg.tunnelIP
  }

  ghost function TunnelsOf(cfg: Config, nodes: Nodes): Tunnels {
    map n | n in nodes && nodes[n].role != Fake :: TunnelAddr(cfg, nodes[n])
  }

  /** The device can be set up: its attributes are usable, and its BMC is not registered yet. */
  predicate DeviceOK(cfg: Config, n: string, a: Attributes, registered: set<string>) {
    !a.tunnelIP.Malformed? && !a.config.Malformed? && (a.bmc ==> cfg.namePrefix + n !in registered)
  }

  ghost predicate DevicesOK(cfg: Config, nodes: Nodes, registered: set<string>) {
    forall n | n in Simulated(nodes) :: DeviceOK(cfg, n, nodes[n], registered)
  }

  /**
   buildInventory goes through exactly if every node that is not fake has a tunnel address and a
   configuration that can be read, if any, and no registered BMC if it wants one.
   */
  lemma {:induction false} WhichDevicesAreOK(cfg: Config, nodes: Nodes, registered: set<string>)
    ensures DevicesOK(cfg, nodes, registered) <==>
      forall n | n in nodes && nodes[n].role != Fake ::
        nodes[n].tunnelIP != Malformed && nodes[n].config != Malformed
        && (nodes[n].bmc ==> cfg.namePrefix + n !in registered)
  {
    forall n | n in Simulated(nodes) ensures DeviceOK(cfg, n, nodes[n], registered) <==>
      nodes[n].tunnelIP != Malformed && nodes[n].config != Malformed && (nodes[n].bmc ==> cfg.namePrefix + n !in registered)
    {
    }
  }

  /** The domain names under which the devices of s that want a BMC are registered. */
  ghost function BMCNames(cfg: Config, nodes: Nodes, s: set<string>): set<string> {
    set n | n in s && n in nodes && nodes[n].bmc :: cfg.namePrefix + n
  }

  /** The devices of s that want a BMC. */
  ghost function BMCDevices(nodes: Nodes, s: set<string>): set<string> {
    set n | n in s && n in nodes && nodes[n].bmc
  }

  /** The list has every device of names once, with the BMC that is registered for its domain. */
  ghost predicate IsListOf(prefix: string, bmcs: seq<HostBMC>, names: set<string>, all: map<string, BMC>) {
    && (forall i, j | 0 <= i < j < |bmcs| :: bmcs[i].name != bmcs[j].name)
    && (forall i | 0 <= i < |bmcs| ::
          bmcs[i].name in names && prefix + bmcs[i].name in all && bmcs[i].bmc == all[prefix + bmcs[i].name])
    && (forall n | n in names :: exists i | 0 <= i < |bmcs| :: bmcs[i].name == n)
  }

  lemma {:induction false} ListOfNext(prefix: string, bmcs: seq<HostBMC>, names: set<string>, all: map<string, BMC>,
                                     n: string, bmc: BMC)
    requires IsListOf(prefix, bmcs, names, all) && n !in names && prefix + n !in all
    ensures IsListOf(prefix, bmcs + [HostBMC(n, bmc)], names + {n}, all[prefix + n := bmc])
  {
    var more := bmcs + [HostBMC(n, bmc)];
    forall m | m in names + {n} ensures exists i | 0 <= i < |more| :: more[i].name == m {
      if m == n {
        assert more[|bmcs|].name == n;
      } else {
        var i :| 0 <= i < |bmcs| && bmcs[i].name == m;
        assert more[i].name == m;
      }
    }
  }

  lemma {:induction false} PrefixInjective(prefix: string, m: string, n: string)
    requires prefix + m == prefix + n
    ensures m == n
  {
    assert (prefix + m)[|prefix|..] == m && (prefix + n)[|prefix|..] == n;
  }

  lemma {:induction false} BMCNamesNext(cfg: Config, nodes: Nodes, s: set<string>, n: string)
    requires n in nodes && n !in s
    ensures BMCNames(cfg, nodes, s + {n}) ==
      BMCNames(cfg, nodes, s) + if nodes[n].bmc then {cfg.namePrefix + n} else {}
    ensures cfg.namePrefix + n !in BMCNames(cfg, nodes, s)
  {
    if m :| m in s && m in nodes && nodes[m].bmc && cfg.namePrefix + m == cfg.namePrefix + n {
      PrefixInjective(cfg.namePrefix, m, n);
    }
  }
}
