/** Run and Destroy as a whole, and sequences of them (runner/libvirt/runner.go, lines 178-300). */
module Lifecycle {
  import opened Prelude
  import opened Graph
  import opened AutoManagement
  import opened Topology
  import opened Cabling
  import opened Pairing
  import opened Hypervisor
  import opened VirtualBMC
  import opened RunnerState
  import opened InventoryBuilder
  import opened Hosts
  import opened ManagementNetwork
  import opened Images
  import opened Stages
  import opened Hazards
  import opened Startup
  import opened Transaction

  // ----- what is known before a run ---------------------------------------------------

  /** The options, the topology, and what the runner holds: BMCs registered so far, domain handles and devices. */
  datatype Setting = Setting(
    cfg: Config, writesSSHConfig: bool, nodes: Nodes, links: seq<Link>,
    registered: set<string>, handles: Option<set<string>>, stock: Stock)
  {
    ghost function Tunnels(): Tunnels { stock.Tunnels(cfg, nodes) }

    /** The interfaces of all devices, in the order of creation. */
    ghost function Goal(): Inventory { stock.Goal(cfg, nodes, links) }

    /** The devices of the run: those of the topology, and those of others that the runner still holds. */
    ghost function Attrs(): Devices {
      (map n | n in stock.devices :: stock.devices[n].attrs) + (map n | n in Simulated(nodes) :: nodes[n])
    }

    ghost function Devices(): set<string> { stock.devices.Keys + Simulated(nodes) }

    /** What the run would put into the world. */
    ghost function Footprint(base: BaseNames): Footprint {
      FootprintOf(cfg, Attrs(), nodes, registered + BMCNames(cfg, nodes, Simulated(nodes)), base)
    }

    /** buildInventory does not return an error. */
    ghost predicate Possible() { DevicesOK(cfg, nodes, registered) }

    ghost predicate Comparable() { AllComparable(Goal()) }

    ghost function Foreseen(): Outlook {
      Outlook(cfg.namePrefix, writesSSHConfig, Attrs(), MacsExhausted(cfg, Tunnels(), links), Lonely(Goal()), handles)
    }

    ghost function Hazards(): set<Hazard> { HazardsOf(Foreseen()) }
  }

  ghost predicate Describes(s: Setting, r: Runner, t: T)
    requires r.Valid()
    reads r`devices, r`objects, r.objects`interfaces, r`domains, r.bmcMan`all, t`devs, t`mgmtLinks
  {
    && s.cfg == r.cfg && s.writesSSHConfig == r.writesSSHConfig && s.nodes == t.Nodes() && s.links == t.Links()
    && s.registered == r.bmcMan.all.Keys && s.handles == r.domains && s.stock == StockOf(r, s.nodes)
  }

  /** The setting of a run on r. */
  ghost function SettingOf(r: Runner, t: T): (s: Setting)
    requires r.Valid()
    reads r`devices, r`objects, r.objects`interfaces, r`domains, r.bmcMan`all, t`devs, t`mgmtLinks
    ensures Describes(s, r, t)
  {
    Setting(r.cfg, r.writesSSHConfig, t.Nodes(), t.Links(), r.bmcMan.all.Keys, r.domains, StockOf(r, t.Nodes()))
  }

  /** The runner and the topology a successful buildInventory leaves, seen from the setting before it. */
  ghost predicate BuiltFrom(s: Setting, r: Runner, t: T)
    requires r.Valid() && t.Valid()
    reads r`devices, r`domains, r`objects, r.objects`interfaces, r.bmcMan`all
    reads t`devs, t`objects, t.objects`mgmtIP, t`mgmtLinks
  {
    && Stocked(r, t, s.nodes, s.stock.devices) && SortedUpTo(s.Goal(), Lists(r), r.devices.Keys)
    && s.cfg == r.cfg && s.writesSSHConfig == r.writesSSHConfig && s.nodes == t.Nodes() && s.handles == r.domains
    && r.bmcMan.all.Keys == s.registered + BMCNames(s.cfg, s.nodes, Simulated(s.nodes))
    && !MacsExhausted(s.cfg, s.Tunnels(), s.links)
  }

  lemma {:induction false} SameAttributes(s: Setting, r: Runner, t: T)
    requires r.Valid() && t.Valid() && BuiltFrom(s, r, t)
    ensures AttributesOf(r) == s.Attrs()
  {
    forall n | n in r.devices ensures n in s.Attrs() && r.devices[n].attrs == s.Attrs()[n] {
      if n in Simulated(s.nodes) {
        assert Reflects(r.cfg, r.devices[n], t, n);
      }
    }
  }

  /** Sorting leaves no list empty that was not. */
  lemma {:induction false} LonelyStay(goal: Inventory, inv: Inventory)
    requires SortedUpTo(goal, inv, inv.Keys)
    ensures Lonely(inv) == Lonely(goal)
  {
    forall n | n in inv ensures inv[n] == [] <==> goal[n] == [] {
      assert |multiset(inv[n])| == |multiset(goal[n])|;
    }
  }

  /** Behind buildInventory, the outlook is what it could be seen to be before. */
  lemma {:induction false} OutlookAgrees(s: Setting, r: Runner, t: T)
    requires r.Valid() && t.Valid() && BuiltFrom(s, r, t)
    ensures OutlookOf(r) == s.Foreseen()
  {
    SameAttributes(s, r, t);
    LonelyStay(s.Goal(), Lists(r));
  }

  lemma {:induction false} FootprintAgrees(s: Setting, r: Runner, t: T, base: BaseNames)
    requires r.Valid() && t.Valid() && BuiltFrom(s, r, t)
    ensures Fits(r, t, base, s.Footprint(base))
  {
    SameAttributes(s, r, t);
    DeviceImages(r);
    assert AttributesOf(r).Keys == r.devices.Keys;
  }

  lemma {:induction false} ExhaustionIsHazard(s: Setting)
    ensures MacsExhausted(s.cfg, s.Tunnels(), s.links) ==> s.Hazards() != {}
  {
    NoHazards(s.Foreseen());
    assert Threatens(s.Foreseen(), MacsRunOut) <==> MacsExhausted(s.cfg, s.Tunnels(), s.links);
  }

  /** A device has no interface exactly if it started without one and no link has an end at it. */
  lemma {:induction false} LonelyDevices(s: Setting, n: string)
    ensures n in Lonely(s.Goal()) <==>
      n in s.stock.lists && !IsOOBName(n) && s.stock.lists[n] == [] && !Linked(s.Tunnels(), s.links, n)
  {
    LinkedIffInterfaces(s.cfg, s.Tunnels(), s.links, n, Ifaces(s.cfg, s.Tunnels(), s.links, |s.links|, n));
  }

  /** The runner has the devices of the setting, with their interfaces, sorted, and the BMCs listed. */
  ghost predicate HasInventory(s: Setting, r: Runner, t: T, bmcs: seq<HostBMC>)
    requires r.Valid() && t.Valid()
    reads r`devices, r`objects, r.objects`interfaces, r`bmcs, r.bmcMan`all
    reads t`devs, t`objects, t.objects`mgmtIP
  {
    && s.cfg == r.cfg
    && Stocked(r, t, s.nodes, s.stock.devices) && SortedUpTo(s.Goal(), Lists(r), r.devices.Keys)
    && ListedSoFar(r.cfg, s.nodes, bmcs, r.bmcs, r.bmcMan.all, Simulated(s.nodes))
  }

  // ----- Run ------------------------------------------------------------------------

  ghost predicate Ready(r: Runner)
    reads r`devices, r`objects, r.bmcMan
  {
    r.Valid() && r.bmcMan.Valid()
  }

  /** buildInventory, in the terms of its setting. */
  method BuildIn(r: Runner, t: T, ghost s: Setting) returns (res: Outcome)
    requires Ready(r) && t.Valid() && Describes(s, r, t)
    modifies r`devices, r`objects, r`bmcs, r.bmcMan`all, r.bmcMan`nextPort, r.bmcMan`order, r.objects`interfaces
    ensures Ready(r) && r.objects >= old(r.objects) && fresh(r.objects - old(r.objects))
    ensures r.devices.Keys <= s.Devices()
    ensures res == Ok ==> BuiltFrom(s, r, t)
    ensures res == Ok ==> ListedSoFar(r.cfg, s.nodes, old(r.bmcs), r.bmcs, r.bmcMan.all, Simulated(s.nodes))
    ensures res == Error <==> !s.Possible()
    ensures res == Panic ==> MacsExhausted(s.cfg, s.Tunnels(), s.links) || !s.Comparable()
  {
    res := BuildInventory(r, t, s.nodes, s.stock);
  }

  /** buildInventory, as Run and Destroy need it. */
  method Build(r: Runner, t: T, ghost base: BaseNames, ghost s: Setting, ghost f: Footprint) returns (res: Outcome)
    requires Ready(r) && t.Valid() && Describes(s, r, t) && f == s.Footprint(base)
    modifies r`devices, r`objects, r`bmcs, r.bmcMan`all, r.bmcMan`nextPort, r.bmcMan`order, r.objects`interfaces
    ensures Ready(r) && r.objects >= old(r.objects) && fresh(r.objects - old(r.objects))
    ensures r.devices.Keys <= s.Devices()
    ensures res == Ok ==> Fits(r, t, base, f) && OutlookOf(r) == s.Foreseen()
    ensures res == Ok ==> HasInventory(s, r, t, old(r.bmcs))
    ensures res == Error <==> !s.Possible()
    ensures res == Panic ==> s.Hazards() != {} || !s.Comparable()
  {
    res := BuildIn(r, t, s);
    ExhaustionIsHazard(s);
    if res == Ok {
      OutlookAgrees(s, r, t);
      FootprintAgrees(s, r, t, base);
    }
  }

  /** Everything behind buildInventory, with what it leaves alone. */
  method Proceed(r: Runner, t: T, lv: Libvirt, base: BaseNames, ghost f: Footprint, ghost o: Outlook,
                 ghost s: Setting, ghost bmcs: seq<HostBMC>)
    returns (res: Outcome, ghost reached: Reached)
    requires Ready(r) && t.Valid() && Fits(r, t, base, f) && o == OutlookOf(r) && HasInventory(s, r, t, bmcs)
    modifies r`domains, r`baseImages, lv
    ensures Ready(r) && r.bmcMan.all.Keys == f.bmcs && HasInventory(s, r, t, bmcs)
    ensures Transacted(old(Observe(lv)), Observe(lv), f, lv.reliable, res, reached == Up)
    ensures HandlesAfter(old(r.domains), r.domains, res, reached)
    ensures res == Error && reached == Up ==> r.writesSSHConfig || r.writesBMCConfig
    ensures res == Ok ==> HazardsOf(o) == {} && DebtsOf(r, t, base, old(lv.log), lv) == NO_DEBTS
    ensures res == Panic ==> HazardsOf(o) != {}
  {
    res, reached := RunBuilt(r, t, lv, base, f, o);
  }

  /** Everything behind buildInventory, which may have failed. */
  method ProceedBuilt(r: Runner, t: T, lv: Libvirt, base: BaseNames, ghost f: Footprint, ghost s: Setting,
                      ghost bmcs: seq<HostBMC>, built: Outcome)
    returns (res: Outcome, ghost reached: Reached)
    requires Ready(r) && t.Valid()
    requires built == Ok ==> Fits(r, t, base, f) && OutlookOf(r) == s.Foreseen()
    requires built == Ok ==> HasInventory(s, r, t, bmcs)
    modifies r`domains, r`baseImages, lv
    ensures Ready(r)
    ensures Transacted(old(Observe(lv)), Observe(lv), f, lv.reliable, res, reached == Up)
    ensures HandlesAfter(old(r.domains), r.domains, res, reached)
    ensures res == Error && reached == Up ==> r.writesSSHConfig || r.writesBMCConfig
    ensures res == Ok ==> built == Ok && s.Hazards() == {} && r.bmcMan.all.Keys == f.bmcs
    ensures res == Ok ==> DebtsOf(r, t, base, old(lv.log), lv) == NO_DEBTS && HasInventory(s, r, t, bmcs)
    ensures res == Panic ==> built == Panic || s.Hazards() != {}
  {
    if built == Ok {
      res, reached := Proceed(r, t, lv, base, f, s.Foreseen(), s, bmcs);
    } else {
      res, reached := built, NotDefining;
      NothingDone(Observe(lv), f, lv.reliable);
    }
  }

  /** Run, once the length of the base address has been checked. */
  method BuildAndProceed(r: Runner, t: T, lv: Libvirt, base: BaseNames, ghost s: Setting, ghost f: Footprint)
    returns (res: Outcome, ghost reached: Reached)
    requires Ready(r) && t.Valid() && Describes(s, r, t) && f == s.Footprint(base)
    modifies r`devices, r`objects, r`bmcs, r`domains, r`baseImages, r.bmcMan`all, r.bmcMan`nextPort, r.bmcMan`order
    modifies r.objects`interfaces, lv
    ensures Ready(r) && r.devices.Keys <= s.Devices() && r.objects >= old(r.objects) && fresh(r.objects - old(r.objects))
    ensures Transacted(old(Observe(lv)), Observe(lv), f, lv.reliable, res, reached == Up)
    ensures HandlesAfter(old(r.domains), r.domains, res, reached)
    ensures res == Error && reached == Up ==> r.writesSSHConfig || r.writesBMCConfig
    ensures res == Ok ==> s.Possible() && s.Hazards() == {} && r.bmcMan.all.Keys == f.bmcs
    ensures res == Ok ==> DebtsOf(r, t, base, old(lv.log), lv) == NO_DEBTS && HasInventory(s, r, t, old(r.bmcs))
    ensures res == Panic ==> s.Hazards() != {} || !s.Comparable()
  {
    res := Build(r, t, base, s, f);
    res, reached := ProceedBuilt(r, t, lv, base, f, s, old(r.bmcs), res);
  }

  /**
   Run. If it fails, at whichever call, and cleanup works, the world is as before except for base
   images, and for BMCs if the failure came after they were started. It succeeds only where there is
   no hazard, and then it owes nothing; it panics only where there is one or port names cannot be compared. The runner may
   hold devices of other topologies; they are devices of the run as well.
   */
  method Run(r: Runner, t: T, lv: Libvirt, base: BaseNames, ghost s: Setting, ghost f: Footprint)
    returns (res: Outcome, ghost reached: Reached)
    requires Ready(r) && t.Valid() && Describes(s, r, t) && f == s.Footprint(base)
    modifies r`devices, r`objects, r`bmcs, r`domains, r`baseImages, r.bmcMan`all, r.bmcMan`nextPort, r.bmcMan`order
    modifies r.objects`interfaces, lv
    ensures Ready(r) && r.devices.Keys <= s.Devices() && r.objects >= old(r.objects) && fresh(r.objects - old(r.objects))
    ensures Transacted(old(Observe(lv)), Observe(lv), f, lv.reliable, res, reached == Up)
    ensures HandlesAfter(old(r.domains), r.domains, res, reached)
    ensures res == Error && reached == Up ==> r.writesSSHConfig || r.writesBMCConfig
    ensures res == Ok ==>
      s.Possible() && s.Hazards() == {} && r.bmcMan.all.Keys == f.bmcs && |r.cfg.macBase| == 6
    ensures res == Ok ==> DebtsOf(r, t, base, old(lv.log), lv) == NO_DEBTS && HasInventory(s, r, t, old(r.bmcs))
    ensures res == Panic ==> s.Hazards() != {} || !s.Comparable()
  {
    if |r.cfg.macBase| == 6 {
      res, reached := BuildAndProceed(r, t, lv, base, s, f);
    } else {
      res, reached := Error, NotDefining;
      NothingDone(Observe(lv), f, lv.reliable);
    }
  }

  lemma {:induction false} NothingDone(w: World, f: Footprint, reliable: bool)
    ensures Transacted(w, w, f, reliable, Error, false)
  {
  }

  /** A run that wants the ssh_config without a simulated OOB server never succeeds. */
  method RunWithoutServer(r: Runner, t: T, lv: Libvirt, base: BaseNames) returns (res: Outcome)
    requires Ready(r) && t.Valid() && r.writesSSHConfig
    requires SERVER !in Simulated(t.Nodes()) && SERVER !in r.devices && r.cfg.namePrefix + SERVER !in Handles(r.domains)
    modifies r, r.bmcMan, r.objects`interfaces, lv
    ensures res != Ok
  {
    ghost var s := SettingOf(r, t);
    ghost var reached;
    NoHazards(s.Foreseen());
    assert Threatens(s.Foreseen(), NoServerHandle);
    res, reached := Run(r, t, lv, base, s, s.Footprint(base));
  }

  // ----- Destroy --------------------------------------------------------------------

  /** The footprint has been removed, save base images. */
  ghost predicate TornDown(before: World, after: World, f: Footprint) {
    && after.volumes == before.volumes - f.devices
    && after.defined == before.defined - f.devices
    && after.running == before.running - f.devices
    && after.vbmcs == before.vbmcs - f.bmcs && after.active == before.active - f.bmcs
  }

  /** Whatever fails, nothing outside the footprint is removed, and nothing is added. */
  ghost predicate Spared(before: World, after: World, f: Footprint) {
    && Removed(before.volumes, after.volumes, f.devices, false)
    && Removed(before.defined, after.defined, f.devices, false)
    && Removed(before.running, after.running, f.devices, false)
    && Removed(before.vbmcs, after.vbmcs, f.bmcs, false) && Removed(before.active, after.active, f.bmcs, false)
  }

  /** Destroy after buildInventory. */
  method TearDown(r: Runner, lv: Libvirt, ghost f: Footprint) returns (ok: bool)
    requires r.Valid() && f.devices == Names(r.cfg, r.devices.Keys) && f.bmcs == r.bmcMan.all.Keys
    modifies r`domains, r`baseImages, lv
    ensures Spared(old(Observe(lv)), Observe(lv), f)
    ensures ok && lv.reliable ==> TornDown(old(Observe(lv)), Observe(lv), f)
    ensures ok ==> r.domains.None?
    ensures lv.cutOff == old(lv.cutOff)
  {
    ok := lv.Call();
    if ok {
      ok := r.bmcMan.StopAll(lv);
    }
    if ok {
      UndefineDomains(r, lv);
      r.domains := None;
      ok := DeleteDeviceVolumes(r, lv);
      if ok {
        r.baseImages := None;
      }
    }
  }

  /** Destroy after buildInventory, which may have failed. */
  method TearDownBuilt(r: Runner, lv: Libvirt, ghost f: Footprint, built: Outcome) returns (res: Outcome)
    requires Ready(r)
    requires built == Ok ==> f.devices == Names(r.cfg, r.devices.Keys) && f.bmcs == r.bmcMan.all.Keys
    modifies r`domains, r`baseImages, lv
    ensures Ready(r) && lv.cutOff == old(lv.cutOff)
    ensures built != Ok ==> res == built && Observe(lv) == old(Observe(lv))
    ensures built == Ok ==> res != Panic
    ensures res == Ok ==> r.domains.None?
    ensures Spared(old(Observe(lv)), Observe(lv), f)
    ensures res == Ok && lv.reliable ==> TornDown(old(Observe(lv)), Observe(lv), f)
  {
    if built != Ok {
      return built;
    }
    var ok := TearDown(r, lv, f);
    return if ok then Ok else Error;
  }

  /**
   Destroy. It is refused, and nothing is destroyed, if buildInventory returns an error. When it has
   succeeded the runner has no map of domain handles any more. No BMC is deleted while it is active.
   */
  method Destroy(r: Runner, t: T, lv: Libvirt, ghost base: BaseNames, ghost s: Setting, ghost f: Footprint)
    returns (res: Outcome, ghost refused: bool)
    requires Ready(r) && t.Valid() && Describes(s, r, t) && f == s.Footprint(base)
    modifies r`devices, r`objects, r`bmcs, r`domains, r`baseImages, r.bmcMan`all, r.bmcMan`nextPort, r.bmcMan`order
    modifies r.objects`interfaces, lv
    ensures Ready(r) && r.devices.Keys <= s.Devices() && r.objects >= old(r.objects) && fresh(r.objects - old(r.objects))
    ensures res == Ok ==> r.domains.None?
    ensures lv.cutOff == old(lv.cutOff)
    ensures refused <==> !s.Possible()
    ensures refused ==> res == Error && Observe(lv) == old(Observe(lv))
    ensures Spared(old(Observe(lv)), Observe(lv), f)
    ensures res == Ok && lv.reliable ==> TornDown(old(Observe(lv)), Observe(lv), f)
    ensures res == Panic ==> s.Hazards() != {} || !s.Comparable()
  {
    res := Build(r, t, base, s, f);
    refused := res == Error;
    res := TearDownBuilt(r, lv, f, res);
  }

  // ----- one runner after another -----------------------------------------------------

  /** The setting of a first run. */
  ghost predicate IsFirst(s: Setting, cfg: Config, writesSSHConfig: bool, nodes: Nodes, links: seq<Link>) {
    s == FirstSetting(cfg, Options([], writesSSHConfig, false), nodes, links)
  }

  ghost function FirstSetting(cfg: Config, options: Options, nodes: Nodes, links: seq<Link>): Setting {
    Setting(cfg, options.writesSSHConfig, nodes, links, {}, Some({}), Stock(map[], map[], map n | n in Simulated(nodes) :: []))
  }

  /** A runner that has not run. */
  method FreshRunner(cfg: Config, conf: BMCConfig, random: string, options: Options, t: T)
    returns (r: Runner, ghost s: Setting)
    requires t.Valid()
    ensures fresh(r) && fresh(r.bmcMan) && r.objects == {} && r.bmcs == [] && Ready(r)
    ensures r.cfg == cfg && r.authorizedKeys == options.authorizedKeys
    ensures r.writesSSHConfig == options.writesSSHConfig && r.writesBMCConfig == options.writesBMCConfig
    ensures Describes(s, r, t) && s == FirstSetting(cfg, options, t.Nodes(), t.Links())
  {
    var man := new BMCMan(conf, random);
    r := new Runner(cfg, man, options);
    s := SettingOf(r, t);
    assert s.stock.lists == FirstSetting(cfg, options, t.Nodes(), t.Links()).stock.lists;
  }

  /** What is started belongs to the devices of the run. */
  lemma {:induction false} StartedInFootprint(s: Setting, base: BaseNames)
    ensures s.Footprint(base).started <= s.Footprint(base).devices
  {
    NamesWithin(s.cfg, StartedDevices(s.nodes), s.Attrs().Keys);
  }

  /** Destroy undoes Run: only base images remain of it. */
  lemma {:induction false} DestroyUndoesRun(w0: World, w1: World, w2: World, f: Footprint)
    requires Installed(w0, w1, f) && TornDown(w1, w2, f) && f.started <= f.devices
    ensures Unchanged(w0, w2, f, false)
  {
  }

  /** Destroy on a runner of its own. */
  method DestroyElsewhere(cfg: Config, conf: BMCConfig, random: string, options: Options,
                          t: T, lv: Libvirt, ghost base: BaseNames, ghost s: Setting, ghost f: Footprint)
    returns (res: Outcome, ghost refused: bool)
    requires t.Valid() && s == FirstSetting(cfg, options, t.Nodes(), t.Links()) && f == s.Footprint(base)
    modifies lv
    ensures refused <==> !s.Possible()
    ensures res == Ok && lv.reliable ==> TornDown(old(Observe(lv)), Observe(lv), f)
  {
    var r;
    ghost var u;
    r, u := FreshRunner(cfg, conf, random, options, t);
    res, refused := Destroy(r, t, lv, base, u, f);
  }

  /**
   Run, and then Destroy on another runner made with the same options. After a successful run Destroy
   is not refused, and when it has succeeded all that remains are base images.
   */
  method RunAndDestroy(cfg: Config, conf: BMCConfig, random: string, options: Options,
                       t: T, lv: Libvirt, base: BaseNames)
    returns (ran: Outcome, destroyed: Outcome, ghost refused: bool, ghost f: Footprint)
    requires t.Valid()
    modifies lv
    ensures f == FirstSetting(cfg, options, t.Nodes(), t.Links()).Footprint(base)
    ensures ran == Ok ==> !refused
    ensures ran == destroyed == Ok && lv.reliable ==> Unchanged(old(Observe(lv)), Observe(lv), f, false)
  {
    ghost var before := Observe(lv);
    var r;
    ghost var s, reached;
    r, s := FreshRunner(cfg, conf, random, options, t);
    f := s.Footprint(base);
    ran, reached := Run(r, t, lv, base, s, f);
    destroyed, refused := Error, false;
    if ran == Ok {
      ghost var between := Observe(lv);
      destroyed, refused := DestroyElsewhere(cfg, conf, random, options, t, lv, base, s, f);
      StartedInFootprint(s, base);
      if destroyed == Ok && lv.reliable {
        DestroyUndoesRun(before, between, Observe(lv), f);
      }
    }
  }

  // ----- a first run, on nodes -------------------------------------------------------------

  /**
   For every node that is not fake there is a new volume and a new domain; the domain runs exactly if
   the node has an image, and its BMC answers if it wants one. There are no other new domains.
   */
  ghost predicate AllUp(prefix: string, nodes: Nodes, before: World, after: World) {
    && (forall n | n in nodes && nodes[n].role != Fake :: IsUp(prefix + n, nodes[n], before, after))
    && (forall x | x in after.defined - before.defined :: exists n | n in nodes && nodes[n].role != Fake :: x == prefix + n)
    && (forall x | x in after.active - before.active :: exists n | n in nodes && nodes[n].bmc :: x == prefix + n)
  }

  ghost predicate IsUp(name: string, a: Attributes, before: World, after: World) {
    && name in after.volumes - before.volumes && name in after.defined - before.defined
    && (a.osImage != "" <==> name in after.running) && name !in before.running
    && (a.bmc ==> name in after.vbmcs - before.vbmcs && name in after.active - before.active)
  }

  lemma {:induction false} InstalledIsUp(cfg: Config, options: Options, nodes: Nodes, links: seq<Link>, base: BaseNames,
                                         before: World, after: World)
    requires Installed(before, after, FirstSetting(cfg, options, nodes, links).Footprint(base))
    ensures AllUp(cfg.namePrefix, nodes, before, after)
  {
    var s := FirstSetting(cfg, options, nodes, links);
    var f := s.Footprint(base);
    assert s.Attrs().Keys == Simulated(nodes);
    forall n | n in nodes && nodes[n].role != Fake ensures IsUp(cfg.namePrefix + n, nodes[n], before, after) {
      NodeIsUp(cfg, nodes, n, before, after, f);
    }
  }

  lemma {:induction false} NodeIsUp(cfg: Config, nodes: Nodes, n: string, before: World, after: World, f: Footprint)
    requires n in Simulated(nodes) && Installed(before, after, f)
    requires f.devices == Names(cfg, Simulated(nodes)) && f.started == Names(cfg, StartedDevices(nodes))
    requires f.bmcs == BMCNames(cfg, nodes, Simulated(nodes))
    ensures IsUp(cfg.namePrefix + n, nodes[n], before, after)
  {
    var name := cfg.namePrefix + n;
    assert name in f.devices && (nodes[n].bmc ==> name in f.bmcs);
    if nodes[n].osImage != "" {
      assert n in StartedDevices(nodes);
    }
    if m :| m in StartedDevices(nodes) && cfg.namePrefix + m == name {
      PrefixInjective(cfg.namePrefix, m, n);
    }
  }

  lemma {:induction false} FirstGoal(cfg: Config, options: Options, nodes: Nodes, links: seq<Link>)
    ensures FirstSetting(cfg, options, nodes, links).Goal() == FromLinks(cfg, TunnelsOf(cfg, nodes), links)
  {
    var s := FirstSetting(cfg, options, nodes, links);
    assert s.Tunnels() == TunnelsOf(cfg, nodes);
    GrownFromNothing(cfg, TunnelsOf(cfg, nodes), links, s.stock.lists);
  }

  lemma {:induction false} FirstList(cfg: Config, nodes: Nodes, bmcs: seq<HostBMC>, all: map<string, BMC>)
    requires ListedSoFar(cfg, nodes, [], bmcs, all, Simulated(nodes))
    ensures IsListOf(cfg.namePrefix, bmcs, BMCDevices(nodes, Simulated(nodes)), all)
  {
    assert bmcs[0..] == bmcs;
  }

  lemma {:induction false} FirstInventory(r: Runner, t: T, options: Options)
    requires r.Valid() && t.Valid() && HasInventory(FirstSetting(r.cfg, options, t.Nodes(), t.Links()), r, t, [])
    ensures Built(r, t)
  {
    FirstGoal(r.cfg, options, t.Nodes(), t.Links());
    SortedIsInventory(r.cfg, TunnelsOf(r.cfg, t.Nodes()), t.Links(), Lists(r));
    StockedIsBuilt(r, t, t.Nodes(), map[]);
  }

  /**
   A first run. When it succeeds, everything is up and nothing is owed; the inventory is that of the
   topology, and the list of BMCs has each node that wants one once.
   */
  method FirstRun(cfg: Config, conf: BMCConfig, random: string, options: Options, t: T, lv: Libvirt, base: BaseNames)
    returns (res: Outcome, r: Runner)
    requires t.Valid()
    modifies lv
    ensures r.Valid() && t.Valid() && r.cfg == cfg && r.authorizedKeys == options.authorizedKeys
    ensures res == Ok ==> AllUp(cfg.namePrefix, t.Nodes(), old(Observe(lv)), Observe(lv))
    ensures res == Ok ==> Built(r, t) && DebtsOf(r, t, base, old(lv.log), lv) == NO_DEBTS
    ensures res == Ok ==> IsListOf(cfg.namePrefix, r.bmcs, BMCDevices(t.Nodes(), Simulated(t.Nodes())), r.bmcMan.all)
  {
    ghost var s, reached;
    ghost var before := Observe(lv);
    r, s := FreshRunner(cfg, conf, random, options, t);
    res, reached := Run(r, t, lv, base, s, s.Footprint(base));
    if res == Ok {
      InstalledIsUp(cfg, options, t.Nodes(), t.Links(), base, before, Observe(lv));
      FirstInventory(r, t, options);
      FirstList(cfg, t.Nodes(), r.bmcs, r.bmcMan.all);
    }
  }

  // ----- the same runner again --------------------------------------------------------

  /** With its BMCs registered, a topology can be built again exactly if it has none. */
  lemma {:induction false} SecondBuildRefused(cfg: Config, nodes: Nodes)
    requires DevicesOK(cfg, nodes, {})
    ensures DevicesOK(cfg, nodes, BMCNames(cfg, nodes, Simulated(nodes))) <==>
      !exists n | n in Simulated(nodes) :: nodes[n].bmc
  {
    var registered := BMCNames(cfg, nodes, Simulated(nodes));
    if n :| n in Simulated(nodes) && nodes[n].bmc {
      assert cfg.namePrefix + n in registered;
      assert !DeviceOK(cfg, n, nodes[n], registered);
    } else {
      forall n | n in Simulated(nodes) ensures DeviceOK(cfg, n, nodes[n], registered) {
        assert DeviceOK(cfg, n, nodes[n], {});
      }
    }
  }

  /**
   Run, and then Destroy on the same runner. After a successful run Destroy is refused, leaving
   everything installed, if and only if some simulated device has a BMC; otherwise it undoes the run.
   */
  method RunAndDestroyHere(cfg: Config, conf: BMCConfig, random: string, options: Options,
                           t: T, lv: Libvirt, base: BaseNames)
    returns (ran: Outcome, destroyed: Outcome, ghost refused: bool, ghost f: Footprint)
    requires t.Valid()
    modifies lv
    ensures f == FirstSetting(cfg, options, t.Nodes(), t.Links()).Footprint(base)
    ensures ran == Ok ==> (refused <==> exists n | n in Simulated(t.Nodes()) :: t.Nodes()[n].bmc)
    ensures ran == Ok && refused ==> destroyed == Error && Installed(old(Observe(lv)), Observe(lv), f)
    ensures ran == destroyed == Ok && lv.reliable ==> Unchanged(old(Observe(lv)), Observe(lv), f, false)
  {
    ghost var before := Observe(lv);
    var r;
    ghost var s, reached;
    r, s := FreshRunner(cfg, conf, random, options, t);
    f := s.Footprint(base);
    ran, reached := Run(r, t, lv, base, s, f);
    destroyed, refused := Error, false;
    if ran == Ok {
      ghost var between := Observe(lv);
      destroyed, refused := DestroyAfterRun(r, t, lv, base, s, f);
      StartedInFootprint(s, base);
      if destroyed == Ok && lv.reliable {
        DestroyUndoesRun(before, between, Observe(lv), f);
      }
    }
  }

  /** Destroy on a runner whose registry and devices are those of a successful first run in the setting s. */
  method DestroyAfterRun(r: Runner, t: T, lv: Libvirt, ghost base: BaseNames, ghost s: Setting, ghost f: Footprint)
    returns (res: Outcome, ghost refused: bool)
    requires Ready(r) && t.Valid() && IsFirst(s, r.cfg, r.writesSSHConfig, t.Nodes(), t.Links())
    requires s.Possible() && f == s.Footprint(base) && r.bmcMan.all.Keys == f.bmcs && r.devices.Keys <= s.Devices()
    modifies r`devices, r`objects, r`bmcs, r`domains, r`baseImages, r.bmcMan`all, r.bmcMan`nextPort, r.bmcMan`order
    modifies r.objects`interfaces, lv
    ensures refused <==> exists n | n in Simulated(s.nodes) :: s.nodes[n].bmc
    ensures refused ==> res == Error && Observe(lv) == old(Observe(lv))
    ensures res == Ok && lv.reliable ==> TornDown(old(Observe(lv)), Observe(lv), f)
  {
    ghost var u := SettingOf(r, t);
    SecondBuildRefused(s.cfg, s.nodes);
    SameFootprint(s, u, base);
    res, refused := Destroy(r, t, lv, base, u, f);
  }

  lemma {:induction false} SameFootprint(s: Setting, u: Setting, base: BaseNames)
    requires s.cfg == u.cfg && s.nodes == u.nodes && s.registered == {} && s.stock.devices == map[]
    requires u.registered == s.Footprint(base).bmcs && u.stock.devices.Keys <= s.Devices()
    ensures u.registered == BMCNames(s.cfg, s.nodes, Simulated(s.nodes))
    ensures u.Footprint(base) == s.Footprint(base)
  {
    assert s.Devices() == Simulated(s.nodes);
    assert u.Attrs() == s.Attrs();
  }

  // ----- runs on a nil map ------------------------------------------------------------

  /** Once the map of domain handles is nil, no number of further runs on this runner succeeds. */
  method Retry(r: Runner, t: T, lv: Libvirt, base: BaseNames, attempts: nat) returns (results: seq<Outcome>)
    requires Ready(r) && t.Valid()
    modifies r, r.bmcMan, r.objects`interfaces, lv
    ensures |results| == attempts
    ensures old(r.domains).None? && Simulated(t.Nodes()) != {} ==> Ok !in results
  {
    results := [];
    ghost var nodes := t.Nodes();
    ghost var doomed := r.domains.None? && Simulated(nodes) != {};
    for i := 0 to attempts
      invariant t.Valid() && t.Nodes() == nodes && Ready(r)
      invariant r.objects >= old(r.objects) && fresh(r.objects - old(r.objects))
      invariant |results| == i && (doomed ==> r.domains.None? && Ok !in results)
    {
      var res := RunOnce(r, t, lv, base, nodes);
      results := results + [res];
    }
  }

  method RunOnce(r: Runner, t: T, lv: Libvirt, base: BaseNames, ghost nodes: Nodes) returns (res: Outcome)
    requires Ready(r) && t.Valid() && nodes == t.Nodes()
    modifies r`devices, r`objects, r`bmcs, r`domains, r`baseImages, r.bmcMan`all, r.bmcMan`nextPort, r.bmcMan`order
    modifies r.objects`interfaces, lv
    ensures Ready(r) && r.objects >= old(r.objects) && fresh(r.objects - old(r.objects))
    ensures old(r.domains).None? ==> r.domains.None? && (res == Ok ==> Simulated(nodes) == {})
  {
    ghost var s := SettingOf(r, t);
    ghost var reached;
    DevicesNeedHandleMap(s);
    res, reached := Run(r, t, lv, base, s, s.Footprint(base));
  }

  lemma {:induction false} DevicesNeedHandleMap(s: Setting)
    ensures s.handles.None? && Simulated(s.nodes) != {} ==> s.Hazards() != {}
  {
    NoHazards(s.Foreseen());
    if n :| s.handles.None? && n in Simulated(s.nodes) {
      assert n in s.Attrs() && Threatens(s.Foreseen(), NoHandleMap);
    }
  }

  /**
   A run that fails in defineDomains or behind it spoils its runner: whatever the world does, no later
   run on it succeeds, unless there is no device at all.
   */
  method FailAndRetry(r: Runner, t: T, lv: Libvirt, base: BaseNames, attempts: nat)
    returns (first: Outcome, results: seq<Outcome>, ghost reached: Reached)
    requires Ready(r) && t.Valid()
    modifies r, r.bmcMan, r.objects`interfaces, lv
    ensures |results| == attempts
    ensures first == Error && reached != NotDefining && Simulated(t.Nodes()) != {} ==> Ok !in results
  {
    ghost var s := SettingOf(r, t);
    first, reached := Run(r, t, lv, base, s, s.Footprint(base));
    results := Retry(r, t, lv, base, attempts);
  }

  /** So does a successful Destroy. */
  method DestroyAndRetry(r: Runner, t: T, lv: Libvirt, base: BaseNames, attempts: nat)
    returns (destroyed: Outcome, results: seq<Outcome>)
    requires Ready(r) && t.Valid()
    modifies r, r.bmcMan, r.objects`interfaces, lv
    ensures |results| == attempts
    ensures destroyed == Ok && Simulated(t.Nodes()) != {} ==> Ok !in results
  {
    ghost var s := SettingOf(r, t);
    ghost var refused;
    destroyed, refused := Destroy(r, t, lv, base, s, s.Footprint(base));
    results := Retry(r, t, lv, base, attempts);
  }
}
