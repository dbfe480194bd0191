/** Run as a transaction, from the connection to libvirt on (runner/libvirt/runner.go, lines 192-256). */
module Transaction {
  import opened Prelude
  import opened Graph
  import opened AutoManagement
  import opened Topology
  import opened Cabling
  import opened Hypervisor
  import opened RunnerState
  import opened InventoryBuilder
  import opened Images
  import opened Stages
  import opened Hazards
  import opened Startup
  import opened Commands
  import opened DeviceSetup

  // ----- the world outside --------------------------------------------------------

  /** The names of everything that exists. */
  datatype World = World(
    volumes: set<string>, defined: set<string>, running: set<string>,
    vbmcs: set<string>, active: set<string>,  // the BMCs, and those that have been started
    interrupted: bool)  // the caller's context is done

  ghost function Observe(lv: Libvirt): World
    reads lv
  {
    World(lv.volumes, lv.defined, lv.running, lv.vbmcs, lv.Active(), lv.interrupted)
  }

  /** What a topology puts into the world. */
  datatype Footprint = Footprint(
    devices: set<string>,  // a volume and a domain of this name for each simulated device
    started: set<string>,  // the domains that are started
    bmcs: set<string>,     // the domains with a BMC
    images: set<string>)   // the volumes of the base images

  ghost function FootprintOf(cfg: Config, devices: Devices, nodes: Nodes, bmcs: set<string>, base: BaseNames): Footprint {
    Footprint(Names(cfg, devices.Keys), Names(cfg, StartedDevices(nodes)), bmcs, VolumeNames(base, ImagesOf(devices)))
  }

  ghost function ImagesOf(devices: Devices): set<string> {
    set n | n in devices && devices[n].osImage != "" :: devices[n].osImage
  }

  /** What failed runs leave of BMCs: all if leaked, else none, unless the caller's context is done. */
  ghost predicate BMCsAfter(before: World, after: World, f: Footprint, reliable: bool, leaked: bool) {
    if leaked then
      Added(before.vbmcs, after.vbmcs, f.bmcs) && Added(before.active, after.active, f.bmcs)
    else
      && RolledBack(before.vbmcs, after.vbmcs, f.bmcs, reliable && !after.interrupted)
      && RolledBack(before.active, after.active, f.bmcs, reliable && !after.interrupted)
  }

  /**
   Everything is as before, except for base images: these stay, and so do volumes that a failed
   download left behind. The BMCs stay registered if leaked.
   */
  ghost predicate Unchanged(before: World, after: World, f: Footprint, leaked: bool) {
    && RolledBack(before.volumes, after.volumes, f.images, false)
    && after.defined == before.defined && after.running == before.running
    && BMCsAfter(before, after, f, true, leaked)
  }

  /** Even if cleanup fails: nothing that was there is gone, and nothing but the footprint was added. */
  ghost predicate Contained(before: World, after: World, f: Footprint) {
    && RolledBack(before.volumes, after.volumes, f.images + f.devices, false)
    && RolledBack(before.defined, after.defined, f.devices, false)
    && RolledBack(before.running, after.running, f.started, false)
    && RolledBack(before.vbmcs, after.vbmcs, f.bmcs, false) && RolledBack(before.active, after.active, f.bmcs, false)
  }

  /** The topology is up: the whole footprint is there, and none of it was there before, save base images. */
  ghost predicate Installed(before: World, after: World, f: Footprint) {
    && f.devices !! before.volumes && f.devices <= after.volumes
    && RolledBack(before.volumes, after.volumes - f.devices, f.images, false)
    && Added(before.defined, after.defined, f.devices) && f.devices !! before.running
    && Added(before.running, after.running, f.started)
    && Added(before.vbmcs, after.vbmcs, f.bmcs) && Added(before.active, after.active, f.bmcs)
  }

  /** What Run owes for each outcome; nothing is promised after a panic. */
  ghost predicate Transacted(before: World, after: World, f: Footprint, reliable: bool, res: Outcome, leaked: bool) {
    match res
    case Ok => Installed(before, after, f)
    case Error => Contained(before, after, f) && (reliable ==> Unchanged(before, after, f, leaked))
    case Panic => true
  }

  lemma {:induction false} DeviceImages(r: Runner)
    ensures ImageURLs(r, r.devices.Keys) == ImagesOf(AttributesOf(r))
  {
    assert forall n | n in r.devices :: AttributesOf(r)[n] == r.devices[n].attrs;
  }

  // ----- what is inside -------------------------------------------------------------

  /** One entry per device that is no OOB device, for the user cumulus on Cumulus Linux and else for root. */
  ghost predicate AreSSHHosts(nodes: Nodes, hosts: seq<SSHHost>) {
    && (forall i, j | 0 <= i < j < |hosts| :: hosts[i].name != hosts[j].name)
    && (forall h | h in hosts :: IsSSHHost(nodes, h))
    && (forall n | n in nodes && nodes[n].role != OOBServer && nodes[n].role != OOBSwitch ::
          exists h | h in hosts :: h.name == n)
  }

  ghost predicate IsSSHHost(nodes: Nodes, h: SSHHost) {
    && h.name in nodes && nodes[h.name].role != OOBServer && nodes[h.name].role != OOBSwitch
    && h.user == if RunsCumulus(nodes[h.name].role) then "cumulus" else "root"
  }

  /** The devices whose disk is not on top of their image. */
  ghost function Unbacked(r: Runner, base: BaseNames, lv: Libvirt): set<string>
    reads r`devices, lv`backings
  {
    set n | n in r.devices && !BackedSoFar(r, base, lv.backings, {n})
  }

  /** The devices whose domain does not have their interfaces. */
  ghost function Misdefined(r: Runner, lv: Libvirt): set<string>
    requires r.Valid()
    reads r`devices, r`objects, r.objects`interfaces, lv`definitions
  {
    set n | n in r.devices && !DefinitionsSoFar(r, lv.definitions, {n})
  }

  /** The devices with an image that have not been customized with their commands since log. */
  ghost function Unprepared(r: Runner, t: T, log: seq<Event>, lv: Libvirt): set<string>
    requires r.Valid()
    reads r`devices, r`objects, r.objects`interfaces, lv`log
  {
    set n | n in WithImage(r) && !(log <= lv.log && IsSetUp(r.cfg.namePrefix, SiteOf(r, t), n, lv.log[|log|..]))
  }

  /** The BMCs without the data that were made up for them. */
  ghost function Undescribed(r: Runner, lv: Libvirt): set<string>
    reads r.bmcMan`all, lv`bmcs
  {
    set x | x in r.bmcMan.all && !r.bmcMan.Describes(lv.bmcs, {x})
  }

  /** The file leads to the server at the given address, and from there to the other devices. */
  ghost predicate IsSSHConfig(nodes: Nodes, server: nat, content: Option<SSHConfig>) {
    content.Some? && content.value.server == server && AreSSHHosts(nodes, content.value.hosts)
  }

  datatype File = SSHFile | BMCFile

  /** The files that are wanted and have not been written like that. */
  ghost function Unwritten(r: Runner, t: T, lv: Libvirt): set<File>
    reads r`bmcs, t`devs, lv`sshConfig, lv`bmcConfig
  {
    (if r.writesSSHConfig && !IsSSHConfig(t.Nodes(), lv.lease, lv.sshConfig) then {SSHFile} else {})
    + if r.writesBMCConfig && lv.bmcConfig != Some(r.bmcs) then {BMCFile} else {}
  }

  /** Everything a run still owes, besides the existence of things: nothing, when it has succeeded. */
  datatype Debts = Debts(
    unbacked: set<string>, misdefined: set<string>, unprepared: set<string>, undescribed: set<string>, unwritten: set<File>)

  const NO_DEBTS := Debts({}, {}, {}, {}, {})

  ghost function DebtsOf(r: Runner, t: T, base: BaseNames, log: seq<Event>, lv: Libvirt): Debts
    requires r.Valid()
    reads r`devices, r`objects, r.objects`interfaces, r`bmcs, r.bmcMan`all, t`devs, lv
  {
    Debts(Unbacked(r, base, lv), Misdefined(r, lv), Unprepared(r, t, log, lv), Undescribed(r, lv), Unwritten(r, t, lv))
  }

  /**
   Without debts, every device has its disk on top of its image and its domain with its interfaces; it
   has been customized with its commands if it has an image; the BMCs are as they were made up; and the
   files that are wanted have been written.
   */
  lemma {:induction false} NothingOwed(r: Runner, t: T, base: BaseNames, log: seq<Event>, lv: Libvirt)
    requires r.Valid() && DebtsOf(r, t, base, log, lv) == NO_DEBTS
    ensures forall n | n in r.devices ::
      && r.cfg.namePrefix + n in lv.backings
      && lv.backings[r.cfg.namePrefix + n] == BackingOf(base, r.devices[n].attrs.osImage)
    ensures forall n | n in r.devices ::
      r.cfg.namePrefix + n in lv.definitions && lv.definitions[r.cfg.namePrefix + n] == DefinitionOf(r, n)
    ensures forall n | n in r.devices && r.devices[n].attrs.osImage != "" ::
      log <= lv.log && IsSetUp(r.cfg.namePrefix, SiteOf(r, t), n, lv.log[|log|..])
    ensures forall x | x in r.bmcMan.all :: x in lv.bmcs && lv.bmcs[x] == r.bmcMan.all[x]
    ensures r.writesSSHConfig ==> IsSSHConfig(t.Nodes(), lv.lease, lv.sshConfig)
    ensures r.writesBMCConfig ==> lv.bmcConfig == Some(r.bmcs)
  {
    forall n | n in r.devices
      ensures BackedSoFar(r, base, lv.backings, {n}) && DefinitionsSoFar(r, lv.definitions, {n})
      ensures r.devices[n].attrs.osImage != "" ==>
        log <= lv.log && IsSetUp(r.cfg.namePrefix, SiteOf(r, t), n, lv.log[|log|..])
    {
      assert n !in Unbacked(r, base, lv) && n !in Misdefined(r, lv) && n !in Unprepared(r, t, log, lv);
    }
    forall x | x in r.bmcMan.all ensures r.bmcMan.Describes(lv.bmcs, {x}) {
      assert x !in Undescribed(r, lv);
    }
    assert SSHFile !in Unwritten(r, t, lv) && BMCFile !in Unwritten(r, t, lv);
  }

  /** The debts of what follows defineDomains. */
  ghost function LateDebts(r: Runner, t: T, log: seq<Event>, lv: Libvirt): Debts
    requires r.Valid()
    reads r`devices, r`objects, r.objects`interfaces, r`bmcs, r.bmcMan`all, t`devs
    reads lv`log, lv`bmcs, lv`sshConfig, lv`bmcConfig
  {
    Debts({}, {}, Unprepared(r, t, log, lv), Undescribed(r, lv), Unwritten(r, t, lv))
  }

  // ----- from customization to the end ----------------------------------------------

  /** The loop of writeSSHConfig over the devices. */
  method SSHHosts(t: T) returns (hosts: seq<SSHHost>)
    requires t.Valid()
    ensures AreSSHHosts(t.Nodes(), hosts)
  {
    hosts := [];
    ghost var nodes := t.Nodes();
    var todo := t.devs.Keys;
    while todo != {}
      invariant todo <= nodes.Keys
      invariant forall i, j | 0 <= i < j < |hosts| :: hosts[i].name != hosts[j].name
      invariant forall h | h in hosts :: h.name !in todo && IsSSHHost(nodes, h)
      invariant forall n | n in nodes && n !in todo && nodes[n].role != OOBServer && nodes[n].role != OOBSwitch ::
        exists h | h in hosts :: h.name == n
      decreases todo
    {
      var n :| n in todo;
      todo := todo - {n};
      var role := t.devs[n].attrs.role;
      if role == OOBServer || role == OOBSwitch {
        continue;
      }
      CumulusFunctions(role);
      ghost var before := hosts;
      hosts := hosts + [SSHHost(n, UserOf(role))];
      HostsGrow(before, hosts[|before|]);
    }
  }

  lemma {:induction false} HostsGrow(hosts: seq<SSHHost>, h: SSHHost)
    ensures forall x | x in hosts + [h] :: x in hosts || x == h
    ensures h in hosts + [h] && forall x | x in hosts :: x in hosts + [h]
  {
  }

  /** Writing out the ssh_config. It dereferences the handle of the OOB server, nil or not. */
  method WriteSSHConfig(r: Runner, t: T, lv: Libvirt) returns (res: Outcome)
    requires t.Valid()
    modifies lv`sshConfig
    ensures res == Panic <==> r.cfg.namePrefix + SERVER !in Handles(r.domains)
    ensures res == Ok ==> IsSSHConfig(t.Nodes(), lv.lease, lv.sshConfig)
  {
    if r.cfg.namePrefix + SERVER !in Handles(r.domains) {
      return Panic;
    }
    var ip := lv.Lease();
    if ip.None? {
      return Error;
    }
    var hosts := SSHHosts(t);
    var flushed := lv.WriteSSHConfig(SSHConfig(ip.value, hosts));
    return if flushed then Ok else Error;
  }

  /** What follows startDomains. */
  method WriteConfigs(r: Runner, t: T, lv: Libvirt) returns (res: Outcome)
    requires t.Valid()
    modifies lv`sshConfig, lv`bmcConfig
    ensures res == Panic <==> r.writesSSHConfig && r.cfg.namePrefix + SERVER !in Handles(r.domains)
    ensures res == Error ==> r.writesSSHConfig || r.writesBMCConfig
    ensures res == Ok ==> Unwritten(r, t, lv) == {}
  {
    if r.writesSSHConfig {
      res := WriteSSHConfig(r, t, lv);
      if res != Ok {
        return;
      }
    }
    if r.writesBMCConfig {
      var written := lv.WriteBMCConfig(r.bmcs);
      return if written then Ok else Error;
    }
    return Ok;
  }

  /** In what was added to the log, every start comes after the customization of all the names. */
  ghost predicate CustomizedFirst(before: seq<Event>, after: seq<Event>, names: set<string>) {
    && before <= after
    && forall i, x | |before| <= i < |after| && after[i].Started? && x in names ::
         WasCustomized(x, after[|before|..i])
  }

  lemma {:induction false} NoEarlyStart(before: seq<Event>, events: seq<Event>, starts: seq<Event>, i: nat)
    requires NothingStarted(events) && |before| <= i < |before + events + starts|
    ensures (before + events + starts)[i].Started? ==> i >= |before| + |events|
  {
    assert forall j | 0 <= j < |events| :: events[j] in events;
  }

  lemma {:induction false} InThatOrder(before: seq<Event>, events: seq<Event>, started: seq<string>, names: set<string>)
    requires NothingStarted(events)
    requires started == [] || forall x | x in names :: WasCustomized(x, events)
    ensures CustomizedFirst(before, before + events + Starts(started), names)
  {
    var after := before + events + Starts(started);
    forall i, x | |before| <= i < |after| && after[i].Started? && x in names
      ensures WasCustomized(x, after[|before|..i])
    {
      NoEarlyStart(before, events, Starts(started), i);
      assert started != [];
      var commands :| Customized(x, commands) in events;
      var k :| 0 <= k < |events| && events[k] == Customized(x, commands);
      assert after[|before|..i][k] == Customized(x, commands);
    }
  }

  /** The devices with an image that these events do not set up. */
  ghost function Unready(r: Runner, t: T, events: seq<Event>): set<string>
    requires r.Valid()
    reads r`devices, r`objects, r.objects`interfaces
  {
    set n | n in WithImage(r) && !IsSetUp(r.cfg.namePrefix, SiteOf(r, t), n, events)
  }

  lemma {:induction false} AllWereCustomized(r: Runner, t: T, events: seq<Event>)
    requires r.Valid() && Unready(r, t, events) == {}
    ensures forall x | x in Names(r.cfg, WithImage(r)) :: WasCustomized(x, events)
  {
    forall x | x in Names(r.cfg, WithImage(r)) ensures WasCustomized(x, events) {
      var n :| n in WithImage(r) && r.cfg.namePrefix + n == x;
      assert n !in Unready(r, t, events);
      assert IsSetUp(r.cfg.namePrefix, SiteOf(r, t), n, events);
    }
  }

  lemma {:induction false} StillSetUp(prefix: string, site: Site, n: string, events: seq<Event>, starts: seq<Event>)
    requires IsSetUp(prefix, site, n, events)
    ensures IsSetUp(prefix, site, n, events + starts)
  {
    var commands :| Customized(prefix + n, commands) in events && AreCommandsFor(site, n, commands);
    assert Customized(prefix + n, commands) in events + starts;
  }

  lemma {:induction false} AllPrepared(r: Runner, t: T, lv: Libvirt, log: seq<Event>, events: seq<Event>, starts: seq<Event>)
    requires r.Valid() && lv.log == log + events + starts && Unready(r, t, events) == {}
    ensures Unprepared(r, t, log, lv) == {}
  {
    assert lv.log[|log|..] == events + starts;
    forall n | n in WithImage(r) ensures n !in Unprepared(r, t, log, lv) {
      assert n !in Unready(r, t, events);
      StillSetUp(r.cfg.namePrefix, SiteOf(r, t), n, events, starts);
    }
  }

  /** customizeDomains, in the terms of what is to come. */
  method CustomizeAll(r: Runner, t: T, lv: Libvirt, ghost o: Outlook) returns (res: Outcome, ghost events: seq<Event>)
    requires r.Valid() && o == OutlookOf(r)
    modifies lv`log
    ensures lv.log == old(lv.log) + events && NothingStarted(events)
    ensures res == Ok ==> Unready(r, t, events) == {}
    ensures res == Ok ==> !Threatens(o, LonelyDevice) && !Threatens(o, UnparsablePrefix)
    ensures res == Panic ==> Threatens(o, LonelyDevice) || Threatens(o, UnparsablePrefix)
    ensures Threatens(o, LonelyDevice) ==> res == Panic
  {
    res, events := CustomizeDomains(r, t, lv, o, SiteOf(r, t));
  }

  /**
   customizeDomains and startDomains. Nothing is started before every domain with an image has been
   customized.
   */
  method CustomizeAndStart(r: Runner, t: T, lv: Libvirt, ghost o: Outlook) returns (res: Outcome)
    requires r.Valid() && t.Valid() && HasHandles(r, t.Nodes()) && o == OutlookOf(r)
    modifies lv`running, lv`log, lv`vbmcs, lv`bmcs, lv`started, lv`cutOff, lv`interrupted
    ensures CustomizedFirst(old(lv.log), lv.log, Names(r.cfg, WithImage(r)))
    ensures res == Ok ==>
      && Added(old(lv.running), lv.running, Names(r.cfg, StartedDevices(t.Nodes())))
      && Added(old(lv.vbmcs), lv.vbmcs, r.bmcMan.all.Keys) && Added(old(lv.Active()), lv.Active(), r.bmcMan.all.Keys)
    ensures res != Ok ==>
      && RolledBack(old(lv.running), lv.running, Names(r.cfg, StartedDevices(t.Nodes())), lv.reliable)
      && RolledBack(old(lv.vbmcs), lv.vbmcs, r.bmcMan.all.Keys, lv.reliable && !lv.interrupted)
      && RolledBack(old(lv.Active()), lv.Active(), r.bmcMan.all.Keys, lv.reliable && !lv.interrupted)
    ensures res == Ok ==> Unprepared(r, t, old(lv.log), lv) == {} && Undescribed(r, lv) == {}
    ensures res == Ok ==> !Threatens(o, LonelyDevice) && !Threatens(o, UnparsablePrefix)
    ensures res == Panic ==> Threatens(o, LonelyDevice) || Threatens(o, UnparsablePrefix)
    ensures Threatens(o, LonelyDevice) ==> res == Panic
  {
    ghost var before := lv.log;
    ghost var events;
    res, events := CustomizeAll(r, t, lv, o);
    if res == Ok {
      var ok := StartAfter(r, t, lv, before, events);
      res := if ok then Ok else Error;
    } else {
      InThatOrder(before, events, [], Names(r.cfg, WithImage(r)));
      assert before + events + Starts([]) == before + events;
    }
  }

  /** startDomains, after all domains with an image have been customized. */
  method StartAfter(r: Runner, t: T, lv: Libvirt, ghost before: seq<Event>, ghost events: seq<Event>) returns (ok: bool)
    requires r.Valid() && t.Valid() && HasHandles(r, t.Nodes())
    requires lv.log == before + events && NothingStarted(events) && Unready(r, t, events) == {}
    modifies lv`running, lv`log, lv`vbmcs, lv`bmcs, lv`started, lv`cutOff, lv`interrupted
    ensures CustomizedFirst(before, lv.log, Names(r.cfg, WithImage(r)))
    ensures ok ==>
      && Added(old(lv.running), lv.running, Names(r.cfg, StartedDevices(t.Nodes())))
      && Added(old(lv.vbmcs), lv.vbmcs, r.bmcMan.all.Keys) && Added(old(lv.Active()), lv.Active(), r.bmcMan.all.Keys)
    ensures !ok ==>
      && RolledBack(old(lv.running), lv.running, Names(r.cfg, StartedDevices(t.Nodes())), lv.reliable)
      && RolledBack(old(lv.vbmcs), lv.vbmcs, r.bmcMan.all.Keys, lv.reliable && !lv.interrupted)
      && RolledBack(old(lv.Active()), lv.Active(), r.bmcMan.all.Keys, lv.reliable && !lv.interrupted)
    ensures ok ==> Unprepared(r, t, before, lv) == {} && Undescribed(r, lv) == {}
  {
    ghost var order, started;
    AllWereCustomized(r, t, events);
    ok, order, started := StartDomains(r, t, lv);
    InThatOrder(before, events, started, Names(r.cfg, WithImage(r)));
    AllPrepared(r, t, lv, before, events, Starts(started));
  }

  /** Every device has its handle, so the OOB server has one if it is a device. */
  ghost predicate AllHaveHandles(o: Outlook) {
    forall n | n in o.devices :: o.prefix + n in Handles(o.handles)
  }

  /** The two files, after everything has been started. */
  method FinishLaunch(r: Runner, t: T, lv: Libvirt, ghost log: seq<Event>) returns (res: Outcome)
    requires r.Valid() && t.Valid() && Unprepared(r, t, log, lv) == {} && Undescribed(r, lv) == {}
    modifies lv`sshConfig, lv`bmcConfig
    ensures res == Panic <==> r.writesSSHConfig && r.cfg.namePrefix + SERVER !in Handles(r.domains)
    ensures res == Error ==> r.writesSSHConfig || r.writesBMCConfig
    ensures res == Ok ==> LateDebts(r, t, log, lv) == NO_DEBTS
  {
    res := WriteConfigs(r, t, lv);
  }

  /** customizeDomains and everything after it. up: startDomains has succeeded. */
  method Launch(r: Runner, t: T, lv: Libvirt, ghost o: Outlook) returns (res: Outcome, ghost up: bool)
    requires r.Valid() && t.Valid() && HasHandles(r, t.Nodes()) && o == OutlookOf(r) && AllHaveHandles(o)
    modifies lv`running, lv`log, lv`vbmcs, lv`bmcs, lv`started, lv`cutOff, lv`interrupted, lv`sshConfig, lv`bmcConfig
    ensures CustomizedFirst(old(lv.log), lv.log, Names(r.cfg, WithImage(r)))
    ensures res == Ok ==> up
    ensures up && res == Error ==> r.writesSSHConfig || r.writesBMCConfig
    ensures up ==>
      && Added(old(lv.running), lv.running, Names(r.cfg, StartedDevices(t.Nodes())))
      && Added(old(lv.vbmcs), lv.vbmcs, r.bmcMan.all.Keys) && Added(old(lv.Active()), lv.Active(), r.bmcMan.all.Keys)
    ensures !up ==>
      && RolledBack(old(lv.running), lv.running, Names(r.cfg, StartedDevices(t.Nodes())), lv.reliable)
      && RolledBack(old(lv.vbmcs), lv.vbmcs, r.bmcMan.all.Keys, lv.reliable && !lv.interrupted)
      && RolledBack(old(lv.Active()), lv.Active(), r.bmcMan.all.Keys, lv.reliable && !lv.interrupted)
    ensures res == Ok ==> LateDebts(r, t, old(lv.log), lv) == NO_DEBTS
    ensures res == Panic ==> HazardsOf(o) != {}
    ensures res == Ok ==> HazardsOf(o) == {}
    ensures Threatens(o, LonelyDevice) || (up && Threatens(o, NoServerHandle)) ==> res == Panic
  {
    NoHazards(o);
    HandlesRuleOut(o);
    res := CustomizeAndStart(r, t, lv, o);
    up := res == Ok;
    if res == Ok {
      res := FinishLaunch(r, t, lv, old(lv.log));
    }
  }

  /** With all handles there, only the ssh_config can lack one, that of an OOB server which is no device. */
  lemma {:induction false} HandlesRuleOut(o: Outlook)
    requires AllHaveHandles(o)
    ensures !Threatens(o, NoHandleMap)
    ensures Threatens(o, NoServerHandle) <==> o.writesSSHConfig && o.prefix + SERVER !in Handles(o.handles)
  {
    if n :| n in o.devices {
      assert o.prefix + n in Handles(o.handles);
    }
  }

  // ----- Run ------------------------------------------------------------------------

  lemma {:induction false} RunningRolledBack(before: set<string>, mid: set<string>, after: set<string>,
                                             names: set<string>, started: set<string>, reliable: bool)
    requires names !! before && started <= names
    requires RolledBack(before, mid, started, false) && Removed(mid, after, names, reliable)
    ensures RolledBack(before, after, started, reliable)
  {
  }

  /** The footprint without the images. */
  ghost predicate FitsDomains(r: Runner, t: T, f: Footprint)
    reads r`devices, r.bmcMan`all, t`devs
  {
    && Simulated(t.Nodes()) <= r.devices.Keys
    && f.devices == Names(r.cfg, r.devices.Keys)
    && f.started == Names(r.cfg, StartedDevices(t.Nodes()))
    && f.bmcs == r.bmcMan.all.Keys
  }

  /** What Launch and, on an error, undefineDomains make of a world in which the domains are defined. */
  ghost predicate Launched(before: World, after: World, f: Footprint, reliable: bool, res: Outcome, up: bool) {
    && after.volumes == before.volumes
    && match res
       case Ok =>
         && after.defined == before.defined
         && Added(before.running, after.running, f.started)
         && Added(before.vbmcs, after.vbmcs, f.bmcs) && Added(before.active, after.active, f.bmcs)
       case Error =>
         && Removed(before.defined, after.defined, f.devices, reliable)
         && RolledBack(before.running, after.running, f.started, reliable)
         && BMCsAfter(before, after, f, reliable, up)
       case Panic => true
  }

  /** Everything after defineDomains, with the deferred undefineDomains. */
  method LaunchOrUndefine(r: Runner, t: T, lv: Libvirt, ghost f: Footprint, ghost o: Outlook)
    returns (res: Outcome, ghost up: bool)
    requires r.Valid() && t.Valid() && HasHandles(r, t.Nodes()) && FitsDomains(r, t, f)
    requires o == OutlookOf(r) && AllHaveHandles(o)
    requires f.devices !! lv.running && f.started <= f.devices
    modifies r`domains, lv`defined, lv`running, lv`log, lv`vbmcs, lv`bmcs, lv`started, lv`cutOff, lv`interrupted
    modifies lv`sshConfig, lv`bmcConfig
    ensures res == Ok ==> LateDebts(r, t, old(lv.log), lv) == NO_DEBTS
    ensures Launched(old(Observe(lv)), Observe(lv), f, lv.reliable, res, up)
    ensures r.domains == if res == Error then None else old(r.domains)
    ensures up && res == Error ==> r.writesSSHConfig || r.writesBMCConfig
    ensures res == Panic ==> HazardsOf(o) != {}
    ensures res == Ok ==> HazardsOf(o) == {}
  {
    res, up := Launch(r, t, lv, o);
    if res == Error {
      ghost var running := lv.running;
      UndefineDomains(r, lv);
      RunningRolledBack(old(lv.running), running, lv.running, f.devices, f.started, lv.reliable);
      r.domains := None;
    }
  }

  /** How far a run came: defineDomains was called, or startDomains has succeeded. */
  datatype Reached = NotDefining | Defining | Up

  /** The domain handles a run leaves: none after an error in or behind defineDomains, and never any where there was no map. */
  ghost predicate HandlesAfter(before: Option<set<string>>, after: Option<set<string>>, res: Outcome, reached: Reached) {
    && (res == Error ==> after == if reached == NotDefining then before else None)
    && (before.None? ==> after.None?)
  }

  /** Defining the domains adds their handles, and changes nothing about the hazards. */
  lemma {:induction false} HazardsStay(o: Outlook, names: set<string>, handles: Option<set<string>>)
    requires HandlesAdded(o.handles, handles, names) && names == set n | n in o.devices :: o.prefix + n
    ensures AllHaveHandles(o.(handles := handles)) && HazardsOf(o.(handles := handles)) == HazardsOf(o)
    ensures o.handles.None? ==> handles.None?
  {
    var after := o.(handles := handles);
    forall n | n in o.devices ensures o.prefix + n in names && o.prefix + n in Handles(handles) {
    }
    if o.prefix + SERVER in names {
      var n :| n in o.devices && o.prefix + n == o.prefix + SERVER;
      PrefixInjective(o.prefix, n, SERVER);
    }
    forall h ensures Threatens(after, h) <==> Threatens(o, h) {
    }
    assert HazardsOf(after) == HazardsOf(o);
  }

  lemma {:induction false} StartedHaveHandles(r: Runner, nodes: Nodes)
    requires Simulated(nodes) <= r.devices.Keys && forall n | n in r.devices :: r.cfg.namePrefix + n in Handles(r.domains)
    ensures HasHandles(r, nodes)
  {
    assert StartedDevices(nodes) <= r.devices.Keys;
  }

  lemma {:induction false} OutlookStays(r: Runner, nodes: Nodes, o: Outlook)
    requires r.Valid() && Simulated(nodes) <= r.devices.Keys && o.(handles := r.domains) == OutlookOf(r)
    requires HandlesAdded(o.handles, r.domains, Names(r.cfg, r.devices.Keys))
    ensures AllHaveHandles(OutlookOf(r)) && HazardsOf(OutlookOf(r)) == HazardsOf(o) && HasHandles(r, nodes)
    ensures o.handles.None? ==> r.domains.None?
  {
    assert o.devices.Keys == r.devices.Keys;
    HazardsStay(o, Names(r.cfg, r.devices.Keys), r.domains);
    forall n | n in r.devices ensures r.cfg.namePrefix + n in Handles(r.domains) {
      assert n in o.devices;
    }
    StartedHaveHandles(r, nodes);
  }

  /** The world is as before, but for the domains of all devices, whose handles are there. */
  ghost predicate DomainsReady(r: Runner, t: T, lv: Libvirt, f: Footprint, o: Outlook, before: World)
    requires r.Valid()
    reads r`devices, r`domains, r`objects, r.objects`interfaces, r.bmcMan`all, t`devs, lv
  {
    && FitsDomains(r, t, f) && HazardsOf(OutlookOf(r)) == HazardsOf(o)
    && AllHaveHandles(OutlookOf(r)) && HasHandles(r, t.Nodes())
    && Observe(lv) == before.(defined := lv.defined) && Added(before.defined, lv.defined, f.devices)
    && f.devices !! lv.running && Misdefined(r, lv) == {}
  }

  lemma {:induction false} AllDefined(r: Runner, lv: Libvirt)
    requires r.Valid() && DefinitionsSoFar(r, lv.definitions, r.devices.Keys)
    ensures Misdefined(r, lv) == {}
  {
  }

  /** defineDomains, with what it leaves for the rest. */
  method DefineAll(r: Runner, t: T, lv: Libvirt, ghost f: Footprint, ghost o: Outlook) returns (res: Outcome)
    requires r.Valid() && o == OutlookOf(r) && FitsDomains(r, t, f)
    modifies lv`defined, lv`definitions, r`domains
    ensures old(r.domains).None? ==> r.domains.None?
    ensures res == Ok ==> DomainsReady(r, t, lv, f, o, old(Observe(lv)))
    ensures res == Error ==>
      DomainsTransacted(old(Observe(lv)), Observe(lv), f, lv.reliable, Error, false) && r.domains.None?
    ensures res == Panic ==> HazardsOf(o) != {} && lv.volumes == old(lv.volumes)
  {
    res := DefineDomains(r, lv);
    assert AttributesOf(r) == o.devices && Lists(r) == old(Lists(r));
    if res == Ok {
      OutlookStays(r, t.Nodes(), o);
      AllDefined(r, lv);
    } else if res == Panic {
      NoHazards(o);
      assert o.devices.Keys == r.devices.Keys && Threatens(o, NoHandleMap);
    }
  }

  /** Everything after defineDomains, as seen from before it. */
  method LaunchDefined(r: Runner, t: T, lv: Libvirt, ghost f: Footprint, ghost o: Outlook, ghost before: World)
    returns (res: Outcome, ghost reached: Reached)
    requires r.Valid() && t.Valid() && DomainsReady(r, t, lv, f, o, before)
    modifies r`domains, lv`defined, lv`running, lv`log, lv`vbmcs, lv`bmcs, lv`started, lv`cutOff, lv`interrupted
    modifies lv`sshConfig, lv`bmcConfig
    ensures res == Ok ==> LateDebts(r, t, old(lv.log), lv) == NO_DEBTS && Misdefined(r, lv) == {}
    ensures DomainsTransacted(before, Observe(lv), f, lv.reliable, res, reached == Up)
    ensures reached != NotDefining && r.domains == if res == Error then None else old(r.domains)
    ensures res == Error && reached == Up ==> r.writesSSHConfig || r.writesBMCConfig
    ensures res == Panic ==> HazardsOf(o) != {}
    ensures res == Ok ==> HazardsOf(o) == {}
  {
    ghost var up, mid := false, Observe(lv);
    NamesWithin(r.cfg, StartedDevices(t.Nodes()), r.devices.Keys);
    res, up := LaunchOrUndefine(r, t, lv, f, OutlookOf(r));
    reached := if up then Up else Defining;
    LaunchedTransacted(before, mid, Observe(lv), f, lv.reliable, res, up);
  }

  /** defineDomains and everything after it, with the deferred cleanup. */
  method WithDomains(r: Runner, t: T, lv: Libvirt, ghost f: Footprint, ghost o: Outlook)
    returns (res: Outcome, ghost reached: Reached)
    requires r.Valid() && t.Valid() && FitsDomains(r, t, f) && o == OutlookOf(r)
    modifies r`domains, lv`defined, lv`definitions, lv`running, lv`log
    modifies lv`vbmcs, lv`bmcs, lv`started, lv`cutOff, lv`interrupted, lv`sshConfig, lv`bmcConfig
    ensures res == Ok ==> LateDebts(r, t, old(lv.log), lv) == NO_DEBTS && Misdefined(r, lv) == {}
    ensures DomainsTransacted(old(Observe(lv)), Observe(lv), f, lv.reliable, res, reached == Up)
    ensures reached != NotDefining && HandlesAfter(old(r.domains), r.domains, res, reached)
    ensures res == Error && reached == Up ==> r.writesSSHConfig || r.writesBMCConfig
    ensures res == Panic ==> HazardsOf(o) != {}
    ensures res == Ok ==> HazardsOf(o) == {}
  {
    reached := Defining;
    ghost var before := Observe(lv);
    res := DefineAll(r, t, lv, f, o);
    if res == Ok {
      res, reached := LaunchDefined(r, t, lv, f, o, before);
    }
  }

  ghost predicate DomainsTransacted(before: World, after: World, f: Footprint, reliable: bool, res: Outcome, up: bool) {
    && after.volumes == before.volumes
    && match res
       case Ok =>
         && Added(before.defined, after.defined, f.devices) && f.devices !! before.running
         && Added(before.running, after.running, f.started)
         && Added(before.vbmcs, after.vbmcs, f.bmcs) && Added(before.active, after.active, f.bmcs)
       case Error =>
         && RolledBack(before.defined, after.defined, f.devices, reliable)
         && RolledBack(before.running, after.running, f.started, reliable)
         && BMCsAfter(before, after, f, reliable, up)
       case Panic => true
  }

  lemma {:induction false} LaunchedTransacted(w0: World, w1: World, w2: World, f: Footprint, reliable: bool,
                                              res: Outcome, up: bool)
    requires w1 == w0.(defined := w1.defined) && Added(w0.defined, w1.defined, f.devices) && f.devices !! w0.running
    requires Launched(w1, w2, f, reliable, res, up)
    ensures DomainsTransacted(w0, w2, f, reliable, res, up)
  {
  }

  /** The footprint is that of the runner's inventory. */
  ghost predicate Fits(r: Runner, t: T, base: BaseNames, f: Footprint)
    reads r`devices, r.bmcMan`all, t`devs
  {
    FitsDomains(r, t, f) && f.images == VolumeNames(base, ImageURLs(r, r.devices.Keys))
  }

  lemma {:induction false} AllBacked(r: Runner, base: BaseNames, lv: Libvirt)
    requires BackedSoFar(r, base, lv.backings, r.devices.Keys)
    ensures Unbacked(r, base, lv) == {}
  {
  }

  /** The world is as before, but for the volumes of all devices. */
  ghost predicate VolumesReady(r: Runner, t: T, lv: Libvirt, base: BaseNames, f: Footprint, o: Outlook, before: World)
    requires r.Valid()
    reads r`devices, r`domains, r`objects, r.objects`interfaces, r.bmcMan`all, t`devs, lv
  {
    && FitsDomains(r, t, f) && o == OutlookOf(r) && Unbacked(r, base, lv) == {}
    && Observe(lv) == before.(volumes := lv.volumes) && Added(before.volumes, lv.volumes, f.devices)
  }

  /** createVolumes, with what it leaves for the rest. */
  method CreateAll(r: Runner, t: T, lv: Libvirt, ghost base: BaseNames, ghost f: Footprint, ghost o: Outlook)
    returns (res: Outcome)
    requires r.Valid() && o == OutlookOf(r) && HasImages(r) && FitsDomains(r, t, f) && NamesImages(base, r.baseImages)
    modifies lv`volumes, lv`backings
    ensures res == Ok ==> VolumesReady(r, t, lv, base, f, o, old(Observe(lv)))
    ensures res == Error ==> Transacted(old(Observe(lv)), Observe(lv), f, lv.reliable, Error, false)
    ensures res != Panic
  {
    res := CreateVolumes(r, lv, base);
    if res == Ok {
      AllBacked(r, base, lv);
    }
  }

  /** Everything after createVolumes, as seen from before it. */
  method OnVolumes(r: Runner, t: T, lv: Libvirt, ghost base: BaseNames, ghost f: Footprint, ghost o: Outlook,
                   ghost before: World)
    returns (res: Outcome, ghost reached: Reached)
    requires r.Valid() && t.Valid() && VolumesReady(r, t, lv, base, f, o, before)
    modifies r`domains, lv
    ensures res == Ok ==> DebtsOf(r, t, base, old(lv.log), lv) == NO_DEBTS
    ensures Transacted(before, Observe(lv), f, lv.reliable, res, reached == Up)
    ensures HandlesAfter(old(r.domains), r.domains, res, reached)
    ensures res == Error && reached == Up ==> r.writesSSHConfig || r.writesBMCConfig
    ensures res == Panic ==> HazardsOf(o) != {}
    ensures res == Ok ==> HazardsOf(o) == {}
  {
    ghost var mid := Observe(lv);
    res, reached := WithDomains(r, t, lv, f, o);
    ghost var late := Observe(lv);
    if res == Error {
      var _ := DeleteDeviceVolumes(r, lv);
    }
    DomainsAndVolumes(before, mid, late, Observe(lv), f, lv.reliable, res, reached == Up);
  }

  /** createVolumes and everything after it, with the deferred cleanup. */
  method WithVolumes(r: Runner, t: T, lv: Libvirt, ghost base: BaseNames, ghost f: Footprint, ghost o: Outlook)
    returns (res: Outcome, ghost reached: Reached)
    requires r.Valid() && t.Valid() && o == OutlookOf(r) && HasImages(r) && FitsDomains(r, t, f)
    requires NamesImages(base, r.baseImages)
    modifies r`domains, lv
    ensures res == Ok ==> DebtsOf(r, t, base, old(lv.log), lv) == NO_DEBTS
    ensures Transacted(old(Observe(lv)), Observe(lv), f, lv.reliable, res, reached == Up)
    ensures HandlesAfter(old(r.domains), r.domains, res, reached)
    ensures res == Error && reached == Up ==> r.writesSSHConfig || r.writesBMCConfig
    ensures res == Panic ==> HazardsOf(o) != {}
    ensures res == Ok ==> HazardsOf(o) == {}
  {
    reached := NotDefining;
    ghost var before := Observe(lv);
    res := CreateAll(r, t, lv, base, f, o);
    if res == Ok {
      res, reached := OnVolumes(r, t, lv, base, f, o, before);
    }
  }

  lemma {:induction false} DomainsAndVolumes(w0: World, w1: World, w2: World, w3: World, f: Footprint, reliable: bool,
                                             res: Outcome, up: bool)
    requires w1 == w0.(volumes := w1.volumes) && Added(w0.volumes, w1.volumes, f.devices)
    requires DomainsTransacted(w1, w2, f, reliable, res, up)
    requires w3 == w2.(volumes := w3.volumes)
    requires if res == Error then Removed(w2.volumes, w3.volumes, f.devices, reliable) else w3.volumes == w2.volumes
    ensures Transacted(w0, w3, f, reliable, res, up)
  {
    assert w3.volumes - f.devices == w0.volumes || res != Ok;
  }

  /** Connecting and downloading. */
  method Prepare(r: Runner, lv: Libvirt, base: BaseNames, ghost f: Footprint) returns (ok: bool)
    requires f.images == VolumeNames(base, ImageURLs(r, r.devices.Keys))
    modifies r`baseImages, lv`volumes, lv`partial
    ensures DownloadedOnly(old(Observe(lv)), Observe(lv), f)
    ensures ok ==> HasImages(r) && NamesImages(base, r.baseImages)
  {
    ok := lv.Call();
    if ok {
      ok := DownloadBaseImages(r, lv, base);
    }
  }

  /** Everything after buildInventory, with the deferred cleanup. */
  method RunBuilt(r: Runner, t: T, lv: Libvirt, base: BaseNames, ghost f: Footprint, ghost o: Outlook)
    returns (res: Outcome, ghost reached: Reached)
    requires r.Valid() && t.Valid() && o == OutlookOf(r) && Fits(r, t, base, f)
    modifies r`domains, r`baseImages, lv
    ensures res == Ok ==> DebtsOf(r, t, base, old(lv.log), lv) == NO_DEBTS
    ensures Transacted(old(Observe(lv)), Observe(lv), f, lv.reliable, res, reached == Up)
    ensures HandlesAfter(old(r.domains), r.domains, res, reached)
    ensures res == Error && reached == Up ==> r.writesSSHConfig || r.writesBMCConfig
    ensures res == Panic ==> HazardsOf(o) != {}
    ensures res == Ok ==> HazardsOf(o) == {}
  {
    ghost var before := Observe(lv);
    var ok := Prepare(r, lv, base, f);
    ghost var downloaded := Observe(lv);
    if ok {
      res, reached := WithVolumes(r, t, lv, base, f, o);
      if res == Error {
        r.baseImages := None;
      }
      AfterDownload(before, downloaded, Observe(lv), f, lv.reliable, res, reached == Up);
    } else {
      res, reached := Error, NotDefining;
      DownloadOnly(before, downloaded, f, lv.reliable);
    }
  }

  /** Downloads only add base images, so what holds of the rest of Run holds of all of it. */
  lemma {:induction false} AfterDownload(w0: World, w1: World, w2: World, f: Footprint, reliable: bool,
                                         res: Outcome, leaked: bool)
    requires DownloadedOnly(w0, w1, f) && Transacted(w1, w2, f, reliable, res, leaked)
    ensures Transacted(w0, w2, f, reliable, res, leaked)
  {
  }

  ghost predicate DownloadedOnly(before: World, after: World, f: Footprint) {
    && RolledBack(before.volumes, after.volumes, f.images, false)
    && after == before.(volumes := after.volumes)
  }

  lemma {:induction false} DownloadOnly(w0: World, w1: World, f: Footprint, reliable: bool)
    requires DownloadedOnly(w0, w1, f)
    ensures Transacted(w0, w1, f, reliable, Error, false)
  {
  }
}
