/** Customization and startup of the domains (runner/libvirt/runner.go, lines 664-764). */
module Startup {
  import opened Prelude
  import opened Graph
  import opened AutoManagement
  import opened Topology
  import opened Cabling
  import opened Pairing
  import opened Hypervisor
  import opened FanIn
  import opened RunnerState
  import opened InventoryBuilder
  import opened Hosts
  import opened Hazards
  import opened Quoting
  import opened Commands
  import opened Stages

  // ----- customization --------------------------------------------------------------

  ghost function WithImage(r: Runner): set<string>
    reads r`devices
  {
    set n | n in r.devices && r.devices[n].attrs.osImage != ""
  }

  /** What the commands for a device depend on. */
  datatype Site = Site(
    devices: Devices, inv: Inventory, mgmt: map<string, Option<nat>>, dot: string, keys: seq<string>)

  ghost function SiteOf(r: Runner, t: T): Site
    requires r.Valid()
    reads r`devices, r`objects, r.objects`interfaces
  {
    Site(AttributesOf(r), Lists(r), Mgmts(r), t.dot, r.authorizedKeys)
  }

  /** These are the commands for the device; on an OOB server, with the host list of the inventory. */
  ghost predicate AreCommandsFor(site: Site, n: string, commands: string) {
    n in site.devices && exists hosts ::
      && IsHostList(site, hosts, site.devices[n].role)
      && commands == CommandFile(ExtraCommands(site.devices[n].role, site.dot, site.keys, hosts))
  }

  ghost predicate IsHostList(site: Site, hosts: seq<EtherHost>, role: DeviceFunction) {
    role == OOBServer ==> site.inv.Keys == site.mgmt.Keys && Gathered(site.inv, site.mgmt, hosts, site.inv.Keys)
  }

  /** The commands for one device. None is the panic of gatherHosts. */
  method CommandsFor(r: Runner, t: T, n: string, ghost site: Site) returns (commands: Option<string>)
    requires r.Valid() && site == SiteOf(r, t) && n in r.devices
    ensures commands.None? <==> r.devices[n].attrs.role == OOBServer && Lonely(Lists(r)) != {}
    ensures commands.Some? ==> AreCommandsFor(site, n, commands.value)
  {
    var role := r.devices[n].attrs.role;
    var hosts := [];
    if role == OOBServer {
      var gathered;
      gathered, hosts := GatherHosts(r, Lists(r), Mgmts(r));
      if !gathered {
        return None;
      }
    }
    var text := WriteCommands(role, t.dot, r.authorizedKeys, hosts);
    assert IsHostList(site, hosts, role);
    return Some(text);
  }

  /** The loop over the devices: a job for each device with an image. The result is false for a panic. */
  method StartJobs(r: Runner, t: T, ghost site: Site) returns (ok: bool, jobs: map<string, string>)
    requires r.Valid() && site == SiteOf(r, t)
    ensures ok <==> Servers(AttributesOf(r)) == {} || Lonely(Lists(r)) == {}
    ensures ok ==> jobs.Keys == WithImage(r) && forall n | n in jobs :: AreCommandsFor(site, n, jobs[n])
  {
    jobs := map[];
    var todo := r.devices.Keys;
    while todo != {}
      invariant todo <= r.devices.Keys
      invariant jobs.Keys == set n | n in r.devices && n !in todo && r.devices[n].attrs.osImage != ""
      invariant forall n | n in jobs :: AreCommandsFor(site, n, jobs[n])
      invariant Servers(AttributesOf(r)) <= todo || Lonely(Lists(r)) == {}
      decreases todo
    {
      var n :| n in todo;
      todo := todo - {n};
      if r.devices[n].attrs.osImage == "" {
        continue;
      }
      var commands := CommandsFor(r, t, n, site);
      if commands.None? {
        assert n in Servers(AttributesOf(r));
        return false, jobs;
      }
      jobs := jobs[n := commands.value];
    }
    ok := true;
  }

  /** customizeDomain; None is the panic of MustParseIPPrefix. */
  method Customize(d: SimDevice, lv: Libvirt, cancelled: bool, commands: string) returns (res: Option<Res<bool>>)
    modifies lv`log
    ensures lv.log == old(lv.log) + if res.Some? && res.value.Done? then [Customized(d.name, commands)] else []
    ensures res.None? ==> IsBadServer(d.attrs)
    ensures res.Some? && res.value.Done? ==> !IsBadServer(d.attrs)
    ensures res == Some(Interrupted) ==> cancelled
  {
    var prepared := lv.Call();
    if !prepared {
      return Some(Failed("customizeDomain"));
    }
    if d.attrs.role == OOBServer && d.attrs.osImage != "" && d.attrs.mgmtPrefix.None? {
      return None;
    }
    var ran := lv.VirtCustomize(d.name, commands);
    var interrupted: bool := *;
    return Some(if ran then Done(true) else if cancelled && interrupted then Interrupted else Failed("customizeDomain"));
  }

  /** The domain of the job has been customized with its commands, and it is no bad server. */
  ghost predicate JobDone(prefix: string, bad: set<string>, jobs: map<string, string>, n: string, events: seq<Event>) {
    n in jobs && Customized(prefix + n, jobs[n]) in events && n !in bad
  }

  /** Every job that ended well is done. */
  ghost predicate ResultsCustomized(prefix: string, bad: set<string>, jobs: map<string, string>, keys: seq<string>,
                                    s: State<bool>, events: seq<Event>)
    requires |keys| == |s.workers|
  {
    forall w | 0 <= w < |keys| && (s.workers[w].Blocked? || s.workers[w].Delivered?) && s.workers[w].res.Done? ::
      JobDone(prefix, bad, jobs, keys[w], events)
  }

  ghost predicate NothingStarted(events: seq<Event>) {
    forall e | e in events :: e.Customized?
  }

  /** One step of the jobs and the collector. The result None is a panic. */
  method CustomizeStep(r: Runner, lv: Libvirt, jobs: map<string, string>, keys: seq<string>, s: State<bool>,
                       ghost events: seq<Event>)
    returns (next: Option<State<bool>>, ghost added: seq<Event>)
    requires r.Valid() && Distinct(keys) && Elements(keys) == jobs.Keys == WithImage(r)
    requires Inv(keys, map[], s) && s.phase != Returned
    requires ResultsCustomized(r.cfg.namePrefix, BadServers(AttributesOf(r)), jobs, keys, s, events)
    modifies lv`log
    ensures lv.log == old(lv.log) + added && NothingStarted(added)
    ensures next.None? ==> BadServers(AttributesOf(r)) != {}
    ensures next.Some? ==>
      && Inv(keys, map[], next.value) && Remaining(next.value) == Remaining(s) - 1
      && ResultsCustomized(r.cfg.namePrefix, BadServers(AttributesOf(r)), jobs, keys, next.value, events + added)
  {
    var wish: Step<bool> := *;
    var step := Schedule(s, wish, keys, map[]);
    added := [];
    if step.Finish? {
      assert keys[step.w] in Elements(keys);
      var ended := Customize(r.devices[keys[step.w]], lv, s.cancelled, jobs[keys[step.w]]);
      if ended.None? {
        assert keys[step.w] in BadServers(AttributesOf(r));
        return None, added;
      }
      step := Finish(step.w, ended.value);
      added := if ended.value.Done? then [Customized(r.cfg.namePrefix + keys[step.w], jobs[keys[step.w]])] else [];
    }
    StepInv(keys, map[], s, step);
    StepCustomized(r.cfg.namePrefix, BadServers(AttributesOf(r)), jobs, keys, s, step, events, added);
    next := Some(Apply(keys, s, step));
  }

  lemma {:induction false} StepCustomized(prefix: string, bad: set<string>, jobs: map<string, string>, keys: seq<string>,
                                          s: State<bool>, step: Step<bool>, events: seq<Event>, added: seq<Event>)
    requires |keys| == |s.workers| && Enabled(s, step) && ResultsCustomized(prefix, bad, jobs, keys, s, events)
    requires step.Finish? && step.res.Done? ==> JobDone(prefix, bad, jobs, keys[step.w], added)
    ensures ResultsCustomized(prefix, bad, jobs, keys, Apply(keys, s, step), events + added)
  {
    assert forall e | e in events :: e in events + added;
  }

  /** The jobs and the collector, in any interleaving. The result None is a panic. */
  method RunJobs(r: Runner, lv: Libvirt, jobs: map<string, string>, keys: seq<string>)
    returns (ok: Option<bool>, ghost events: seq<Event>)
    requires r.Valid() && Distinct(keys) && Elements(keys) == jobs.Keys == WithImage(r)
    modifies lv`log
    ensures lv.log == old(lv.log) + events && NothingStarted(events)
    ensures ok == Some(true) ==>
      forall n | n in jobs :: JobDone(r.cfg.namePrefix, BadServers(AttributesOf(r)), jobs, n, events)
    ensures ok.None? ==> BadServers(AttributesOf(r)) != {}
  {
    events := [];
    var s: State<bool> := Init(keys, map[]);
    InitInv(keys, s.have);
    while s.phase != Returned
      invariant Inv(keys, map[], s) && ResultsCustomized(r.cfg.namePrefix, BadServers(AttributesOf(r)), jobs, keys, s, events)
      invariant lv.log == old(lv.log) + events && NothingStarted(events)
      decreases Remaining(s)
    {
      var next;
      ghost var added;
      next, added := CustomizeStep(r, lv, jobs, keys, s, events);
      AppendAssociative(old(lv.log), events, added);
      events := events + added;
      if next.None? {
        return None, events;
      }
      s := next.value;
    }
    InvFinished(keys, map[], s);
    if s.err.None? {
      AllCustomized(r.cfg.namePrefix, BadServers(AttributesOf(r)), jobs, keys, s, events);
    }
    ok := Some(s.err.None?);
  }

  /** The domain was customized with the commands for its device. */
  ghost predicate IsSetUp(prefix: string, site: Site, n: string, events: seq<Event>) {
    exists commands :: Customized(prefix + n, commands) in events && AreCommandsFor(site, n, commands)
  }

  ghost predicate WasCustomized(name: string, events: seq<Event>) {
    exists commands :: Customized(name, commands) in events
  }

  /**
   customizeDomains. It succeeds only if every domain with an image has been customized, with the
   commands for its device, and it starts none.
   */
  method CustomizeDomains(r: Runner, t: T, lv: Libvirt, ghost o: Outlook, ghost site: Site)
    returns (res: Outcome, ghost events: seq<Event>)
    requires r.Valid() && o == OutlookOf(r) && site == SiteOf(r, t)
    modifies lv`log
    ensures lv.log == old(lv.log) + events && NothingStarted(events)
    ensures res == Ok ==> forall n | n in WithImage(r) :: IsSetUp(r.cfg.namePrefix, site, n, events)
    ensures res == Ok ==> !Threatens(o, LonelyDevice) && !Threatens(o, UnparsablePrefix)
    ensures res == Panic ==> Threatens(o, LonelyDevice) || Threatens(o, UnparsablePrefix)
    ensures Threatens(o, LonelyDevice) ==> res == Panic
  {
    events := [];
    var ok, jobs := StartJobs(r, t, site);
    if !ok {
      return Panic, events;
    }
    var keys := AnyOrder(jobs.Keys);
    var done;
    done, events := RunJobs(r, lv, jobs, keys);
    assert BadServers(AttributesOf(r)) <= WithImage(r);
    res := if done.None? then Panic else if done.value then Ok else Error;
    if res == Ok {
      JobsSetUp(r.cfg.namePrefix, site, BadServers(AttributesOf(r)), jobs, events);
    }
  }

  lemma {:induction false} JobsSetUp(prefix: string, site: Site, bad: set<string>, jobs: map<string, string>,
                                     events: seq<Event>)
    requires forall n | n in jobs :: AreCommandsFor(site, n, jobs[n]) && JobDone(prefix, bad, jobs, n, events)
    ensures forall n | n in jobs :: n !in bad && IsSetUp(prefix, site, n, events)
  {
    forall n | n in jobs ensures IsSetUp(prefix, site, n, events) {
      assert Customized(prefix + n, jobs[n]) in events && AreCommandsFor(site, n, jobs[n]);
    }
  }

  lemma {:induction false} AllCustomized(prefix: string, bad: set<string>, jobs: map<string, string>, keys: seq<string>,
                                         s: State<bool>, events: seq<Event>)
    requires Finished(keys, map[], s) && s.err.None? && ResultsCustomized(prefix, bad, jobs, keys, s, events)
    ensures forall n | n in Elements(keys) :: JobDone(prefix, bad, jobs, n, events)
  {
    forall n | n in Elements(keys) ensures JobDone(prefix, bad, jobs, n, events) {
      var w :| 0 <= w < |keys| && keys[w] == n;
      assert s.workers[w].Delivered? && s.workers[w].res.Done?;
    }
  }

  // ----- the startup order ----------------------------------------------------------

  /** The numbers of the device functions. */
  function Rank(f: DeviceFunction): nat {
    match f
    case Fake => 0
    case OOBServer => 1
    case OOBSwitch => 2
    case Exit => 3
    case SuperSpine => 4
    case Spine => 5
    case Leaf => 6
    case TOR => 7
    case Host => 8
    case NoFunction => 9
  }

  ghost predicate ByFunction(nodes: Nodes, order: seq<string>) {
    && (forall i | 0 <= i < |order| :: order[i] in nodes)
    && forall i, j | 0 <= i < j < |order| :: Rank(nodes[order[i]].role) <= Rank(nodes[order[j]].role)
  }

  /** t.Devices() and the sort by function, with equal functions in any order. */
  method SortedDevices(t: T) returns (order: seq<string>)
    requires t.Valid()
    ensures Distinct(order) && Elements(order) == t.devs.Keys && ByFunction(t.Nodes(), order)
  {
    order := [];
    var todo := t.devs.Keys;
    ghost var nodes := t.Nodes();
    while todo != {}
      invariant Distinct(order) && Elements(order) + todo == nodes.Keys && Elements(order) !! todo
      invariant ByFunction(nodes, order)
      invariant forall i, m | 0 <= i < |order| && m in todo :: Rank(nodes[order[i]].role) <= Rank(nodes[m].role)
      decreases todo
    {
      var n := Earliest(t, todo);
      assert n !in Elements(order);
      ElementsAppend(order, n);
      order, todo := order + [n], todo - {n};
    }
  }

  /** Any device of todo whose function comes first. */
  method Earliest(t: T, todo: set<string>) returns (n: string)
    requires t.Valid() && todo <= t.devs.Keys && todo != {}
    ensures n in todo && forall m | m in todo :: Rank(t.devs[n].attrs.role) <= Rank(t.devs[m].attrs.role)
  {
    n :| n in todo;
    var rest := todo - {n};
    while rest != {}
      invariant rest <= todo && n in todo
      invariant forall m | m in todo - rest :: Rank(t.devs[n].attrs.role) <= Rank(t.devs[m].attrs.role)
      decreases rest
    {
      var m :| m in rest;
      rest := rest - {m};
      if Rank(t.devs[m].attrs.role) < Rank(t.devs[n].attrs.role) {
        n := m;
      }
    }
  }

  /** The order in which the functions of devices are started. */
  const STARTUP_ORDER: seq<DeviceFunction> :=
    [OOBServer, OOBSwitch, Exit, SuperSpine, Spine, Leaf, TOR, Host, NoFunction]

  /** In a list sorted by function, the devices stand in that order. */
  lemma {:induction false} SortedByStartupOrder(nodes: Nodes, order: seq<string>, i: nat, j: nat, a: nat, b: nat)
    requires ByFunction(nodes, order) && i < j < |order| && a < 9 && b < 9
    requires nodes[order[i]].role == STARTUP_ORDER[a] && nodes[order[j]].role == STARTUP_ORDER[b]
    ensures a <= b
  {
    RankIsPlace(a);
    RankIsPlace(b);
  }

  lemma {:induction false} RankIsPlace(a: nat)
    requires a < 9
    ensures Rank(STARTUP_ORDER[a]) == a + 1
  {
  }

  /** So the domains are started in that order: the k-th started device is in front of the l-th. */
  lemma {:induction false} StartedByStartupOrder(prefix: string, nodes: Nodes, order: seq<string>, k: nat, l: nat)
    returns (m: string, n: string)
    requires ByFunction(nodes, order) && k < l < |StartList(prefix, nodes, order)|
    ensures m in nodes && n in nodes && m in order && n in order
    ensures StartList(prefix, nodes, order)[k] == prefix + m && StartList(prefix, nodes, order)[l] == prefix + n
    ensures IsStarted(nodes[m]) && IsStarted(nodes[n])
    ensures forall a, b | 0 <= a < 9 && 0 <= b < 9 && nodes[m].role == STARTUP_ORDER[a] && nodes[n].role == STARTUP_ORDER[b] ::
      a <= b
  {
    var i, j := StartListPlaces(prefix, nodes, order, k, l);
    m, n := order[i], order[j];
    forall a, b | 0 <= a < 9 && 0 <= b < 9 && nodes[m].role == STARTUP_ORDER[a] && nodes[n].role == STARTUP_ORDER[b]
      ensures a <= b
    {
      SortedByStartupOrder(nodes, order, i, j, a, b);
    }
  }

  lemma {:induction false} StartListPlace(prefix: string, nodes: Nodes, order: seq<string>, k: nat) returns (i: nat)
    requires (forall i | 0 <= i < |order| :: order[i] in nodes) && k < |StartList(prefix, nodes, order)|
    ensures i < |order| && StartList(prefix, nodes, order)[k] == prefix + order[i] && IsStarted(nodes[order[i]])
    ensures k == |StartList(prefix, nodes, order[..i])|
  {
    var n := |order| - 1;
    if k < |StartList(prefix, nodes, order[..n])| {
      i := StartListPlace(prefix, nodes, order[..n], k);
      assert order[..n][..i] == order[..i];
    } else {
      i := n;
    }
  }

  lemma {:induction false} StartListGrows(prefix: string, nodes: Nodes, order: seq<string>, i: nat, j: nat)
    requires (forall i | 0 <= i < |order| :: order[i] in nodes) && i <= j <= |order|
    ensures |StartList(prefix, nodes, order[..i])| <= |StartList(prefix, nodes, order[..j])|
    decreases j
  {
    if i < j {
      StartListGrows(prefix, nodes, order, i, j - 1);
      assert order[..j][..j - 1] == order[..j - 1];
    }
  }

  lemma {:induction false} StartListPlaces(prefix: string, nodes: Nodes, order: seq<string>, k: nat, l: nat)
    returns (i: nat, j: nat)
    requires (forall i | 0 <= i < |order| :: order[i] in nodes) && k < l < |StartList(prefix, nodes, order)|
    ensures i < j < |order|
    ensures StartList(prefix, nodes, order)[k] == prefix + order[i] && StartList(prefix, nodes, order)[l] == prefix + order[j]
    ensures IsStarted(nodes[order[i]]) && IsStarted(nodes[order[j]])
  {
    i := StartListPlace(prefix, nodes, order, k);
    j := StartListPlace(prefix, nodes, order, l);
    if j <= i {
      StartListGrows(prefix, nodes, order, j, i);
      assert false;
    }
  }

  // ----- startup --------------------------------------------------------------------

  /** The devices that are started: those that are simulated and have an image. */
  predicate IsStarted(a: Attributes) {
    a.role != Fake && a.osImage != ""
  }

  ghost function StartedDevices(nodes: Nodes): set<string> {
    set n | n in nodes && IsStarted(nodes[n])
  }

  /** The domains that are started, in the order in which the devices are visited. */
  function StartList(prefix: string, nodes: Nodes, order: seq<string>): seq<string>
    requires forall i | 0 <= i < |order| :: order[i] in nodes
  {
    if order == [] then [] else
    var n := |order| - 1;
    StartList(prefix, nodes, order[..n]) + if IsStarted(nodes[order[n]]) then [prefix + order[n]] else []
  }

  function Starts(names: seq<string>): seq<Event> {
    if names == [] then [] else Starts(names[..|names| - 1]) + [Started(names[|names| - 1])]
  }

  lemma {:induction false} StartsAppend(log: seq<Event>, names: seq<string>, name: string)
    ensures log + Starts(names + [name]) == log + Starts(names) + [Started(name)]
  {
    assert (names + [name])[..|names|] == names;
  }

  lemma {:induction false} StartListNames(cfg: Config, nodes: Nodes, order: seq<string>)
    requires (forall i | 0 <= i < |order| :: order[i] in nodes) && Distinct(order)
    ensures Elements(StartList(cfg.namePrefix, nodes, order)) == Names(cfg, StartedDevices(nodes) * Elements(order))
  {
    if order != [] {
      var n := |order| - 1;
      var front, last := order[..n], order[n];
      StartListNames(cfg, nodes, front);
      PrefixNext(order, n);
      assert order == front + [last];
      ElementsAppend(front, last);
      var before := StartedDevices(nodes) * Elements(front);
      if IsStarted(nodes[last]) {
        ElementsAppend(StartList(cfg.namePrefix, nodes, front), cfg.namePrefix + last);
        NamesNext(cfg, before, last);
        assert StartedDevices(nodes) * Elements(order) == before + {last};
      } else {
        assert StartedDevices(nodes) * Elements(order) == before;
      }
    }
  }

  method DestroyAll(lv: Libvirt, names: seq<string>)
    modifies lv`running
    ensures Removed(old(lv.running), lv.running, Elements(names), lv.reliable)
  {
    for i := 0 to |names|
      invariant Removed(old(lv.running), lv.running, Elements(names[..i]), lv.reliable)
    {
      PrefixNext(names, i);
      lv.DestroyDomain(names[i]);
    }
    assert names[..|names|] == names;
  }

  /** Every device that is to be started has a domain handle. */
  ghost predicate HasHandles(r: Runner, nodes: Nodes)
    reads r`domains
  {
    Names(r.cfg, StartedDevices(nodes)) <= Handles(r.domains)
  }

  /** What holds between the iterations of the loop in startDomains. */
  ghost predicate StartedSoFar(r: Runner, lv: Libvirt, nodes: Nodes, before: set<string>, log: seq<Event>,
                               order: seq<string>)
    requires forall i | 0 <= i < |order| :: order[i] in nodes
    reads lv`running, lv`log
  {
    && lv.log == log + Starts(StartList(r.cfg.namePrefix, nodes, order))
    && Added(before, lv.running, Elements(StartList(r.cfg.namePrefix, nodes, order)))
  }

  /** The loop over the sorted devices. The names of the domains it started are returned also when it fails. */
  method StartInOrder(r: Runner, t: T, lv: Libvirt, order: seq<string>) returns (ok: bool, started: seq<string>)
    requires t.Valid() && Distinct(order) && Elements(order) == t.devs.Keys && HasHandles(r, t.Nodes())
    requires forall i | 0 <= i < |order| :: order[i] in t.Nodes()
    modifies lv`running, lv`log
    ensures Added(old(lv.running), lv.running, Elements(started))
    ensures Elements(started) <= Names(r.cfg, StartedDevices(t.Nodes()))
    ensures lv.log == old(lv.log) + Starts(started)
    ensures ok ==> StartedSoFar(r, lv, t.Nodes(), old(lv.running), old(lv.log), order)
    ensures ok ==> started == StartList(r.cfg.namePrefix, t.Nodes(), order)
  {
    ghost var nodes := t.Nodes();
    started := [];
    ok := true;
    for i := 0 to |order|
      invariant ok && started == StartList(r.cfg.namePrefix, nodes, order[..i])
      invariant StartedSoFar(r, lv, nodes, old(lv.running), old(lv.log), order[..i])
    {
      var d := t.devs[order[i]];
      StartListNames(r.cfg, nodes, order[..i]);
      NamesWithin(r.cfg, StartedDevices(nodes) * Elements(order[..i]), StartedDevices(nodes));
      StartListNext(r.cfg.namePrefix, nodes, order, i);
      if d.attrs.role == Fake {
        continue;
      }
      if d.attrs.osImage == "" {
        continue;
      }
      var name := r.cfg.namePrefix + order[i];
      assert order[i] in StartedDevices(nodes);
      assert name in Handles(r.domains);
      ok := lv.StartDomain(name);
      if !ok {
        return;
      }
      ElementsAppend(started, name);
      StartsAppend(old(lv.log), started, name);
      started := started + [name];
    }
    assert order[..|order|] == order;
    StartListNames(r.cfg, nodes, order);
    NamesWithin(r.cfg, StartedDevices(nodes) * Elements(order), StartedDevices(nodes));
  }

  lemma {:induction false} StartListNext(prefix: string, nodes: Nodes, order: seq<string>, i: nat)
    requires i < |order| && forall i | 0 <= i < |order| :: order[i] in nodes
    ensures StartList(prefix, nodes, order[..i + 1]) ==
      StartList(prefix, nodes, order[..i]) + if IsStarted(nodes[order[i]]) then [prefix + order[i]] else []
  {
    assert order[..i + 1][..i] == order[..i];
  }

  /**
   startDomains. On failure nothing it started keeps running, and no BMC stays registered unless the
   caller's context is done.
   */
  method StartDomains(r: Runner, t: T, lv: Libvirt)
    returns (ok: bool, ghost order: seq<string>, ghost started: seq<string>)
    requires t.Valid() && HasHandles(r, t.Nodes())
    modifies lv`running, lv`log, lv`vbmcs, lv`bmcs, lv`started, lv`cutOff, lv`interrupted
    ensures lv.log == old(lv.log) + Starts(started)
    ensures ok ==>
      && Distinct(order) && Elements(order) == t.devs.Keys && ByFunction(t.Nodes(), order)
      && started == StartList(r.cfg.namePrefix, t.Nodes(), order)
    ensures ok ==>
      && Added(old(lv.running), lv.running, Names(r.cfg, StartedDevices(t.Nodes())))
      && Added(old(lv.vbmcs), lv.vbmcs, r.bmcMan.all.Keys)
      && Added(old(lv.Active()), lv.Active(), r.bmcMan.all.Keys) && r.bmcMan.Describes(lv.bmcs, r.bmcMan.all.Keys)
    ensures !ok ==>
      && RolledBack(old(lv.running), lv.running, Names(r.cfg, StartedDevices(t.Nodes())), lv.reliable)
      && RolledBack(old(lv.vbmcs), lv.vbmcs, r.bmcMan.all.Keys, lv.reliable && !lv.interrupted)
      && RolledBack(old(lv.Active()), lv.Active(), r.bmcMan.all.Keys, lv.reliable && !lv.interrupted)
  {
    var ds := SortedDevices(t);
    order := ds;
    var names;
    ok, names := StartInOrder(r, t, lv, ds);
    started := names;
    if ok {
      StartListNames(r.cfg, t.Nodes(), ds);
      assert StartedDevices(t.Nodes()) * Elements(ds) == StartedDevices(t.Nodes());
      ghost var added, early;
      ok, added, early := r.bmcMan.StartAll(lv);
    }
    if !ok {
      ghost var mid := lv.running;
      DestroyAll(lv, names);
      RemovedAdded(old(lv.running), mid, lv.running, Elements(names), lv.reliable);
    }
  }
}
