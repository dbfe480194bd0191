/**
 The parsed topology (topology/topology.go): the automatic management network and
 the association of links with the devices at their ends.

 A Go map is iterated in an order nobody knows; here each loop picks the next key
 with an arbitrary choice, so every contract below holds for every order.
 */
module Topology {
  import opened Prelude
  import opened IPAllocation
  import opened Graph
  import opened AutoManagement
  import opened Incidence

  class Device {
    const name: string
    const attrs: Attributes
    var links: seq<Link>
    var mgmtIP: Option<nat>

    constructor (name: string, attrs: Attributes)
      ensures this.name == name && this.attrs == attrs
      ensures links == [] && mgmtIP == None
    {
      this.name, this.attrs := name, attrs;
      links, mgmtIP := [], None;
    }
  }

  /** The attributes of the two devices setupAutoMgmtNetwork adds when the graph lacks them. */
  const DEFAULT_SERVER := Attributes(
    OOBServer, false, Malformed, Some(Prefix(0xC0A8_C8FE, 24)), Missing, Missing, false, FEDORA_IMAGE)
  const DEFAULT_SWITCH := Attributes(
    OOBSwitch, false, Missing, None, Missing, Missing, false, CUMULUS_IMAGE)

  const FEDORA_IMAGE := "https://download.fedoraproject.org/pub/fedora/linux/releases/34/Cloud/x86_64/images/Fedora-Cloud-Base-34-1.2.x86_64.qcow2"
  const CUMULUS_IMAGE := "https://d2cd9e7ca6hntp.cloudfront.net/public/CumulusLinux-4.4.0/cumulus-linux-4.4.0-vx-amd64-qemu.qcow2"

  function WithServer(nodes: Nodes): Nodes {
    if SERVER in nodes then nodes else nodes[SERVER := DEFAULT_SERVER]
  }

  function WithSwitch(nodes: Nodes): Nodes {
    if SWITCH in nodes then nodes else nodes[SWITCH := DEFAULT_SWITCH]
  }

  function WithOOB(nodes: Nodes): Nodes {
    WithSwitch(WithServer(nodes))
  }

  class T {
    const graphLinks: seq<Link>
    const dot: string
    var devs: map<string, Device>
    var mgmtLinks: seq<Link>
    ghost var objects: set<Device>

    constructor (graphLinks: seq<Link>, dot: string)
      ensures this.graphLinks == graphLinks && this.dot == dot
      ensures Valid() && devs == map[] && mgmtLinks == [] && objects == {}
    {
      this.graphLinks, this.dot := graphLinks, dot;
      devs, mgmtLinks, objects := map[], [], {};
    }

    /** Every device is filed under its own name, so no two names share a device. */
    ghost predicate Valid()
      reads `devs, `objects
    {
      forall n | n in devs :: devs[n] in objects && devs[n].name == n
    }

    ghost function Nodes(): Nodes
      reads `devs
    {
      map n | n in devs :: devs[n].attrs
    }

    ghost function MgmtIPs(): map<string, nat>
      requires Valid()
      reads `devs, `objects, objects`mgmtIP
    {
      map n | n in devs && devs[n].mgmtIP.Some? :: devs[n].mgmtIP.value
    }

    function Links(): seq<Link>
      reads `mgmtLinks
    {
      graphLinks + mgmtLinks
    }

    /** The first loop of Parse: check the host names and file the devices. */
    method AddDevices(nodes: Nodes) returns (ok: bool)
      requires Valid() && devs == map[]
      modifies `devs, `objects
      ensures Valid() && objects >= old(objects) && fresh(objects - old(objects))
      ensures ok <==> GoodNames(nodes)
      ensures ok ==> Nodes() == nodes
      ensures forall n | n in devs :: devs[n] in objects - old(objects) && devs[n].mgmtIP == None && devs[n].links == []
    {
      var todo := nodes.Keys;
      while todo != {}
        invariant Valid() && objects >= old(objects) && fresh(objects - old(objects))
        invariant todo <= nodes.Keys && devs.Keys == nodes.Keys - todo
        invariant forall n | n in devs ::
          devs[n] in objects - old(objects) && devs[n].attrs == nodes[n] && devs[n].mgmtIP == None && devs[n].links == []
        invariant forall n | n in devs :: IsValidHostname(n) || nodes[n].role == Fake
        decreases todo
      {
        var n :| n in todo;
        if !IsValidHostname(n) && nodes[n].role != Fake {
          return false;
        }
        var d := new Device(n, nodes[n]);
        devs, objects, todo := devs[n := d], objects + {d}, todo - {n};
      }
      return true;
    }

    // ----- the automatic management network -------------------------------------

    /** After the devices of done: their requested addresses are set, and no others. */
    ghost predicate OnlyRequested(done: set<string>)
      requires Valid()
      reads `devs, `objects, objects`mgmtIP
    {
      forall n | n in devs ::
        devs[n].mgmtIP == if n in done && IsExplicit(devs[n].attrs) && devs[n].attrs.mgmtIP.Value?
                          then Some(devs[n].attrs.mgmtIP.v) else None
    }

    /** The body of the first loop: reserve the address the device asks for, if it asks for one. */
    method ReserveOne(a: IPAllocator, d: Device) returns (ok: bool)
      requires a.Valid()
      modifies a, d`mgmtIP
      ensures a.Valid() && a.issued == old(a.issued)
      ensures ok <==> (IsExplicit(d.attrs) ==> d.attrs.mgmtIP.Value? && d.attrs.mgmtIP.v in old(a.Free()))
      ensures ok && IsExplicit(d.attrs) ==>
        d.mgmtIP == Some(d.attrs.mgmtIP.v) && a.Free() == old(a.Free()) - {d.attrs.mgmtIP.v}
      ensures ok && !IsExplicit(d.attrs) ==> d.mgmtIP == old(d.mgmtIP) && a.Free() == old(a.Free())
    {
      if d.attrs.role in {OOBSwitch, OOBServer, Fake} {
        return true;
      }
      if d.attrs.mgmtIP.Missing? || d.attrs.noMgmt {
        return true;
      }
      if d.attrs.mgmtIP.Malformed? {
        return false;
      }
      ok := a.Reserve(d.attrs.mgmtIP.v);
      if ok {
        d.mgmtIP := Some(d.attrs.mgmtIP.v);
      }
    }

    /** The first loop: reserve the addresses configured with node attributes. */
    method ReserveExplicit(a: IPAllocator) returns (ok: bool)
      requires Valid() && a.Valid()
      requires forall n | n in devs :: devs[n].mgmtIP == None
      modifies a, objects`mgmtIP
      ensures a.Valid() && a.issued == old(a.issued)
      ensures ok <==> RequestsFit(Nodes(), old(a.Free()), devs.Keys)
      ensures ok ==> OnlyRequested(devs.Keys) && a.Free() == old(a.Free()) - Requested(Nodes(), devs.Keys)
    {
      var todo := devs.Keys;
      ghost var pool, nodes, done := a.Free(), Nodes(), {};
      while todo != {}
        invariant done + todo == devs.Keys && done !! todo
        invariant a.Valid() && a.issued == old(a.issued)
        invariant RequestsFit(nodes, pool, done)
        invariant a.Free() == pool - Requested(nodes, done)
        invariant OnlyRequested(done)
        decreases todo
      {
        var n :| n in todo;
        RequestedNext(nodes, done, n);
        NextMustFit(nodes, pool, done, n);
        ok := ReserveOne(a, devs[n]);
        if !ok {
          return;
        }
        todo, done := todo - {n}, done + {n};
      }
      return true;
    }

    /** Requested addresses are set, the devices of given have the address listed there, and nobody else has any. */
    ghost predicate Assigned(given: map<string, nat>)
      requires Valid()
      reads `devs, `objects, objects`mgmtIP
    {
      forall n | n in devs ::
        devs[n].mgmtIP == if IsExplicit(devs[n].attrs) && devs[n].attrs.mgmtIP.Value? then Some(devs[n].attrs.mgmtIP.v)
                          else if n in given then Some(given[n]) else None
    }

    /** The end of the second loop's body: an allocation for a device without an address. */
    method AllocateOne(a: IPAllocator, d: Device, ghost free: set<nat>) returns (ok: bool)
      requires a.Valid() && Drawn(free, a.issued) && a.Free() == free - Elements(a.issued)
      modifies a, d`mgmtIP
      ensures a.Valid() && Drawn(free, a.issued) && a.Free() == free - Elements(a.issued)
      ensures old(d.mgmtIP).Some? ==> ok && d.mgmtIP == old(d.mgmtIP) && a.issued == old(a.issued)
      ensures old(d.mgmtIP).None? && ok ==> d.mgmtIP.Some? && a.issued == old(a.issued) + [d.mgmtIP.value]
      ensures !ok ==> old(d.mgmtIP).None? && a.issued == old(a.issued) && a.Free() == {}
    {
      if d.mgmtIP.Some? {
        return true;
      }
      var ip := a.Allocate();
      if ip.None? {
        return false;
      }
      DrawnNext(free, old(a.issued), ip.value);
      d.mgmtIP := ip;
      return true;
    }

    /**
     Between two rounds of the second loop: attached are the devices with a port on the switch,
     and the allocator has drawn an address from free for each device of served.
     */
    ghost predicate Wiring(a: IPAllocator, free: set<nat>, base: seq<Link>,
                           attached: seq<string>, served: seq<string>, ifIndex: nat)
      requires Valid()
      reads `devs, `objects, `mgmtLinks, objects`mgmtIP, a
    {
      && a.Valid() && Drawn(free, a.issued) && a.Free() == free - Elements(a.issued)
      && |served| == |a.issued| && Assigned(GivenBy(served, a.issued))
      && ifIndex == |attached| + 2 && mgmtLinks == base + PortLinks(attached)
    }

    /** A round of the second loop: attach the device to the switch, unless it has no management interface. */
    method Attach(a: IPAllocator, n: string, ifIndex: nat, ghost free: set<nat>, ghost base: seq<Link>,
                  ghost attached: seq<string>, ghost served: seq<string>)
      returns (ok: bool, next: nat)
      requires Valid() && n in devs && (IsExplicit(devs[n].attrs) ==> devs[n].attrs.mgmtIP.Value?)
      requires Wiring(a, free, base, attached, served, ifIndex) && n !in GivenBy(served, a.issued)
      modifies this`mgmtLinks, a, {devs[n]}`mgmtIP
      ensures ok ==> Wiring(a, free, base,
                            if IsManaged(devs[n].attrs) then attached + [n] else attached,
                            if IsAutomatic(devs[n].attrs) then served + [n] else served, next)
      ensures !ok ==>
        && IsAutomatic(devs[n].attrs) && free - Elements(a.issued) == {}
        && Drawn(free, a.issued) && |served| == |a.issued|
    {
      var d := devs[n];
      if d.attrs.noMgmt {
        return true, ifIndex;
      }
      if d.attrs.role in {OOBSwitch, OOBServer, Fake} {
        return true, ifIndex;
      }
      AddPortLink(d.name, ifIndex, base, attached);
      next := ifIndex + 1;
      ghost var issued := a.issued;
      ok := AllocateOne(a, d, free);
      if ok && IsAutomatic(d.attrs) {
        GivenNext(served, issued, n, d.mgmtIP.value);
      }
    }

    /** The state between two rounds, after the first i devices of ks. */
    ghost predicate WiringAt(a: IPAllocator, nodes: Nodes, free: set<nat>, base: seq<Link>, ks: seq<string>, i: nat,
                             ifIndex: nat)
      requires Valid() && i <= |ks|
      reads `devs, `objects, `mgmtLinks, objects`mgmtIP, a
    {
      Wiring(a, free, base, AttachedIn(nodes, ks, i), ServedIn(nodes, ks, i), ifIndex)
    }

    lemma {:induction false} WiringStarts(a: IPAllocator, nodes: Nodes, free: set<nat>, base: seq<Link>, ks: seq<string>)
      requires Valid() && a.Valid() && a.issued == [] && free == a.Free() && base == mgmtLinks
      requires OnlyRequested(devs.Keys)
      ensures WiringAt(a, nodes, free, base, ks, 0, 2)
    {
      assert a.Free() - Elements(a.issued) == a.Free();
      assert mgmtLinks + PortLinks([]) == mgmtLinks;
    }

    method Round(a: IPAllocator, ks: seq<string>, i: nat, ifIndex: nat,
                 ghost nodes: Nodes, ghost free: set<nat>, ghost base: seq<Link>)
      returns (ok: bool, next: nat)
      requires Valid() && nodes == Nodes() && RequestsParse(nodes)
      requires i < |ks| && Distinct(ks) && forall j | 0 <= j < |ks| :: ks[j] in nodes
      requires WiringAt(a, nodes, free, base, ks, i, ifIndex)
      modifies this`mgmtLinks, a, objects`mgmtIP
      ensures Nodes() == nodes
      ensures ok ==> WiringAt(a, nodes, free, base, ks, i + 1, next)
      ensures !ok ==> OutOfAddresses(nodes, free, ks, i, a.issued)
    {
      NextRound(nodes, ks, i);
      NotYetServed(nodes, ks, i, a.issued);
      ok, next := Attach(a, ks[i], ifIndex, free, base, AttachedIn(nodes, ks, i), ServedIn(nodes, ks, i));
    }

    /**
     The second loop: wire up devices to the OOB switch, in the order ks. The result is the number
     of completed rounds; the loop returns early in a round that finds no free address.
     */
    method WireDevices(a: IPAllocator, ks: seq<string>, ghost nodes: Nodes, ghost free: set<nat>, ghost base: seq<Link>)
      returns (rounds: nat, ghost ports: nat)
      requires Valid() && nodes == Nodes() && RequestsParse(nodes)
      requires Distinct(ks) && forall i | 0 <= i < |ks| :: ks[i] in nodes
      requires WiringAt(a, nodes, free, base, ks, 0, 2)
      modifies this`mgmtLinks, a, objects`mgmtIP
      ensures rounds <= |ks|
      ensures rounds < |ks| ==> OutOfAddresses(nodes, free, ks, rounds, a.issued)
      ensures rounds == |ks| ==> WiringAt(a, nodes, free, base, ks, |ks|, ports)
    {
      var ifIndex := 2;
      for i := 0 to |ks|
        invariant nodes == Nodes() && WiringAt(a, nodes, free, base, ks, i, ifIndex)
      {
        var ok;
        ok, ifIndex := Round(a, ks, i, ifIndex, nodes, free, base);
        if !ok {
          return i, ifIndex;
        }
      }
      return |ks|, ifIndex;
    }

    method AddPortLink(name: string, ifIndex: nat, ghost base: seq<Link>, ghost order: seq<string>)
      requires ifIndex == |order| + 2 && mgmtLinks == base + PortLinks(order)
      modifies this`mgmtLinks
      ensures mgmtLinks == base + PortLinks(order + [name])
    {
      var l := PlainLink(SWITCH, SwitchPort(ifIndex), name, "eth0");
      mgmtLinks := mgmtLinks + [l];
      PortLinksAppend(order, name);
    }

    /** Add a device the graph does not have. */
    method AddMissing(name: string, attrs: Attributes)
      requires Valid()
      modifies this`devs, this`objects
      ensures Valid() && objects >= old(objects) && fresh(objects - old(objects))
      ensures devs.Keys == old(devs.Keys) + {name}
      ensures forall n | n in old(devs) :: n in devs && devs[n] == old(devs)[n]
      ensures name !in old(devs) ==>
        fresh(devs[name]) && devs[name].attrs == attrs && devs[name].links == [] && devs[name].mgmtIP == None
    {
      if name !in devs {
        var d := new Device(name, attrs);
        devs, objects := devs[name := d], objects + {d};
      }
    }

    method SetupAutoMgmtNetwork() returns (ok: bool, ghost order: seq<string>)
      requires Valid()
      requires forall n | n in devs :: devs[n].mgmtIP == None && devs[n].links == []
      modifies this`devs, this`objects, this`mgmtLinks, objects`mgmtIP
      ensures Valid() && objects >= old(objects) && fresh(objects - old(objects))
      ensures Nodes() == WithOOB(old(Nodes()))
      ensures forall n | n in devs :: devs[n].links == []
      ensures ok <==> CanManage(Nodes())
      ensures ok ==>
        && IsAssignment(Nodes(), Pool(Nodes()), MgmtIPs())
        && Distinct(order) && Elements(order) == Managed(Nodes())
        && mgmtLinks == old(mgmtLinks) + FIXED_LINKS + PortLinks(order)
    {
      AddFixedPart();
      assert SERVER in Nodes();
      order := [];
      var p := devs[SERVER].attrs.mgmtPrefix;
      if p.None? {
        return false, order;
      }
      ok, order := AssignFrom(p.value);
    }

    /** Everything after the prefix of the server has been parsed. */
    method AssignFrom(p: Prefix) returns (ok: bool, ghost order: seq<string>)
      requires Valid()
      requires forall n | n in devs :: devs[n].mgmtIP == None
      modifies this`mgmtLinks, objects`mgmtIP
      ensures var pool := p.Usable() - {p.ip};
        && (ok <==> PoolSuffices(Nodes(), pool))
        && (ok ==>
              && IsAssignment(Nodes(), pool, MgmtIPs())
              && Distinct(order) && Elements(order) == Managed(Nodes())
              && mgmtLinks == old(mgmtLinks) + PortLinks(order))
    {
      var a := new IPAllocator(p);
      var _ := a.Reserve(p.ip);
      ok, order := AssignAll(a);
    }

    /** The two OOB devices and the links every management network has. */
    method AddFixedPart()
      requires Valid()
      requires forall n | n in devs :: devs[n].mgmtIP == None && devs[n].links == []
      modifies this`devs, this`objects, this`mgmtLinks
      ensures Valid() && objects >= old(objects) && fresh(objects - old(objects))
      ensures Nodes() == WithOOB(old(Nodes()))
      ensures forall n | n in devs :: devs[n].mgmtIP == None && devs[n].links == []
      ensures mgmtLinks == old(mgmtLinks) + FIXED_LINKS
    {
      ghost var nodes := Nodes();
      AddMissing(SERVER, DEFAULT_SERVER);
      assert Nodes() == WithServer(nodes);
      AddMissing(SWITCH, DEFAULT_SWITCH);
      assert Nodes() == WithOOB(nodes);
      AddFixedLinks();
    }

    method AddFixedLinks()
      modifies this`mgmtLinks
      ensures mgmtLinks == old(mgmtLinks) + FIXED_LINKS
    {
      mgmtLinks := mgmtLinks + [SERVER_UPLINK];
      mgmtLinks := mgmtLinks + [SWITCH_UPLINK, MGMT_LINK];
      assert mgmtLinks == old(mgmtLinks) + FIXED_LINKS;
    }

    lemma {:induction false} AssignedMeansFinal(given: map<string, nat>)
      requires Valid() && Assigned(given)
      ensures MgmtIPs() == FinalIPs(Nodes(), given)
    {
    }

    lemma {:induction false} LoopsDone(a: IPAllocator, nodes: Nodes, pool: set<nat>, base: seq<Link>, ks: seq<string>,
                                       ifIndex: nat)
      requires Valid() && nodes == Nodes() && RequestsFit(nodes, pool, nodes.Keys)
      requires Distinct(ks) && Elements(ks) == nodes.Keys
      requires WiringAt(a, nodes, pool - Requested(nodes, nodes.Keys), base, ks, |ks|, ifIndex)
      ensures IsAssignment(nodes, pool, MgmtIPs()) && |Managed(nodes)| <= |pool|
      ensures Distinct(AttachedIn(nodes, ks, |ks|)) && Elements(AttachedIn(nodes, ks, |ks|)) == Managed(nodes)
      ensures mgmtLinks == base + PortLinks(AttachedIn(nodes, ks, |ks|))
    {
      LoopsAssign(nodes, pool, ks, a.issued);
      AllServed(nodes, ks);
      AssignedMeansFinal(GivenBy(ServedIn(nodes, ks, |ks|), a.issued));
    }

    /** Both loops of setupAutoMgmtNetwork. */
    method AssignAll(a: IPAllocator) returns (ok: bool, ghost order: seq<string>)
      requires Valid() && a.Valid() && a.issued == []
      requires forall n | n in devs :: devs[n].mgmtIP == None
      modifies this`mgmtLinks, a, objects`mgmtIP
      ensures var pool := old(a.Free());
        && (ok <==> PoolSuffices(Nodes(), pool))
        && (ok ==>
              && IsAssignment(Nodes(), pool, MgmtIPs())
              && Distinct(order) && Elements(order) == Managed(Nodes())
              && mgmtLinks == old(mgmtLinks) + PortLinks(order))
    {
      ghost var pool := a.Free();
      ok := ReserveExplicit(a);
      order := [];
      if ok {
        ok, order := WireAll(a, pool, Nodes());
      }
    }

    /** The second loop, once all requests have been reserved. */
    method WireAll(a: IPAllocator, ghost pool: set<nat>, ghost nodes: Nodes) returns (ok: bool, ghost order: seq<string>)
      requires Valid() && a.Valid() && a.issued == [] && nodes == Nodes()
      requires RequestsFit(nodes, pool, nodes.Keys) && a.Free() == pool - Requested(nodes, nodes.Keys)
      requires OnlyRequested(devs.Keys)
      modifies this`mgmtLinks, a, objects`mgmtIP
      ensures ok <==> |Managed(nodes)| <= |pool|
      ensures ok ==>
        && IsAssignment(nodes, pool, MgmtIPs())
        && Distinct(order) && Elements(order) == Managed(nodes)
        && mgmtLinks == old(mgmtLinks) + PortLinks(order)
    {
      ghost var free, base := a.Free(), mgmtLinks;
      var ks := AnyOrder(devs.Keys);
      assert Elements(ks) == nodes.Keys && forall i | 0 <= i < |ks| :: ks[i] in Elements(ks);
      WiringStarts(a, nodes, free, base, ks);
      ghost var ports;
      var rounds;
      rounds, ports := WireDevices(a, ks, nodes, free, base);
      if rounds < |ks| {
        RoundFails(nodes, pool, ks, rounds, a.issued);
        return false, [];
      }
      LoopsDone(a, nodes, pool, base, ks, ports);
      return true, AttachedIn(nodes, ks, |ks|);
    }

    // ----- links and their endpoints --------------------------------------------

    /** The links Parse lets through although one of their ends is no device. */
    static predicate IsUplink(l: Link) {
      (l.from == SERVER || l.from == SWITCH) && l.fromPort == "eth0" && l.to == ""
    }

    ghost predicate KnownEnds(l: Link)
      reads `devs
    {
      l.from in devs && (l.to in devs || IsUplink(l))
    }

    /** The links of the graph and of the management network all have known ends, so no device is missing. */
    method AssociateAll(ghost nodes: Nodes, ghost order: seq<string>, ghost autoMgmt: bool, ghost ls: seq<Link>)
      requires Valid() && Nodes() == FinalNodes(nodes, autoMgmt) && ls == Links()
      requires forall l | l in graphLinks :: l.from in nodes && l.to in nodes
      requires mgmtLinks == if autoMgmt then FIXED_LINKS + PortLinks(order) else []
      requires Elements(order) <= devs.Keys
      requires forall n | n in devs :: devs[n].links == []
      modifies objects`links
      ensures MgmtIPs() == old(MgmtIPs())
      ensures KnownUpTo(ls, |ls|) && AreIncident(LinkLists(), ls, |ls|)
    {
      AllEndsKnown(nodes, order, autoMgmt);
      AssociateKnown(ls);
    }

    method AssociateKnown(ghost ls: seq<Link>)
      requires Valid() && ls == Links() && KnownUpTo(ls, |ls|)
      requires forall n | n in devs :: devs[n].links == []
      modifies objects`links
      ensures MgmtIPs() == old(MgmtIPs())
      ensures AreIncident(LinkLists(), ls, |ls|)
    {
      var _ := Associate();
    }

    /** The rest of Parse when the management network is wanted. */
    method ManageAndAssociate(ghost nodes: Nodes) returns (ok: bool, ghost order: seq<string>)
      requires Valid() && Nodes() == nodes && mgmtLinks == []
      requires forall l | l in graphLinks :: l.from in nodes && l.to in nodes
      requires forall n | n in devs :: devs[n].mgmtIP == None && devs[n].links == []
      modifies this`devs, this`objects, this`mgmtLinks, objects
      ensures Valid() && objects >= old(objects) && fresh(objects - old(objects))
      ensures ok <==> CanManage(WithOOB(nodes))
      ensures ok ==>
        && Nodes() == WithOOB(nodes)
        && IsAssignment(Nodes(), Pool(Nodes()), MgmtIPs())
        && Distinct(order) && Elements(order) == Managed(Nodes())
        && Links() == graphLinks + (FIXED_LINKS + PortLinks(order))
        && KnownUpTo(Links(), |Links()|) && AreIncident(LinkLists(), Links(), |Links()|)
    {
      ok, order := SetupAutoMgmtNetwork();
      if ok {
        assert Elements(order) <= devs.Keys;
        EmptyFirst(FIXED_LINKS, PortLinks(order));
        AssociateAll(nodes, order, true, Links());
      }
    }

    lemma {:induction false} AllEndsKnown(nodes: Nodes, order: seq<string>, autoMgmt: bool)
      requires Nodes() == FinalNodes(nodes, autoMgmt)
      requires forall l | l in graphLinks :: l.from in nodes && l.to in nodes
      requires mgmtLinks == if autoMgmt then FIXED_LINKS + PortLinks(order) else []
      requires Elements(order) <= devs.Keys
      ensures KnownUpTo(Links(), |Links()|)
    {
      forall j | 0 <= j < |Links()| ensures KnownEnds(Links()[j]) {
        var l := Links()[j];
        assert forall n | n in Nodes() :: n in devs;
        if l !in graphLinks {
          assert l in FIXED_LINKS + PortLinks(order);
          if l !in FIXED_LINKS {
            var i :| 0 <= i < |order| && PortLinks(order)[i] == l;
            PortLinksAt(order, i);
            assert order[i] in Elements(order);
          }
        }
      }
    }

    /**
     Append each link to the link lists of its ends. A link with an unknown end is an error; an
     uplink of a device that does not exist would be a nil dereference.
     */
    method Associate() returns (res: Association)
      requires Valid()
      requires forall n | n in devs :: devs[n].links == []
      modifies objects`links
      ensures res == Associated <==> KnownUpTo(Links(), |Links()|)
      ensures res == Associated ==> AreIncident(LinkLists(), Links(), |Links()|)
      ensures res == NilDereference ==> exists l | l in Links() :: IsUplink(l) && l.from !in devs
    {
      res := AssociateEach(Links());
    }

    method AssociateEach(ls: seq<Link>) returns (res: Association)
      requires Valid()
      requires forall n | n in devs :: devs[n].links == []
      modifies objects`links
      ensures res == Associated <==> KnownUpTo(ls, |ls|)
      ensures res == Associated ==> AreIncident(LinkLists(), ls, |ls|)
      ensures res == NilDereference ==> exists l | l in ls :: IsUplink(l) && l.from !in devs
    {
      NoneIncident(LinkLists(), ls);
      for i := 0 to |ls|
        invariant AreIncident(LinkLists(), ls, i) && KnownUpTo(ls, i)
      {
        res := CheckEnds(ls[i]);
        if res != Associated {
          assert ls[i] in ls;
          return;
        }
        AssociateOne(ls, i);
      }
      return Associated;
    }

    ghost predicate KnownUpTo(ls: seq<Link>, k: nat)
      requires k <= |ls|
      reads `devs
    {
      forall j | 0 <= j < k :: KnownEnds(ls[j])
    }

    ghost function LinkLists(): map<string, seq<Link>>
      requires Valid()
      reads `devs, `objects, objects`links
    {
      map n | n in devs :: devs[n].links
    }

    method CheckEnds(l: Link) returns (res: Association)
      requires Valid()
      ensures res == Associated <==> KnownEnds(l)
      ensures res == NilDereference ==> IsUplink(l) && l.from !in devs
    {
      if l.from !in devs || l.to !in devs {
        if (l.from != SERVER && l.from != SWITCH) || l.fromPort != "eth0" || l.to != "" {
          return UnknownNodes;
        }
      }
      if l.from !in devs {
        return NilDereference;
      }
      return Associated;
    }

    method AssociateOne(ls: seq<Link>, i: nat)
      requires Valid() && i < |ls| && KnownEnds(ls[i]) && AreIncident(LinkLists(), ls, i) && KnownUpTo(ls, i)
      modifies objects`links
      ensures AreIncident(LinkLists(), ls, i + 1) && KnownUpTo(ls, i + 1)
    {
      ghost var before := LinkLists();
      AppendLink(ls[i]);
      IncidentStep(before, LinkLists(), ls, i);
    }

    /** The second half of Parse. */
    method ManageOrNot(ghost nodes: Nodes, autoMgmt: bool) returns (ok: bool, ghost order: seq<string>)
      requires Valid() && Nodes() == nodes && mgmtLinks == []
      requires forall l | l in graphLinks :: l.from in nodes && l.to in nodes
      requires forall n | n in devs :: devs[n].mgmtIP == None && devs[n].links == []
      modifies this`devs, this`objects, this`mgmtLinks, objects
      ensures Valid() && objects >= old(objects) && fresh(objects - old(objects))
      ensures ok <==> (autoMgmt ==> CanManage(WithOOB(nodes)))
      ensures ok ==> ParsedAs(nodes, autoMgmt, order)
    {
      order := [];
      if autoMgmt {
        ok, order := ManageAndAssociate(nodes);
      } else {
        AssociateAll(nodes, [], false, Links());
        assert graphLinks + [] == graphLinks;
        ok := true;
      }
    }

    /** The nodes, the links, the link lists and the addresses of a topology that has been parsed. */
    ghost predicate ParsedAs(nodes: Nodes, autoMgmt: bool, order: seq<string>)
      requires Valid()
      reads `devs, `objects, `mgmtLinks, objects`links, objects`mgmtIP
    {
      && Nodes() == FinalNodes(nodes, autoMgmt)
      && Links() == graphLinks + (if autoMgmt then FIXED_LINKS + PortLinks(order) else [])
      && KnownUpTo(Links(), |Links()|) && AreIncident(LinkLists(), Links(), |Links()|)
      && if autoMgmt then
           && CanManage(Nodes()) && IsAssignment(Nodes(), Pool(Nodes()), MgmtIPs())
           && Distinct(order) && Elements(order) == Managed(Nodes())
         else
           MgmtIPs() == map[]
    }

    /** In a topology that has been parsed the devices hold every two-ended link twice and every uplink once. */
    lemma {:induction false} ParsedHandshake(nodes: Nodes, autoMgmt: bool, order: seq<string>, ns: seq<string>)
      requires Valid() && ParsedAs(nodes, autoMgmt, order) && Distinct(ns) && Elements(ns) == devs.Keys
      ensures Elements(ns) == LinkLists().Keys
      ensures Degrees(LinkLists(), ns) == 2 * TwoEnded(Links(), |Links()|) + (|Links()| - TwoEnded(Links(), |Links()|))
    {
      var ls := Links();
      assert Elements(ns) == LinkLists().Keys;
      DegreesOfLists(LinkLists(), ls, |ls|, ns);
      forall l | l in ls ensures HasEndsIn(l, ns) {
        var j :| 0 <= j < |ls| && ls[j] == l;
        assert KnownEnds(ls[j]);
        assert l.from in Elements(ns) && (IsUplink(l) || l.to in Elements(ns));
      }
      Handshake(ls, |ls|, ns);
    }

    method AppendLink(l: Link)
      requires Valid() && KnownEnds(l)
      modifies objects`links
      ensures forall n | n in devs :: devs[n].links == old(devs[n].links) + AtEnds(l, n)
    {
      devs[l.from].links := devs[l.from].links + [l];
      if l.to != "" {
        devs[l.to].links := devs[l.to].links + [l];
      }
    }
  }

  ghost predicate GoodNames(nodes: Nodes) {
    forall n | n in nodes :: IsValidHostname(n) || nodes[n].role == Fake
  }

  /** Every node is fake or has a valid host name. */
  lemma {:induction false} WhichNamesAreGood(nodes: Nodes)
    ensures GoodNames(nodes) <==>
      forall n | n in nodes && nodes[n].role != Fake ::
        n != "" && ('a' <= n[0] <= 'z' || 'A' <= n[0] <= 'Z') && IsNameRest(n[1..])
  {
    forall n ensures IsValidHostname(n) <==>
      n != "" && ('a' <= n[0] <= 'z' || 'A' <= n[0] <= 'Z') && IsNameRest(n[1..])
    {
      HostnameGrammar(n);
    }
  }

  /** The node set Parse ends up with. */
  function FinalNodes(nodes: Nodes, autoMgmt: bool): Nodes {
    if autoMgmt then WithOOB(nodes) else nodes
  }

  /**
   Parse, once the graph has been read from the text dot: its nodes with their attributes, and its
   links, whose ends are nodes of the graph. No device is missing when the links are associated.
   */
  method Parse(dot: string, nodes: Nodes, graphLinks: seq<Link>, autoMgmt: bool)
    returns (t: T, ok: bool, ghost order: seq<string>)
    requires forall l | l in graphLinks :: l.from in nodes && l.to in nodes
    ensures fresh(t) && fresh(t.objects) && t.Valid() && t.graphLinks == graphLinks && t.dot == dot
    ensures ok <==> GoodNames(nodes) && (autoMgmt ==> CanManage(WithOOB(nodes)))
    ensures ok ==> t.ParsedAs(nodes, autoMgmt, order)
  {
    t := new T(graphLinks, dot);
    order := [];
    ok := t.AddDevices(nodes);
    if ok {
      ok, order := t.ManageOrNot(nodes, autoMgmt);
    }
  }

  datatype Association = Associated | UnknownNodes | NilDereference
}
