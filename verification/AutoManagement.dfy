/**
 What the automatic management network has to achieve, stated on values and
 without any iteration order (topology/topology.go, lines 142-241).
 */
module AutoManagement {
  import opened Prelude
  import opened Decimal
  import opened IPAllocation
  import opened Graph

  type Nodes = map<string, Attributes>

  /** The device joins the management network: not an OOB device, not fake, no "no_mgmt". */
  predicate IsManaged(a: Attributes) {
    !a.noMgmt && a.role != OOBSwitch && a.role != OOBServer && a.role != Fake
  }

  predicate IsExplicit(a: Attributes) {
    IsManaged(a) && !a.mgmtIP.Missing?
  }

  predicate IsAutomatic(a: Attributes) {
    IsManaged(a) && a.mgmtIP.Missing?
  }

  ghost function Managed(nodes: Nodes): set<string> {
    set n | n in nodes && IsManaged(nodes[n])
  }

  ghost function Explicit(nodes: Nodes): set<string> {
    set n | n in nodes && IsExplicit(nodes[n])
  }

  ghost function Automatic(nodes: Nodes): set<string> {
    set n | n in nodes && IsAutomatic(nodes[n])
  }

  /** The addresses the nodes of s ask for. */
  ghost function Requested(nodes: Nodes, s: set<string>): set<nat> {
    set n | n in s && n in nodes && IsExplicit(nodes[n]) && nodes[n].mgmtIP.Value? :: nodes[n].mgmtIP.v
  }

  /** The explicit addresses of the nodes of s parse, lie in the pool and differ from each other. */
  ghost predicate RequestsFit(nodes: Nodes, pool: set<nat>, s: set<string>) {
    && (forall n | n in s && n in nodes && IsExplicit(nodes[n]) ::
          nodes[n].mgmtIP.Value? && nodes[n].mgmtIP.v in pool)
    && (forall m, n | m in s && n in s && m != n && m in nodes && n in nodes
                      && IsExplicit(nodes[m]) && IsExplicit(nodes[n]) ::
          nodes[m].mgmtIP != nodes[n].mgmtIP)
  }

  ghost predicate RequestsParse(nodes: Nodes) {
    forall n | n in nodes && IsExplicit(nodes[n]) :: nodes[n].mgmtIP.Value?
  }

  /** Whether node n can be served once the requests of the nodes in done are. */
  ghost predicate NextFits(nodes: Nodes, pool: set<nat>, done: set<string>, n: string)
    requires n in nodes
  {
    IsExplicit(nodes[n]) ==>
      nodes[n].mgmtIP.Value? && nodes[n].mgmtIP.v in pool - Requested(nodes, done)
  }

  lemma {:induction false} RequestedNext(nodes: Nodes, done: set<string>, n: string)
    requires n in nodes
    ensures Requested(nodes, done + {n}) == Requested(nodes, done) +
      if IsExplicit(nodes[n]) && nodes[n].mgmtIP.Value? then {nodes[n].mgmtIP.v} else {}
  {
  }

  /** Serving n decides its own request and is needed for all requests to fit. */
  lemma {:induction false} NextMustFit(nodes: Nodes, pool: set<nat>, done: set<string>, n: string)
    requires n in nodes && n !in done && done <= nodes.Keys
    requires RequestsFit(nodes, pool, done)
    ensures RequestsFit(nodes, pool, done + {n}) <==> NextFits(nodes, pool, done, n)
    ensures RequestsFit(nodes, pool, nodes.Keys) ==> NextFits(nodes, pool, done, n)
  {
  }

  /** Exactly the topologies that setupAutoMgmtNetwork accepts; pool excludes the server's own address. */
  ghost predicate CanManage(nodes: Nodes) {
    && SERVER in nodes && nodes[SERVER].mgmtPrefix.Some?
    && PoolSuffices(nodes, Pool(nodes))
  }

  ghost predicate PoolSuffices(nodes: Nodes, pool: set<nat>) {
    RequestsFit(nodes, pool, nodes.Keys) && |Managed(nodes)| <= |pool|
  }

  ghost function Pool(nodes: Nodes): set<nat>
    requires SERVER in nodes && nodes[SERVER].mgmtPrefix.Some?
  {
    nodes[SERVER].mgmtPrefix.value.Usable() - {nodes[SERVER].mgmtPrefix.value.ip}
  }

  /**
   ips gives every managed node, and nobody else, an address of its own: the requested one if
   there is one, and to the other nodes together the smallest addresses nobody requested.
   */
  ghost predicate IsAssignment(nodes: Nodes, pool: set<nat>, ips: map<string, nat>) {
    && ips.Keys == Managed(nodes)
    && (forall m, n | m in ips && n in ips && m != n :: ips[m] != ips[n])
    && (forall n | n in ips :: ips[n] in pool)
    && (forall n | n in Explicit(nodes) :: nodes[n].mgmtIP == Value(ips[n]))
    && IsSmallest(AutomaticAddresses(nodes, ips), pool - Requested(nodes, nodes.Keys), |Automatic(nodes)|)
  }

  ghost function AutomaticAddresses(nodes: Nodes, ips: map<string, nat>): set<nat> {
    set n | n in Automatic(nodes) && n in ips :: ips[n]
  }

  /** Iteration order does not matter: all assignments use the same set of addresses. */
  lemma {:induction false} SameAddresses(nodes: Nodes, pool: set<nat>, ips: map<string, nat>, jps: map<string, nat>)
    requires IsAssignment(nodes, pool, ips) && IsAssignment(nodes, pool, jps)
    ensures ips.Values == jps.Values
  {
    SmallestUnique(AutomaticAddresses(nodes, ips), AutomaticAddresses(nodes, jps),
                   pool - Requested(nodes, nodes.Keys), |Automatic(nodes)|);
    SplitValues(nodes, pool, ips);
    SplitValues(nodes, pool, jps);
  }

  lemma {:induction false} SplitValues(nodes: Nodes, pool: set<nat>, ips: map<string, nat>)
    requires IsAssignment(nodes, pool, ips)
    ensures ips.Values == Requested(nodes, nodes.Keys) + AutomaticAddresses(nodes, ips)
  {
    forall a | a in ips.Values ensures a in Requested(nodes, nodes.Keys) + AutomaticAddresses(nodes, ips) {
      var n :| n in ips && ips[n] == a;
      assert n in Explicit(nodes) || n in Automatic(nodes);
    }
    forall a | a in Requested(nodes, nodes.Keys) + AutomaticAddresses(nodes, ips) ensures a in ips.Values {
      if a in Requested(nodes, nodes.Keys) {
        var n :| n in nodes && IsExplicit(nodes[n]) && nodes[n].mgmtIP.Value? && nodes[n].mgmtIP.v == a;
        assert n in Explicit(nodes) && n in ips;
      }
    }
  }

  /** Requests that fit take one pool address each; the rest of the pool is left for the automatic nodes. */
  lemma {:induction false} PoolSizes(nodes: Nodes, pool: set<nat>)
    requires RequestsFit(nodes, pool, nodes.Keys)
    ensures |Managed(nodes)| == |Explicit(nodes)| + |Automatic(nodes)|
    ensures |pool - Requested(nodes, nodes.Keys)| == |pool| - |Explicit(nodes)|
  {
    assert Managed(nodes) == Explicit(nodes) + Automatic(nodes);
    var asked := Requested(nodes, nodes.Keys);
    RequestedSize(nodes, pool);
    assert asked <= pool;
    assert |pool - asked| == |pool| - |asked|;
  }

  lemma {:induction false} RequestedSize(nodes: Nodes, pool: set<nat>)
    requires RequestsFit(nodes, pool, nodes.Keys)
    ensures |Requested(nodes, nodes.Keys)| == |Explicit(nodes)|
  {
    var wishes := map n | n in Explicit(nodes) :: nodes[n].mgmtIP.v;
    var image := set n | n in Explicit(nodes) :: wishes[n];
    ImageSize(Explicit(nodes), image, wishes);
    var asked := Requested(nodes, nodes.Keys);
    forall a: nat ensures a in asked <==> a in image {
      if n :| n in nodes && IsExplicit(nodes[n]) && nodes[n].mgmtIP.Value? && nodes[n].mgmtIP.v == a {
        assert n in Explicit(nodes) && wishes[n] == a;
      }
      if n :| n in Explicit(nodes) && wishes[n] == a {
        assert n in nodes && IsExplicit(nodes[n]) && nodes[n].mgmtIP.Value? && nodes[n].mgmtIP.v == a;
      }
    }
    assert asked == image;
  }

  // ----- the second loop, for any order ks of the nodes ----------------------------

  /** The devices attached to the switch in the first i rounds. */
  function AttachedIn(nodes: Nodes, ks: seq<string>, i: nat): seq<string>
    requires i <= |ks|
  {
    if i == 0 then []
    else if ks[i - 1] in nodes && IsManaged(nodes[ks[i - 1]]) then AttachedIn(nodes, ks, i - 1) + [ks[i - 1]]
    else AttachedIn(nodes, ks, i - 1)
  }

  /** The devices that were given an address in the first i rounds. */
  function ServedIn(nodes: Nodes, ks: seq<string>, i: nat): seq<string>
    requires i <= |ks|
  {
    if i == 0 then []
    else if ks[i - 1] in nodes && IsAutomatic(nodes[ks[i - 1]]) then ServedIn(nodes, ks, i - 1) + [ks[i - 1]]
    else ServedIn(nodes, ks, i - 1)
  }

  lemma {:induction false} RoundsCover(nodes: Nodes, ks: seq<string>, i: nat)
    requires Distinct(ks) && i <= |ks|
    ensures Distinct(AttachedIn(nodes, ks, i)) && Distinct(ServedIn(nodes, ks, i))
    ensures forall n :: n in AttachedIn(nodes, ks, i) <==> n in ks[..i] && n in nodes && IsManaged(nodes[n])
    ensures forall n :: n in ServedIn(nodes, ks, i) <==> n in ks[..i] && n in nodes && IsAutomatic(nodes[n])
  {
    if i > 0 {
      RoundsCover(nodes, ks, i - 1);
      assert ks[..i] == ks[..i - 1] + [ks[i - 1]];
    }
  }

  /** The address each served device was given. */
  function GivenBy(served: seq<string>, ips: seq<nat>): map<string, nat>
    requires |served| == |ips|
  {
    if served == [] then map[]
    else GivenBy(served[..|served| - 1], ips[..|ips| - 1])[served[|served| - 1] := ips[|ips| - 1]]
  }

  lemma {:induction false} GivenNext(served: seq<string>, ips: seq<nat>, n: string, ip: nat)
    requires |served| == |ips|
    ensures GivenBy(served + [n], ips + [ip]) == GivenBy(served, ips)[n := ip]
  {
  }

  lemma {:induction false} GivenAt(served: seq<string>, ips: seq<nat>)
    requires |served| == |ips| && Distinct(served)
    ensures GivenBy(served, ips).Keys == Elements(served)
    ensures forall k | 0 <= k < |served| :: served[k] in GivenBy(served, ips) && GivenBy(served, ips)[served[k]] == ips[k]
  {
    if served != [] {
      var n := |served| - 1;
      GivenAt(served[..n], ips[..n]);
      assert served == served[..n] + [served[n]];
      ElementsAppend(served[..n], served[n]);
    }
  }

  lemma {:induction false} NextRound(nodes: Nodes, ks: seq<string>, i: nat)
    requires i < |ks| && ks[i] in nodes
    ensures AttachedIn(nodes, ks, i + 1) ==
      if IsManaged(nodes[ks[i]]) then AttachedIn(nodes, ks, i) + [ks[i]] else AttachedIn(nodes, ks, i)
    ensures ServedIn(nodes, ks, i + 1) ==
      if IsAutomatic(nodes[ks[i]]) then ServedIn(nodes, ks, i) + [ks[i]] else ServedIn(nodes, ks, i)
  {
  }

  lemma {:induction false} NotYetServed(nodes: Nodes, ks: seq<string>, i: nat, ips: seq<nat>)
    requires Distinct(ks) && i < |ks| && |ServedIn(nodes, ks, i)| == |ips|
    ensures ks[i] !in GivenBy(ServedIn(nodes, ks, i), ips)
  {
    RoundsCover(nodes, ks, i);
    GivenAt(ServedIn(nodes, ks, i), ips);
  }

  lemma {:induction false} ServedGrows(nodes: Nodes, ks: seq<string>, i: nat, j: nat)
    requires i <= j <= |ks|
    ensures |ServedIn(nodes, ks, i)| <= |ServedIn(nodes, ks, j)|
  {
    if i < j {
      ServedGrows(nodes, ks, i, j - 1);
    }
  }

  /** All rounds together attach every managed node and serve every automatic one. */
  lemma {:induction false} AllServed(nodes: Nodes, ks: seq<string>)
    requires Distinct(ks) && Elements(ks) == nodes.Keys
    ensures Distinct(AttachedIn(nodes, ks, |ks|)) && Elements(AttachedIn(nodes, ks, |ks|)) == Managed(nodes)
    ensures Distinct(ServedIn(nodes, ks, |ks|)) && Elements(ServedIn(nodes, ks, |ks|)) == Automatic(nodes)
    ensures |ServedIn(nodes, ks, |ks|)| == |Automatic(nodes)|
  {
    assert ks[..|ks|] == ks;
    assert forall n :: n in ks <==> n in Elements(ks);
    RoundsCover(nodes, ks, |ks|);
    DistinctSize(ServedIn(nodes, ks, |ks|));
  }

  /** All management addresses after the second loop: the requested ones and those of given. */
  ghost function FinalIPs(nodes: Nodes, given: map<string, nat>): map<string, nat> {
    map n | n in nodes && ((IsExplicit(nodes[n]) && nodes[n].mgmtIP.Value?) || n in given) ::
      if IsExplicit(nodes[n]) && nodes[n].mgmtIP.Value? then nodes[n].mgmtIP.v else given[n]
  }

  /** The addresses of given are the issued ones, and no two nodes share one. */
  lemma {:induction false} GivenValues(served: seq<string>, ips: seq<nat>)
    requires |served| == |ips| && Distinct(served) && Distinct(ips)
    ensures var given := GivenBy(served, ips);
      && (forall m, n | m in given && n in given && m != n :: given[m] != given[n])
      && (forall n | n in given :: given[n] in Elements(ips))
      && (forall a | a in ips :: exists n | n in given :: given[n] == a)
  {
    GivenAt(served, ips);
    var given := GivenBy(served, ips);
    forall n | n in given ensures exists k | 0 <= k < |served| :: served[k] == n && given[n] == ips[k] {
      assert n in Elements(served);
    }
    forall a | a in ips ensures exists n | n in given :: given[n] == a {
      var k :| 0 <= k < |ips| && ips[k] == a;
      assert served[k] in given;
    }
  }

  /** When no round runs out of addresses, the two loops produce an assignment. */
  lemma {:induction false} LoopsAssign(nodes: Nodes, pool: set<nat>, ks: seq<string>, issued: seq<nat>)
    requires RequestsFit(nodes, pool, nodes.Keys)
    requires Distinct(ks) && Elements(ks) == nodes.Keys
    requires Drawn(pool - Requested(nodes, nodes.Keys), issued)
    requires |ServedIn(nodes, ks, |ks|)| == |issued|
    ensures IsAssignment(nodes, pool, FinalIPs(nodes, GivenBy(ServedIn(nodes, ks, |ks|), issued)))
    ensures |Managed(nodes)| <= |pool|
  {
    var free := pool - Requested(nodes, nodes.Keys);
    var served := ServedIn(nodes, ks, |ks|);
    var given := GivenBy(served, issued);
    AllServed(nodes, ks);
    DrawnSmallest(free, issued);
    GivenAt(served, issued);
    GivenValues(served, issued);
    PoolSizes(nodes, pool);
    DistinctSize(issued);
    SubsetSize(Elements(issued), free);
    FinalIsAssignment(nodes, pool, given, Elements(issued));
  }

  lemma {:induction false} FinalIsAssignment(nodes: Nodes, pool: set<nat>, given: map<string, nat>, issued: set<nat>)
    requires RequestsFit(nodes, pool, nodes.Keys)
    requires given.Keys == Automatic(nodes)
    requires forall m, n | m in given && n in given && m != n :: given[m] != given[n]
    requires forall n | n in given :: given[n] in issued
    requires forall a | a in issued :: exists n | n in given :: given[n] == a
    requires IsSmallest(issued, pool - Requested(nodes, nodes.Keys), |Automatic(nodes)|)
    ensures IsAssignment(nodes, pool, FinalIPs(nodes, given))
  {
    assert forall n | n in given :: given[n] in pool - Requested(nodes, nodes.Keys);
    FinalKeys(nodes, pool, given);
    FinalInjective(nodes, pool, given);
    FinalAutomatic(nodes, given, issued);
  }

  lemma {:induction false} FinalInjective(nodes: Nodes, pool: set<nat>, given: map<string, nat>)
    requires RequestsFit(nodes, pool, nodes.Keys)
    requires given.Keys == Automatic(nodes)
    requires forall m, n | m in given && n in given && m != n :: given[m] != given[n]
    requires forall n | n in given :: given[n] in pool - Requested(nodes, nodes.Keys)
    ensures var ips := FinalIPs(nodes, given);
      forall m, n | m in ips && n in ips && m != n :: ips[m] != ips[n]
  {
  }

  lemma {:induction false} FinalKeys(nodes: Nodes, pool: set<nat>, given: map<string, nat>)
    requires RequestsFit(nodes, pool, nodes.Keys)
    requires given.Keys == Automatic(nodes)
    requires forall n | n in given :: given[n] in pool
    ensures FinalIPs(nodes, given).Keys == Managed(nodes)
    ensures forall n | n in FinalIPs(nodes, given) :: FinalIPs(nodes, given)[n] in pool
    ensures forall n | n in Explicit(nodes) :: nodes[n].mgmtIP == Value(FinalIPs(nodes, given)[n])
  {
  }

  lemma {:induction false} FinalAutomatic(nodes: Nodes, given: map<string, nat>, issued: set<nat>)
    requires given.Keys == Automatic(nodes)
    requires forall n | n in given :: given[n] in issued
    requires forall a | a in issued :: exists n | n in given :: given[n] == a
    ensures AutomaticAddresses(nodes, FinalIPs(nodes, given)) == issued
  {
  }

  /** The state in which a round that needs an address finds none: all of free has been issued. */
  ghost predicate OutOfAddresses(nodes: Nodes, free: set<nat>, ks: seq<string>, rounds: nat, issued: seq<nat>) {
    && rounds < |ks| && ks[rounds] in nodes && IsAutomatic(nodes[ks[rounds]])
    && free - Elements(issued) == {} && Drawn(free, issued)
    && |ServedIn(nodes, ks, rounds)| == |issued|
  }

  /** A round runs out of addresses only when the managed nodes outnumber the pool. */
  lemma {:induction false} RoundFails(nodes: Nodes, pool: set<nat>, ks: seq<string>, rounds: nat, issued: seq<nat>)
    requires RequestsFit(nodes, pool, nodes.Keys)
    requires Distinct(ks) && Elements(ks) == nodes.Keys
    requires OutOfAddresses(nodes, pool - Requested(nodes, nodes.Keys), ks, rounds, issued)
    ensures |Managed(nodes)| > |pool|
  {
    ServedBefore(nodes, ks, rounds);
    AllIssued(pool - Requested(nodes, nodes.Keys), issued);
    PoolSizes(nodes, pool);
  }

  lemma {:induction false} ServedBefore(nodes: Nodes, ks: seq<string>, rounds: nat)
    requires Distinct(ks) && Elements(ks) == nodes.Keys
    requires rounds < |ks| && ks[rounds] in nodes && IsAutomatic(nodes[ks[rounds]])
    ensures |ServedIn(nodes, ks, rounds)| < |Automatic(nodes)|
  {
    NextRound(nodes, ks, rounds);
    ServedGrows(nodes, ks, rounds + 1, |ks|);
    AllServed(nodes, ks);
  }

  lemma {:induction false} AllIssued(free: set<nat>, issued: seq<nat>)
    requires Drawn(free, issued) && free - Elements(issued) == {}
    ensures |free| <= |issued|
  {
    DrawnSmallest(free, issued);
    forall a | a in free ensures a in Elements(issued) {
      assert a !in free - Elements(issued);
    }
    SubsetSize(free, Elements(issued));
  }

  // ----- wiring -----------------------------------------------------------------

  /** The three links every management network has: both uplinks, and server to switch. */
  const SERVER_UPLINK := PlainLink(SERVER, "eth0", "", "")
  const SWITCH_UPLINK := PlainLink(SWITCH, "eth0", "", "")
  const MGMT_LINK := PlainLink(SERVER, "eth1", SWITCH, "swp1")
  const FIXED_LINKS: seq<Link> := [SERVER_UPLINK, SWITCH_UPLINK, MGMT_LINK]

  function SwitchPort(index: nat): string {
    "swp" + Itoa(index)
  }

  /** The link of the device that is attached as number i, counting from 0. */
  function PortLink(i: nat, name: string): Link {
    PlainLink(SWITCH, SwitchPort(i + 2), name, "eth0")
  }

  function PortLinks(order: seq<string>): (ls: seq<Link>)
    ensures |ls| == |order|
  {
    if order == [] then []
    else PortLinks(order[..|order| - 1]) + [PortLink(|order| - 1, order[|order| - 1])]
  }

  lemma {:induction false} PortLinksAt(order: seq<string>, i: nat)
    requires i < |order|
    ensures PortLinks(order)[i] == PortLink(i, order[i])
  {
    if i < |order| - 1 {
      PortLinksAt(order[..|order| - 1], i);
    }
  }

  lemma {:induction false} PortLinksAppend(order: seq<string>, name: string)
    ensures PortLinks(order + [name]) == PortLinks(order) + [PortLink(|order|, name)]
  {
  }

  lemma {:induction false} SwitchPortInjective(i: nat, j: nat)
    ensures SwitchPort(i) == SwitchPort(j) ==> i == j
  {
    if SwitchPort(i) == SwitchPort(j) {
      ItoaInjective("swp", i, j);
    }
  }

  /** The port that connects the switch to the server. */
  lemma {:induction false} FirstPort()
    ensures MGMT_LINK.toPort == SwitchPort(1)
  {
  }

  /** k devices get the ports swp2 .. swp(k+1), see PortLinksAt, each exactly once. */
  lemma {:induction false} PortsDistinct(order: seq<string>, i: nat, j: nat)
    requires i < |order| && j < |order|
    ensures PortLinks(order)[i].fromPort == PortLinks(order)[j].fromPort ==> i == j
  {
    PortLinksAt(order, i);
    PortLinksAt(order, j);
    SwitchPortInjective(i + 2, j + 2);
  }

  /** No device gets the port of the server. */
  lemma {:induction false} PortsAvoidFirst(order: seq<string>, i: nat)
    requires i < |order|
    ensures PortLinks(order)[i].fromPort != MGMT_LINK.toPort
  {
    FirstPort();
    PortLinksAt(order, i);
    SwitchPortInjective(i + 2, 1);
  }
}
