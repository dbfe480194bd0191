/** The definitions of domains (runner/libvirt/runner.go, lines 836-874). */
module Domains {
  import opened Prelude
  import opened HardwareAddr
  import opened Graph
  import opened Hypervisor
  import opened Cabling
  import opened RunnerState
  import opened Cables

  /** An interface is of type "network" if it names one, and else a UDP tunnel. */
  function SourceOf(x: Iface, localAddress: nat): Source {
    if x.network != "" then Network(x.network) else Tunnel(x.remoteTunnelIP, x.port, localAddress, x.localPort)
  }

  function InterfacesOf(xs: seq<Iface>, localAddress: nat): (ds: seq<DomainInterface>)
    ensures |ds| == |xs|
    ensures forall i | 0 <= i < |xs| ::
      ds[i] == DomainInterface(xs[i].name, xs[i].mac, SourceOf(xs[i], localAddress), xs[i].pxe)
  {
    if xs == [] then [] else
    var n := |xs| - 1;
    InterfacesOf(xs[..n], localAddress)
    + [DomainInterface(xs[n].name, xs[n].mac, SourceOf(xs[n], localAddress), xs[n].pxe)]
  }

  ghost function ArgsOf(name: string, localAddress: nat, xs: seq<Iface>): DomainArgs {
    DomainArgs(name, InterfacesOf(xs, localAddress), exists x | x in xs :: x.pxe)
  }

  /** The method templateArgs. */
  method TemplateArgs(d: SimDevice) returns (args: DomainArgs)
    ensures args == ArgsOf(d.name, d.tunnelIP, d.interfaces)
  {
    var interfaces: seq<DomainInterface> := [];
    var pxeBoot := false;
    ghost var xs := d.interfaces;
    for i := 0 to |d.interfaces|
      invariant interfaces == InterfacesOf(xs[..i], d.tunnelIP)
      invariant pxeBoot <==> exists x | x in xs[..i] :: x.pxe
    {
      var intf := d.interfaces[i];
      PrefixNext(xs, i);
      assert xs[..i + 1][..i] == xs[..i];
      var source := Tunnel(intf.remoteTunnelIP, intf.port, d.tunnelIP, intf.localPort);
      if intf.network != "" {
        source := Network(intf.network);
      }
      interfaces := interfaces + [DomainInterface(intf.name, intf.mac, source, intf.pxe)];
      if intf.pxe {
        pxeBoot := true;
      }
    }
    assert xs[..|xs|] == xs;
    return DomainArgs(d.name, interfaces, pxeBoot);
  }

  /**
   In the domain, an interface on a network of the host is one, if that has a name; without a name it
   becomes a tunnel to port 0 of no address. A cable ends in a tunnel from the address of its own
   device to that of the far end.
   */
  lemma {:induction false} EndsInDomain(cfg: Config, l: Link, x: Iface, network: string, mac: seq<Byte>,
                                        number: nat, far: nat, near: nat)
    ensures IsNetworkEnd(x, l, network, mac) && network != "" ==> SourceOf(x, near) == Network(network)
    ensures IsNetworkEnd(x, l, network, mac) && network == "" ==> SourceOf(x, near) == Tunnel(None, 0, near, 0)
    ensures IsLeftEnd(x, cfg, l, mac, number, far) ==>
      SourceOf(x, near) == Tunnel(Some(far), Wrap(cfg.portBase + number), near, Wrap(cfg.portBase + number + cfg.portGap))
    ensures IsRightEnd(x, cfg, l, mac, number, far) ==>
      SourceOf(x, near) == Tunnel(Some(far), Wrap(cfg.portBase + number + cfg.portGap), near, Wrap(cfg.portBase + number))
  {
  }
}
