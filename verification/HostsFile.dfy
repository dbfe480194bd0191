/** The dnsmasq hosts file and what reads it (runner/libvirt/customize.go, lines 231-237). */
module HostsFile {
  import opened Prelude
  import opened IPAllocation
  import opened AddressText
  import opened Graph
  import opened AutoManagement
  import opened Cabling
  import opened Topology
  import opened RunnerState
  import opened Hosts
  import opened ManagementNetwork

  // ----- the file -----------------------------------------------------------------------

  function HostLine(h: EtherHost): string {
    FormatMAC(h.mac) + "," + FormatIP(h.ip) + "," + h.name
  }

  function HostLines(hosts: seq<EtherHost>): string {
    if hosts == [] then "" else HostLines(hosts[..|hosts| - 1]) + HostLine(hosts[|hosts| - 1]) + "\n"
  }

  function ParseHost(line: string): Option<EtherHost> {
    var fields := Split(line, ',');
    if |fields| != 3 then None else
    var mac, ip := ParseMAC(fields[0]), ParseIP(fields[1]);
    if mac.Some? && ip.Some? then Some(EtherHost(fields[2], ip.value, mac.value)) else None
  }

  function ParseHosts(lines: seq<string>): Option<seq<EtherHost>> {
    if lines == [] then Some([]) else
    var h, rest := ParseHost(lines[0]), ParseHosts(lines[1..]);
    if h.Some? && rest.Some? then Some([h.value] + rest.value) else None
  }

  /** The lines of a file, without an empty one at the end. */
  function LinesOf(content: string): seq<string> {
    var lines := Split(content, '\n');
    if lines[|lines| - 1] == "" then lines[..|lines| - 1] else lines
  }

  function ReadHosts(content: string): Option<seq<EtherHost>> {
    ParseHosts(LinesOf(content))
  }

  /** A name that separates nothing. */
  predicate IsPlain(name: string) {
    ',' !in name && '\n' !in name
  }

  lemma {:induction false} HostnamesArePlain(name: string)
    requires IsValidHostname(name)
    ensures IsPlain(name)
  {
  }

  /** The hosts are given by addresses. */
  predicate Addressed(hosts: seq<EtherHost>) {
    forall h | h in hosts :: h.ip < ADDRESS_LIMIT
  }

  /** The host with the address that is printed for it. */
  function AsShown(h: EtherHost): EtherHost {
    h.(ip := Shown(h.ip))
  }

  function AllShown(hosts: seq<EtherHost>): seq<EtherHost> {
    if hosts == [] then [] else AllShown(hosts[..|hosts| - 1]) + [AsShown(hosts[|hosts| - 1])]
  }

  lemma {:induction false} AllShownSame(hosts: seq<EtherHost>)
    ensures AllShown(hosts) == hosts <==> forall h | h in hosts :: !IsMapped(h.ip)
  {
    if hosts != [] {
      var front, last := hosts[..|hosts| - 1], hosts[|hosts| - 1];
      AllShownSame(front);
      assert hosts == front + [last];
      assert AllShown(hosts)[..|AllShown(front)|] == AllShown(front);
      assert AllShown(hosts) == hosts <==> AllShown(front) == front && AsShown(last) == last;
    }
  }

  lemma {:induction false} LineReads(h: EtherHost)
    requires h.ip < ADDRESS_LIMIT && IsPlain(h.name)
    ensures ParseHost(HostLine(h)) == Some(AsShown(h))
    ensures '\n' !in HostLine(h)
  {
    var mac, ip := FormatMAC(h.mac), FormatIP(h.ip);
    MACRoundTrip(h.mac);
    IPRoundTrip(h.ip);
    AddressesArePlain(mac);
    AddressesArePlain(ip);
    FieldsRead(mac, ip, h.name);
  }

  lemma {:induction false} AddressesArePlain(s: string)
    requires IsAddressText(s)
    ensures IsPlain(s)
  {
  }

  lemma {:induction false} FieldsRead(a: string, b: string, c: string)
    requires IsPlain(a) && IsPlain(b) && IsPlain(c)
    ensures Split(a + "," + b + "," + c, ',') == [a, b, c] && '\n' !in a + "," + b + "," + c
  {
    JoinThree(a, b, c);
    SplitJoin([a, b, c], ',');
  }

  lemma {:induction false} JoinThree(a: string, b: string, c: string)
    ensures Join([a, b, c], ',') == a + "," + b + "," + c
  {
    assert [a, b, c][1..] == [b, c] && [b, c][1..] == [c];
    assert Join([b, c], ',') == b + [','] + c;
    assert a + [','] + (b + [','] + c) == a + "," + b + "," + c;
  }

  /** Reading on behind a host list that was written, with the lines of the rest. */
  lemma {:induction false} LinesRead(hosts: seq<EtherHost>, rest: string, more: seq<EtherHost>)
    requires Addressed(hosts) && forall h | h in hosts :: IsPlain(h.name)
    requires ReadHosts(rest) == Some(more)
    ensures ReadHosts(HostLines(hosts) + rest) == Some(AllShown(hosts) + more)
  {
    if hosts == [] {
      assert HostLines(hosts) + rest == rest && AllShown(hosts) + more == more;
    } else {
      var n := |hosts| - 1;
      var front, h := hosts[..n], hosts[n];
      assert h in hosts && forall x | x in front :: x in hosts;
      LineReads(h);
      var line := HostLine(h);
      LineFirst(line, rest, AsShown(h), more);
      LinesRead(front, line + "\n" + rest, [AsShown(h)] + more);
      AppendLine(HostLines(front), line, rest);
      AppendAssociative(AllShown(front), [AsShown(h)], more);
    }
  }

  lemma {:induction false} AppendLine(front: string, line: string, rest: string)
    ensures front + (line + "\n" + rest) == front + line + "\n" + rest
  {
  }

  lemma {:induction false} LineFirst(line: string, rest: string, h: EtherHost, more: seq<EtherHost>)
    requires '\n' !in line && ParseHost(line) == Some(h) && ReadHosts(rest) == Some(more)
    ensures ReadHosts(line + "\n" + rest) == Some([h] + more)
  {
    SplitFirst(line, rest, '\n');
    assert line + ['\n'] + rest == line + "\n" + rest;
    var lines := LinesOf(rest);
    assert LinesOf(line + "\n" + rest) == [line] + lines;
    assert ([line] + lines)[1..] == lines;
  }

  /** What is read never has a separator in a name. */
  lemma {:induction false} ReadNamesArePlain(content: string, lines: seq<string>)
    requires forall l | l in lines :: IsPiece(l, content, '\n')
    requires ParseHosts(lines).Some?
    ensures forall h | h in ParseHosts(lines).value :: IsPlain(h.name)
  {
    if lines != [] {
      assert lines[0] in lines;
      var fields := Split(lines[0], ',');
      SplitParts(lines[0], ',');
      assert fields[2] in fields;
      ReadNamesArePlain(content, lines[1..]);
    }
  }

  /**
   The file reads back as the hosts exactly when no name contains a comma or a newline, and no
   address is an IPv4-mapped one.
   */
  lemma {:induction false} HostsFileRoundTrip(hosts: seq<EtherHost>)
    requires Addressed(hosts)
    ensures ReadHosts(HostLines(hosts)) == Some(hosts) <==> forall h | h in hosts :: IsPlain(h.name) && !IsMapped(h.ip)
  {
    if ReadHosts(HostLines(hosts)) == Some(hosts) {
      SplitParts(HostLines(hosts), '\n');
      ReadNamesArePlain(HostLines(hosts), LinesOf(HostLines(hosts)));
    }
    if forall h | h in hosts :: IsPlain(h.name) {
      LinesRead(hosts, "", []);
      assert HostLines(hosts) + "" == HostLines(hosts) && AllShown(hosts) + [] == AllShown(hosts);
      AllShownSame(hosts);
    }
  }

  /** generateDnsmasqHostsFile, and what dnsmasq makes of its result. */
  method GenerateDnsmasqHostsFile(hosts: seq<EtherHost>) returns (buf: string)
    ensures buf == HostLines(hosts)
    ensures Addressed(hosts) && (forall h | h in hosts :: IsValidHostname(h.name)) ==>
      (ReadHosts(buf) == Some(hosts) <==> forall h | h in hosts :: !IsMapped(h.ip))
  {
    buf := "";
    for i := 0 to |hosts|
      invariant buf == HostLines(hosts[..i])
    {
      assert hosts[..i + 1][..i] == hosts[..i];
      buf := buf + HostLine(hosts[i]) + "\n";
    }
    assert hosts[..|hosts|] == hosts;
    if Addressed(hosts) && forall h | h in hosts :: IsValidHostname(h.name) {
      forall h | h in hosts ensures IsPlain(h.name) {
        HostnamesArePlain(h.name);
      }
      HostsFileRoundTrip(hosts);
    }
  }

  // ----- the management network ----------------------------------------------------------

  /**
   The file for a managed topology reads back exactly when no assigned address is an IPv4-mapped one;
   there is none if the prefix of the server is an IPv4 prefix.
   */
  lemma {:induction false} ManagementFileReads(cfg: Config, nodes: Nodes, g: seq<Link>, order: seq<string>,
                                               ips: map<string, nat>, hosts: seq<EtherHost>)
    requires CanManage(nodes) && IsAssignment(nodes, Pool(nodes), ips) && Elements(order) == ips.Keys
    requires HostListCorrect(cfg, nodes, g, order, ips, hosts) && GoodNames(nodes)
    ensures Addressed(hosts) && (ReadHosts(HostLines(hosts)) == Some(hosts) <==> forall n | n in ips :: !IsMapped(ips[n]))
    ensures nodes[SERVER].mgmtPrefix.value.ip < IPV6_ORIGIN ==> forall n | n in ips :: !IsMapped(ips[n])
  {
    PrefixEnds(nodes[SERVER].mgmtPrefix.value);
    forall n | n in ips ensures ips[n] < ADDRESS_LIMIT {
      assert ips[n] in Pool(nodes);
    }
    forall h | h in hosts ensures h.name in ips && h.ip == ips[h.name] && IsPlain(h.name) {
      EntryAddress(cfg, nodes, g, order, ips, hosts, h);
      HostnamesArePlain(h.name);
    }
    forall n | n in ips ensures exists h | h in hosts :: h.name == n && h.ip == ips[n] {
      assert n in Elements(order);
      var i :| 0 <= i < |order| && order[i] == n;
      assert MgmtHost(cfg, TunnelsOf(cfg, nodes), g, order, ips, i) in hosts;
    }
    HostsFileRoundTrip(hosts);
  }
}
