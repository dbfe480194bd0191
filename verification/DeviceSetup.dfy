/**
 What the commands for a device do to it: who may log in with which key, which hosts it knows, and
 whether it gets the topology file (runner/libvirt/runner.go, lines 681-705). The commands are taken
 apart again for that, without the functions that made them.
 */
module DeviceSetup {
  import opened Prelude
  import opened IPAllocation
  import opened AddressText
  import opened Graph
  import opened Hosts
  import opened HostsFile
  import opened Quoting
  import opened Commands

  // ----- reading commands ---------------------------------------------------------------

  /** What follows the words of head. */
  function Behind(head: string, s: string): Option<string> {
    if head <= s then Some(s[|head|..]) else None
  }

  lemma {:induction false} BehindReads(head: string, s: string)
    ensures Behind(head, head + s) == Some(s)
  {
  }

  lemma {:induction false} OtherWords(head: string, s: string)
    requires head != "" && (s == "" || s[0] != head[0])
    ensures Behind(head, s) == None
  {
  }

  /** The place of the first c, or the length if there is none. */
  function FirstOf(s: string, c: char): (i: nat)
    ensures i <= |s|
  {
    if s == "" || s[0] == c then 0 else 1 + FirstOf(s[1..], c)
  }

  lemma {:induction false} FirstOfReads(a: string, c: char, b: string)
    requires c !in a
    ensures FirstOf(a + [c] + b, c) == |a|
  {
    var s := a + [c] + b;
    if a != "" {
      assert a[0] in a && forall x | x in a[1..] :: x in a;
      assert s[1..] == a[1..] + [c] + b;
      FirstOfReads(a[1..], c, b);
    }
  }

  /** The parts in front of the first c and behind it. */
  function CutAt(s: string, c: char): Option<(string, string)> {
    var i := FirstOf(s, c);
    if i < |s| then Some((s[..i], s[i + 1..])) else None
  }

  lemma {:induction false} CutReads(a: string, c: char, b: string)
    requires c !in a
    ensures CutAt(a + [c] + b, c) == Some((a, b))
  {
    FirstOfReads(a, c, b);
    assert (a + [c] + b)[..|a|] == a && (a + [c] + b)[|a| + 1..] == b;
  }

  /** What a command does. */
  datatype Effect = Login(user: string, key: string) | KnowsHost(ip: nat, name: string) | GetsTopology(dot: string)
    | GetsHostsFile(content: string)

  /** "ssh-inject USER:string:KEY" */
  function ReadLogin(cmd: string): Option<Effect> {
    match Behind("ssh-inject ", cmd)
    case None => None
    case Some(rest) =>
      match CutAt(rest, ':')
      case None => None
      case Some((user, selector)) =>
        match Behind("string:", selector)
        case None => None
        case Some(key) => Some(Login(user, key))
  }

  /** "append-line /etc/hosts:ADDRESS NAME" */
  function ReadHost(cmd: string): Option<Effect> {
    match Behind("append-line /etc/hosts:", cmd)
    case None => None
    case Some(line) =>
      match CutAt(line, ' ')
      case None => None
      case Some((address, name)) =>
        match ParseIP(address)
        case None => None
        case Some(ip) => Some(KnowsHost(ip, name))
  }

  /** "write /etc/ptm.d/topology.dot:CONTENT" */
  function ReadTopology(cmd: string): Option<Effect> {
    match Behind("write /etc/ptm.d/topology.dot:", cmd)
    case None => None
    case Some(dot) => Some(GetsTopology(dot))
  }

  /** "write /etc/dnsmasq.hostsfile:CONTENT" */
  function ReadHostsFile(cmd: string): Option<Effect> {
    match Behind("write /etc/dnsmasq.hostsfile:", cmd)
    case None => None
    case Some(content) => Some(GetsHostsFile(content))
  }

  function EffectOf(cmd: string): seq<Effect> {
    if ReadLogin(cmd).Some? then [ReadLogin(cmd).value]
    else if ReadHost(cmd).Some? then [ReadHost(cmd).value]
    else if ReadTopology(cmd).Some? then [ReadTopology(cmd).value]
    else if ReadHostsFile(cmd).Some? then [ReadHostsFile(cmd).value]
    else []
  }

  /** What the commands do, in order. */
  function Effects(cmds: seq<string>): seq<Effect> {
    if cmds == [] then [] else Effects(cmds[..|cmds| - 1]) + EffectOf(cmds[|cmds| - 1])
  }

  lemma {:induction false} EffectsNext(cmds: seq<string>, cmd: string)
    ensures Effects(cmds + [cmd]) == Effects(cmds) + EffectOf(cmd)
  {
    assert (cmds + [cmd])[..|cmds|] == cmds;
  }

  lemma {:induction false} EffectsOfOne(cmd: string)
    ensures Effects([cmd]) == EffectOf(cmd)
  {
    assert [cmd][..0] == [];
  }

  lemma {:induction false} EffectsAppend(a: seq<string>, b: seq<string>)
    ensures Effects(a + b) == Effects(a) + Effects(b)
    decreases |b|, 0
  {
    if b == [] {
      assert a + b == a;
    } else {
      EffectsLast(a, b[..|b| - 1], b[|b| - 1]);
      assert b[..|b| - 1] + [b[|b| - 1]] == b;
    }
  }

  lemma {:induction false} EffectsLast(a: seq<string>, front: seq<string>, last: string)
    ensures Effects(a + (front + [last])) == Effects(a) + Effects(front + [last])
    decreases |front|, 1
  {
    EffectsAppend(a, front);
    EffectsNext(front, last);
    EffectsNext(a + front, last);
    AppendAssociative(a, front, [last]);
    AppendAssociative(Effects(a), Effects(front), EffectOf(last));
  }

  // ----- what is to be read -----------------------------------------------------------

  /** The six functions of devices that run Cumulus Linux. */
  predicate RunsCumulus(role: DeviceFunction) {
    match role
    case OOBSwitch => true
    case Exit => true
    case SuperSpine => true
    case Spine => true
    case Leaf => true
    case TOR => true
    case _ => false
  }

  /** Every key for root, and on Cumulus Linux in front of it for the user cumulus. */
  function Logins(role: DeviceFunction, keys: seq<string>): seq<Effect> {
    if keys == [] then [] else Logins(role, keys[..|keys| - 1]) + LoginsWith(role, keys[|keys| - 1])
  }

  function LoginsWith(role: DeviceFunction, key: string): seq<Effect> {
    (if RunsCumulus(role) then [Login("cumulus", key)] else []) + [Login("root", key)]
  }

  lemma {:induction false} WhoLogsInWith(role: DeviceFunction, k: string, user: string, key: string)
    ensures Login(user, key) in LoginsWith(role, k) <==>
      key == k && (user == "root" || (user == "cumulus" && RunsCumulus(role)))
  {
  }

  /** So root gets each key, cumulus each key exactly on Cumulus Linux, and nobody else gets any. */
  lemma {:induction false} WhoLogsIn(role: DeviceFunction, keys: seq<string>, user: string, key: string)
    ensures Login(user, key) in Logins(role, keys) <==>
      key in keys && (user == "root" || (user == "cumulus" && RunsCumulus(role)))
  {
    if keys != [] {
      var front, last := keys[..|keys| - 1], keys[|keys| - 1];
      WhoLogsIn(role, front, user, key);
      WhoLogsInWith(role, last, user, key);
      assert keys == front + [last];
    }
  }

  function Entries(hosts: seq<EtherHost>): seq<Effect> {
    if hosts == [] then [] else
    var n := |hosts| - 1;
    Entries(hosts[..n]) + [KnowsHost(Shown(hosts[n].ip), hosts[n].name)]
  }

  // ----- single commands ----------------------------------------------------------------

  lemma {:induction false} LoginReads(user: string, key: string)
    requires ':' !in user
    ensures ReadLogin("ssh-inject " + user + ":string:" + key) == Some(Login(user, key))
  {
    var selector := "string:" + key;
    assert "ssh-inject " + user + ":string:" + key == "ssh-inject " + (user + [':'] + selector);
    BehindReads("ssh-inject ", user + [':'] + selector);
    CutReads(user, ':', selector);
    BehindReads("string:", key);
  }

  lemma {:induction false} EntryReads(h: EtherHost)
    requires h.ip < ADDRESS_LIMIT
    ensures ReadHost("append-line /etc/hosts:" + FormatIP(h.ip) + " " + h.name) == Some(KnowsHost(Shown(h.ip), h.name))
  {
    var line := FormatIP(h.ip) + [' '] + h.name;
    assert "append-line /etc/hosts:" + FormatIP(h.ip) + " " + h.name == "append-line /etc/hosts:" + line;
    BehindReads("append-line /etc/hosts:", line);
    IPRoundTrip(h.ip);
    assert ' ' !in FormatIP(h.ip);
    CutReads(FormatIP(h.ip), ' ', h.name);
  }

  /** The three kinds of commands begin with different letters. */
  lemma {:induction false} FirstLetterDecides(cmd: string)
    requires cmd != ""
    ensures cmd[0] != 's' ==> ReadLogin(cmd) == None
    ensures cmd[0] != 'a' ==> ReadHost(cmd) == None
    ensures cmd[0] != 'w' ==> ReadTopology(cmd) == None && ReadHostsFile(cmd) == None
  {
    if cmd[0] != 's' {
      OtherWords("ssh-inject ", cmd);
    }
    if cmd[0] != 'a' {
      OtherWords("append-line /etc/hosts:", cmd);
    }
    if cmd[0] != 'w' {
      OtherWords("write /etc/ptm.d/topology.dot:", cmd);
      OtherWords("write /etc/dnsmasq.hostsfile:", cmd);
    }
  }

  // ----- lists of commands ----------------------------------------------------------------

  lemma {:induction false} LoginCommand(cmd: string, user: string, key: string)
    requires ':' !in user && cmd == "ssh-inject " + user + ":string:" + key
    ensures EffectOf(cmd) == [Login(user, key)]
  {
    LoginReads(user, key);
    FirstLetterDecides(cmd);
  }

  lemma {:induction false} EntryCommand(cmd: string, h: EtherHost)
    requires h.ip < ADDRESS_LIMIT && cmd == "append-line /etc/hosts:" + FormatIP(h.ip) + " " + h.name
    ensures EffectOf(cmd) == [KnowsHost(Shown(h.ip), h.name)]
  {
    EntryReads(h);
    FirstLetterDecides(cmd);
  }

  lemma {:induction false} WriteCommand(cmd: string, content: string)
    ensures cmd == TOPOLOGY_FILE + content ==> EffectOf(cmd) == [GetsTopology(content)]
    ensures cmd == HOSTS_FILE + content ==> EffectOf(cmd) == [GetsHostsFile(content)]
  {
    if cmd == TOPOLOGY_FILE + content {
      FirstLetterDecides(cmd);
      BehindReads("write /etc/ptm.d/topology.dot:", content);
    }
    if cmd == HOSTS_FILE + content {
      FirstLetterDecides(cmd);
      assert cmd[11] == 'd' && "write /etc/ptm.d/topology.dot:"[11] == 'p';
      BehindReads("write /etc/dnsmasq.hostsfile:", content);
    }
  }

  lemma {:induction false} CumulusFunctions(role: DeviceFunction)
    ensures IsCumulus(role) <==> RunsCumulus(role)
  {
  }

  lemma {:induction false} CommandEffect(c: Command)
    ensures Effects(Texts([c])) == EffectOf(c.text)
  {
    TextsOfOne(c);
    EffectsOfOne(c.text);
  }

  lemma {:induction false} EffectsOfBoth(cs: seq<Command>, ds: seq<Command>)
    ensures Effects(Texts(cs + ds)) == Effects(Texts(cs)) + Effects(Texts(ds))
  {
    TextsAppend(cs, ds);
    EffectsAppend(Texts(cs), Texts(ds));
  }

  lemma {:induction false} InjectEffect(user: string, key: string)
    requires ':' !in user
    ensures Effects(Texts([InjectKey(user, key)])) == [Login(user, key)]
  {
    var c := InjectKey(user, key);
    LoginCommand(c.text, user, key);
    CommandEffect(c);
  }

  lemma {:induction false} OneKeyEffects(user: string, key: string)
    requires ':' !in user
    ensures Effects(Texts(OneKey(user, key))) == [Login(user, key)] + if user != "root" then [Login("root", key)] else []
  {
    var own, root := [InjectKey(user, key)], [InjectKey("root", key)];
    InjectEffect(user, key);
    if user != "root" {
      InjectEffect("root", key);
      EffectsOfBoth(own, root);
      assert OneKey(user, key) == own + root;
    } else {
      assert OneKey(user, key) == own;
    }
  }

  lemma {:induction false} OneKeySetup(role: DeviceFunction, key: string)
    ensures Effects(Texts(OneKey(UserOf(role), key))) == LoginsWith(role, key)
  {
    CumulusFunctions(role);
    OneKeyEffects(UserOf(role), key);
  }

  lemma {:induction false} TextsOfOne(c: Command)
    ensures Texts([c]) == [c.text]
  {
    assert [c][..0] == [];
  }

  lemma {:induction false} KeysSetup(role: DeviceFunction, keys: seq<string>)
    ensures Effects(Texts(KeyCommands(UserOf(role), keys))) == Logins(role, keys)
  {
    if keys != [] {
      var front, last := keys[..|keys| - 1], keys[|keys| - 1];
      KeysSetup(role, front);
      OneKeySetup(role, last);
      EffectsOfBoth(KeyCommands(UserOf(role), front), OneKey(UserOf(role), last));
    }
  }

  lemma {:induction false} HostsSetup(hosts: seq<EtherHost>)
    requires Addressed(hosts)
    ensures Effects(Texts(HostCommands(hosts))) == Entries(hosts)
  {
    if hosts != [] {
      var front, last := hosts[..|hosts| - 1], hosts[|hosts| - 1];
      assert last in hosts;
      HostsSetup(front);
      EntryCommand(AppendHost(last).text, last);
      CommandEffect(AppendHost(last));
      EffectsOfBoth(HostCommands(front), [AppendHost(last)]);
    }
  }

  lemma {:induction false} ServerSetup(role: DeviceFunction, hosts: seq<EtherHost>)
    requires Addressed(hosts)
    ensures Effects(Texts(ServerCommands(role, hosts))) ==
      if role == OOBServer then Entries(hosts) + [GetsHostsFile(HostLines(hosts))] else []
  {
    if role == OOBServer {
      var last := Block(HOSTS_FILE + HostLines(hosts));
      HostsSetup(hosts);
      WriteCommand(last.text, HostLines(hosts));
      CommandEffect(last);
      EffectsOfBoth(HostCommands(hosts), [last]);
    }
  }

  lemma {:induction false} TopologySetup(role: DeviceFunction, dot: string)
    ensures Effects(Texts(TopologyCommands(role, dot))) == if RunsCumulus(role) then [GetsTopology(dot)] else []
  {
    CumulusFunctions(role);
    if RunsCumulus(role) {
      WriteCommand(TOPOLOGY_FILE + dot, dot);
      CommandEffect(Block(TOPOLOGY_FILE + dot));
    }
  }

  /** The topology file, the keys and the hosts a device is meant to get. */
  function WantedEffects(role: DeviceFunction, dot: string, keys: seq<string>, hosts: seq<EtherHost>): seq<Effect> {
    (if RunsCumulus(role) then [GetsTopology(dot)] else []) + Logins(role, keys)
    + if role == OOBServer then Entries(hosts) + [GetsHostsFile(HostLines(hosts))] else []
  }

  lemma {:induction false} CommandsSetUp(role: DeviceFunction, dot: string, keys: seq<string>, hosts: seq<EtherHost>)
    requires Addressed(hosts)
    ensures Effects(Texts(ExtraCommands(role, dot, keys, hosts))) == WantedEffects(role, dot, keys, hosts)
  {
    var top, mid, end := TopologyCommands(role, dot), KeyCommands(UserOf(role), keys), ServerCommands(role, hosts);
    TopologySetup(role, dot);
    KeysSetup(role, keys);
    ServerSetup(role, hosts);
    EffectsOfBoth(top, mid);
    EffectsOfBoth(top + mid, end);
  }

  /**
   Blank lines aside, with keys that are safe without the newlines at their ends: the device lets root
   log in with each key, and the user cumulus too exactly on Cumulus Linux; it gets the DOT text exactly
   there; and the OOB server, and nobody else, knows the hosts, in order, and gets the hosts file.
   */
  lemma {:induction false} DeviceIsSetUp(role: DeviceFunction, dot: string, keys: seq<string>, hosts: seq<EtherHost>)
    requires Addressed(hosts) && (forall h | h in hosts :: IsValidHostname(h.name)) && AllSafe(keys)
    requires RunsCumulus(role) ==> !EndsInBackslash(dot)
    ensures Effects(NonBlank(ReadCommands(CommandFile(ExtraCommands(role, dot, keys, hosts)), ""))) ==
      WantedEffects(role, dot, TrimmedKeys(keys), hosts)
  {
    CumulusFunctions(role);
    CommandsUnderstood(role, dot, keys, hosts);
    CommandsSetUp(role, dot, TrimmedKeys(keys), hosts);
  }
}
