/** The commands customizeDomains writes for virt-customize (runner/libvirt/runner.go, lines 681-705). */
module Commands {
  import opened Prelude
  import opened AddressText
  import opened Graph
  import opened Hosts
  import opened HostsFile
  import opened Quoting

  /** hasCumulusFunction */
  predicate IsCumulus(role: DeviceFunction) {
    role in {OOBSwitch, Exit, SuperSpine, Spine, Leaf, TOR}
  }

  function UserOf(role: DeviceFunction): string {
    if IsCumulus(role) then "cumulus" else "root"
  }

  const TOPOLOGY_FILE := "write /etc/ptm.d/topology.dot:"
  const HOSTS_FILE := "write /etc/dnsmasq.hostsfile:"

  function KeyHead(user: string): string {
    "ssh-inject " + user + ":string:"
  }

  function InjectKey(user: string, key: string): Command {
    Line(KeyHead(user) + key)
  }

  /** The commands for one key. */
  function OneKey(user: string, key: string): seq<Command> {
    [InjectKey(user, key)] + if user != "root" then [InjectKey("root", key)] else []
  }

  function KeyCommands(user: string, keys: seq<string>): seq<Command> {
    if keys == [] then [] else
    var n := |keys| - 1;
    KeyCommands(user, keys[..n]) + OneKey(user, keys[n])
  }

  function HostHead(ip: nat): string {
    "append-line /etc/hosts:" + FormatIP(ip) + " "
  }

  function AppendHost(h: EtherHost): Command {
    Line(HostHead(h.ip) + h.name)
  }

  function HostCommands(hosts: seq<EtherHost>): seq<Command> {
    if hosts == [] then [] else
    var n := |hosts| - 1;
    HostCommands(hosts[..n]) + [AppendHost(hosts[n])]
  }

  function TopologyCommands(role: DeviceFunction, dot: string): seq<Command> {
    if IsCumulus(role) then [Block(TOPOLOGY_FILE + dot)] else []
  }

  function ServerCommands(role: DeviceFunction, hosts: seq<EtherHost>): seq<Command> {
    if role == OOBServer then HostCommands(hosts) + [Block(HOSTS_FILE + HostLines(hosts))] else []
  }

  /** The commands for a device; hosts is what gatherHosts returned. */
  function ExtraCommands(role: DeviceFunction, dot: string, keys: seq<string>, hosts: seq<EtherHost>): seq<Command> {
    TopologyCommands(role, dot) + KeyCommands(UserOf(role), keys) + ServerCommands(role, hosts)
  }

  /** Only the content of a block needs escaping, since the words in front of it have no newline. */
  lemma {:induction false} EscapedContent(head: string, content: string)
    requires '\n' !in head
    ensures Continued(head + content) == head + Continued(content)
  {
    if head == "" {
      assert head + content == content;
    } else {
      EscapedContent(head[1..], content);
      FirstCharacter(head, content);
    }
  }

  lemma {:induction false} FirstCharacter(s: string, t: string)
    requires s != ""
    ensures (s + t)[0] == s[0] && (s + t)[1..] == s[1..] + t && s == [s[0]] + s[1..]
    ensures [s[0]] + (s[1..] + Continued(t)) == s + Continued(t)
  {
  }

  lemma {:induction false} BlockAppend(cs: seq<Command>, head: string, content: string)
    requires '\n' !in head
    ensures CommandFile(cs + [Block(head + content)]) == CommandFile(cs) + head + Continued(content) + "\n"
  {
    EscapedContent(head, content);
    FileAppend(cs, Block(head + content));
  }

  method WriteKey(user: string, key: string, buf: string, ghost cs: seq<Command>) returns (buf': string)
    requires buf == CommandFile(cs)
    ensures buf' == CommandFile(cs + [InjectKey(user, key)])
  {
    FileAppend(cs, InjectKey(user, key));
    buf' := buf + ("ssh-inject " + user + ":string:" + key + "\n");
  }

  method WriteKeys(user: string, keys: seq<string>, buf: string, ghost cs: seq<Command>) returns (buf': string)
    requires buf == CommandFile(cs)
    ensures buf' == CommandFile(cs + KeyCommands(user, keys))
  {
    buf' := buf;
    ghost var all := cs;
    for i := 0 to |keys|
      invariant all == cs + KeyCommands(user, keys[..i]) && buf' == CommandFile(all)
    {
      KeyCommandsNext(user, keys, i, cs);
      buf' := WriteKey(user, keys[i], buf', all);
      all := all + [InjectKey(user, keys[i])];
      if user != "root" {
        buf' := WriteKey("root", keys[i], buf', all);
        all := all + [InjectKey("root", keys[i])];
      }
    }
    assert keys[..|keys|] == keys;
  }

  lemma {:induction false} KeyCommandsNext(user: string, keys: seq<string>, i: nat, cs: seq<Command>)
    requires i < |keys|
    ensures var all := cs + KeyCommands(user, keys[..i]) + [InjectKey(user, keys[i])];
      cs + KeyCommands(user, keys[..i + 1]) == if user != "root" then all + [InjectKey("root", keys[i])] else all
  {
    assert keys[..i + 1][..i] == keys[..i];
  }

  method WriteHosts(hosts: seq<EtherHost>, buf: string, ghost cs: seq<Command>) returns (buf': string)
    requires buf == CommandFile(cs)
    ensures buf' == CommandFile(cs + HostCommands(hosts))
  {
    buf' := buf;
    ghost var all := cs;
    for i := 0 to |hosts|
      invariant all == cs + HostCommands(hosts[..i]) && buf' == CommandFile(all)
    {
      HostCommandsNext(hosts, i, cs);
      FileAppend(all, AppendHost(hosts[i]));
      buf' := buf' + ("append-line /etc/hosts:" + FormatIP(hosts[i].ip) + " " + hosts[i].name + "\n");
      all := all + [AppendHost(hosts[i])];
    }
    assert hosts[..|hosts|] == hosts;
  }

  lemma {:induction false} HostCommandsNext(hosts: seq<EtherHost>, i: nat, cs: seq<Command>)
    requires i < |hosts|
    ensures cs + HostCommands(hosts[..i + 1]) == cs + HostCommands(hosts[..i]) + [AppendHost(hosts[i])]
  {
    assert hosts[..i + 1][..i] == hosts[..i];
  }

  lemma {:induction false} OneBlock(head: string, content: string)
    requires '\n' !in head
    ensures CommandFile([Block(head + content)]) == head + Continued(content) + "\n"
  {
    EscapedContent(head, content);
    FileOfOne(Block(head + content));
  }

  method WriteTopology(role: DeviceFunction, dot: string) returns (buf: string)
    ensures buf == CommandFile(TopologyCommands(role, dot))
  {
    buf := "";
    if IsCumulus(role) {
      OneBlock(TOPOLOGY_FILE, dot);
      buf := TOPOLOGY_FILE + Continued(dot) + "\n";
    }
  }

  lemma {:induction false} ServerAppend(cs: seq<Command>, ds: seq<Command>, content: string)
    ensures CommandFile(cs + (ds + [Block(HOSTS_FILE + content)])) ==
      CommandFile(cs + ds) + HOSTS_FILE + Continued(content) + "\n"
  {
    BlockAppend(cs + ds, HOSTS_FILE, content);
    AppendAssociative(cs, ds, [Block(HOSTS_FILE + content)]);
  }

  method WriteServerFiles(role: DeviceFunction, hosts: seq<EtherHost>, buf: string, ghost cs: seq<Command>)
    returns (buf': string)
    requires buf == CommandFile(cs)
    ensures buf' == CommandFile(cs + ServerCommands(role, hosts))
  {
    buf' := buf;
    if role == OOBServer {
      buf' := WriteHosts(hosts, buf', cs);
      var dnsmasqHosts := GenerateDnsmasqHostsFile(hosts);
      ServerAppend(cs, HostCommands(hosts), dnsmasqHosts);
      buf' := buf' + HOSTS_FILE + Continued(dnsmasqHosts) + "\n";
    } else {
      assert cs + [] == cs;
    }
  }

  /** The part of the loop body that writes the commands into the buffer. */
  method WriteCommands(role: DeviceFunction, dot: string, keys: seq<string>, hosts: seq<EtherHost>) returns (buf: string)
    ensures buf == CommandFile(ExtraCommands(role, dot, keys, hosts))
  {
    buf := WriteTopology(role, dot);
    buf := WriteKeys(UserOf(role), keys, buf, TopologyCommands(role, dot));
    buf := WriteServerFiles(role, hosts, buf, TopologyCommands(role, dot) + KeyCommands(UserOf(role), keys));
  }

  // ----- what is read back ------------------------------------------------------------

  /** A key that reaches the guest as it is. */
  predicate IsSafeKey(key: string) {
    '\n' !in key && !EndsInBackslash(key)
  }

  lemma {:induction false} InjectFaithful(user: string, key: string)
    requires user == "root" || user == "cumulus"
    ensures IsFaithful(InjectKey(user, key)) <==> IsSafeKey(key)
  {
    KeyHeadLeads(user);
    HeadKeeps(KeyHead(user), key);
  }

  /** Words that can stand in front of a text: no newline, and no backslash at either end. */
  predicate Leads(head: string) {
    && head != "" && '\n' !in head
    && head[0] != '\\' && head[|head| - 1] != '\\'
  }

  lemma {:induction false} KeyHeadLeads(user: string)
    requires user == "root" || user == "cumulus"
    ensures Leads(KeyHead(user))
  {
    assert forall c | c in "ssh-inject " :: c != '\n';
    assert forall c | c in ":string:" :: c != '\n';
  }

  lemma {:induction false} HostHeadLeads(ip: nat)
    ensures Leads(HostHead(ip))
  {
    IPRoundTrip(ip);
    AddressesArePlain(FormatIP(ip));
    assert forall c | c in "append-line /etc/hosts:" :: c != '\n';
  }

  /** Whether a text behind some words is faithful depends on the text alone. */
  lemma {:induction false} HeadKeeps(head: string, text: string)
    requires Leads(head)
    ensures '\n' in head + text <==> '\n' in text
    ensures EndsInBackslash(head + text) <==> EndsInBackslash(text)
  {
    if text == "" {
      assert head + text == head;
    } else {
      assert (head + text)[|head + text| - 1] == text[|text| - 1];
    }
  }

  ghost predicate AllFaithful(cs: seq<Command>) {
    forall c | c in cs :: IsFaithful(c)
  }

  lemma {:induction false} KeysFaithful(user: string, keys: seq<string>)
    requires user == "root" || user == "cumulus"
    ensures AllFaithful(KeyCommands(user, keys)) <==> forall k | k in keys :: IsSafeKey(k)
  {
    if keys != [] {
      var n := |keys| - 1;
      KeysFaithful(user, keys[..n]);
      InjectFaithful(user, keys[n]);
      InjectFaithful("root", keys[n]);
      var mine := OneKey(user, keys[n]);
      assert AllFaithful(mine) <==> IsSafeKey(keys[n]) by {
        assert InjectKey(user, keys[n]) in mine;
      }
      assert KeyCommands(user, keys) == KeyCommands(user, keys[..n]) + mine;
      AllInBoth(KeyCommands(user, keys[..n]), mine);
      assert keys == keys[..n] + [keys[n]];
    }
  }

  lemma {:induction false} AllInBoth(cs: seq<Command>, ds: seq<Command>)
    ensures AllFaithful(cs + ds) <==> AllFaithful(cs) && AllFaithful(ds)
  {
    assert forall c | c in cs :: c in cs + ds;
    assert forall c | c in ds :: c in cs + ds;
  }

  lemma {:induction false} HostsFaithful(hosts: seq<EtherHost>)
    requires forall h | h in hosts :: IsValidHostname(h.name)
    ensures AllFaithful(HostCommands(hosts))
  {
    if hosts != [] {
      var n := |hosts| - 1;
      assert hosts[n] in hosts;
      HostsFaithful(hosts[..n]);
      HostFaithful(hosts[n]);
      AllInBoth(HostCommands(hosts[..n]), [AppendHost(hosts[n])]);
    }
  }

  lemma {:induction false} HostFaithful(h: EtherHost)
    requires IsValidHostname(h.name)
    ensures IsFaithful(AppendHost(h))
  {
    HostHeadLeads(h.ip);
    HostnamesArePlain(h.name);
    HeadKeeps(HostHead(h.ip), h.name);
  }

  lemma {:induction false} HostLinesEnd(hosts: seq<EtherHost>)
    ensures !EndsInBackslash(HostLines(hosts))
  {
    if hosts != [] {
      var s := HostLines(hosts);
      assert s[|s| - 1] == '\n';
    }
  }

  /** A host list ends its command with the colon before it or with a newline, never with a backslash. */
  lemma {:induction false} HostsBlockFaithful(hosts: seq<EtherHost>)
    ensures IsFaithful(Block(HOSTS_FILE + HostLines(hosts)))
  {
    HostsWords();
    HostLinesEnd(hosts);
    HeadKeeps(HOSTS_FILE, HostLines(hosts));
  }

  /**
   The device gets exactly the commands that were meant if and only if no authorized key contains a
   newline or ends in a backslash, and the DOT text, where it is sent, does not end in a backslash.
   */
  lemma {:induction false} CommandsRoundTrip(role: DeviceFunction, dot: string, keys: seq<string>, hosts: seq<EtherHost>)
    requires forall h | h in hosts :: IsValidHostname(h.name)
    ensures var cs := ExtraCommands(role, dot, keys, hosts);
      ReadCommands(CommandFile(cs), "") == Texts(cs) <==>
        (forall k | k in keys :: IsSafeKey(k)) && (IsCumulus(role) ==> !EndsInBackslash(dot))
  {
    var top, mid, end := TopologyCommands(role, dot), KeyCommands(UserOf(role), keys), ServerCommands(role, hosts);
    CommandFileRoundTrip(top + mid + end);
    AllInBoth(top + mid, end);
    AllInBoth(top, mid);
    TopologyFaithful(role, dot);
    KeysFaithful(UserOf(role), keys);
    ServerFaithful(role, hosts);
  }

  lemma {:induction false} TopologyFaithful(role: DeviceFunction, dot: string)
    ensures AllFaithful(TopologyCommands(role, dot)) <==> (IsCumulus(role) ==> !EndsInBackslash(dot))
  {
    HeadKeeps(TOPOLOGY_FILE, dot);
    var c := Block(TOPOLOGY_FILE + dot);
    assert c in [c];
  }

  lemma {:induction false} ServerFaithful(role: DeviceFunction, hosts: seq<EtherHost>)
    requires forall h | h in hosts :: IsValidHostname(h.name)
    ensures AllFaithful(ServerCommands(role, hosts))
  {
    if role == OOBServer {
      HostsFaithful(hosts);
      HostsBlockFaithful(hosts);
      AllInBoth(HostCommands(hosts), [Block(HOSTS_FILE + HostLines(hosts))]);
    }
  }

  // ----- blank lines aside --------------------------------------------------------------

  /** The keys without the newlines at their ends. */
  function TrimmedKeys(keys: seq<string>): seq<string> {
    if keys == [] then [] else TrimmedKeys(keys[..|keys| - 1]) + [Trimmed(keys[|keys| - 1])]
  }

  ghost predicate AllStartPlainly(cs: seq<Command>) {
    forall c | c in cs :: StartsPlainly(c)
  }

  ghost predicate AllMeantFaithful(cs: seq<Command>) {
    forall c | c in cs :: IsFaithful(Meant(c))
  }

  /** What is meant by the commands cs are the commands ds; whether they are read so is decided by ok. */
  ghost predicate Means(cs: seq<Command>, ds: seq<Command>, ok: bool) {
    AllStartPlainly(cs) && MeantTexts(cs) == Texts(ds) && (AllMeantFaithful(cs) <==> ok)
  }

  lemma {:induction false} MeansAppend(cs: seq<Command>, ds: seq<Command>, ok: bool,
                                       cs': seq<Command>, ds': seq<Command>, ok': bool)
    requires Means(cs, ds, ok) && Means(cs', ds', ok')
    ensures Means(cs + cs', ds + ds', ok && ok')
  {
    TextsAppend(cs, cs');
    TextsAppend(ds, ds');
    assert forall c | c in cs :: c in cs + cs';
    assert forall c | c in cs' :: c in cs + cs';
  }

  lemma {:induction false} MeansOne(c: Command)
    requires StartsPlainly(c)
    ensures Means([c], [Meant(c)], IsFaithful(Meant(c)))
  {
    assert [c][..0] == [] && [Meant(c)][..0] == [];
    assert c in [c];
  }

  lemma {:induction false} InjectMeans(user: string, key: string)
    requires user == "root" || user == "cumulus"
    ensures Means([InjectKey(user, key)], [InjectKey(user, Trimmed(key))], IsSafeKey(Trimmed(key)))
  {
    KeyHeadLeads(user);
    TrimmedBehind(KeyHead(user), key);
    MeansOne(InjectKey(user, key));
    InjectFaithful(user, Trimmed(key));
  }

  lemma {:induction false} OneKeyMeans(user: string, key: string)
    requires user == "root" || user == "cumulus"
    ensures Means(OneKey(user, key), OneKey(user, Trimmed(key)), IsSafeKey(Trimmed(key)))
  {
    InjectMeans(user, key);
    if user != "root" {
      InjectMeans("root", key);
      MeansAppend([InjectKey(user, key)], [InjectKey(user, Trimmed(key))], IsSafeKey(Trimmed(key)),
                  [InjectKey("root", key)], [InjectKey("root", Trimmed(key))], IsSafeKey(Trimmed(key)));
    }
  }

  /** Without the newlines at their ends the keys are safe. */
  ghost predicate AllSafe(keys: seq<string>) {
    forall k | k in keys :: IsSafeKey(Trimmed(k))
  }

  lemma {:induction false} AllSafeNext(keys: seq<string>)
    requires keys != []
    ensures AllSafe(keys) <==> AllSafe(keys[..|keys| - 1]) && IsSafeKey(Trimmed(keys[|keys| - 1]))
  {
    assert keys == keys[..|keys| - 1] + [keys[|keys| - 1]];
  }

  lemma {:induction false} KeysMean(user: string, keys: seq<string>)
    requires user == "root" || user == "cumulus"
    ensures Means(KeyCommands(user, keys), KeyCommands(user, TrimmedKeys(keys)), AllSafe(keys))
  {
    if keys != [] {
      var front, last := keys[..|keys| - 1], keys[|keys| - 1];
      KeysMean(user, front);
      OneKeyMeans(user, last);
      MeansAppend(KeyCommands(user, front), KeyCommands(user, TrimmedKeys(front)), AllSafe(front),
                  OneKey(user, last), OneKey(user, Trimmed(last)), IsSafeKey(Trimmed(last)));
      TrimmedKeysNext(user, keys);
      AllSafeNext(keys);
    }
  }

  lemma {:induction false} TrimmedKeysNext(user: string, keys: seq<string>)
    requires keys != []
    ensures KeyCommands(user, TrimmedKeys(keys)) ==
      KeyCommands(user, TrimmedKeys(keys[..|keys| - 1])) + OneKey(user, Trimmed(keys[|keys| - 1]))
  {
    var front := TrimmedKeys(keys[..|keys| - 1]);
    assert TrimmedKeys(keys)[..|front|] == front;
  }

  lemma {:induction false} HostsMean(hosts: seq<EtherHost>)
    requires forall h | h in hosts :: IsValidHostname(h.name)
    ensures Means(HostCommands(hosts), HostCommands(hosts), true)
  {
    if hosts != [] {
      var n := |hosts| - 1;
      assert hosts[n] in hosts;
      HostsMean(hosts[..n]);
      HostMeans(hosts[n]);
      MeansAppend(HostCommands(hosts[..n]), HostCommands(hosts[..n]), true, [AppendHost(hosts[n])], [AppendHost(hosts[n])], true);
    }
  }

  lemma {:induction false} HostMeans(h: EtherHost)
    requires IsValidHostname(h.name)
    ensures Means([AppendHost(h)], [AppendHost(h)], true)
  {
    HostFaithful(h);
    MeansOne(AppendHost(h));
  }

  lemma {:induction false} TopologyMeans(role: DeviceFunction, dot: string)
    ensures Means(TopologyCommands(role, dot), TopologyCommands(role, dot), IsCumulus(role) ==> !EndsInBackslash(dot))
  {
    if IsCumulus(role) {
      HeadKeeps(TOPOLOGY_FILE, dot);
      MeansOne(Block(TOPOLOGY_FILE + dot));
    }
  }

  lemma {:induction false} ServerMeans(role: DeviceFunction, hosts: seq<EtherHost>)
    requires forall h | h in hosts :: IsValidHostname(h.name)
    ensures Means(ServerCommands(role, hosts), ServerCommands(role, hosts), true)
  {
    if role == OOBServer {
      var last := Block(HOSTS_FILE + HostLines(hosts));
      HostsMean(hosts);
      HostsBlockFaithful(hosts);
      MeansOne(last);
      MeansAppend(HostCommands(hosts), HostCommands(hosts), true, [last], [last], true);
    }
  }

  /**
   Blank lines aside, the device gets exactly the commands for the keys without the newlines at their
   ends if and only if no key has another newline or a backslash at its end, and the DOT text, where
   it is sent, does not end in a backslash.
   */
  lemma {:induction false} CommandsUnderstood(role: DeviceFunction, dot: string, keys: seq<string>, hosts: seq<EtherHost>)
    requires forall h | h in hosts :: IsValidHostname(h.name)
    ensures
      NonBlank(ReadCommands(CommandFile(ExtraCommands(role, dot, keys, hosts)), "")) ==
        Texts(ExtraCommands(role, dot, TrimmedKeys(keys), hosts))
      <==> AllSafe(keys) && (IsCumulus(role) ==> !EndsInBackslash(dot))
  {
    var top, end := TopologyCommands(role, dot), ServerCommands(role, hosts);
    var mid, mid' := KeyCommands(UserOf(role), keys), KeyCommands(UserOf(role), TrimmedKeys(keys));
    var okTop, okMid := (IsCumulus(role) ==> !EndsInBackslash(dot)), AllSafe(keys);
    TopologyMeans(role, dot);
    KeysMean(UserOf(role), keys);
    ServerMeans(role, hosts);
    MeansAppend(top, top, okTop, mid, mid', okMid);
    MeansAppend(top + mid, top + mid', okTop && okMid, end, end, true);
    MeantRoundTrip(top + mid + end);
  }

  // ----- the hosts file -----------------------------------------------------------------

  /** The last command begins with the words of head, and behind them lists the hosts. */
  ghost predicate ListsBehind(head: string, read: seq<string>, hosts: seq<EtherHost>) {
    read != [] && head <= read[|read| - 1] && ReadHosts(read[|read| - 1][|head|..]) == Some(hosts)
  }

  /** The command before the one for the hosts file ends there: it is that of a host, or of a key without a backslash at its end. */
  predicate EndsBeforeHosts(keys: seq<string>, hosts: seq<EtherHost>) {
    hosts != [] || keys == [] || !EndsInBackslash(keys[|keys| - 1])
  }

  /** What is written in front of the command for the hosts file. */
  function FrontFile(keys: seq<string>, hosts: seq<EtherHost>): string {
    CommandFile(KeyCommands("root", keys) + HostCommands(hosts))
  }

  lemma {:induction false} FrontEnds(keys: seq<string>, hosts: seq<EtherHost>)
    requires forall h | h in hosts :: IsValidHostname(h.name)
    ensures EndsBeforeHosts(keys, hosts) ==> FrontFile(keys, hosts) == "" || EndsCommand(FrontFile(keys, hosts))
    ensures !EndsBeforeHosts(keys, hosts) ==> EndsContinued(FrontFile(keys, hosts))
  {
    var keyed := KeyCommands("root", keys);
    if hosts != [] {
      var front, h := hosts[..|hosts| - 1], hosts[|hosts| - 1];
      assert h in hosts;
      AppendAssociative(keyed, HostCommands(front), [AppendHost(h)]);
      HostHeadLeads(h.ip);
      LineEnds(keyed + HostCommands(front), HostHead(h.ip), h.name);
    } else {
      assert keyed + [] == keyed;
      if keys != [] {
        KeyHeadLeads("root");
        LineEnds(KeyCommands("root", keys[..|keys| - 1]), KeyHead("root"), keys[|keys| - 1]);
      }
    }
  }

  /** A file ends as the text of its last line does. */
  lemma {:induction false} LineEnds(cs: seq<Command>, head: string, text: string)
    requires Leads(head)
    ensures var f := CommandFile(cs + [Line(head + text)]);
      if EndsInBackslash(text) then EndsContinued(f) else EndsCommand(f)
  {
    FileAppend(cs, Line(head + text));
    var f := CommandFile(cs + [Line(head + text)]);
    assert f == CommandFile(cs) + head + text + "\n";
    assert f[|f| - 2] == if text == "" then head[|head| - 1] else text[|text| - 1];
  }

  /** A text that is not empty is no empty list of hosts. */
  lemma {:induction false} SomethingIsListed(content: string)
    requires content != ""
    ensures ReadHosts(content) != Some([])
  {
  }

  /**
   Whatever keys there are, the hosts file on the OOB server lists the hosts exactly when the command
   before it ends there, and no address is an IPv4-mapped one.
   */
  lemma {:induction false} WrittenHostsRoundTrip(dot: string, keys: seq<string>, hosts: seq<EtherHost>)
    requires Addressed(hosts) && forall h | h in hosts :: IsValidHostname(h.name)
    ensures ListsBehind(HOSTS_FILE, ReadCommands(CommandFile(ExtraCommands(OOBServer, dot, keys, hosts)), ""), hosts) <==>
      EndsBeforeHosts(keys, hosts) && forall h | h in hosts :: !IsMapped(h.ip)
  {
    ServerFile(dot, keys, hosts);
    FrontEnds(keys, hosts);
    HostsWords();
    if EndsBeforeHosts(keys, hosts) {
      HostsListed(HOSTS_FILE, FrontFile(keys, hosts), hosts);
    } else {
      BehindHead(HOSTS_FILE, HostLines(hosts), HOSTS_FILE + HostLines(hosts));
      SwallowedHosts(HOSTS_FILE, FrontFile(keys, hosts));
    }
  }

  /** The words in front of the content of the hosts file. */
  lemma {:induction false} HostsWords()
    ensures Leads(HOSTS_FILE)
  {
  }

  lemma {:induction false} HostsListed(head: string, front: string, hosts: seq<EtherHost>)
    requires Addressed(hosts) && forall h | h in hosts :: IsValidHostname(h.name)
    requires (front == "" || EndsCommand(front)) && Leads(head)
    ensures ListsBehind(head, ReadCommands(front + (Continued(head + HostLines(hosts)) + "\n"), ""), hosts) <==>
      forall h | h in hosts :: !IsMapped(h.ip)
  {
    HeadKeeps(head, HostLines(hosts));
    HostLinesEnd(hosts);
    LastCommandIs(front, head + HostLines(hosts));
    BehindHead(head, HostLines(hosts), head + HostLines(hosts));
    forall h | h in hosts ensures IsPlain(h.name) {
      HostnamesArePlain(h.name);
    }
    HostsFileRoundTrip(hosts);
  }

  lemma {:induction false} BehindHead(head: string, content: string, command: string)
    requires command == head + content
    ensures head <= command && command[|head|..] == content
    ensures content == "" ==> command == head
  {
  }

  lemma {:induction false} ServerFile(dot: string, keys: seq<string>, hosts: seq<EtherHost>)
    ensures CommandFile(ExtraCommands(OOBServer, dot, keys, hosts)) ==
      FrontFile(keys, hosts) + (Continued(HOSTS_FILE + HostLines(hosts)) + "\n")
  {
    var keyed, hosted, last := KeyCommands("root", keys), HostCommands(hosts), Block(HOSTS_FILE + HostLines(hosts));
    EmptyFirst(keyed, hosted + [last]);
    AppendAssociative(keyed, hosted, [last]);
    FileAppend(keyed + hosted, last);
  }

  lemma {:induction false} SwallowedHosts(head: string, front: string)
    requires EndsContinued(front) && '\n' !in head && !EndsInBackslash(head)
    ensures !ListsBehind(head, ReadCommands(front + (Continued(head) + "\n"), ""), [])
  {
    var read := ReadCommands(front + (Continued(head) + "\n"), "");
    var x := SwallowedLast(front, head);
    var last := read[|read| - 1];
    assert |last| > |head|;
    if head <= last {
      SomethingIsListed(last[|head|..]);
    }
  }

  /** A key of two lines: the second line becomes a command of its own. */
  lemma {:induction false} SecondLineIsCommand(user: string, key: string, second: string)
    requires (user == "root" || user == "cumulus") && IsSafeKey(key) && IsSafeKey(second)
    ensures ReadCommands(CommandFile([InjectKey(user, key + "\n" + second)]), "") == [InjectKey(user, key).text, second]
  {
    InjectFaithful(user, key);
    var line := InjectKey(user, key).text;
    assert InjectKey(user, key + "\n" + second).text == line + "\n" + second;
    NewlineSplits(line, second);
  }

  /** The content of a public key file ends in a newline, so it is no safe key: an empty command is left behind. */
  lemma {:induction false} KeyFileLeavesEmptyCommand(user: string, key: string)
    requires (user == "root" || user == "cumulus") && IsSafeKey(key)
    ensures ReadCommands(CommandFile([InjectKey(user, key + "\n")]), "") == [InjectKey(user, key).text, ""]
  {
    SecondLineIsCommand(user, key, "");
    assert key + "\n" + "" == key + "\n";
  }
}
