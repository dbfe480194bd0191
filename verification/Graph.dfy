/** The nodes and links of a topology as values (topology/device.go, topology/link.go, topology/helper.go). */
module Graph {
  import opened Prelude
  import opened HardwareAddr
  import opened IPAllocation

  /** In the order of the Go constants, which is also the startup order. */
  datatype DeviceFunction =
    Fake | OOBServer | OOBSwitch | Exit | SuperSpine | Spine | Leaf | TOR | Host | NoFunction

  /**
   The node attributes the code reads, already parsed: mgmtIP and mgmtPrefix are the results of
   netaddr.ParseIP and netaddr.ParseIPPrefix on "mgmt_ip", config is the result of reading the
   file named by "config", and osImage is what OSImage() returns.
   */
  datatype Attributes = Attributes(
    role: DeviceFunction,
    noMgmt: bool,
    mgmtIP: Attr<nat>,
    mgmtPrefix: Option<Prefix>,
    tunnelIP: Attr<nat>,
    config: Attr<string>,
    bmc: bool,
    osImage: string)

  /** fromMAC and toMAC are the results of FromMAC() and ToMAC(). */
  datatype Link = Link(
    from: string, fromPort: string,
    to: string, toPort: string,
    fromMAC: Option<seq<Byte>>, toMAC: Option<seq<Byte>>,
    libvirtNetwork: bool,
    leftPXE: bool, rightPXE: bool)

  function PlainLink(from: string, fromPort: string, to: string, toPort: string): Link {
    Link(from, fromPort, to, toPort, None, None, false, false, false)
  }

  const SERVER := "oob-mgmt-server"
  const SWITCH := "oob-mgmt-switch"

  // ----- host names -------------------------------------------------------------

  predicate IsAlpha(c: char) {
    'A' <= c <= 'Z' || 'a' <= c <= 'z'
  }

  predicate IsAlNum(c: char) {
    IsAlpha(c) || '0' <= c <= '9'
  }

  predicate IsAlNumHyp(c: char) {
    IsAlNum(c) || c == '-'
  }

  /** isValidHostname; a non-ASCII rune or invalid encoding starts with a byte that is no letter, digit or hyphen. */
  predicate IsValidHostname(s: string) {
    && |s| != 0
    && IsAlpha(s[0])
    && (forall i | 1 <= i < |s| :: IsAlNumHyp(s[i]))
    && IsAlNum(s[|s| - 1])
  }

  /**
   A grammar for what may follow the first letter of a host name: letters, digits and hyphens, where a
   hyphen needs something behind it.
   */
  predicate IsNameRest(s: string) {
    s == "" ||
    match s[0]
    case c =>
      if 'a' <= c <= 'z' || 'A' <= c <= 'Z' || '0' <= c <= '9' then IsNameRest(s[1..])
      else c == '-' && |s| > 1 && IsNameRest(s[1..])
  }

  lemma {:induction false} RestCharacters(s: string)
    ensures IsNameRest(s) <==>
      (forall i | 0 <= i < |s| :: IsAlNumHyp(s[i])) && (s != "" ==> IsAlNum(s[|s| - 1]))
  {
    if s != "" {
      var t := s[1..];
      RestCharacters(t);
      assert forall i | 0 < i < |s| :: s[i] == t[i - 1];
      assert forall i | 0 <= i < |t| :: t[i] == s[i + 1];
    }
  }

  /** The valid host names are the words of the grammar: a letter and such a rest. */
  lemma {:induction false} HostnameGrammar(s: string)
    ensures IsValidHostname(s) <==>
      s != "" && ('a' <= s[0] <= 'z' || 'A' <= s[0] <= 'Z') && IsNameRest(s[1..])
  {
    if s != "" {
      var t := s[1..];
      RestCharacters(t);
      assert forall i | 0 < i < |s| :: s[i] == t[i - 1];
      assert forall i | 0 <= i < |t| :: t[i] == s[i + 1];
    }
  }
}
