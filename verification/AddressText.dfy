/** MAC and IP addresses as text: what the net package prints, and the reading of it. */
module AddressText {
  import opened Prelude
  import opened Decimal
  import opened HardwareAddr
  import opened IPAllocation

  // ----- splitting ------------------------------------------------------------------

  /** strings.Split with a one-character separator. */
  function Split(s: string, sep: char): (parts: seq<string>)
    ensures parts != []
  {
    if s == "" then [""] else
    var rest := Split(s[1..], sep);
    if s[0] == sep then [""] + rest else [[s[0]] + rest[0]] + rest[1..]
  }

  /** p is a piece of s that does not contain the separator. */
  predicate IsPiece(p: string, s: string, sep: char) {
    forall c | c in p :: c != sep && c in s
  }

  lemma {:induction false} SplitParts(s: string, sep: char)
    ensures forall p | p in Split(s, sep) :: IsPiece(p, s, sep)
    decreases |s|
  {
    if s != "" {
      var rest := Split(s[1..], sep);
      SplitParts(s[1..], sep);
      forall p | p in Split(s, sep) ensures IsPiece(p, s, sep) {
        assert s == [s[0]] + s[1..];
        if p in rest {
          assert IsPiece(p, s[1..], sep);
        } else if p != "" {
          assert p == [s[0]] + rest[0] && rest[0] in rest;
          assert IsPiece(rest[0], s[1..], sep);
        }
      }
    }
  }

  function Join(parts: seq<string>, sep: char): string
    requires parts != []
  {
    if |parts| == 1 then parts[0] else parts[0] + [sep] + Join(parts[1..], sep)
  }

  lemma {:induction false} SplitFirst(p: string, rest: string, sep: char)
    requires sep !in p
    ensures Split(p + [sep] + rest, sep) == [p] + Split(rest, sep)
    decreases |p|
  {
    var s := p + [sep] + rest;
    if p == "" {
      assert s[1..] == rest;
    } else {
      assert s[1..] == p[1..] + [sep] + rest;
      SplitFirst(p[1..], rest, sep);
      assert [p[0]] + p[1..] == p;
      assert ([p[1..]] + Split(rest, sep))[1..] == Split(rest, sep);
    }
  }

  lemma {:induction false} SplitWhole(p: string, sep: char)
    requires sep !in p
    ensures Split(p, sep) == [p]
    decreases |p|
  {
    if p != "" {
      SplitWhole(p[1..], sep);
      assert [p[0]] + p[1..] == p;
    }
  }

  lemma {:induction false} SplitJoin(parts: seq<string>, sep: char)
    requires parts != []
    requires forall p | p in parts :: sep !in p
    ensures Split(Join(parts, sep), sep) == parts
  {
    assert parts == [parts[0]] + parts[1..];
    if |parts| == 1 {
      SplitWhole(parts[0], sep);
    } else {
      SplitFirst(parts[0], Join(parts[1..], sep), sep);
      SplitJoin(parts[1..], sep);
    }
  }

  predicate IsHexDigit(c: char) {
    IsDigit(c) || 'a' <= c <= 'f'
  }

  /** The characters of addresses: none of them separates fields or lines. */
  predicate IsAddressText(s: string) {
    forall c | c in s :: IsHexDigit(c) || c == ':' || c == '.'
  }

  lemma {:induction false} JoinText(parts: seq<string>, sep: char)
    requires parts != [] && IsAddressText([sep])
    requires forall p | p in parts :: IsAddressText(p)
    ensures IsAddressText(Join(parts, sep))
  {
    assert sep in [sep];
    assert parts[0] in parts;
    if |parts| > 1 {
      JoinText(parts[1..], sep);
    }
  }

  lemma {:induction false} JoinWithout(parts: seq<string>, sep: char, c: char)
    requires parts != [] && c != sep && forall p | p in parts :: c !in p
    ensures c !in Join(parts, sep)
  {
    assert parts[0] in parts;
    if |parts| > 1 {
      JoinWithout(parts[1..], sep, c);
    }
  }

  // ----- MAC addresses ----------------------------------------------------------------

  function HexDigit(d: nat): (c: char)
    requires d < 16
    ensures IsHexDigit(c)
  {
    if d < 10 then Digit(d) else ('a' as int + d - 10) as char
  }

  function HexValue(c: char): (d: nat)
    requires IsHexDigit(c)
    ensures d < 16
  {
    if IsDigit(c) then DigitOf(c) else c as int - 'a' as int + 10
  }

  function HexPair(b: Byte): string {
    [HexDigit(b / 16), HexDigit(b % 16)]
  }

  function HexPairs(m: seq<Byte>): (ps: seq<string>)
    ensures |ps| == |m|
    ensures forall i | 0 <= i < |m| :: ps[i] == HexPair(m[i])
  {
    if m == [] then [] else [HexPair(m[0])] + HexPairs(m[1..])
  }

  /** HardwareAddr.String. */
  function FormatMAC(m: seq<Byte>): string {
    if m == [] then "" else Join(HexPairs(m), ':')
  }

  function ParseHexPairs(ps: seq<string>): Option<seq<Byte>> {
    if ps == [] then Some([])
    else if |ps[0]| == 2 && forall c | c in ps[0] :: IsHexDigit(c) then
      var b: Byte := 16 * HexValue(ps[0][0]) + HexValue(ps[0][1]);
      match ParseHexPairs(ps[1..])
      case None => None
      case Some(m) => Some([b] + m)
    else None
  }

  function ParseMAC(s: string): Option<seq<Byte>> {
    if s == "" then Some([]) else ParseHexPairs(Split(s, ':'))
  }

  lemma {:induction false} HexPairsRead(m: seq<Byte>)
    ensures ParseHexPairs(HexPairs(m)) == Some(m)
  {
    if m != [] {
      HexPairsRead(m[1..]);
      assert HexPairs(m)[1..] == HexPairs(m[1..]);
      assert m == [m[0]] + m[1..];
    }
  }

  lemma {:induction false} MACRoundTrip(m: seq<Byte>)
    ensures ParseMAC(FormatMAC(m)) == Some(m)
    ensures IsAddressText(FormatMAC(m))
  {
    if m != [] {
      SplitJoin(HexPairs(m), ':');
      HexPairsRead(m);
      JoinText(HexPairs(m), ':');
      assert Split("", ':') == [""];
      assert HexPairs(m)[0] == HexPair(m[0]);
    }
  }

  // ----- IPv4 addresses -----------------------------------------------------------------

  function Octets(m: seq<Byte>): (ps: seq<string>)
    ensures |ps| == |m|
    ensures forall i | 0 <= i < |m| :: ps[i] == Itoa(m[i])
  {
    if m == [] then [] else [Itoa(m[0])] + Octets(m[1..])
  }

  function FormatIPv4(ip: nat): string {
    Join(Octets(Encode(ip, 4)), '.')
  }

  function ParseOctets(ps: seq<string>): Option<seq<Byte>> {
    if ps == [] then Some([])
    else if ps[0] != "" && IsDigits(ps[0]) && ValueOf(ps[0]) < 256 then
      var b: Byte := ValueOf(ps[0]);
      match ParseOctets(ps[1..])
      case None => None
      case Some(m) => Some([b] + m)
    else None
  }

  function ParseIPv4(s: string): Option<nat> {
    match ParseOctets(Split(s, '.'))
    case None => None
    case Some(m) => if |m| == 4 then Some(Decode(m)) else None
  }

  lemma {:induction false} NumeralText(n: nat)
    ensures '.' !in Itoa(n) && ':' !in Itoa(n) && IsAddressText(Itoa(n))
  {
  }

  lemma {:induction false} OctetsRead(m: seq<Byte>)
    ensures ParseOctets(Octets(m)) == Some(m)
  {
    if m != [] {
      OctetsRead(m[1..]);
      OctetFirst(m[0], Octets(m[1..]), m[1..]);
      assert m == [m[0]] + m[1..];
    }
  }

  lemma {:induction false} OctetFirst(b: Byte, ps: seq<string>, m: seq<Byte>)
    requires ParseOctets(ps) == Some(m)
    ensures ParseOctets([Itoa(b)] + ps) == Some([b] + m)
  {
    ItoaValue(b);
    assert ([Itoa(b)] + ps)[1..] == ps;
  }

  lemma {:induction false} OctetsText(m: seq<Byte>)
    ensures forall p | p in Octets(m) :: '.' !in p && ':' !in p && IsAddressText(p)
  {
    forall p | p in Octets(m) ensures '.' !in p && ':' !in p && IsAddressText(p) {
      var i :| 0 <= i < |m| && Octets(m)[i] == p;
      NumeralText(m[i]);
    }
  }

  lemma {:induction false} IPv4RoundTrip(ip: nat)
    ensures ip < IPV6_ORIGIN ==> ParseIPv4(FormatIPv4(ip)) == Some(ip)
    ensures IsAddressText(FormatIPv4(ip)) && ':' !in FormatIPv4(ip)
  {
    var m := Encode(ip, 4);
    OctetsRead(m);
    OctetsText(m);
    SplitJoin(Octets(m), '.');
    JoinText(Octets(m), '.');
    JoinWithout(Octets(m), '.', ':');
    if ip < IPV6_ORIGIN {
      assert Pow256(2) == 0x1_0000 && Pow256(4) == IPV6_ORIGIN;
      DecodeEncode(ip, 4);
    }
  }

  // ----- IPv6 addresses -----------------------------------------------------------------

  type Group = x: int | 0 <= x < 0x1_0000

  /** The k low-order groups of v, most significant group first. */
  function Groups(v: nat, k: nat): (gs: seq<Group>)
    ensures |gs| == k
  {
    if k == 0 then [] else Groups(v / 0x1_0000, k - 1) + [v % 0x1_0000]
  }

  function GroupsValue(gs: seq<Group>): nat {
    if gs == [] then 0 else 0x1_0000 * GroupsValue(gs[..|gs| - 1]) + gs[|gs| - 1]
  }

  lemma {:induction false} GroupsRead(v: nat, k: nat)
    requires v < Pow2(16 * k)
    ensures GroupsValue(Groups(v, k)) == v
  {
    if k != 0 {
      SixteenMoreBits(16 * (k - 1));
      GroupsRead(v / 0x1_0000, k - 1);
      assert Groups(v, k)[..k - 1] == Groups(v / 0x1_0000, k - 1);
    }
  }

  function Hex(n: nat): (s: string)
    ensures s != "" && forall c | c in s :: IsHexDigit(c)
  {
    if n < 16 then [HexDigit(n)] else Hex(n / 16) + [HexDigit(n % 16)]
  }

  function HexNumber(s: string): nat
    requires forall c | c in s :: IsHexDigit(c)
  {
    if s == "" then 0 else 16 * HexNumber(s[..|s| - 1]) + HexValue(s[|s| - 1])
  }

  lemma {:induction false} HexReads(n: nat)
    ensures HexNumber(Hex(n)) == n
  {
    var s := Hex(n);
    if n < 16 {
      assert s[..0] == "";
    } else {
      HexReads(n / 16);
      assert s[..|s| - 1] == Hex(n / 16);
    }
  }

  /** Groups with colons between them. */
  function Hexes(gs: seq<Group>): (ps: seq<string>)
    ensures |ps| == |gs| && forall i | 0 <= i < |gs| :: ps[i] == Hex(gs[i])
    ensures forall p | p in ps :: p != "" && forall c | c in p :: IsHexDigit(c)
  {
    if gs == [] then [] else [Hex(gs[0])] + Hexes(gs[1..])
  }

  function FormatGroups(gs: seq<Group>): string {
    if gs == [] then "" else Join(Hexes(gs), ':')
  }

  function ParseHexes(ps: seq<string>): Option<seq<Group>> {
    if ps == [] then Some([])
    else if ps[0] != "" && (forall c | c in ps[0] :: IsHexDigit(c)) && HexNumber(ps[0]) < 0x1_0000 then
      var g: Group := HexNumber(ps[0]);
      match ParseHexes(ps[1..])
      case None => None
      case Some(gs) => Some([g] + gs)
    else None
  }

  function ParseGroups(s: string): Option<seq<Group>> {
    if s == "" then Some([]) else ParseHexes(Split(s, ':'))
  }

  lemma {:induction false} HexesRead(gs: seq<Group>)
    ensures ParseHexes(Hexes(gs)) == Some(gs)
  {
    if gs != [] {
      HexesRead(gs[1..]);
      HexReads(gs[0]);
      assert Hexes(gs)[1..] == Hexes(gs[1..]);
      assert gs == [gs[0]] + gs[1..];
    }
  }

  lemma {:induction false} GroupsTextReads(gs: seq<Group>)
    ensures ParseGroups(FormatGroups(gs)) == Some(gs)
    ensures IsAddressText(FormatGroups(gs)) && Tidy(FormatGroups(gs))
    ensures |gs| > 1 ==> ':' in FormatGroups(gs)
  {
    if gs != [] {
      SplitJoin(Hexes(gs), ':');
      HexesRead(gs);
      JoinText(Hexes(gs), ':');
      JoinTidy(Hexes(gs));
      assert Hexes(gs)[0] in Hexes(gs);
    }
  }

  /** A text in which "::" does not occur, and which does not end in a colon. */
  predicate Tidy(s: string) {
    && (forall i | 0 <= i < |s| - 1 && s[i] == ':' :: s[i + 1] != ':')
    && (s != "" ==> s[|s| - 1] != ':')
  }

  lemma {:induction false} JoinTidy(ps: seq<string>)
    requires ps != [] && forall p | p in ps :: p != "" && forall c | c in p :: IsHexDigit(c)
    ensures Tidy(Join(ps, ':')) && Join(ps, ':') != "" && Join(ps, ':')[0] != ':'
    ensures |ps| > 1 ==> ':' in Join(ps, ':')
  {
    var p := ps[0];
    assert p in ps && forall i | 0 <= i < |p| :: p[i] in p;
    if |ps| > 1 {
      var s, t := Join(ps, ':'), Join(ps[1..], ':');
      assert forall q | q in ps[1..] :: q in ps;
      JoinTidy(ps[1..]);
      assert s == p + [':'] + t;
      assert s[|p|] == ':';
      forall i | 0 <= i < |s| - 1 && s[i] == ':' ensures s[i + 1] != ':' {
        if i > |p| {
          assert s[i] == t[i - |p| - 1] && s[i + 1] == t[i - |p|];
        } else {
          assert i == |p| && s[i + 1] == t[0];
        }
      }
    }
  }

  /** Where "::" begins. */
  function DoubleColon(s: string): (k: Option<nat>)
    ensures k.Some? ==> k.value + 2 <= |s|
  {
    if |s| < 2 then None
    else if s[0] == ':' && s[1] == ':' then Some(0)
    else match DoubleColon(s[1..])
         case None => None
         case Some(k) => Some(k + 1)
  }

  lemma {:induction false} NoDoubleColon(s: string)
    requires Tidy(s)
    ensures DoubleColon(s) == None
  {
    if |s| >= 2 {
      NoDoubleColon(s[1..]);
    }
  }

  lemma {:induction false} FirstDoubleColon(l: string, r: string)
    requires Tidy(l)
    ensures DoubleColon(l + "::" + r) == Some(|l|)
  {
    var s := l + "::" + r;
    if l != "" {
      FirstDoubleColon(l[1..], r);
      assert s[1..] == l[1..] + "::" + r;
      assert |l| == 1 ==> s[0] != ':';
    }
  }

  /** The number of zero groups from i on. */
  function Zeros(gs: seq<Group>, i: nat): (n: nat)
    requires i <= |gs|
    ensures i + n <= |gs| && forall j | i <= j < i + n :: gs[j] == 0
    decreases |gs| - i
  {
    if i < |gs| && gs[i] == 0 then 1 + Zeros(gs, i + 1) else 0
  }

  /** The loop that looks for the longest run of zero groups, from i on; from .. to is the best so far. */
  function LongestRun(gs: seq<Group>, i: nat, from: nat, to: nat): (run: (nat, nat))
    requires i <= |gs| && from <= to <= |gs| && forall j | from <= j < to :: gs[j] == 0
    ensures run.0 <= run.1 <= |gs| && forall j | run.0 <= j < run.1 :: gs[j] == 0
    decreases |gs| - i
  {
    if i == |gs| then (from, to) else
    var n := Zeros(gs, i);
    if n > to - from then LongestRun(gs, if i + n < |gs| then i + n + 1 else i + n, i, i + n)
    else LongestRun(gs, i + 1, from, to)
  }

  /** The text of an IPv6 address: section 4.2 of RFC 5952. */
  function FormatIPv6(gs: seq<Group>): string {
    var run := LongestRun(gs, 0, 0, 0);
    if run.1 - run.0 < 2 then FormatGroups(gs) else FormatGroups(gs[..run.0]) + "::" + FormatGroups(gs[run.1..])
  }

  function Expanded(l: seq<Group>, r: seq<Group>): Option<seq<Group>> {
    if |l| + |r| < 8 then Some(l + seq(8 - |l| - |r|, _ => 0) + r) else None
  }

  function ParseIPv6(s: string): Option<seq<Group>> {
    match DoubleColon(s)
    case None =>
      var gs := ParseGroups(s);
      if gs.Some? && |gs.value| == 8 then gs else None
    case Some(k) =>
      var l, r := ParseGroups(s[..k]), ParseGroups(s[k + 2..]);
      if l.Some? && r.Some? then Expanded(l.value, r.value) else None
  }

  lemma {:induction false} WholeReads(gs: seq<Group>)
    requires |gs| == 8
    ensures ParseIPv6(FormatGroups(gs)) == Some(gs)
    ensures IsAddressText(FormatGroups(gs)) && ':' in FormatGroups(gs)
  {
    GroupsTextReads(gs);
    NoDoubleColon(FormatGroups(gs));
  }

  lemma {:induction false} ExpandedIs(gs: seq<Group>, i: nat, j: nat)
    requires |gs| == 8 && i < j <= 8 && forall k | i <= k < j :: gs[k] == 0
    ensures Expanded(gs[..i], gs[j..]) == Some(gs)
  {
    assert gs == gs[..i] + seq(j - i, _ => 0) + gs[j..];
  }

  lemma {:induction false} IPv6RoundTrip(gs: seq<Group>)
    requires |gs| == 8
    ensures ParseIPv6(FormatIPv6(gs)) == Some(gs)
    ensures IsAddressText(FormatIPv6(gs)) && ':' in FormatIPv6(gs)
  {
    var run := LongestRun(gs, 0, 0, 0);
    if run.1 - run.0 < 2 {
      WholeReads(gs);
    } else {
      ShortenedReads(gs[..run.0], gs[run.1..]);
      ExpandedIs(gs, run.0, run.1);
    }
  }

  lemma {:induction false} ShortenedReads(l: seq<Group>, r: seq<Group>)
    requires |l| + |r| < 8
    ensures var s := FormatGroups(l) + "::" + FormatGroups(r);
      ParseIPv6(s) == Expanded(l, r) && IsAddressText(s) && ':' in s
  {
    var s := FormatGroups(l) + "::" + FormatGroups(r);
    GroupsTextReads(l);
    GroupsTextReads(r);
    FirstDoubleColon(FormatGroups(l), FormatGroups(r));
    assert s[..|FormatGroups(l)|] == FormatGroups(l) && s[|FormatGroups(l)| + 2..] == FormatGroups(r);
    assert s[|FormatGroups(l)|] == ':';
  }

  // ----- addresses ------------------------------------------------------------------------

  /** An IPv4-mapped IPv6 address; IP.String prints it like the IPv4 address in it. */
  predicate IsMapped(ip: nat) {
    ip >= IPV6_ORIGIN && (ip - IPV6_ORIGIN) / IPV6_ORIGIN == 0xffff
  }

  /** The address that is printed. */
  function Shown(ip: nat): (a: nat)
    ensures a == ip <==> !IsMapped(ip)
  {
    if IsMapped(ip) then (ip - IPV6_ORIGIN) % IPV6_ORIGIN else ip
  }

  function TextOf(a: nat): string {
    if a < IPV6_ORIGIN then FormatIPv4(a) else FormatIPv6(Groups(a - IPV6_ORIGIN, 8))
  }

  /** IP.String. */
  function FormatIP(ip: nat): string {
    TextOf(Shown(ip))
  }

  function ParseIP(s: string): Option<nat> {
    if ':' !in s then ParseIPv4(s) else
    match ParseIPv6(s)
    case None => None
    case Some(gs) => Some(IPV6_ORIGIN + GroupsValue(gs))
  }

  lemma {:induction false} ShownBelow(ip: nat)
    ensures Shown(ip) <= ip
  {
  }

  lemma {:induction false} TextIsPlain(a: nat)
    ensures IsAddressText(TextOf(a)) && (':' in TextOf(a) <==> a >= IPV6_ORIGIN)
  {
    if a < IPV6_ORIGIN {
      IPv4RoundTrip(a);
    } else {
      IPv6RoundTrip(Groups(a - IPV6_ORIGIN, 8));
    }
  }

  lemma {:induction false} TextReads(a: nat)
    requires a < ADDRESS_LIMIT
    ensures ParseIP(TextOf(a)) == Some(a)
  {
    TextIsPlain(a);
    if a < IPV6_ORIGIN {
      IPv4RoundTrip(a);
    } else {
      Pow2Is128();
      GroupsRead(a - IPV6_ORIGIN, 8);
      IPv6RoundTrip(Groups(a - IPV6_ORIGIN, 8));
    }
  }

  /** The text of an address reads back as the address, except that a mapped one comes back as IPv4 address. */
  lemma {:induction false} IPRoundTrip(ip: nat)
    ensures ip < ADDRESS_LIMIT ==> ParseIP(FormatIP(ip)) == Some(Shown(ip))
    ensures IsAddressText(FormatIP(ip))
  {
    ShownBelow(ip);
    TextIsPlain(Shown(ip));
    if ip < ADDRESS_LIMIT {
      TextReads(Shown(ip));
    }
  }

  // ----- what addresses look like -----------------------------------------------------------

  lemma {:induction false} JoinTwo(a: string, b: string, sep: char)
    ensures Join([a, b], sep) == a + [sep] + b
  {
    assert [a, b][1..] == [b];
  }

  /** Bytes in order, two digits each, the high one first. */
  lemma {:induction false} MACExample()
    ensures FormatMAC([2, 171]) == "02:ab"
  {
    JoinTwo("02", "ab", ':');
    assert HexPairs([2, 171]) == ["02", "ab"];
  }

  /** Groups without leading zeros and in small letters, the most significant one first. */
  lemma {:induction false} GroupsExample()
    ensures Groups(0x2001_0db8, 2) == [0x2001, 0xdb8] && Hex(0xdb8) == "db8"
  {
    assert Groups(0x2001, 1) == [0x2001];
    assert Hex(0xd) == "d" && Hex(0xdb) == "db";
  }

  /** The longest run of zero groups is left out. */
  lemma {:induction false} LongestRunExample()
    ensures FormatIPv6([0x2001, 0, 0, 1, 0, 0, 0, 1]) == FormatGroups([0x2001, 0, 0, 1]) + "::" + FormatGroups([1])
  {
    var gs: seq<Group> := [0x2001, 0, 0, 1, 0, 0, 0, 1];
    assert Zeros(gs, 1) == 2 && Zeros(gs, 4) == 3;
    assert LongestRun(gs, 0, 0, 0) == (4, 7);
    assert gs[..4] == [0x2001, 0, 0, 1] && gs[7..] == [1];
  }

  /** The first one, if there are several. */
  lemma {:induction false} FirstRunExample()
    ensures FormatIPv6([0x2001, 0, 0, 1, 1, 0, 0, 1]) == FormatGroups([0x2001]) + "::" + FormatGroups([1, 1, 0, 0, 1])
  {
    var gs: seq<Group> := [0x2001, 0, 0, 1, 1, 0, 0, 1];
    assert Zeros(gs, 1) == 2 && Zeros(gs, 5) == 2;
    assert LongestRun(gs, 0, 0, 0) == (1, 3);
    assert gs[..1] == [0x2001] && gs[3..] == [1, 1, 0, 0, 1];
  }
}
