/**
 The address allocator of the management network (topology/helper.go).

 An address is the number of its position in netaddr's order: the IPv4 addresses are
 0 .. 2^32-1 and the IPv6 addresses follow from 2^32 on.
 */
module IPAllocation {
  import opened Prelude

  function Pow2(n: nat): (p: nat)
    ensures p >= 1
    ensures n >= 1 ==> p >= 2
  {
    if n == 0 then 1 else 2 * Pow2(n - 1)
  }

  /** The low h bits of x. */
  function LowBits(x: nat, h: nat): (r: nat)
    ensures r <= x && r < Pow2(h)
  {
    if h == 0 then 0 else 2 * LowBits(x / 2, h - 1) + x % 2
  }

  /** LowBits is the remainder modulo 2^h, so clearing it leaves a multiple of 2^h. */
  lemma {:induction false} LowBitsRemainder(x: nat, h: nat) returns (q: nat)
    ensures x - LowBits(x, h) == q * Pow2(h)
  {
    if h == 0 {
      q := x;
    } else {
      q := LowBitsRemainder(x / 2, h - 1);
      assert 2 * (q * Pow2(h - 1)) == q * Pow2(h);
    }
  }

  lemma {:induction false} Pow2Add(m: nat, n: nat)
    ensures Pow2(m + n) == Pow2(m) * Pow2(n)
  {
    if m != 0 {
      Pow2Add(m - 1, n);
      DoubleProduct(Pow2(m - 1), Pow2(n));
    }
  }

  lemma {:induction false} DoubleProduct(a: nat, b: nat)
    ensures 2 * a * b == 2 * (a * b)
  {
  }

  lemma {:induction false} MultiplesOrdered(q: nat, b: nat, p: nat)
    requires q <= b
    ensures q * p <= b * p
    decreases b - q
  {
    if q < b {
      MultiplesOrdered(q + 1, b, p);
      assert (q + 1) * p == q * p + p;
    }
  }

  lemma {:induction false} MultipleBelow(q: nat, b: nat, p: nat)
    requires q * p < b * p
    ensures q * p + p <= b * p
  {
    if q < b {
      MultiplesOrdered(q + 1, b, p);
      assert (q + 1) * p == q * p + p;
    } else {
      MultiplesOrdered(b, q, p);
      assert false;
    }
  }

  const IPV6_ORIGIN: nat := 0x1_0000_0000
  const ADDRESS_LIMIT: nat := IPV6_ORIGIN + 0x1_0000_0000_0000_0000_0000_0000_0000_0000

  ghost predicate Between(lo: nat, a: nat, hi: nat) {
    lo <= a < hi
  }

  /** The numbers lo .. hi-1. */
  ghost function Interval(lo: nat, hi: nat): set<nat> {
    set a: nat | a < hi && Between(lo, a, hi)
  }

  lemma {:induction false} IntervalSize(lo: nat, hi: nat)
    ensures |Interval(lo, hi)| == if lo < hi then hi - lo else 0
    decreases hi - lo
  {
    if lo < hi {
      IntervalSize(lo + 1, hi);
      assert Interval(lo, hi) == {lo} + Interval(lo + 1, hi);
    } else {
      assert Interval(lo, hi) == {};
    }
  }

  /** An address with a prefix length, as in "192.168.200.254/24". */
  datatype RawPrefix = Prefix(ip: nat, bits: nat) {
    function Origin(): nat { if ip < IPV6_ORIGIN then 0 else IPV6_ORIGIN }
    function Width(): nat { if ip < IPV6_ORIGIN then 32 else 128 }

    predicate Valid() { bits <= Width() && ip < ADDRESS_LIMIT }

    /** The number of addresses in the prefix. */
    function Size(): (n: nat)
      requires Valid()
      ensures n >= 1
    {
      Pow2(Width() - bits)
    }

    /** The network address: the host bits cleared. */
    function First(): (a: nat)
      requires Valid()
      ensures a <= ip < a + Size()
    {
      ip - LowBits(ip - Origin(), Width() - bits)
    }

    /** The broadcast address. */
    function Last(): nat
      requires Valid()
    {
      First() + Size() - 1
    }

    /** The addresses of the prefix without its network and broadcast address. */
    ghost function Usable(): set<nat>
      requires Valid()
    {
      Interval(First() + 1, Last())
    }
  }

  type Prefix = p: RawPrefix | p.Valid() witness Prefix(0, 0)

  lemma {:induction false} FourMoreBits(n: nat)
    ensures Pow2(n + 4) == 16 * Pow2(n)
  {
    assert Pow2(n + 2) == 4 * Pow2(n);
  }

  lemma {:induction false} SixteenMoreBits(n: nat)
    ensures Pow2(n + 16) == 0x1_0000 * Pow2(n)
  {
    FourMoreBits(n);
    FourMoreBits(n + 4);
    FourMoreBits(n + 8);
    FourMoreBits(n + 12);
  }

  lemma {:induction false} Pow2Is32()
    ensures Pow2(32) == IPV6_ORIGIN
  {
    SixteenMoreBits(0);
    SixteenMoreBits(16);
  }

  lemma {:induction false} Pow2Is128()
    ensures Pow2(128) == ADDRESS_LIMIT - IPV6_ORIGIN
  {
    Pow2Is32();
    Pow2Add(32, 32);
    Pow2Add(64, 64);
  }

  /** A prefix ends with the addresses of its family: an IPv4 prefix still below 2^32. */
  lemma {:induction false} PrefixEnds(p: Prefix)
    ensures p.Last() < if p.ip < IPV6_ORIGIN then IPV6_ORIGIN else ADDRESS_LIMIT
    ensures forall a | a in p.Usable() :: a <= p.Last()
  {
    var size, blocks := p.Size(), Pow2(p.bits);
    var q := LowBitsRemainder(p.ip - p.Origin(), p.Width() - p.bits);
    Pow2Add(p.bits, p.Width() - p.bits);
    Pow2Is32();
    Pow2Is128();
    MultipleBelow(q, blocks, size);
  }

  // ----- ranges -----------------------------------------------------------------

  /** The addresses from .. to, both included. */
  datatype Range = Range(from: nat, to: nat)

  /** Non-empty ranges in increasing order: what IPSet().Ranges() returns. */
  ghost predicate Normal(rs: seq<Range>) {
    rs == [] ||
    (rs[0].from <= rs[0].to && Normal(rs[1..]) && (|rs| > 1 ==> rs[0].to < rs[1].from))
  }

  ghost function Members(rs: seq<Range>): set<nat> {
    if rs == [] then {} else Interval(rs[0].from, rs[0].to + 1) + Members(rs[1..])
  }

  /** What is left of a range holding a: it shrinks, splits in two or vanishes. */
  function Punctured(r: Range, a: nat): seq<Range>
    requires r.from <= a <= r.to
  {
    if r.from == r.to then []
    else if r.from == a then [Range(a + 1, r.to)]
    else if a == r.to then [Range(r.from, a - 1)]
    else [Range(r.from, a - 1), Range(a + 1, r.to)]
  }

  /** The ranges without the address a. */
  function Without(rs: seq<Range>, a: nat): seq<Range> {
    if rs == [] || a < rs[0].from then rs
    else if a <= rs[0].to then Punctured(rs[0], a) + rs[1..]
    else [rs[0]] + Without(rs[1..], a)
  }

  /** Membership in the first range or in a later one. */
  lemma {:induction false} MemberCons(r: Range, rest: seq<Range>, b: nat)
    ensures b in Members([r] + rest) <==> r.from <= b <= r.to || b in Members(rest)
  {
  }

  lemma {:induction false} MembersBounded(rs: seq<Range>, a: nat)
    requires Normal(rs) && a in Members(rs)
    ensures rs != [] && rs[0].from <= a
  {
    if a !in Interval(rs[0].from, rs[0].to + 1) {
      MembersBounded(rs[1..], a);
    }
  }

  lemma {:induction false} WithoutNormal(rs: seq<Range>, a: nat)
    requires Normal(rs)
    ensures Normal(Without(rs, a))
    ensures Without(rs, a) != [] ==> rs != [] && rs[0].from <= Without(rs, a)[0].from
  {
    if rs != [] && rs[0].to < a {
      WithoutNormal(rs[1..], a);
      assert Without(rs, a)[1..] == Without(rs[1..], a);
    } else if rs != [] && rs[0].from <= a {
      PuncturedNormal(rs[0], a, rs[1..]);
    }
  }

  lemma {:induction false} PuncturedNormal(r: Range, a: nat, rest: seq<Range>)
    requires r.from <= a <= r.to && Normal(rest) && (rest != [] ==> r.to < rest[0].from)
    ensures Normal(Punctured(r, a) + rest)
    ensures Punctured(r, a) + rest != [] ==> r.from <= (Punctured(r, a) + rest)[0].from
  {
    var parts := Punctured(r, a);
    var all := parts + rest;
    if |parts| == 0 {
      assert all == rest;
      assert rest != [] ==> rest[0].from <= rest[0].to;
    } else if |parts| == 1 {
      assert all[1..] == rest;
    } else {
      assert all[1..][1..] == rest;
    }
  }

  lemma {:induction false} PuncturedMember(r: Range, a: nat, rest: seq<Range>, b: nat)
    requires r.from <= a <= r.to
    ensures b in Members(Punctured(r, a) + rest) <==> (r.from <= b <= r.to && b != a) || b in Members(rest)
  {
    var parts := Punctured(r, a);
    if |parts| == 0 {
      assert parts + rest == rest;
    } else if |parts| == 1 {
      MemberCons(parts[0], rest, b);
      assert parts + rest == [parts[0]] + rest;
    } else {
      MemberCons(parts[0], [parts[1]] + rest, b);
      MemberCons(parts[1], rest, b);
      assert parts + rest == [parts[0]] + ([parts[1]] + rest);
    }
  }

  lemma {:induction false} WithoutMember(rs: seq<Range>, a: nat, b: nat)
    requires Normal(rs)
    ensures b in Members(Without(rs, a)) <==> b in Members(rs) && b != a
  {
    if rs != [] {
      var r, rest := rs[0], rs[1..];
      if b in Members(rest) {
        MembersBounded(rest, b);
      }
      if r.to < a {
        WithoutMember(rest, a, b);
        MemberCons(r, Without(rest, a), b);
      } else if r.from <= a {
        PuncturedMember(r, a, rest, b);
      }
    }
  }

  /** Removing an address from the ranges removes it from the set they stand for, and nothing else. */
  lemma {:induction false} WithoutMembers(rs: seq<Range>, a: nat)
    requires Normal(rs)
    ensures Normal(Without(rs, a))
    ensures Members(Without(rs, a)) == Members(rs) - {a}
  {
    WithoutNormal(rs, a);
    forall b: nat ensures b in Members(Without(rs, a)) <==> b in Members(rs) - {a} {
      WithoutMember(rs, a, b);
    }
  }

  predicate Contains(rs: seq<Range>, a: nat)
    ensures Contains(rs, a) <==> a in Members(rs)
  {
    rs != [] && (rs[0].from <= a <= rs[0].to || Contains(rs[1..], a))
  }

  // ----- the k smallest elements ------------------------------------------------

  /** s holds the k smallest elements of f. */
  ghost predicate IsSmallest(s: set<nat>, f: set<nat>, k: nat) {
    s <= f && |s| == k && forall x, y | x in s && y in f && y !in s :: x < y
  }

  /** There is only one set of the k smallest elements. */
  lemma {:induction false} SmallestUnique(s: set<nat>, t: set<nat>, f: set<nat>, k: nat)
    requires IsSmallest(s, f, k) && IsSmallest(t, f, k)
    ensures s == t
  {
    if s <= t {
      SubsetSize(s, t);
    } else if t <= s {
      SubsetSize(t, s);
    }
  }

  lemma {:induction false} SmallestExtends(s: set<nat>, f: set<nat>, k: nat, a: nat)
    requires IsSmallest(s, f, k)
    requires a in f && a !in s && forall b | b in f && b !in s :: a <= b
    ensures IsSmallest(s + {a}, f, k + 1)
  {
  }

  // ----- the allocator ----------------------------------------------------------

  lemma {:induction false} EndsRemoved(lo: nat, hi: nat)
    requires lo <= hi
    ensures var rs := Without(Without([Range(lo, hi)], lo), hi);
      Normal(rs) && Members(rs) == Interval(lo + 1, hi)
  {
  }

  lemma {:induction false} FirstIsLeast(rs: seq<Range>)
    requires Normal(rs) && rs != []
    ensures rs[0].from in Members(rs)
    ensures forall b | b in Members(rs) :: rs[0].from <= b
  {
    forall b | b in Members(rs) ensures rs[0].from <= b {
      MembersBounded(rs, b);
    }
  }

  class IPAllocator {
    var ranges: seq<Range>

    // Which addresses Reserve accepted, and what Allocate returned so far.
    ghost var reserved: set<nat>
    ghost var issued: seq<nat>

    ghost predicate Valid()
      reads this
    {
      Normal(ranges)
    }

    ghost function Free(): set<nat>
      reads this
    {
      Members(ranges)
    }

    /** newIPAllocator */
    constructor (p: Prefix)
      ensures Valid()
      ensures Free() == p.Usable() && reserved == {} && issued == []
    {
      var all := [Range(p.First(), p.Last())];
      ranges := Without(Without(all, p.First()), p.Last());
      reserved, issued := {}, [];
      new;
      EndsRemoved(p.First(), p.Last());
    }

    method Reserve(ip: nat) returns (ok: bool)
      requires Valid()
      modifies this
      ensures Valid()
      ensures ok == (ip in old(Free()))
      ensures Free() == old(Free()) - {ip}
      ensures reserved == if ok then old(reserved) + {ip} else old(reserved)
      ensures issued == old(issued)
    {
      if !Contains(ranges, ip) {
        return false;
      }
      WithoutMembers(ranges, ip);
      ranges, reserved := Without(ranges, ip), reserved + {ip};
      return true;
    }

    /** The result is the least free address, if there is any. */
    method Allocate() returns (ip: Option<nat>)
      requires Valid()
      modifies this
      ensures Valid()
      ensures ip.None? <==> old(Free()) == {}
      ensures ip.None? ==> Free() == old(Free()) && issued == old(issued)
      ensures ip.Some? ==>
        && IsLeast(ip.value, old(Free()))
        && Free() == old(Free()) - {ip.value}
        && issued == old(issued) + [ip.value]
      ensures reserved == old(reserved)
    {
      if |ranges| > 0 {
        var a := ranges[0].from;
        FirstIsLeast(ranges);
        WithoutMembers(ranges, a);
        ranges, issued := Without(ranges, a), issued + [a];
        return Some(a);
      }
      return None;
    }
  }

  /** Every address of the pool is either free, reserved or issued, and only one of the three. */
  ghost predicate Conserved(pool: set<nat>, free: set<nat>, reserved: set<nat>, issued: seq<nat>) {
    && free + reserved + Elements(issued) == pool
    && free !! reserved && free !! Elements(issued) && reserved !! Elements(issued)
    && Distinct(issued)
  }

  lemma {:induction false} IssuedOneMore(pool: set<nat>, free: set<nat>, reserved: set<nat>, issued: seq<nat>, a: nat)
    requires Conserved(pool, free, reserved, issued) && a in free
    ensures Conserved(pool, free - {a}, reserved, issued + [a])
  {
  }

  datatype Call = CallReserve(ip: nat) | CallAllocate

  /** Whatever is asked of a new allocator, no address gets lost or is given away twice. */
  method Replay(p: Prefix, calls: seq<Call>) returns (a: IPAllocator)
    ensures a.Valid() && Conserved(p.Usable(), a.Free(), a.reserved, a.issued)
  {
    a := new IPAllocator(p);
    for i := 0 to |calls|
      invariant a.Valid() && fresh(a)
      invariant Conserved(p.Usable(), a.Free(), a.reserved, a.issued)
    {
      ghost var free, issued := a.Free(), a.issued;
      match calls[i] {
        case CallReserve(ip) =>
          var _ := a.Reserve(ip);
        case CallAllocate =>
          var ip := a.Allocate();
          if ip.Some? {
            IssuedOneMore(p.Usable(), free, a.reserved, issued, ip.value);
          }
      }
    }
  }

  // ----- what a run of allocations draws from a set ---------------------------------

  ghost predicate IsLeast(a: nat, s: set<nat>) {
    a in s && forall b | b in s :: a <= b
  }

  /** issued lists elements of free, each of them the least one that was left. */
  ghost predicate Drawn(free: set<nat>, issued: seq<nat>) {
    issued == [] ||
    var front := issued[..|issued| - 1];
    Drawn(free, front) && IsLeast(issued[|issued| - 1], free - Elements(front))
  }

  lemma {:induction false} DrawnNext(free: set<nat>, issued: seq<nat>, ip: nat)
    requires Drawn(free, issued) && IsLeast(ip, free - Elements(issued))
    ensures Drawn(free, issued + [ip])
    ensures free - Elements(issued + [ip]) == free - Elements(issued) - {ip}
  {
  }

  lemma {:induction false} LeastExtends(free: set<nat>, front: seq<nat>, ip: nat)
    requires Distinct(front) && IsSmallest(Elements(front), free, |front|)
    requires IsLeast(ip, free - Elements(front))
    ensures Distinct(front + [ip]) && IsSmallest(Elements(front + [ip]), free, |front| + 1)
  {
    assert ip !in Elements(front);
    ElementsAppend(front, ip);
    assert forall a | a in free && a !in Elements(front) :: a in free - Elements(front);
    SmallestExtends(Elements(front), free, |front|, ip);
  }

  lemma {:induction false} DrawnSmallest(free: set<nat>, issued: seq<nat>)
    requires Drawn(free, issued)
    ensures Distinct(issued)
    ensures IsSmallest(Elements(issued), free, |issued|)
  {
    if issued != [] {
      var n := |issued| - 1;
      var front, ip := issued[..n], issued[n];
      DrawnSmallest(free, front);
      assert issued == front + [ip];
      LeastExtends(free, front, ip);
    }
  }

  /**
   The loop of TestIPAllocate for any prefix: allocating until the range is exhausted
   hands out the usable addresses in increasing order, Size() - 2 of them (none for the
   two longest prefix lengths).
   */
  method Drain(p: Prefix) returns (got: seq<nat>)
    ensures |got| == if p.Size() >= 2 then p.Size() - 2 else 0
    ensures CountsUp(got, p.First() + 1)
  {
    var a := new IPAllocator(p);
    got := AllocateAll(a, p.First() + 1, p.Last());
  }

  ghost predicate CountsUp(xs: seq<nat>, lo: nat) {
    forall i | 0 <= i < |xs| :: xs[i] == lo + i
  }

  lemma {:induction false} CountsUpAppend(xs: seq<nat>, lo: nat)
    requires CountsUp(xs, lo)
    ensures CountsUp(xs + [lo + |xs|], lo)
  {
  }

  method AllocateAll(a: IPAllocator, ghost lo: nat, ghost hi: nat) returns (got: seq<nat>)
    requires a.Valid() && a.Free() == Interval(lo, hi)
    modifies a
    ensures |got| == if lo < hi then hi - lo else 0
    ensures CountsUp(got, lo)
  {
    got := [];
    while true
      invariant a.Valid()
      invariant CountsUp(got, lo)
      invariant |got| == 0 || lo + |got| <= hi
      invariant a.Free() == Interval(lo + |got|, hi)
      decreases hi - lo - |got|
    {
      ghost var before := a.Free();
      var ip := a.Allocate();
      if ip.None? {
        assert before == {};
        assert lo + |got| < hi ==> lo + |got| in before;
        return;
      }
      LeastOfInterval(before, lo + |got|, hi, ip.value);
      CountsUpAppend(got, lo);
      got := got + [ip.value];
    }
  }

  lemma {:induction false} LeastOfInterval(f: set<nat>, lo: nat, hi: nat, a: nat)
    requires f == Interval(lo, hi)
    requires a in f && forall b | b in f :: a <= b
    ensures a == lo < hi
    ensures f - {a} == Interval(lo + 1, hi)
  {
    assert lo in f;
  }
}
