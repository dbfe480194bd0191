/** MAC addresses as big-endian numbers (runner/libvirt/helper.go, runner/libvirt/runner.go). */
module HardwareAddr {
  import opened Prelude

  type Byte = x: int | 0 <= x < 256

  const EUI48_LIMIT: nat := 0x1_0000_0000_0000

  function Pow256(n: nat): nat {
    if n == 0 then 1 else 256 * Pow256(n - 1)
  }

  /** The number a byte string denotes, most significant byte first. */
  function Decode(b: seq<Byte>): nat {
    if b == [] then 0 else 256 * Decode(b[..|b| - 1]) + b[|b| - 1]
  }

  /** The n low-order bytes of x, most significant byte first. */
  function Encode(x: nat, n: nat): (b: seq<Byte>)
    ensures |b| == n
  {
    if n == 0 then [] else Encode(x / 256, n - 1) + [x % 256]
  }

  lemma {:induction false} DecodeEncode(x: nat, n: nat)
    requires x < Pow256(n)
    ensures Decode(Encode(x, n)) == x
  {
    if n != 0 {
      DecodeEncode(x / 256, n - 1);
      var b := Encode(x, n);
      assert b[..|b| - 1] == Encode(x / 256, n - 1);
    }
  }

  lemma {:induction false} EncodeDecode(b: seq<Byte>)
    ensures Encode(Decode(b), |b|) == b
    ensures Decode(b) < Pow256(|b|)
  {
    if b != [] {
      EncodeDecode(b[..|b| - 1]);
      assert Decode(b) / 256 == Decode(b[..|b| - 1]);
    }
  }

  /** The most significant byte comes first, and consecutive numbers differ in the last byte. */
  lemma {:induction false} BigEndian(x: nat)
    ensures Encode(0x0200_0000_0A01, 6) == [2, 0, 0, 0, 10, 1]
    ensures x % 256 < 255 ==> Encode(x + 1, 6) == Encode(x, 6)[5 := x % 256 + 1]
  {
    if x % 256 < 255 {
      assert (x + 1) / 256 == x / 256;
    }
    assert Encode(2, 1) == [2];
    assert Encode(0x0200, 2) == [2, 0];
    assert Encode(0x0200_00, 3) == [2, 0, 0];
    assert Encode(0x0200_0000, 4) == [2, 0, 0, 0];
    assert Encode(0x0200_0000_0A, 5) == [2, 0, 0, 0, 10];
  }

  lemma {:induction false} EncodeSuffix(x: nat, n: nat)
    ensures Encode(x, n + 1)[1..] == Encode(x, n)
  {
    if n != 0 {
      EncodeSuffix(x / 256, n - 1);
    }
  }

  lemma {:induction false} Pow256Six()
    ensures Pow256(6) == EUI48_LIMIT && Pow256(8) == UINT64_LIMIT
  {
  }

  /** Re-encoding a folded six-byte base gives the base back, and six bytes always stay below the limit. */
  lemma {:induction false} SixByteRoundTrip(b: seq<Byte>)
    requires |b| == 6
    ensures Decode(b) < EUI48_LIMIT
    ensures Encode(Decode(b), 6) == b
  {
    Pow256Six();
    EncodeDecode(b);
  }

  /** The address handed out for the number x decodes to x, so different numbers get different addresses. */
  lemma {:induction false} AssignedAddress(x: nat, y: nat)
    requires x < EUI48_LIMIT && y < EUI48_LIMIT
    ensures Decode(Encode(x, 6)) == x
    ensures Encode(x, 6) == Encode(y, 6) ==> x == y
  {
    Pow256Six();
    DecodeEncode(x, 6);
    DecodeEncode(y, 6);
  }

  lemma {:induction false} ShiftWraps(d: nat, b: Byte)
    ensures Wrap(Wrap(d) * 256 + b) == Wrap(256 * d + b)
  {
    var y := Wrap(d) * 256 + b;
    RemainderUnique(256 * d + b, 256 * (d / UINT64_LIMIT) + y / UINT64_LIMIT, y % UINT64_LIMIT);
  }

  /** The loop "macInt = macInt<<8 | uint64(b)" over the base address, with the wrap-around of uint64. */
  method Fold(base: seq<Byte>) returns (macInt: nat)
    ensures macInt == Wrap(Decode(base))
    ensures |base| == 6 ==> macInt == Decode(base) < EUI48_LIMIT
  {
    macInt := 0;
    for i := 0 to |base|
      invariant macInt == Wrap(Decode(base[..i]))
    {
      assert base[..i + 1][..i] == base[..i];
      ShiftWraps(Decode(base[..i]), base[i]);
      macInt := Wrap(macInt * 256 + base[i]);
    }
    assert base[..|base|] == base;
    if |base| == 6 {
      SixByteRoundTrip(base);
    }
  }

  /** macAddrFromUint64. The result None is its panic. */
  method MacAddrFromUint64(x: nat) returns (mac: Option<seq<Byte>>)
    requires x < UINT64_LIMIT
    ensures mac.None? <==> x >= EUI48_LIMIT
    ensures mac.Some? ==> mac.value == Encode(x, 6) && Decode(mac.value) == x
  {
    if x % EUI48_LIMIT != x {
      return None;
    }
    var a := new Byte[8];
    var v := x;
    var i := 8;
    while i > 0
      invariant 0 <= i <= 8 && 0 <= v
      invariant Encode(x, 8) == Encode(v, i) + a[i..]
    {
      i := i - 1;
      a[i], v := v % 256, v / 256;
    }
    assert a[..] == Encode(x, 8);
    EncodeSuffix(x, 7);
    EncodeSuffix(x, 6);
    assert a[2..] == a[..][1..][1..];
    AssignedAddress(x, x);
    return Some(a[2..]);
  }
}
