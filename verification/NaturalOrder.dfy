/**
 The natural sort order of interface names (runner/libvirt/helper.go).

 A Go string is a sequence of bytes; it is modelled as a Dafny string with one
 char per byte. The comparison is proved to be the lexicographic order of the two
 lists of maximal digit and non-digit chunks, and that order is proved total.
 */
module NaturalOrder {
  import opened Prelude
  import opened Decimal

  /** The largest int of a 64-bit Go platform. */
  const MAX_INT: nat := 0x7fff_ffff_ffff_ffff

  // ----- chunks -----------------------------------------------------------------

  /** A chunk is a non-empty run of digits or a non-empty run of non-digits. */
  ghost predicate IsChunk(s: string) {
    s != "" && forall i | 0 <= i < |s| :: IsDigit(s[i]) == IsDigit(s[0])
  }

  /** c is the longest chunk s starts with. */
  ghost predicate IsFirstChunk(c: string, s: string) {
    IsChunk(c) && c <= s && (|c| < |s| ==> IsDigit(s[|c|]) != IsDigit(s[0]))
  }

  /** The number of leading characters of s that are digits (or that are not). */
  function RunLength(s: string, digit: bool): (n: nat)
    ensures n <= |s|
    ensures forall i | 0 <= i < n :: IsDigit(s[i]) == digit
    ensures n < |s| ==> IsDigit(s[n]) != digit
  {
    if s == "" || IsDigit(s[0]) != digit then 0 else 1 + RunLength(s[1..], digit)
  }

  function FirstChunk(s: string): (c: string)
    requires s != ""
    ensures IsFirstChunk(c, s)
  {
    s[..RunLength(s, IsDigit(s[0]))]
  }

  lemma {:induction false} FirstChunkUnique(c: string, d: string, s: string)
    requires IsFirstChunk(c, s) && IsFirstChunk(d, s)
    ensures c == d
  {
  }

  function Chunks(s: string): seq<string>
    decreases |s|
  {
    if s == "" then [] else [FirstChunk(s)] + Chunks(s[|FirstChunk(s)|..])
  }

  function Concat(cs: seq<string>): string {
    if cs == [] then "" else cs[0] + Concat(cs[1..])
  }

  /** cs cuts s into chunks whose classes alternate, which makes every chunk maximal. */
  ghost predicate IsChunking(cs: seq<string>, s: string) {
    && Concat(cs) == s
    && (forall i | 0 <= i < |cs| :: IsChunk(cs[i]))
    && (forall i | 0 < i < |cs| :: IsDigit(cs[i - 1][0]) != IsDigit(cs[i][0]))
  }

  /** Chunking loses nothing and is the only way to cut a string into maximal chunks. */
  lemma {:induction false} ChunksCharacterised(s: string, cs: seq<string>)
    ensures IsChunking(cs, s) <==> cs == Chunks(s)
    decreases |s|
  {
    ChunksAreChunking(s);
    if IsChunking(cs, s) {
      ChunkingUnique(cs, s);
    }
  }

  lemma {:induction false} ChunksAreChunking(s: string)
    ensures IsChunking(Chunks(s), s)
    decreases |s|
  {
    if s != "" {
      var c := FirstChunk(s);
      var rest := s[|c|..];
      ChunksAreChunking(rest);
      var cs := Chunks(s);
      assert cs[1..] == Chunks(rest);
      assert s == c + rest;
      forall i | 0 < i < |cs| ensures IsDigit(cs[i - 1][0]) != IsDigit(cs[i][0]) {
        if i == 1 {
          assert rest != "" && FirstChunk(rest)[0] == rest[0] == s[|c|];
        } else {
          assert cs[i - 1] == Chunks(rest)[i - 2] && cs[i] == Chunks(rest)[i - 1];
        }
      }
    }
  }

  lemma {:induction false} ChunkingUnique(cs: seq<string>, s: string)
    requires IsChunking(cs, s)
    ensures cs == Chunks(s)
    decreases |cs|
  {
    if cs != [] {
      var c, rest := cs[0], cs[1..];
      assert s == c + Concat(rest);
      if rest != [] {
        assert Concat(rest) == rest[0] + Concat(rest[1..]);
        assert s[|c|] == cs[1][0];
      } else {
        assert s == c;
      }
      assert c[0] == s[0];
      FirstChunkUnique(c, FirstChunk(s), s);
      assert s[|c|..] == Concat(rest);
      forall i | 0 < i < |rest| ensures IsDigit(rest[i - 1][0]) != IsDigit(rest[i][0]) {
        assert rest[i - 1] == cs[i] && rest[i] == cs[i + 1];
      }
      ChunkingUnique(rest, Concat(rest));
      assert cs == [c] + rest;
    }
  }

  lemma {:induction false} ChunksInjective(s: string, t: string)
    requires Chunks(s) == Chunks(t)
    ensures s == t
  {
    ChunksAreChunking(s);
    ChunksAreChunking(t);
  }

  // ----- the order --------------------------------------------------------------

  /** The result of strings.Compare. */
  function CompareBytes(a: string, b: string): (r: int)
    ensures -1 <= r <= 1
  {
    if a == "" && b == "" then 0
    else if a == "" then -1
    else if b == "" then 1
    else if a[0] != b[0] then (if a[0] < b[0] then -1 else 1)
    else CompareBytes(a[1..], b[1..])
  }

  /** Digit chunks are ordered by value and then by bytes, all other pairs by bytes. */
  function CompareChunks(a: string, b: string): int {
    if IsDigits(a) && IsDigits(b) && ValueOf(a) != ValueOf(b) then
      Sign(ValueOf(a) - ValueOf(b))
    else
      CompareBytes(a, b)
  }

  function CompareLists(cs: seq<string>, ds: seq<string>): int {
    if cs == [] && ds == [] then 0
    else if cs == [] then -1
    else if ds == [] then 1
    else if CompareChunks(cs[0], ds[0]) != 0 then CompareChunks(cs[0], ds[0])
    else CompareLists(cs[1..], ds[1..])
  }

  /** The natural order: -1, 0 or 1. */
  function NatOrder(s: string, t: string): int {
    CompareLists(Chunks(s), Chunks(t))
  }

  lemma {:induction false} BytesAntisymmetric(a: string, b: string)
    ensures CompareBytes(a, b) == -CompareBytes(b, a)
    ensures CompareBytes(a, b) == 0 <==> a == b
  {
    if a != "" && b != "" && a[0] == b[0] {
      BytesAntisymmetric(a[1..], b[1..]);
      assert a == [a[0]] + a[1..] && b == [b[0]] + b[1..];
    }
  }

  lemma {:induction false} BytesTransitive(a: string, b: string, c: string)
    requires CompareBytes(a, b) < 0 && CompareBytes(b, c) < 0
    ensures CompareBytes(a, c) < 0
  {
    if a != "" && c != "" && a[0] == b[0] == c[0] {
      BytesTransitive(a[1..], b[1..], c[1..]);
    }
  }

  lemma {:induction false} ChunksAntisymmetric(a: string, b: string)
    ensures CompareChunks(a, b) == -CompareChunks(b, a)
    ensures CompareChunks(a, b) == 0 <==> a == b
  {
    BytesAntisymmetric(a, b);
  }

  /** A chunk of the other class differs in its first byte, and no such byte lies between two digits. */
  lemma {:induction false} ChunksTransitive(a: string, b: string, c: string)
    requires IsChunk(a) && IsChunk(b) && IsChunk(c)
    requires CompareChunks(a, b) < 0 && CompareChunks(b, c) < 0
    ensures CompareChunks(a, c) < 0
  {
    if CompareBytes(a, b) < 0 && CompareBytes(b, c) < 0 {
      BytesTransitive(a, b, c);
    }
    assert IsDigits(a) == IsDigit(a[0]);
    assert IsDigits(b) == IsDigit(b[0]);
    assert IsDigits(c) == IsDigit(c[0]);
  }

  lemma {:induction false} ListsAntisymmetric(cs: seq<string>, ds: seq<string>)
    ensures CompareLists(cs, ds) == -CompareLists(ds, cs)
    ensures CompareLists(cs, ds) == 0 <==> cs == ds
  {
    if cs != [] && ds != [] {
      ChunksAntisymmetric(cs[0], ds[0]);
      ListsAntisymmetric(cs[1..], ds[1..]);
      assert cs == [cs[0]] + cs[1..] && ds == [ds[0]] + ds[1..];
    }
  }

  lemma {:induction false} ListsTransitive(cs: seq<string>, ds: seq<string>, es: seq<string>)
    requires forall c | c in cs || c in ds || c in es :: IsChunk(c)
    requires CompareLists(cs, ds) < 0 && CompareLists(ds, es) < 0
    ensures CompareLists(cs, es) < 0
  {
    if cs != [] && ds != [] && es != [] {
      ChunksAntisymmetric(cs[0], ds[0]);
      ChunksAntisymmetric(ds[0], es[0]);
      if cs[0] == ds[0] == es[0] {
        ListsTransitive(cs[1..], ds[1..], es[1..]);
      } else if cs[0] != ds[0] && ds[0] != es[0] {
        ChunksTransitive(cs[0], ds[0], es[0]);
      }
    }
  }

  /** The natural order is a total order on all strings. */
  lemma {:induction false} NatOrderTotal(s: string, t: string, u: string)
    ensures NatOrder(s, t) == -NatOrder(t, s)
    ensures NatOrder(s, t) == 0 <==> s == t
    ensures NatOrder(s, t) < 0 && NatOrder(t, u) < 0 ==> NatOrder(s, u) < 0
  {
    ListsAntisymmetric(Chunks(s), Chunks(t));
    if Chunks(s) == Chunks(t) {
      ChunksInjective(s, t);
    }
    if NatOrder(s, t) < 0 && NatOrder(t, u) < 0 {
      ChunksAreChunking(s);
      ChunksAreChunking(t);
      ChunksAreChunking(u);
      ListsTransitive(Chunks(s), Chunks(t), Chunks(u));
    }
  }

  // ----- which of two strings comes first -----------------------------------------

  /** The order of bytes in raw terms: a proper prefix, or a smaller byte at the first difference. */
  ghost predicate BytesLess(a: string, b: string) {
    || (a <= b && a != b)
    || exists k | 0 <= k < |a| && k < |b| :: a[..k] == b[..k] && a[k] < b[k]
  }

  lemma {:induction false} BytesDecide(a: string, b: string)
    ensures CompareBytes(a, b) < 0 <==> BytesLess(a, b)
  {
    if a != "" && b != "" && a[0] == b[0] {
      BytesDecide(a[1..], b[1..]);
      SameFirst(a, b);
    } else if a != "" && b != "" && a[0] < b[0] {
      assert a[..0] == b[..0];
    }
  }

  lemma {:induction false} SameFirst(a: string, b: string)
    requires a != "" && b != "" && a[0] == b[0]
    ensures BytesLess(a, b) <==> BytesLess(a[1..], b[1..])
  {
    assert a == [a[0]] + a[1..] && b == [b[0]] + b[1..];
    if k :| 0 <= k < |a| && k < |b| && a[..k] == b[..k] && a[k] < b[k] {
      assert a[1..][..k - 1] == a[..k][1..] && b[1..][..k - 1] == b[..k][1..];
      assert a[1..][k - 1] < b[1..][k - 1];
    }
    if k :| 0 <= k < |a| - 1 && k < |b| - 1 && a[1..][..k] == b[1..][..k] && a[1..][k] < b[1..][k] {
      assert a[..k + 1] == [a[0]] + a[1..][..k] && b[..k + 1] == [b[0]] + b[1..][..k];
      assert a[k + 1] < b[k + 1];
    }
  }

  /** A place where two strings part: a and b are maximal runs of one class behind the same text. */
  ghost predicate PartAt(p: string, a: string, s: string) {
    && IsChunk(a)
    && (p != "" ==> IsDigit(p[|p| - 1]) != IsDigit(a[0]))
    && (s != "" ==> IsDigit(s[0]) != IsDigit(a[0]))
  }

  lemma {:induction false} ChunksAround(p: string, a: string, s: string)
    requires PartAt(p, a, s)
    ensures Chunks(p + a + s) == Chunks(p) + ([a] + Chunks(s))
  {
    ChunksAreChunking(p);
    ChunksAreChunking(s);
    ChunkingJoin([a], Chunks(s), a, s);
    ChunkingJoin(Chunks(p), [a] + Chunks(s), p, a + s);
    assert p + (a + s) == p + a + s;
    ChunkingUnique(Chunks(p) + ([a] + Chunks(s)), p + a + s);
  }

  lemma {:induction false} ChunkingJoin(cs: seq<string>, ds: seq<string>, s: string, t: string)
    requires IsChunking(ds, t) && (IsChunking(cs, s) || (cs == [s] && IsChunk(s)))
    requires s != "" && t != "" ==> IsDigit(s[|s| - 1]) != IsDigit(t[0])
    ensures IsChunking(cs + ds, s + t)
  {
    if |cs| == 1 {
      assert cs[1..] == [] && Concat(cs) == cs[0] + Concat([]) == s;
    }
    ConcatAppend(cs, ds);
    if cs != [] && ds != [] {
      LastChunk(cs, s);
      assert t[0] == ds[0][0];
    }
    forall i | 0 < i < |cs + ds| ensures IsDigit((cs + ds)[i - 1][0]) != IsDigit((cs + ds)[i][0]) {
      if i == |cs| {
        assert (cs + ds)[i - 1] == cs[|cs| - 1] && (cs + ds)[i] == ds[0];
      }
    }
  }

  lemma {:induction false} ConcatAppend(cs: seq<string>, ds: seq<string>)
    ensures Concat(cs + ds) == Concat(cs) + Concat(ds)
  {
    if cs == [] {
      assert cs + ds == ds;
    } else {
      assert (cs + ds)[1..] == cs[1..] + ds;
      ConcatAppend(cs[1..], ds);
    }
  }

  lemma {:induction false} LastChunk(cs: seq<string>, s: string)
    requires cs != [] && Concat(cs) == s && forall i | 0 <= i < |cs| :: IsChunk(cs[i])
    ensures s != "" && IsChunk(cs[|cs| - 1]) && IsDigit(s[|s| - 1]) == IsDigit(cs[|cs| - 1][0])
  {
    if |cs| == 1 {
      assert cs[1..] == [];
    } else {
      LastChunk(cs[1..], Concat(cs[1..]));
    }
  }

  lemma {:induction false} CommonChunks(cs: seq<string>, ds: seq<string>, es: seq<string>)
    ensures CompareLists(cs + ds, cs + es) == CompareLists(ds, es)
  {
    if cs == [] {
      assert cs + ds == ds && cs + es == es;
    } else {
      ChunksAntisymmetric(cs[0], cs[0]);
      assert (cs + ds)[1..] == cs[1..] + ds && (cs + es)[1..] == cs[1..] + es;
      CommonChunks(cs[1..], ds, es);
    }
  }

  /**
   Where two strings part, digits decide by their value, as swp2 comes before swp10; only for the same
   value, and for runs of other characters, bytes decide.
   */
  lemma {:induction false} FirstDifferenceDecides(p: string, a: string, b: string, s: string, t: string)
    requires PartAt(p, a, s) && PartAt(p, b, t)
    ensures IsDigits(a) && IsDigits(b) && ValueOf(a) < ValueOf(b) ==> NatOrder(p + a + s, p + b + t) < 0
    ensures BytesLess(a, b) && !(IsDigits(a) && IsDigits(b) && ValueOf(a) > ValueOf(b)) ==> NatOrder(p + a + s, p + b + t) < 0
  {
    ChunksAround(p, a, s);
    ChunksAround(p, b, t);
    CommonChunks(Chunks(p), [a] + Chunks(s), [b] + Chunks(t));
    BytesDecide(a, b);
  }

  /** For example, interfaces of one kind sort by number. */
  lemma {:induction false} NumbersAscend(letters: string, m: nat, n: nat)
    requires letters != "" && forall i | 0 <= i < |letters| :: !IsDigit(letters[i])
    ensures NatOrder(letters + Itoa(m), letters + Itoa(n)) < 0 <==> m < n
  {
    NumberedChunks(letters, m);
    NumberedChunks(letters, n);
    ChunksAntisymmetric(letters, letters);
    ChunksAntisymmetric(Itoa(m), Itoa(n));
    CommonChunks([letters], [Itoa(m)], [Itoa(n)]);
    assert [letters] + [Itoa(m)] == [letters, Itoa(m)] && [letters] + [Itoa(n)] == [letters, Itoa(n)];
    if m == n {
      NatOrderTotal(letters + Itoa(m), letters + Itoa(n), "");
    }
  }

  /** A string comes before everything that only continues it. */
  lemma {:induction false} PrefixFirst(s: string, t: string)
    requires t != ""
    ensures NatOrder(s, s + t) < 0
    decreases |s|
  {
    if s == "" {
      assert s + t == t;
    } else {
      var c, d := FirstChunk(s), FirstChunk(s + t);
      if |c| < |s| {
        assert (s + t)[..|c|] == c && (s + t)[|c|] == s[|c|];
        FirstChunkUnique(c, d, s + t);
        assert (s + t)[|c|..] == s[|c|..] + t;
        ChunksAntisymmetric(c, c);
        PrefixFirst(s[|c|..], t);
      } else if IsDigit(t[0]) == IsDigit(s[0]) {
        RunGoesOn(s, t);
      } else {
        RunEnds(s, t);
      }
    }
  }

  lemma {:induction false} RunGoesOn(s: string, t: string)
    requires t != "" && s != "" && FirstChunk(s) == s && IsDigit(t[0]) == IsDigit(s[0])
    ensures NatOrder(s, s + t) < 0
  {
    var d := FirstChunk(s + t);
    assert s[|s|..] == "";
    assert s <= d && s != d;
    LongerChunk(s, d);
  }

  lemma {:induction false} RunEnds(s: string, t: string)
    requires t != "" && s != "" && FirstChunk(s) == s && IsDigit(t[0]) != IsDigit(s[0])
    ensures NatOrder(s, s + t) < 0
  {
    assert s[|s|..] == "" && "" + s + t == s + t && [] + ([s] + Chunks(t)) == [s] + Chunks(t) && [s] + [] == [s];
    ChunksAround("", s, t);
    CommonChunks([s], [], Chunks(t));
  }

  lemma {:induction false} LongerChunk(c: string, d: string)
    requires IsChunk(c) && IsChunk(d) && c <= d && c != d
    ensures CompareChunks(c, d) < 0
  {
    BytesDecide(c, d);
    assert IsDigits(c) == IsDigit(c[0]) && IsDigits(d) == IsDigit(d[0]);
    if IsDigits(d) {
      PrefixValue(d, |c|);
      assert d[..|c|] == c;
    }
  }

  // ----- the code ---------------------------------------------------------------

  method NextChunk(s0: string) returns (p: string)
    requires s0 != ""
    ensures IsFirstChunk(p, s0)
  {
    var c, s := s0[0], s0[1..];
    p := [c];
    if IsDigit(c) {
      while |s| > 0
        invariant s0 == p + s
        invariant |p| > 0 && forall i | 0 <= i < |p| :: IsDigit(p[i])
        invariant |p| < |s0| ==> s0[|p|] == s[0]
        decreases |s|
      {
        var c := s[0];
        if !IsDigit(c) {
          break;
        }
        p := p + [c];
        s := s[1..];
      }
      return;
    }
    while |s| > 0
      invariant s0 == p + s
      invariant |p| > 0 && forall i | 0 <= i < |p| :: !IsDigit(p[i])
      invariant |p| < |s0| ==> s0[|p|] == s[0]
      decreases |s|
    {
      var c := s[0];
      if IsDigit(c) {
        break;
      }
      p := p + [c];
      s := s[1..];
    }
  }

  /** A longer numeral is at least as large, so an overflow cannot be undone by the digits that follow. */
  lemma {:induction false} PrefixValue(s: string, i: nat)
    requires IsDigits(s) && i <= |s|
    ensures ValueOf(s[..i]) <= ValueOf(s)
    decreases |s|
  {
    if i < |s| {
      PrefixValue(s[..|s| - 1], i);
      assert s[..|s| - 1][..i] == s[..i];
    } else {
      assert s[..i] == s;
    }
  }

  /** mustAtoi on a run of digits: the conversion digit by digit, with the overflow check. None is its panic. */
  method MustAtoi(s: string) returns (r: Option<int>)
    requires IsDigits(s)
    ensures r.Some? <==> ValueOf(s) <= MAX_INT
    ensures r.Some? ==> r.value == ValueOf(s)
  {
    var n := 0;
    for i := 0 to |s|
      invariant n == ValueOf(s[..i]) <= MAX_INT
    {
      var d := DigitOf(s[i]);
      assert s[..i + 1][..i] == s[..i];
      PrefixValue(s, i + 1);
      if n > (MAX_INT - d) / 10 {
        return None;
      }
      n := 10 * n + d;
    }
    assert s[..|s|] == s;
    return Some(n);
  }

  /** Behind k equal chunks both lists hold a digit chunk, and one of the two does not fit an int. */
  ghost predicate OverflowsAt(cs: seq<string>, ds: seq<string>, k: nat) {
    && k < |cs| && k < |ds| && cs[..k] == ds[..k]
    && IsDigits(cs[k]) && IsDigits(ds[k])
    && (ValueOf(cs[k]) > MAX_INT || ValueOf(ds[k]) > MAX_INT)
  }

  /** The first k chunks agree and did not overflow; s and t are what is left to compare. */
  ghost predicate AgreesUpTo(s0: string, t0: string, s: string, t: string, k: nat) {
    && k <= |Chunks(s0)| && k <= |Chunks(t0)|
    && Chunks(s0)[k..] == Chunks(s) && Chunks(t0)[k..] == Chunks(t)
    && Chunks(s0)[..k] == Chunks(t0)[..k]
    && (forall j | 0 <= j < k :: !OverflowsAt(Chunks(s0), Chunks(t0), j))
    && NatOrder(s0, t0) == NatOrder(s, t)
  }

  lemma {:induction false} AgreesOnOneMore(s0: string, t0: string, s: string, t: string, k: nat, c: string)
    requires AgreesUpTo(s0, t0, s, t, k) && s != "" && t != ""
    requires c == FirstChunk(s) == FirstChunk(t)
    requires !OverflowsAt(Chunks(s0), Chunks(t0), k)
    ensures AgreesUpTo(s0, t0, s[|c|..], t[|c|..], k + 1)
  {
    var cs, ds := Chunks(s0), Chunks(t0);
    assert cs[k] == cs[k..][0] == c && ds[k] == ds[k..][0] == c;
    assert cs[..k + 1] == cs[..k] + [c] && ds[..k + 1] == ds[..k] + [c];
    assert cs[k + 1..] == cs[k..][1..] && ds[k + 1..] == ds[k..][1..];
    ChunksAntisymmetric(c, c);
  }

  lemma {:induction false} DecidedHere(s0: string, t0: string, s: string, t: string, k: nat)
    requires AgreesUpTo(s0, t0, s, t, k) && s != "" && t != ""
    ensures k < |Chunks(s0)| && k < |Chunks(t0)|
    ensures Chunks(s0)[k] == FirstChunk(s) && Chunks(t0)[k] == FirstChunk(t)
    ensures FirstChunk(s) != FirstChunk(t) ==>
      && NatOrder(s0, t0) == CompareChunks(FirstChunk(s), FirstChunk(t)) != 0
      && forall j: nat | j != k :: !OverflowsAt(Chunks(s0), Chunks(t0), j)
  {
    var cs, ds := Chunks(s0), Chunks(t0);
    assert cs[k] == cs[k..][0] && ds[k] == ds[k..][0];
    ChunksAntisymmetric(cs[k], ds[k]);
    forall j: nat | k < j && OverflowsAt(cs, ds, j) ensures cs[k] == ds[k] {
      assert cs[..j][k] == ds[..j][k];
    }
  }

  /** The comparison of two chunks in the loop body. None is the panic of mustAtoi. */
  method CompareOne(cs: string, ct: string) returns (r: Option<int>)
    requires IsChunk(cs) && IsChunk(ct)
    ensures r.None? <==> IsDigits(cs) && IsDigits(ct) && (ValueOf(cs) > MAX_INT || ValueOf(ct) > MAX_INT)
    ensures r.Some? ==> r.value == CompareChunks(cs, ct)
  {
    assert IsDigits(cs) == IsDigit(cs[0]) && IsDigits(ct) == IsDigit(ct[0]);
    if IsDigit(cs[0]) && IsDigit(ct[0]) {
      var i := MustAtoi(cs);
      if i.None? {
        return None;
      }
      var j := MustAtoi(ct);
      if j.None? {
        return None;
      }
      if i.value > j.value {
        return Some(1);
      }
      if i.value < j.value {
        return Some(-1);
      }
    }
    return Some(CompareBytes(cs, ct));
  }

  /**
   natCompare. The result None is the panic of mustAtoi, which happens exactly for
   an overflow behind equal chunks; otherwise the sign of the result is the natural order.
   */
  method NatCompare(s0: string, t0: string) returns (r: Option<int>)
    ensures r.None? <==> exists k: nat :: OverflowsAt(Chunks(s0), Chunks(t0), k)
    ensures r.Some? ==> Sign(r.value) == NatOrder(s0, t0)
  {
    var s, t := s0, t0;
    ghost var k := 0;
    while |s| > 0 && |t| > 0
      invariant AgreesUpTo(s0, t0, s, t, k)
      decreases |s|, |t|
    {
      DecidedHere(s0, t0, s, t, k);
      var cs := NextChunk(s);
      FirstChunkUnique(cs, FirstChunk(s), s);
      var ct := NextChunk(t);
      FirstChunkUnique(ct, FirstChunk(t), t);
      ChunksAntisymmetric(cs, ct);
      var cmp := CompareOne(cs, ct);
      if cmp.None? {
        assert OverflowsAt(Chunks(s0), Chunks(t0), k);
        return None;
      }
      if cmp.value != 0 {
        return cmp;
      }
      AgreesOnOneMore(s0, t0, s, t, k, cs);
      s, t, k := s[|cs|..], t[|ct|..], k + 1;
    }
    return Some(|s| - |t|);
  }

  /** Every digit run of s fits an int. */
  ghost predicate DigitRunsFit(s: string) {
    forall c | c in Chunks(s) && IsDigits(c) :: ValueOf(c) <= MAX_INT
  }

  lemma {:induction false} FittingNeverOverflows(s: string, t: string)
    requires DigitRunsFit(s) && DigitRunsFit(t)
    ensures forall k: nat :: !OverflowsAt(Chunks(s), Chunks(t), k)
  {
  }

  /** Letters followed by a number, as in "swp12", are two chunks. */
  lemma {:induction false} NumberedChunks(letters: string, number: nat)
    requires letters != "" && forall i | 0 <= i < |letters| :: !IsDigit(letters[i])
    ensures Chunks(letters + Itoa(number)) == [letters, Itoa(number)]
    ensures IsDigits(Itoa(number)) && ValueOf(Itoa(number)) == number
  {
    var cs := [letters, Itoa(number)];
    assert Concat(cs[1..]) == Itoa(number) + Concat(cs[1..][1..]) == Itoa(number);
    assert Concat(cs) == letters + Itoa(number);
    ChunksCharacterised(letters + Itoa(number), cs);
    ItoaValue(number);
  }

  /** The comparator panics on two ports of the same kind if one number is too large. */
  lemma {:induction false} LargePortNumberPanics(letters: string, m: nat, n: nat)
    requires letters != "" && forall i | 0 <= i < |letters| :: !IsDigit(letters[i])
    requires n > MAX_INT
    ensures OverflowsAt(Chunks(letters + Itoa(m)), Chunks(letters + Itoa(n)), 1)
  {
    NumberedChunks(letters, m);
    NumberedChunks(letters, n);
  }

  /** So it does on swp1 and swp9223372036854775808, but on no smaller number. */
  lemma {:induction false} LastPortNumber(n: nat)
    ensures OverflowsAt(Chunks("swp" + Itoa(1)), Chunks("swp" + Itoa(9223372036854775808)), 1)
    ensures n < 9223372036854775808 ==> !OverflowsAt(Chunks("swp" + Itoa(1)), Chunks("swp" + Itoa(n)), 1)
  {
    LargePortNumberPanics("swp", 1, 9223372036854775808);
    NumberedChunks("swp", 1);
    NumberedChunks("swp", n);
  }
}
