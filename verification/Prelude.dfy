/** Small value types and set facts shared by the other modules. */
module Prelude {

  datatype Option<+X> = None | Some(value: X)

  /** A node attribute after parsing: absent (or empty), not parsable, or a value. */
  datatype Attr<+X> = Missing | Malformed | Value(v: X)

  function Sign(x: int): int {
    if x < 0 then -1 else if x == 0 then 0 else 1
  }

  ghost predicate Distinct<X>(xs: seq<X>) {
    forall i, j | 0 <= i < j < |xs| :: xs[i] != xs[j]
  }

  // ----- uint64 arithmetic ------------------------------------------------------

  const UINT64_LIMIT: nat := 0x1_0000_0000_0000_0000

  /** The uint64 (or uint) a Go conversion or overflowing operation yields. */
  function Wrap(x: int): (r: nat)
    ensures r < UINT64_LIMIT
  {
    x % UINT64_LIMIT
  }

  lemma {:induction false} RemainderUnique(x: int, q: int, r: int)
    requires x == q * UINT64_LIMIT + r && 0 <= r < UINT64_LIMIT
    ensures Wrap(x) == r
  {
    assert x / UINT64_LIMIT == q;
  }

  lemma {:induction false} WrapAdd(x: int, y: int)
    ensures Wrap(Wrap(x) + y) == Wrap(x + y)
  {
    RemainderUnique(Wrap(x) + y, (x + y) / UINT64_LIMIT - x / UINT64_LIMIT, Wrap(x + y));
  }

  lemma {:induction false} WrapInjective(x: int, y: int)
    requires Wrap(x) == Wrap(y) && -(UINT64_LIMIT as int) < x - y < UINT64_LIMIT
    ensures x == y
  {
    assert x - y == (x / UINT64_LIMIT - y / UINT64_LIMIT) * UINT64_LIMIT;
  }

  // ----- sets and sequences -------------------------------------------------------------------

  ghost function Elements<X>(xs: seq<X>): set<X> {
    set x | x in xs
  }

  lemma {:induction false} ElementsAppend<X>(xs: seq<X>, x: X)
    ensures Elements(xs + [x]) == Elements(xs) + {x}
    ensures Distinct(xs) && x !in xs ==> Distinct(xs + [x])
  {
  }

  lemma {:induction false} PrefixNext<X>(xs: seq<X>, k: nat)
    requires k < |xs|
    ensures xs[..k + 1] == xs[..k] + [xs[k]]
    ensures multiset(xs[..k + 1]) == multiset(xs[..k]) + multiset{xs[k]}
  {
  }

  lemma {:induction false} AppendAssociative<X>(xs: seq<X>, ys: seq<X>, zs: seq<X>)
    ensures (xs + ys) + zs == xs + (ys + zs)
  {
  }

  lemma {:induction false} EmptyFirst<X>(xs: seq<X>, ys: seq<X>)
    ensures [] + xs + ys == xs + ys
  {
  }

  lemma {:induction false} LastMoves<X>(xs: seq<X>, ys: seq<X>)
    requires xs != []
    ensures xs[..|xs| - 1] + ([xs[|xs| - 1]] + ys) == xs + ys
  {
  }

  /** The keys of a Go map in the order a range loop meets them: any order at all. */
  method AnyOrder<X(==)>(keys: set<X>) returns (order: seq<X>)
    ensures Distinct(order) && Elements(order) == keys
  {
    order := [];
    var todo := keys;
    while todo != {}
      invariant Elements(order) + todo == keys && Elements(order) !! todo
      invariant Distinct(order)
      decreases todo
    {
      var k :| k in todo;
      assert k !in Elements(order);
      ElementsAppend(order, k);
      order, todo := order + [k], todo - {k};
    }
  }

  lemma {:induction false} DistinctSize<X>(xs: seq<X>)
    requires Distinct(xs)
    ensures |Elements(xs)| == |xs|
  {
    if xs != [] {
      var last := xs[|xs| - 1];
      var rest := xs[..|xs| - 1];
      assert xs == rest + [last];
      DistinctSize(rest);
      ElementsAppend(rest, last);
      assert last !in Elements(rest);
    }
  }

  lemma {:induction false} SubsetSize<X>(a: set<X>, b: set<X>)
    requires a <= b
    ensures |a| <= |b|
    ensures |a| == |b| ==> a == b
  {
    if x :| x in a {
      SubsetSize(a - {x}, b - {x});
      assert a == (a - {x}) + {x} && b == (b - {x}) + {x};
    }
  }

  /** An injective function keeps the size of a set. */
  lemma {:induction false} ImageSize<S, X>(xs: set<S>, ys: set<X>, f: map<S, X>)
    requires f.Keys == xs
    requires ys == set x | x in xs :: f[x]
    requires forall x, y | x in xs && y in xs && f[x] == f[y] :: x == y
    ensures |xs| == |ys|
  {
    if x :| x in xs {
      var rest := map y | y in xs && y != x :: f[y];
      var image := set y | y in xs - {x} :: rest[y];
      ImageSize(xs - {x}, image, rest);
      assert forall y | y in xs - {x} :: rest[y] == f[y] && rest[y] in image;
      assert f[x] !in image && ys == image + {f[x]};
    }
  }

  // ----- permutations -----------------------------------------------------------

  ghost predicate IsPermutation<X>(xs: seq<X>, ys: seq<X>) {
    multiset(xs) == multiset(ys)
  }

  lemma {:induction false} PermutationMember<X>(xs: seq<X>, ys: seq<X>, x: X)
    requires IsPermutation(xs, ys)
    ensures x in xs <==> x in ys
  {
    assert x in multiset(xs) <==> x in multiset(ys);
  }

  lemma {:induction false} TwiceCounted<X>(xs: seq<X>, i: nat, j: nat)
    requires i < j < |xs| && xs[i] == xs[j]
    ensures multiset(xs)[xs[i]] >= 2
  {
    assert xs == xs[..j] + xs[j..];
    assert xs[i] in xs[..j] && xs[i] in xs[j..];
  }

  lemma {:induction false} CountedTwice<X>(xs: seq<X>, x: X) returns (i: nat, j: nat)
    requires multiset(xs)[x] >= 2
    ensures i < j < |xs| && xs[i] == xs[j] == x
  {
    var n := |xs| - 1;
    var front := xs[..n];
    assert xs == front + [xs[n]];
    if xs[n] == x {
      assert x in multiset(front);
      i :| 0 <= i < n && front[i] == x;
      j := n;
    } else {
      i, j := CountedTwice(front, x);
    }
  }

  /** Whatever stands in two places of a list also stands in two places of a permutation. */
  lemma {:induction false} PairTransfers<X>(xs: seq<X>, ys: seq<X>, i: nat, j: nat) returns (i': nat, j': nat)
    requires IsPermutation(xs, ys) && i < |xs| && j < |xs| && i != j
    ensures i' < |ys| && j' < |ys| && i' != j'
    ensures ys[i'] == xs[i] && ys[j'] == xs[j]
  {
    if xs[i] == xs[j] {
      TwiceCounted(xs, if i < j then i else j, if i < j then j else i);
      i', j' := CountedTwice(ys, xs[i]);
    } else {
      PermutationMember(xs, ys, xs[i]);
      PermutationMember(xs, ys, xs[j]);
      i' :| 0 <= i' < |ys| && ys[i'] == xs[i];
      j' :| 0 <= j' < |ys| && ys[j'] == xs[j];
    }
  }
}
