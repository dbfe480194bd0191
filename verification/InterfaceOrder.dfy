/** The order of the interfaces of a device: eth0 first, then natural order (runner/libvirt/runner.go, lines 425-433). */
module InterfaceOrder {
  import opened Prelude
  import opened NaturalOrder
  import opened Cabling

  const ETH0 := "eth0"

  /** The less function given to sort.Slice, on interface names. */
  ghost predicate NameLess(a: string, b: string) {
    if a == ETH0 then b != ETH0 else b != ETH0 && NatOrder(a, b) < 0
  }

  /** It is a strict total order: transitive, and of two different names exactly one is less. */
  lemma {:induction false} NameLessTotal(a: string, b: string, c: string)
    ensures !(NameLess(a, b) && NameLess(b, a))
    ensures NameLess(a, b) || NameLess(b, a) <==> a != b
    ensures NameLess(a, b) && NameLess(b, c) ==> NameLess(a, c)
    ensures !NameLess(b, a) && !NameLess(c, b) ==> !NameLess(c, a)
  {
    NatOrderTotal(a, b, c);
    NatOrderTotal(b, c, a);
    NatOrderTotal(c, a, b);
    NatOrderTotal(c, b, a);
    NatOrderTotal(b, a, c);
  }

  ghost predicate Sorted(xs: seq<Iface>) {
    forall i, j | 0 <= i < j < |xs| :: !NameLess(xs[j].name, xs[i].name)
  }

  /** The less function panics on these names: the comparator meets a number that does not fit an int. */
  ghost predicate Incomparable(a: string, b: string) {
    a != ETH0 && b != ETH0 && exists k: nat :: OverflowsAt(Chunks(a), Chunks(b), k)
  }

  ghost predicate Comparable(xs: seq<Iface>) {
    forall x, y | x in xs && y in xs :: !Incomparable(x.name, y.name)
  }

  /** In particular, names whose digit runs all fit an int. */
  lemma {:induction false} FittingNamesComparable(xs: seq<Iface>)
    requires forall x | x in xs :: DigitRunsFit(x.name)
    ensures Comparable(xs)
  {
    forall x, y | x in xs && y in xs ensures !Incomparable(x.name, y.name) {
      FittingNeverOverflows(x.name, y.name);
    }
  }

  lemma {:induction false} ComparablePermutation(xs: seq<Iface>, ys: seq<Iface>)
    requires IsPermutation(xs, ys) && Comparable(ys)
    ensures Comparable(xs)
  {
    forall x, y | x in xs && y in xs ensures !Incomparable(x.name, y.name) {
      PermutationMember(xs, ys, x);
      PermutationMember(xs, ys, y);
    }
  }

  /** The function literal passed to sort.Slice. None is the panic of the comparator. */
  method Less(di: Iface, dj: Iface) returns (less: Option<bool>)
    ensures less.None? <==> Incomparable(di.name, dj.name)
    ensures less.Some? ==> less.value == NameLess(di.name, dj.name)
  {
    if di.name == ETH0 {
      return Some(dj.name != ETH0);
    }
    if dj.name == ETH0 {
      return Some(false);
    }
    var cmp := NatCompare(di.name, dj.name);
    if cmp.None? {
      return None;
    }
    return Some(cmp.value < 0);
  }

  /** All of xs sorts before y, and y before all of ys. */
  lemma {:induction false} SortedAround(xs: seq<Iface>, y: Iface, ys: seq<Iface>)
    requires Sorted(xs + ys)
    requires forall x | x in xs :: !NameLess(y.name, x.name)
    requires forall x | x in ys :: !NameLess(x.name, y.name)
    ensures Sorted(xs + [y] + ys)
  {
    var all, rest := xs + [y] + ys, xs + ys;
    forall i, j | 0 <= i < j < |all| ensures !NameLess(all[j].name, all[i].name) {
      if i < |xs| && j == |xs| {
        assert all[i] in xs;
      } else if i == |xs| {
        assert all[j] in ys;
      } else {
        var i', j' := if i < |xs| then i else i - 1, if j < |xs| then j else j - 1;
        assert all[i] == rest[i'] && all[j] == rest[j'];
      }
    }
  }

  /** Sorted lists keep an element y in place once its right neighbour is not less. */
  lemma {:induction false} AllAfter(ys: seq<Iface>, y: Iface, i: nat)
    requires Sorted(ys) && i <= |ys| && (i < |ys| ==> !NameLess(ys[i].name, y.name))
    ensures forall x | x in ys[i..] :: !NameLess(x.name, y.name)
  {
    forall x | x in ys[i..] ensures !NameLess(x.name, y.name) {
      var j :| i <= j < |ys| && ys[j] == x;
      if j > i {
        NameLessTotal(y.name, ys[i].name, x.name);
      }
    }
  }

  /** One element into a sorted list. */
  method Insert(ys: seq<Iface>, y: Iface) returns (r: Option<seq<Iface>>)
    requires Sorted(ys)
    ensures r.None? ==> exists x | x in ys :: Incomparable(y.name, x.name)
    ensures r.Some? ==> Sorted(r.value) && multiset(r.value) == multiset(ys) + multiset{y}
  {
    var i := 0;
    while i < |ys|
      invariant 0 <= i <= |ys|
      invariant forall x | x in ys[..i] :: !NameLess(y.name, x.name)
    {
      var less := Less(y, ys[i]);
      if less.None? {
        assert ys[i] in ys;
        return None;
      }
      if less.value {
        NameLessTotal(y.name, ys[i].name, y.name);
        break;
      }
      assert ys[..i + 1] == ys[..i] + [ys[i]];
      i := i + 1;
    }
    AllAfter(ys, y, i);
    assert ys == ys[..i] + ys[i..];
    SortedAround(ys[..i], y, ys[i..]);
    return Some(ys[..i] + [y] + ys[i..]);
  }

  /**
   Stands in for sort.Slice, which is not part of this model. Callers rely on the contract alone:
   the result is some permutation that is sorted, with no promise for equal names, and a panic needs
   two names that the less function panics on, of which nobody knows whether they are compared.
   */
  method SortInterfaces(xs: seq<Iface>) returns (ys: Option<seq<Iface>>)
    ensures ys.None? ==> !Comparable(xs)
    ensures ys.Some? ==> IsPermutation(ys.value, xs) && Sorted(ys.value)
  {
    var sorted := [];
    for i := 0 to |xs|
      invariant multiset(sorted) == multiset(xs[..i])
      invariant Sorted(sorted)
    {
      PrefixNext(xs, i);
      var next := Insert(sorted, xs[i]);
      if next.None? {
        FoundIncomparable(xs, i, sorted);
        return None;
      }
      sorted := next.value;
    }
    assert xs[..|xs|] == xs;
    return Some(sorted);
  }

  lemma {:induction false} FoundIncomparable(xs: seq<Iface>, i: nat, ys: seq<Iface>)
    requires i < |xs| && multiset(ys) == multiset(xs[..i])
    requires exists x | x in ys :: Incomparable(xs[i].name, x.name)
    ensures !Comparable(xs)
  {
    var x :| x in ys && Incomparable(xs[i].name, x.name);
    PermutationMember(ys, xs[..i], x);
    assert x in xs && xs[i] in xs;
  }

  /** The device has an eth0 exactly when its first interface is one. */
  lemma {:induction false} Eth0First(xs: seq<Iface>)
    requires Sorted(xs) && xs != []
    ensures xs[0].name == ETH0 <==> exists x | x in xs :: x.name == ETH0
  {
  }

  lemma {:induction false} SortedTail(xs: seq<Iface>)
    requires Sorted(xs) && xs != []
    ensures Sorted(xs[1..])
  {
  }

  lemma {:induction false} SortedHead(xs: seq<Iface>, x: Iface)
    requires Sorted(xs) && x in xs
    ensures !NameLess(x.name, xs[0].name)
  {
    var i :| 0 <= i < |xs| && xs[i] == x;
    NameLessTotal(x.name, x.name, x.name);
  }

  /** With distinct names there is only one sorted permutation. */
  lemma {:induction false} SortedUnique(xs: seq<Iface>, ys: seq<Iface>)
    requires IsPermutation(xs, ys) && Sorted(xs) && Sorted(ys)
    requires forall x, y | x in xs && y in xs && x.name == y.name :: x == y
    ensures xs == ys
  {
    if xs == [] {
      assert multiset(ys) == multiset{};
    } else {
      assert xs[0] in multiset(ys) && ys != [];
      PermutationMember(xs, ys, xs[0]);
      PermutationMember(xs, ys, ys[0]);
      SortedHead(ys, xs[0]);
      SortedHead(xs, ys[0]);
      NameLessTotal(xs[0].name, ys[0].name, xs[0].name);
      assert xs[0] == ys[0];
      SortedTail(xs);
      SortedTail(ys);
      TailPermutation(xs, ys);
      SortedUnique(xs[1..], ys[1..]);
    }
  }

  lemma {:induction false} TailPermutation<X>(xs: seq<X>, ys: seq<X>)
    requires IsPermutation(xs, ys) && xs != [] && ys != [] && xs[0] == ys[0]
    ensures IsPermutation(xs[1..], ys[1..])
    ensures xs == [xs[0]] + xs[1..] && ys == [ys[0]] + ys[1..]
  {
    assert xs == [xs[0]] + xs[1..] && ys == [ys[0]] + ys[1..];
    assert multiset(xs[1..]) == multiset(xs) - multiset{xs[0]};
  }
}
