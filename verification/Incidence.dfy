/** Which links belong to a device (topology/topology.go, lines 59-77), as a handshake between links and devices. */
module Incidence {
  import opened Prelude
  import opened Graph

  /** The link lists of device n after the first k links: once for every end that names n. */
  function Incident(ls: seq<Link>, k: nat, n: string): seq<Link>
    requires k <= |ls|
  {
    if k == 0 then [] else Incident(ls, k - 1, n) + AtEnds(ls[k - 1], n)
  }

  /** What associating l adds to the list of n. */
  function AtEnds(l: Link, n: string): seq<Link> {
    (if l.from == n then [l] else []) + (if l.to != "" && l.to == n then [l] else [])
  }

  /** Every device has the first k links that belong to it. */
  ghost predicate AreIncident(lists: map<string, seq<Link>>, ls: seq<Link>, k: nat)
    requires k <= |ls|
  {
    forall n | n in lists :: lists[n] == Incident(ls, k, n)
  }

  lemma {:induction false} NoneIncident(lists: map<string, seq<Link>>, ls: seq<Link>)
    requires forall n | n in lists :: lists[n] == []
    ensures AreIncident(lists, ls, 0)
  {
  }

  lemma {:induction false} IncidentStep(lists: map<string, seq<Link>>, lists': map<string, seq<Link>>, ls: seq<Link>, k: nat)
    requires k < |ls| && AreIncident(lists, ls, k) && lists'.Keys == lists.Keys
    requires forall n | n in lists :: lists'[n] == lists[n] + AtEnds(ls[k], n)
    ensures AreIncident(lists', ls, k + 1)
  {
    forall n | n in lists' ensures lists'[n] == Incident(ls, k + 1, n) {
      assert lists[n] == Incident(ls, k, n);
    }
  }

  function Count<X(==)>(xs: seq<X>, x: X): nat {
    if xs == [] then 0 else Count(xs[..|xs| - 1], x) + if xs[|xs| - 1] == x then 1 else 0
  }

  lemma {:induction false} CountLast<X>(xs: seq<X>, y: X, x: X)
    ensures Count(xs + [y], x) == Count(xs, x) + if y == x then 1 else 0
  {
    assert (xs + [y])[..|xs|] == xs;
  }

  /** The number of ends of l that name n. */
  function EndsAt(l: Link, n: string): nat {
    (if l.from == n then 1 else 0) + (if l.to != "" && l.to == n then 1 else 0)
  }

  lemma {:induction false} IncidentNext(ls: seq<Link>, k: nat, n: string, l: Link)
    requires k < |ls|
    ensures Count(Incident(ls, k + 1, n), l) == Count(Incident(ls, k, n), l) + if ls[k] == l then EndsAt(l, n) else 0
  {
    var before, m := Incident(ls, k, n), ls[k];
    CountLast(before, m, l);
    CountLast(before + [m], m, l);
    if AtEnds(m, n) == [] {
      assert before + [] == before;
    } else if AtEnds(m, n) == [m, m] {
      assert before + [m, m] == before + [m] + [m];
    }
  }

  /** c times e, by repeated addition. */
  function Repeated(c: nat, e: nat): nat {
    if c == 0 then 0 else Repeated(c - 1, e) + e
  }

  lemma {:induction false} RepeatedIsProduct(c: nat, e: nat)
    ensures Repeated(c, e) == c * e
  {
    if c != 0 {
      RepeatedIsProduct(c - 1, e);
      assert (c - 1) * e + e == c * e;
    }
  }

  lemma {:induction false} CountPrefix<X>(xs: seq<X>, k: nat, x: X)
    requires k < |xs|
    ensures Count(xs[..k + 1], x) == Count(xs[..k], x) + if xs[k] == x then 1 else 0
  {
    assert xs[..k + 1] == xs[..k] + [xs[k]];
    CountLast(xs[..k], xs[k], x);
  }

  /** A total that grows by e with every occurrence of x is the number of occurrences times e. */
  lemma {:induction false} Accumulate<X>(xs: seq<X>, x: X, e: nat, totals: seq<nat>, k: nat)
    requires |totals| == |xs| + 1 && totals[0] == 0 && k <= |xs|
    requires forall i | 0 <= i < |xs| :: totals[i + 1] == totals[i] + if xs[i] == x then e else 0
    ensures totals[k] == Repeated(Count(xs[..k], x), e)
    decreases k
  {
    if k == 0 {
      assert xs[..0] == [];
    } else {
      Accumulate(xs, x, e, totals, k - 1);
      CountPrefix(xs, k - 1, x);
      assert totals[k - 1 + 1] == totals[k - 1] + if xs[k - 1] == x then e else 0;
    }
  }

  /** The occurrences of l in the list of n after 0, 1, .. k links. */
  function IncidentCounts(ls: seq<Link>, k: nat, n: string, l: Link): (totals: seq<nat>)
    requires k <= |ls|
    ensures |totals| == k + 1
    ensures forall i | 0 <= i <= k :: totals[i] == Count(Incident(ls, i, n), l)
  {
    (if k == 0 then [] else IncidentCounts(ls, k - 1, n, l)) + [Count(Incident(ls, k, n), l)]
  }

  /** A link occurs at a device once per end that names it, so twice for a loop. */
  lemma {:induction false} IncidentMultiplicity(ls: seq<Link>, k: nat, n: string, l: Link)
    requires k <= |ls|
    ensures Count(Incident(ls, k, n), l) == Count(ls[..k], l) * EndsAt(l, n)
  {
    var xs, totals := ls[..k], IncidentCounts(ls, k, n, l);
    forall i | 0 <= i < k ensures totals[i + 1] == totals[i] + if xs[i] == l then EndsAt(l, n) else 0 {
      IncidentNext(ls, i, n, l);
    }
    Accumulate(xs, l, EndsAt(l, n), totals, k);
    assert xs[..k] == xs;
    RepeatedIsProduct(Count(ls[..k], l), EndsAt(l, n));
  }

  /** The lengths of the link lists of the devices ns, added up. */
  function TotalDegree(ls: seq<Link>, k: nat, ns: seq<string>): nat
    requires k <= |ls|
    decreases |ns|
  {
    if ns == [] then 0 else TotalDegree(ls, k, ns[..|ns| - 1]) + |Incident(ls, k, ns[|ns| - 1])|
  }

  /** The same for given link lists. */
  function Degrees(lists: map<string, seq<Link>>, ns: seq<string>): nat
    requires forall i | 0 <= i < |ns| :: ns[i] in lists
  {
    if ns == [] then 0 else Degrees(lists, ns[..|ns| - 1]) + |lists[ns[|ns| - 1]]|
  }

  lemma {:induction false} DegreesOfLists(lists: map<string, seq<Link>>, ls: seq<Link>, k: nat, ns: seq<string>)
    requires k <= |ls| && AreIncident(lists, ls, k) && Elements(ns) <= lists.Keys
    ensures forall i | 0 <= i < |ns| :: ns[i] in lists
    ensures Degrees(lists, ns) == TotalDegree(ls, k, ns)
  {
    assert forall i | 0 <= i < |ns| :: ns[i] in Elements(ns);
    if ns != [] {
      assert forall n | n in ns[..|ns| - 1] :: n in ns;
      DegreesOfLists(lists, ls, k, ns[..|ns| - 1]);
    }
  }

  function TwoEnded(ls: seq<Link>, k: nat): nat
    requires k <= |ls|
  {
    if k == 0 then 0 else TwoEnded(ls, k - 1) + if ls[k - 1].to != "" then 1 else 0
  }

  lemma {:induction false} OccursOnce(ns: seq<string>, n: string)
    requires Distinct(ns)
    ensures Count(ns, n) == if n in ns then 1 else 0
  {
    if ns != [] {
      var front, last := ns[..|ns| - 1], ns[|ns| - 1];
      OccursOnce(front, n);
      assert ns == front + [last];
      assert last !in front;
    }
  }

  lemma {:induction false} DegreeOfNext(ls: seq<Link>, k: nat, ns: seq<string>)
    requires k < |ls|
    ensures TotalDegree(ls, k + 1, ns) == TotalDegree(ls, k, ns) + Count(ns, ls[k].from)
      + if ls[k].to != "" then Count(ns, ls[k].to) else 0
  {
    if ns != [] {
      DegreeOfNext(ls, k, ns[..|ns| - 1]);
      assert |Incident(ls, k + 1, ns[|ns| - 1])| == |Incident(ls, k, ns[|ns| - 1])| + |AtEnds(ls[k], ns[|ns| - 1])|;
    }
  }

  ghost predicate HasEndsIn(l: Link, ns: seq<string>) {
    l.from in ns && (l.to == "" || l.to in ns)
  }

  lemma {:induction false} LinkDegree(ls: seq<Link>, k: nat, ns: seq<string>)
    requires Distinct(ns) && k < |ls|
    requires HasEndsIn(ls[k], ns)
    ensures TotalDegree(ls, k + 1, ns) == TotalDegree(ls, k, ns) + if ls[k].to != "" then 2 else 1
  {
    DegreeOfNext(ls, k, ns);
    OccursOnce(ns, ls[k].from);
    OccursOnce(ns, ls[k].to);
  }

  /** A total that grows by the number of ends of each link. */
  lemma {:induction false} AddEnds(ls: seq<Link>, totals: seq<nat>, k: nat)
    requires |totals| == |ls| + 1 && totals[0] == 0 && k <= |ls|
    requires forall i | 0 <= i < |ls| :: totals[i + 1] == totals[i] + if ls[i].to != "" then 2 else 1
    ensures totals[k] == 2 * TwoEnded(ls, k) + (k - TwoEnded(ls, k))
    decreases k
  {
    if k > 0 {
      AddEnds(ls, totals, k - 1);
      assert totals[k - 1 + 1] == totals[k - 1] + if ls[k - 1].to != "" then 2 else 1;
    }
  }

  /** The total degrees after 0, 1, .. k links. */
  function DegreeTotals(ls: seq<Link>, k: nat, ns: seq<string>): (totals: seq<nat>)
    requires k <= |ls|
    ensures |totals| == k + 1
    ensures forall i | 0 <= i <= k :: totals[i] == TotalDegree(ls, i, ns)
  {
    (if k == 0 then [] else DegreeTotals(ls, k - 1, ns)) + [TotalDegree(ls, k, ns)]
  }

  /**
   The handshake: over all devices the link lists hold every two-ended link twice and
   every one-ended uplink once.
   */
  lemma {:induction false} Handshake(ls: seq<Link>, k: nat, ns: seq<string>)
    requires Distinct(ns) && k <= |ls|
    requires forall l | l in ls :: HasEndsIn(l, ns)
    ensures TotalDegree(ls, k, ns) == 2 * TwoEnded(ls, k) + (k - TwoEnded(ls, k))
  {
    var totals := DegreeTotals(ls, |ls|, ns);
    forall i | 0 <= i < |ls| ensures totals[i + 1] == totals[i] + if ls[i].to != "" then 2 else 1 {
      assert HasEndsIn(ls[i], ns);
      LinkDegree(ls, i, ns);
    }
    NoDegree(ls, ns);
    AddEnds(ls, totals, k);
  }

  lemma {:induction false} NoDegree(ls: seq<Link>, ns: seq<string>)
    ensures TotalDegree(ls, 0, ns) == 0
  {
    if ns != [] {
      NoDegree(ls, ns[..|ns| - 1]);
    }
  }
}
