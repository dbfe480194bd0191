/** The virtual BMC registry (runner/libvirt/vbmc.go). */
module VirtualBMC {
  import opened Prelude
  import opened Hypervisor

  datatype BMCConfig = BMCConfig(addr: string, port0: int, user: string, password: string)

  class BMCMan {
    var all: map<string, BMC>
    var nextPort: int

    const addr: string
    const user: string
    const password: string

    ghost const firstPort: int
    ghost var order: seq<string>

    /** The i-th registered domain has the i-th port. */
    ghost predicate Valid()
      reads this
    {
      && Distinct(order) && Elements(order) == all.Keys
      && nextPort == firstPort + |order|
      && forall i | 0 <= i < |order| :: order[i] in all && all[order[i]].port == firstPort + i
    }

    /** So the ports are distinct and contiguous, and there are as many as the counter has advanced. */
    lemma {:induction false} PortsContiguous()
      requires Valid()
      ensures |all| == nextPort - firstPort
      ensures forall n | n in all :: firstPort <= all[n].port < nextPort
      ensures forall m, n | m in all && n in all && all[m].port == all[n].port :: m == n
    {
      DistinctSize(order);
      assert |all| == |all.Keys|;
      forall n | n in all ensures exists i | 0 <= i < |order| :: order[i] == n {
        assert n in Elements(order);
      }
    }

    /** newBMCMan; random is the generated default password. */
    constructor (c: BMCConfig, random: string)
      ensures Valid() && all == map[]
      ensures nextPort == firstPort == if c.port0 != 0 then c.port0 else 6230
      ensures addr == (if c.addr != "" then c.addr else "::") && user == (if c.user != "" then c.user else "runtopo")
      ensures password == if c.password != "" then c.password else random
    {
      all, order := map[], [];
      nextPort := if c.port0 != 0 then c.port0 else 6230;
      firstPort := if c.port0 != 0 then c.port0 else 6230;
      addr := if c.addr != "" then c.addr else "::";
      user := if c.user != "" then c.user else "runtopo";
      password := if c.password != "" then c.password else random;
    }

    method Add(domName: string) returns (bmc: Option<BMC>)
      requires Valid()
      modifies `all, `nextPort, `order
      ensures Valid()
      ensures bmc.None? <==> domName in old(all)
      ensures bmc.None? ==> all == old(all) && nextPort == old(nextPort)
      ensures bmc.Some? ==>
        && all == old(all)[domName := bmc.value]
        && bmc.value == BMC(addr, old(nextPort), user, password) && nextPort == old(nextPort) + 1
    {
      if domName in all {
        return None;
      }
      var port := nextPort;
      nextPort := nextPort + 1;
      var x := BMC(addr, port, user, password);
      all := all[domName := x];
      ElementsAppend(order, domName);
      assert domName !in Elements(order);
      order := order + [domName];
      return Some(x);
    }

    /** The BMCs of s are registered with the data this manager has for them. */
    ghost predicate Describes(bmcs: map<string, BMC>, s: set<string>)
      reads `all
    {
      forall n | n in s && n in all :: n in bmcs && bmcs[n] == all[n]
    }

    /**
     Register and start all BMCs; on failure unregister those that were added. But the context of the
     rollback is the caller's: if it was done when the failure came, everything added stays.
     */
    method StartAll(lv: Libvirt) returns (ok: bool, ghost added: set<string>, ghost early: bool)
      modifies lv`vbmcs, lv`bmcs, lv`started, lv`cutOff, lv`interrupted
      ensures ok ==> all.Keys !! old(lv.vbmcs) && lv.vbmcs == old(lv.vbmcs) + all.Keys
      ensures ok ==> lv.Active() == old(lv.Active()) + all.Keys && Describes(lv.bmcs, all.Keys)
      ensures !ok ==> old(lv.vbmcs) <= lv.vbmcs <= old(lv.vbmcs) + all.Keys
      ensures !ok ==> old(lv.Active()) <= lv.Active() <= old(lv.Active()) + all.Keys
      ensures !ok && lv.reliable && !lv.interrupted ==> lv.vbmcs == old(lv.vbmcs) && lv.Active() == old(lv.Active())
      ensures added <= all.Keys && (early ==> !ok && lv.interrupted && old(lv.vbmcs) + added <= lv.vbmcs)
      ensures ok || early || lv.vbmcs <= old(lv.vbmcs) + added
    {
      var names := [];
      var order := AnyOrder(all.Keys);
      early := false;
      for i := 0 to |order|
        invariant names == order[..i] && !early
        invariant Elements(names) !! old(lv.vbmcs) && lv.vbmcs == old(lv.vbmcs) + Elements(names)
        invariant lv.Active() == old(lv.Active()) && Describes(lv.bmcs, Elements(names))
      {
        assert order[i] in Elements(order);
        PrefixWithin(order, i);
        ok := lv.VbmcAdd(order[i], all[order[i]]);
        if !ok {
          added, early := Elements(names), lv.interrupted;
          if |names| > 0 {
            var _ := lv.VbmcDelete(names);
          }
          return;
        }
        PrefixNext(order, i);
        ElementsAppend(names, order[i]);
        names := names + [order[i]];
      }
      assert names == order;
      added := all.Keys;
      if |names| == 0 {
        return true, added, false;
      }
      ok := lv.VbmcStart(names);
      if !ok {
        early := lv.interrupted;
        var _ := lv.VbmcDelete(names);
      }
    }

    lemma {:induction false} PrefixWithin(order: seq<string>, i: nat)
      requires i <= |order|
      ensures Elements(order[..i]) <= Elements(order)
    {
    }

    /** Stop and unregister all BMCs. None is unregistered while it is active. */
    method StopAll(lv: Libvirt) returns (ok: bool)
      modifies lv`vbmcs, lv`started, lv`cutOff, lv`interrupted
      ensures ok ==> lv.vbmcs == old(lv.vbmcs) - all.Keys && lv.Active() == old(lv.Active()) - all.Keys
      ensures old(lv.vbmcs) - all.Keys <= lv.vbmcs <= old(lv.vbmcs)
      ensures old(lv.Active()) - all.Keys <= lv.Active() <= old(lv.Active())
      ensures lv.cutOff == old(lv.cutOff)
    {
      var names := AnyOrder(all.Keys);
      if |names| == 0 {
        return true;
      }
      ok := lv.VbmcStop(names);
      if ok {
        ok := lv.VbmcDelete(names);
      }
    }
  }
}
