/**
 The stages of Run and their undoing (runner/libvirt/runner.go, lines 516-764): volumes, domains,
 customization and startup. Each stage either completes or takes back what it did itself.
 */
module Stages {
  import opened Prelude
  import opened Cabling
  import opened Hypervisor
  import opened RunnerState
  import opened InventoryBuilder
  import opened Images
  import opened Domains

  /** The libvirt names of some devices: each device has one domain and one volume of this name. */
  ghost function Names(cfg: Config, s: set<string>): set<string> {
    set n | n in s :: cfg.namePrefix + n
  }

  lemma {:induction false} NamesNext(cfg: Config, s: set<string>, n: string)
    ensures Names(cfg, s + {n}) == Names(cfg, s) + {cfg.namePrefix + n}
    ensures n !in s ==> cfg.namePrefix + n !in Names(cfg, s)
  {
    if m :| m in s && cfg.namePrefix + m == cfg.namePrefix + n {
      PrefixInjective(cfg.namePrefix, m, n);
    }
  }

  /** Nothing that was there is gone, nothing but these names was added, and with working cleanup nothing was added. */
  ghost predicate RolledBack(before: set<string>, after: set<string>, names: set<string>, reliable: bool) {
    before <= after <= before + names && (reliable ==> after == before)
  }

  /** The names were new, and exactly they have been added. */
  ghost predicate Added(before: set<string>, after: set<string>, names: set<string>) {
    names !! before && after == before + names
  }

  /** Cleanup removed nothing but these names, and when it works it removed them all. */
  ghost predicate Removed(before: set<string>, after: set<string>, names: set<string>, reliable: bool) {
    before - names <= after <= before && (reliable ==> after == before - names)
  }

  lemma {:induction false} RemovedAdded(before: set<string>, mid: set<string>, after: set<string>, names: set<string>,
                                        reliable: bool)
    requires Added(before, mid, names) && Removed(mid, after, names, reliable)
    ensures RolledBack(before, after, names, reliable)
  {
  }

  // ----- volumes --------------------------------------------------------------------

  /** The loop "vol.Delete(0)" over created volumes. */
  method DeleteVolumes(lv: Libvirt, names: seq<string>)
    modifies lv`volumes
    ensures Removed(old(lv.volumes), lv.volumes, Elements(names), lv.reliable)
  {
    for i := 0 to |names|
      invariant Removed(old(lv.volumes), lv.volumes, Elements(names[..i]), lv.reliable)
    {
      PrefixNext(names, i);
      lv.DeleteVolume(names[i]);
    }
    assert names[..|names|] == names;
  }

  /** The volume a disk is on top of: that of its image, if it has one. */
  function BackingOf(base: BaseNames, osImage: string): Option<string> {
    if osImage == "" then None else base(osImage)
  }

  /** The disks of the devices of done are on top of their images. */
  ghost predicate BackedSoFar(r: Runner, base: BaseNames, backings: map<string, Option<string>>, done: set<string>)
    reads r`devices
  {
    forall n | n in done && n in r.devices ::
      && r.cfg.namePrefix + n in backings
      && backings[r.cfg.namePrefix + n] == BackingOf(base, r.devices[n].attrs.osImage)
  }

  lemma {:induction false} BackedNext(r: Runner, base: BaseNames, backings: map<string, Option<string>>, done: set<string>,
                                      n: string, backing: Option<string>)
    requires BackedSoFar(r, base, backings, done) && n in r.devices
    requires backing == BackingOf(base, r.devices[n].attrs.osImage)
    ensures BackedSoFar(r, base, backings[r.cfg.namePrefix + n := backing], done + {n})
  {
    forall m | m in done && r.cfg.namePrefix + m == r.cfg.namePrefix + n ensures m == n {
      PrefixInjective(r.cfg.namePrefix, m, n);
    }
  }

  /** The handles of base images are those of the volumes of their URLs. */
  ghost predicate NamesImages(base: BaseNames, baseImages: Option<map<string, string>>) {
    baseImages.Some? ==> forall u | u in baseImages.value :: base(u) == Some(baseImages.value[u])
  }

  /** The body of the loop of createVolumes. */
  method CreateVolume(r: Runner, lv: Libvirt, n: string, ghost base: BaseNames) returns (res: Outcome)
    requires r.Valid() && n in r.devices && NamesImages(base, r.baseImages)
    modifies lv`volumes, lv`backings
    ensures res == Ok ==>
      && Added(old(lv.volumes), lv.volumes, {r.cfg.namePrefix + n})
      && lv.backings == old(lv.backings)[r.cfg.namePrefix + n := BackingOf(base, r.devices[n].attrs.osImage)]
    ensures res != Ok ==> lv.volumes == old(lv.volumes)
    ensures res == Panic ==> !HasImages(r)
  {
    var osImage := r.devices[n].attrs.osImage;
    var backing := None;
    if osImage != "" {
      if r.baseImages.None? || osImage !in r.baseImages.value {
        return Panic;
      }
      var info := lv.Call();
      if !info {
        return Error;
      }
      var backingOK := lv.Call();
      if !backingOK {
        return Error;
      }
      backing := Some(r.baseImages.value[osImage]);
    }
    var created := lv.CreateVolume(r.devices[n].name, backing);
    return if created then Ok else Error;
  }

  /** createVolumes. */
  method CreateVolumes(r: Runner, lv: Libvirt, ghost base: BaseNames) returns (res: Outcome)
    requires r.Valid() && NamesImages(base, r.baseImages)
    modifies lv`volumes, lv`backings
    ensures res == Ok ==> Added(old(lv.volumes), lv.volumes, Names(r.cfg, r.devices.Keys))
    ensures res == Ok ==> BackedSoFar(r, base, lv.backings, r.devices.Keys)
    ensures res == Error ==> RolledBack(old(lv.volumes), lv.volumes, Names(r.cfg, r.devices.Keys), lv.reliable)
    ensures res == Panic ==> !HasImages(r)
  {
    var created := [];
    var pool := lv.Call();
    if !pool {
      return Error;
    }
    var todo := r.devices.Keys;
    ghost var done := {};
    while todo != {}
      invariant done + todo == r.devices.Keys && done !! todo
      invariant Elements(created) == Names(r.cfg, done) && Added(old(lv.volumes), lv.volumes, Elements(created))
      invariant BackedSoFar(r, base, lv.backings, done)
      decreases todo
    {
      var n :| n in todo;
      NamesNext(r.cfg, done, n);
      ElementsAppend(created, r.devices[n].name);
      BackedNext(r, base, lv.backings, done, n, BackingOf(base, r.devices[n].attrs.osImage));
      res := CreateVolume(r, lv, n, base);
      if res == Error {
        ghost var mid := lv.volumes;
        DeleteVolumes(lv, created);
        RemovedAdded(old(lv.volumes), mid, lv.volumes, Elements(created), lv.reliable);
      }
      if res != Ok {
        NamesWithin(r.cfg, done, r.devices.Keys);
        return;
      }
      created := created + [r.devices[n].name];
      todo, done := todo - {n}, done + {n};
    }
    return Ok;
  }

  lemma {:induction false} NamesWithin(cfg: Config, a: set<string>, b: set<string>)
    requires a <= b
    ensures Names(cfg, a) <= Names(cfg, b)
  {
  }

  /** deleteVolumes: the volumes of all devices, by name. The result is false when the pool is not found. */
  method DeleteDeviceVolumes(r: Runner, lv: Libvirt) returns (ok: bool)
    requires r.Valid()
    modifies lv`volumes
    ensures Removed(old(lv.volumes), lv.volumes, Names(r.cfg, r.devices.Keys), ok && lv.reliable)
    ensures lv.reliable ==> ok
  {
    ok := lv.CleanupCall();
    if !ok {
      return;
    }
    var todo := r.devices.Keys;
    ghost var done := {};
    while todo != {}
      invariant done + todo == r.devices.Keys && done !! todo
      invariant Removed(old(lv.volumes), lv.volumes, Names(r.cfg, done), lv.reliable)
      decreases todo
    {
      var n :| n in todo;
      NamesNext(r.cfg, done, n);
      var found := lv.CleanupCall();
      if found {
        lv.DeleteVolume(r.devices[n].name);
      }
      todo, done := todo - {n}, done + {n};
    }
  }

  // ----- domains --------------------------------------------------------------------

  method UndefineAll(lv: Libvirt, names: seq<string>)
    modifies lv`defined
    ensures Removed(old(lv.defined), lv.defined, Elements(names), lv.reliable)
  {
    for i := 0 to |names|
      invariant Removed(old(lv.defined), lv.defined, Elements(names[..i]), lv.reliable)
    {
      PrefixNext(names, i);
      lv.UndefineDomain(names[i]);
    }
    assert names[..|names|] == names;
  }

  /** The handles a completed defineDomains leaves: those it found and one for each device. */
  ghost predicate HandlesAdded(before: Option<set<string>>, after: Option<set<string>>, names: set<string>) {
    if before.Some? then after == Some(before.value + names) else after.None? && names == {}
  }

  lemma {:induction false} HandlesNext(before: Option<set<string>>, names: set<string>, x: string)
    ensures HandlesAdded(before, before, {})
    ensures before.Some? ==> HandlesAdded(before, Some(before.value + names + {x}), names + {x})
  {
    if before.Some? {
      assert before.value + {} == before.value;
      assert before.value + names + {x} == before.value + (names + {x});
    }
  }

  /** The definition of the domain of a device. */
  ghost function DefinitionOf(r: Runner, n: string): DomainArgs
    requires r.Valid() && n in r.devices
    reads r`devices, r`objects, r.objects`interfaces
  {
    ArgsOf(r.cfg.namePrefix + n, r.devices[n].tunnelIP, r.devices[n].interfaces)
  }

  /** The domains of the devices of done have the interfaces of their devices. */
  ghost predicate DefinitionsSoFar(r: Runner, definitions: map<string, DomainArgs>, done: set<string>)
    requires r.Valid()
    reads r`devices, r`objects, r.objects`interfaces
  {
    forall n | n in done && n in r.devices ::
      r.cfg.namePrefix + n in definitions && definitions[r.cfg.namePrefix + n] == DefinitionOf(r, n)
  }

  lemma {:induction false} DefinitionsNext(r: Runner, definitions: map<string, DomainArgs>, done: set<string>, n: string,
                                           args: DomainArgs)
    requires r.Valid() && DefinitionsSoFar(r, definitions, done) && n in r.devices && args == DefinitionOf(r, n)
    ensures DefinitionsSoFar(r, definitions[r.cfg.namePrefix + n := args], done + {n})
  {
    forall m | m in done && r.cfg.namePrefix + m == r.cfg.namePrefix + n ensures m == n {
      PrefixInjective(r.cfg.namePrefix, m, n);
    }
  }

  /** The body of the loop of defineDomains; storing the handle panics when the map is nil. */
  method DefineDomain(r: Runner, lv: Libvirt, n: string) returns (res: Outcome)
    requires r.Valid() && n in r.devices
    modifies lv`defined, lv`definitions, r`domains
    ensures res == Ok ==>
      && Added(old(lv.defined), lv.defined, {r.cfg.namePrefix + n}) && r.cfg.namePrefix + n !in lv.running
      && old(r.domains).Some? && r.domains == Some(old(r.domains).value + {r.cfg.namePrefix + n})
    ensures res == Ok ==> lv.definitions == old(lv.definitions)[r.cfg.namePrefix + n := DefinitionOf(r, n)]
    ensures res == Error ==> lv.defined == old(lv.defined)
    ensures res == Panic ==>
      old(r.domains).None? && Added(old(lv.defined), lv.defined, {r.cfg.namePrefix + n})
    ensures res != Ok ==> r.domains == old(r.domains)
  {
    var rendered := lv.Call();
    if !rendered {
      return Error;
    }
    var args := TemplateArgs(r.devices[n]);
    var ok := lv.DefineDomain(args);
    if !ok {
      return Error;
    }
    if r.domains.None? {
      return Panic;
    }
    r.domains := Some(r.domains.value + {r.devices[n].name});
    return Ok;
  }

  /** What holds between the iterations of defineDomains. */
  ghost predicate DefinedSoFar(r: Runner, lv: Libvirt, before: set<string>, handles: Option<set<string>>, done: set<string>)
    reads r`domains, lv`defined, lv`running
  {
    && Added(before, lv.defined, Names(r.cfg, done)) && Names(r.cfg, done) !! lv.running
    && HandlesAdded(handles, r.domains, Names(r.cfg, done))
  }

  /** The next domain, between the iterations. */
  method DefineNext(r: Runner, lv: Libvirt, n: string, ghost before: set<string>, ghost handles: Option<set<string>>,
                    ghost done: set<string>)
    returns (res: Outcome)
    requires r.Valid() && n in r.devices && n !in done
    requires DefinedSoFar(r, lv, before, handles, done) && DefinitionsSoFar(r, lv.definitions, done)
    requires done != {} ==> handles.Some?
    modifies lv`defined, lv`definitions, r`domains
    ensures res == Ok ==>
      DefinedSoFar(r, lv, before, handles, done + {n}) && DefinitionsSoFar(r, lv.definitions, done + {n}) && handles.Some?
    ensures res == Error ==> lv.defined == old(lv.defined)
    ensures res == Panic ==>
      old(r.domains).None? && r.domains.None? && Added(old(lv.defined), lv.defined, {r.cfg.namePrefix + n})
  {
    NamesNext(r.cfg, done, n);
    HandlesNext(handles, Names(r.cfg, done), r.devices[n].name);
    DefinitionsNext(r, lv.definitions, done, n, DefinitionOf(r, n));
    res := DefineDomain(r, lv, n);
  }

  /** The loop of defineDomains. It stops at the first failure, and returns the names that it has defined. */
  method DefineEach(r: Runner, lv: Libvirt) returns (res: Outcome, defined: seq<string>)
    requires r.Valid()
    modifies lv`defined, lv`definitions, r`domains
    ensures res == Ok ==> DefinedSoFar(r, lv, old(lv.defined), old(r.domains), r.devices.Keys)
    ensures res == Ok ==> DefinitionsSoFar(r, lv.definitions, r.devices.Keys)
    ensures res == Error ==>
      Added(old(lv.defined), lv.defined, Elements(defined)) && Elements(defined) <= Names(r.cfg, r.devices.Keys)
    ensures res == Panic ==> OneDefined(r, old(lv.defined), lv.defined, old(r.domains))
  {
    defined := [];
    var todo := r.devices.Keys;
    ghost var done: set<string> := {};
    ghost var before, handles := lv.defined, r.domains;
    HandlesNext(r.domains, {}, "");
    assert Names(r.cfg, {}) == {};
    while todo != {}
      invariant done + todo == r.devices.Keys && done !! todo
      invariant Elements(defined) == Names(r.cfg, done)
      invariant DefinedSoFar(r, lv, before, handles, done) && DefinitionsSoFar(r, lv.definitions, done)
      invariant done != {} ==> handles.Some?
      decreases todo
    {
      var n :| n in todo;
      NamesNext(r.cfg, done, n);
      NamesWithin(r.cfg, done, r.devices.Keys);
      res := DefineNext(r, lv, n, before, handles, done);
      if res != Ok {
        return;
      }
      ElementsAppend(defined, r.devices[n].name);
      defined := defined + [r.devices[n].name];
      todo, done := todo - {n}, done + {n};
    }
    res := Ok;
  }

  /** After the panic on a nil map: exactly one domain of a device has been defined, and there is still no map. */
  ghost predicate OneDefined(r: Runner, before: set<string>, after: set<string>, handles: Option<set<string>>)
    reads r`devices, r`domains
  {
    && handles.None? && r.domains.None?
    && exists n | n in r.devices :: Added(before, after, {r.cfg.namePrefix + n})
  }

  /** defineDomains. It panics, on a nil map, having defined the domain of one device. */
  method DefineDomains(r: Runner, lv: Libvirt) returns (res: Outcome)
    requires r.Valid()
    modifies lv`defined, lv`definitions, r`domains
    ensures res == Ok ==> DefinedSoFar(r, lv, old(lv.defined), old(r.domains), r.devices.Keys)
    ensures res == Ok ==> DefinitionsSoFar(r, lv.definitions, r.devices.Keys)
    ensures res == Error ==>
      RolledBack(old(lv.defined), lv.defined, Names(r.cfg, r.devices.Keys), lv.reliable) && r.domains.None?
    ensures res == Panic ==> OneDefined(r, old(lv.defined), lv.defined, old(r.domains))
  {
    ghost var before := lv.defined;
    var defined := [];
    res := Error;
    var parsed := lv.Call();
    if parsed {
      res, defined := DefineEach(r, lv);
    }
    if res == Error {
      ghost var mid := lv.defined;
      UndefineAll(lv, defined);
      RemovedAdded(before, mid, lv.defined, Elements(defined), lv.reliable);
      r.domains := None;
    }
  }

  /** undefineDomains: destroy and undefine the domains of all devices, by name. */
  method UndefineDomains(r: Runner, lv: Libvirt)
    requires r.Valid()
    modifies lv`defined, lv`running
    ensures Removed(old(lv.defined), lv.defined, Names(r.cfg, r.devices.Keys), lv.reliable)
    ensures Removed(old(lv.running), lv.running, Names(r.cfg, r.devices.Keys), lv.reliable)
  {
    var todo := r.devices.Keys;
    ghost var done := {};
    while todo != {}
      invariant done + todo == r.devices.Keys && done !! todo
      invariant Removed(old(lv.defined), lv.defined, Names(r.cfg, done), lv.reliable)
      invariant Removed(old(lv.running), lv.running, Names(r.cfg, done), lv.reliable)
      decreases todo
    {
      var n :| n in todo;
      NamesNext(r.cfg, done, n);
      var found := lv.CleanupCall();
      if found {
        lv.DestroyDomain(r.devices[n].name);
        lv.UndefineDomain(r.devices[n].name);
      }
      todo, done := todo - {n}, done + {n};
    }
  }
}
