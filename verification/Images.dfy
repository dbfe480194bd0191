/** Base images (runner/libvirt/runner.go, lines 437-514, and runner/libvirt/volume.go, lines 67-127). */
module Images {
  import opened Prelude
  import opened Hypervisor
  import opened FanIn
  import opened RunnerState

  /** The base name of the path of a URL: the volume's name. None if the URL does not parse. */
  type BaseNames = string -> Option<string>

  /** The image URLs of the devices of s. */
  ghost function ImageURLs(r: Runner, s: set<string>): set<string>
    reads r`devices
  {
    set n | n in s && n in r.devices && r.devices[n].attrs.osImage != "" :: r.devices[n].attrs.osImage
  }

  /** The names of the volumes for some URLs. */
  ghost function VolumeNames(base: BaseNames, urls: set<string>): set<string> {
    set u | u in urls && base(u).Some? :: base(u).value
  }

  /** All image URLs of the devices are entries of the map, so no device misses its image. */
  ghost predicate HasImages(r: Runner)
    reads r`devices, r`baseImages
  {
    r.baseImages.Some? && forall n | n in r.devices && r.devices[n].attrs.osImage != "" ::
      r.devices[n].attrs.osImage in r.baseImages.value
  }

  /** Every entry names the volume of its URL, and that is one of the given volumes. */
  ghost predicate Present(base: BaseNames, have: map<string, string>, volumes: set<string>) {
    forall u | u in have :: base(u) == Some(have[u]) && have[u] in volumes
  }

  /** Every result that was not an error is one of the given volumes. */
  ghost predicate ResultsPresent(base: BaseNames, keys: seq<string>, s: State<string>, volumes: set<string>)
    requires |keys| == |s.workers|
  {
    forall w | 0 <= w < |keys| ::
      && (s.workers[w].Blocked? && s.workers[w].res.Done? ==>
            base(keys[w]) == Some(s.workers[w].res.v) && s.workers[w].res.v in volumes)
  }

  /** What one fetch does to the volumes: nothing to those that were there, and its own is complete if it succeeds. */
  ghost predicate FetchedOnly(before: set<string>, partial: set<string>, after: set<string>, partial': set<string>,
                              name: string, ok: bool)
  {
    && before <= after <= before + {name}
    && (if name in before then !ok && partial' == partial else partial' - {name} == partial - {name})
    && (ok ==> name in after && name !in partial')
  }

  /** createVolumeFromURL. When it fails it may leave a volume with a part of the image. */
  method CreateVolumeFromURL(lv: Libvirt, name: string) returns (ok: bool)
    modifies lv`volumes, lv`partial
    ensures FetchedOnly(old(lv.volumes), old(lv.partial), lv.volumes, lv.partial, name, ok)
    ensures !ok && lv.volumes != old(lv.volumes) ==> name in lv.partial
  {
    ok := lv.Call();
    if !ok {
      return;
    }
    ok := lv.CreateImage(name);
    if !ok {
      return;
    }
    ok := lv.Call();
    if !ok {
      return;
    }
    ok := lv.Upload(name);
  }

  /** The loop over the devices: which images are present, and which must be fetched. The result is false for a bad URL. */
  method FindImages(r: Runner, lv: Libvirt, base: BaseNames)
    returns (ok: bool, have: map<string, string>, want: set<string>)
    ensures ok ==> ImageURLs(r, r.devices.Keys) == have.Keys + want
    ensures ok ==> Present(base, have, lv.volumes) && forall u | u in want :: base(u).Some?
    ensures ok && lv.reliable ==> forall u | u in want :: base(u).value !in lv.volumes
  {
    have, want := map[], {};
    var todo := r.devices.Keys;
    ghost var done := {};
    while todo != {}
      invariant done + todo == r.devices.Keys && done !! todo
      invariant ImageURLs(r, done) == have.Keys + want
      invariant Present(base, have, lv.volumes) && forall u | u in want :: base(u).Some?
      invariant lv.reliable ==> forall u | u in want :: base(u).value !in lv.volumes
      decreases todo
    {
      var n :| n in todo;
      todo := todo - {n};
      var osImage := r.devices[n].attrs.osImage;
      ImageURLsNext(r, done, n);
      done := done + {n};
      if osImage == "" {
        continue;
      }
      var name := base(osImage);
      if name.None? {
        return false, have, want;
      }
      var found := lv.LookupVolume(name.value);
      if found {
        have := have[osImage := name.value];
      } else {
        want := want + {osImage};
      }
    }
    ok := true;
  }

  lemma {:induction false} ImageURLsNext(r: Runner, s: set<string>, n: string)
    requires n in r.devices
    ensures ImageURLs(r, s + {n}) ==
      ImageURLs(r, s) + if r.devices[n].attrs.osImage == "" then {} else {r.devices[n].attrs.osImage}
  {
  }

  /** One job ends: its result, and the volumes it leaves. */
  method Fetch(lv: Libvirt, base: BaseNames, url: string, cancelled: bool) returns (res: Res<string>)
    requires base(url).Some?
    modifies lv`volumes, lv`partial
    ensures FetchedOnly(old(lv.volumes), old(lv.partial), lv.volumes, lv.partial, base(url).value, res.Done?)
    ensures res == Interrupted ==> cancelled
    ensures res.Done? ==> base(url) == Some(res.v)
  {
    var ok := CreateVolumeFromURL(lv, base(url).value);
    if ok {
      return Done(base(url).value);
    }
    var interrupted: bool := *;
    return if cancelled && interrupted then Interrupted else Failed("createVolumeFromURL");
  }

  /** The volumes that were there before, and those that have been completed since. */
  ghost function Usable(before: set<string>, volumes: set<string>, partial: set<string>): set<string> {
    before + (volumes - partial)
  }

  /** The state of the volumes while images are fetched: those that were there before are untouched. */
  ghost predicate Fetching(before: set<string>, partial: set<string>, volumes: set<string>, partial': set<string>,
                           names: set<string>)
  {
    before <= volumes <= before + names && forall x | x in before :: x in partial' <==> x in partial
  }

  lemma {:induction false} FetchingNext(before: set<string>, partial: set<string>, v: set<string>, p: set<string>,
                                        v': set<string>, p': set<string>, names: set<string>, name: string, ok: bool)
    requires Fetching(before, partial, v, p, names) && FetchedOnly(v, p, v', p', name, ok) && name in names
    ensures Fetching(before, partial, v', p', names)
    ensures Usable(before, v, p) <= Usable(before, v', p') && (ok ==> name in Usable(before, v', p'))
  {
    forall x | x in v ensures x in p' <==> x in p {
      if x != name {
        assert x in p' <==> x in p' - {name};
        assert x in p <==> x in p - {name};
      }
    }
  }

  /** The jobs and the collector, in any interleaving. */
  method FetchAll(lv: Libvirt, base: BaseNames, keys: seq<string>, have: map<string, string>)
    returns (s: State<string>)
    requires Distinct(keys) && Present(base, have, lv.volumes) && forall u | u in keys :: base(u).Some?
    modifies lv`volumes, lv`partial
    ensures Fetching(old(lv.volumes), old(lv.partial), lv.volumes, lv.partial, VolumeNames(base, Elements(keys)))
    ensures Finished(keys, have, s) && Present(base, s.have, Usable(old(lv.volumes), lv.volumes, lv.partial))
  {
    ghost var before, partial := lv.volumes, lv.partial;
    s := Init(keys, have);
    InitInv(keys, have);
    while s.phase != Returned
      invariant Inv(keys, have, s)
      invariant Fetching(before, partial, lv.volumes, lv.partial, VolumeNames(base, Elements(keys)))
      invariant Present(base, s.have, Usable(before, lv.volumes, lv.partial))
      invariant ResultsPresent(base, keys, s, Usable(before, lv.volumes, lv.partial))
      decreases Remaining(s)
    {
      s := FetchStep(lv, base, keys, have, s, before, partial);
    }
    InvFinished(keys, have, s);
  }

  method FetchStep(lv: Libvirt, base: BaseNames, keys: seq<string>, ghost have: map<string, string>, s: State<string>,
                   ghost before: set<string>, ghost partial: set<string>)
    returns (s': State<string>)
    requires Distinct(keys) && (forall u | u in keys :: base(u).Some?)
    requires Inv(keys, have, s) && s.phase != Returned
    requires Fetching(before, partial, lv.volumes, lv.partial, VolumeNames(base, Elements(keys)))
    requires Present(base, s.have, Usable(before, lv.volumes, lv.partial))
    requires ResultsPresent(base, keys, s, Usable(before, lv.volumes, lv.partial))
    modifies lv`volumes, lv`partial
    ensures Inv(keys, have, s') && Remaining(s') == Remaining(s) - 1
    ensures Fetching(before, partial, lv.volumes, lv.partial, VolumeNames(base, Elements(keys)))
    ensures Present(base, s'.have, Usable(before, lv.volumes, lv.partial))
    ensures ResultsPresent(base, keys, s', Usable(before, lv.volumes, lv.partial))
  {
    var wish: Step<string> := *;
    var step := Schedule(s, wish, keys, have);
    if step.Finish? {
      ghost var v, p := lv.volumes, lv.partial;
      assert keys[step.w] in Elements(keys);
      var res := Fetch(lv, base, keys[step.w], s.cancelled);
      FetchingNext(before, partial, v, p, lv.volumes, lv.partial, VolumeNames(base, Elements(keys)),
                   base(keys[step.w]).value, res.Done?);
      StillPresent(base, keys, s, Usable(before, v, p), Usable(before, lv.volumes, lv.partial));
      step := Finish(step.w, res);
    }
    StepInv(keys, have, s, step);
    s' := Apply(keys, s, step);
    StepPresent(base, keys, s, step, Usable(before, lv.volumes, lv.partial));
  }

  lemma {:induction false} StillPresent(base: BaseNames, keys: seq<string>, s: State<string>,
                                        volumes: set<string>, volumes': set<string>)
    requires volumes <= volumes' && |keys| == |s.workers|
    requires Present(base, s.have, volumes) && ResultsPresent(base, keys, s, volumes)
    ensures Present(base, s.have, volumes') && ResultsPresent(base, keys, s, volumes')
  {
  }

  lemma {:induction false} StepPresent(base: BaseNames, keys: seq<string>, s: State<string>, step: Step<string>,
                                       volumes: set<string>)
    requires |keys| == |s.workers| && Enabled(s, step)
    requires Present(base, s.have, volumes) && ResultsPresent(base, keys, s, volumes)
    requires step.Finish? && step.res.Done? ==> base(keys[step.w]) == Some(step.res.v) && step.res.v in volumes
    ensures Present(base, Apply(keys, s, step).have, volumes)
    ensures ResultsPresent(base, keys, Apply(keys, s, step), volumes)
  {
  }

  /** The base images of the devices that were there before, whole or not. */
  ghost predicate FoundPartial(base: BaseNames, urls: set<string>, volumes: set<string>, partial: set<string>) {
    exists x | x in VolumeNames(base, urls) :: x in volumes && x in partial
  }

  ghost predicate AllWhole(have: map<string, string>, partial: set<string>) {
    forall u | u in have :: have[u] !in partial
  }

  /** The entries are whole images exactly when no volume that was found was the rest of a failed download. */
  lemma {:induction false} WholeIffFoundWhole(base: BaseNames, have: map<string, string>, before: set<string>,
                                              partial: set<string>, volumes: set<string>, partial': set<string>,
                                              names: set<string>)
    requires Present(base, have, Usable(before, volumes, partial')) && Fetching(before, partial, volumes, partial', names)
    ensures AllWhole(have, partial') <==> !FoundPartial(base, have.Keys, before, partial)
  {
    forall u | u in have && have[u] in partial' ensures FoundPartial(base, have.Keys, before, partial) {
      assert have[u] in VolumeNames(base, have.Keys) && have[u] in before;
    }
    if x :| x in VolumeNames(base, have.Keys) && x in before && x in partial {
      var u :| u in have && base(u) == Some(x);
      assert have[u] in partial';
    }
  }

  /**
   downloadBaseImages. When it succeeds every image of a device has its entry, so the missing-image
   panic of createVolumes cannot be reached; and the entries are whole images exactly if none of the
   volumes it found was left behind by a failed download, which no later call repairs. Whatever
   happens, only volumes for base images are added, and none if all of them are there.
   */
  method DownloadBaseImages(r: Runner, lv: Libvirt, base: BaseNames) returns (ok: bool)
    modifies r`baseImages, lv`volumes, lv`partial
    ensures old(lv.volumes) <= lv.volumes <= old(lv.volumes) + VolumeNames(base, ImageURLs(r, r.devices.Keys))
    ensures ok ==> HasImages(r) && Present(base, r.baseImages.value, lv.volumes)
    ensures ok ==> r.baseImages.value.Keys == ImageURLs(r, r.devices.Keys)
    ensures ok ==>
      (AllWhole(r.baseImages.value, lv.partial) <==>
       !FoundPartial(base, ImageURLs(r, r.devices.Keys), old(lv.volumes), old(lv.partial)))
    ensures !ok ==> r.baseImages == old(r.baseImages)
    ensures lv.reliable && VolumeNames(base, ImageURLs(r, r.devices.Keys)) <= old(lv.volumes) ==> lv.volumes == old(lv.volumes)
    ensures FoundPartial(base, ImageURLs(r, r.devices.Keys), old(lv.volumes), old(lv.partial)) ==>
      FoundPartial(base, ImageURLs(r, r.devices.Keys), lv.volumes, lv.partial)
  {
    ok := lv.Call();
    if !ok {
      return;
    }
    var have, want;
    ok, have, want := FindImages(r, lv, base);
    if !ok {
      return;
    }
    var keys := AnyOrder(want);
    NothingWanted(base, want, ImageURLs(r, r.devices.Keys), lv.volumes, lv.reliable);
    forall u | u in keys ensures base(u).Some? {
      assert u in Elements(keys);
    }
    var s := FetchAll(lv, base, keys, have);
    if s.err.Some? {
      return false;
    }
    WholeIffFoundWhole(base, s.have, old(lv.volumes), old(lv.partial), lv.volumes, lv.partial,
                       VolumeNames(base, Elements(keys)));
    r.baseImages := Some(s.have);
    ImagesComplete(r, have.Keys, want);
  }

  lemma {:induction false} NothingWanted(base: BaseNames, want: set<string>, urls: set<string>, volumes: set<string>,
                                         reliable: bool)
    requires want <= urls && forall u | u in want :: base(u).Some? && (reliable ==> base(u).value !in volumes)
    ensures reliable && VolumeNames(base, urls) <= volumes ==> VolumeNames(base, want) == {}
  {
    assert forall u | u in want :: base(u).value in VolumeNames(base, urls);
  }

  lemma {:induction false} ImagesComplete(r: Runner, have: set<string>, want: set<string>)
    requires r.baseImages.Some? && r.baseImages.value.Keys == have + want == ImageURLs(r, r.devices.Keys)
    ensures HasImages(r)
  {
  }
}
