/** The ways in which a run can panic, and what decides whether it will (runner/libvirt/runner.go, lines 178-257). */
module Hazards {
  import opened Prelude
  import opened Graph
  import opened InventoryBuilder
  import opened RunnerState
  import opened Hosts

  /** Apart from the comparison of port names. */
  datatype Hazard =
    | MacsRunOut       // an automatic MAC address would exceed 48 bits
    | NoHandleMap      // a domain handle is stored in a nil map
    | LonelyDevice     // gatherHosts meets a device without interfaces
    | UnparsablePrefix // an OOB server is customized whose prefix does not parse
    | NoServerHandle   // the ssh_config needs the nil handle of the OOB server

  const ALL_HAZARDS := {MacsRunOut, NoHandleMap, LonelyDevice, UnparsablePrefix, NoServerHandle}

  type Devices = map<string, Attributes>

  /** What decides about hazards: options, the simulated devices, and what is known of their interfaces and handles. */
  datatype Outlook = Outlook(
    prefix: string, writesSSHConfig: bool, devices: Devices,
    macsExhausted: bool, lonely: set<string>, handles: Option<set<string>>)

  /** The names with a domain handle; looking up a nil map finds none. */
  function Handles(domains: Option<set<string>>): set<string> {
    if domains.Some? then domains.value else {}
  }

  /** An OOB server that is customized. */
  predicate IsServer(a: Attributes) {
    a.role == OOBServer && a.osImage != ""
  }

  /** Its management prefix does not parse. */
  predicate IsBadServer(a: Attributes) {
    IsServer(a) && a.mgmtPrefix.None?
  }

  ghost function Servers(devices: Devices): set<string> {
    set n | n in devices && IsServer(devices[n])
  }

  ghost function BadServers(devices: Devices): set<string> {
    set n | n in devices && IsBadServer(devices[n])
  }

  ghost predicate Threatens(o: Outlook, h: Hazard) {
    match h
    case MacsRunOut => o.macsExhausted
    case NoHandleMap => o.handles.None? && o.devices.Keys != {}
    case LonelyDevice => Servers(o.devices) != {} && o.lonely != {}
    case UnparsablePrefix => BadServers(o.devices) != {}
    case NoServerHandle =>
      o.writesSSHConfig && SERVER !in o.devices && o.prefix + SERVER !in Handles(o.handles)
  }

  ghost function HazardsOf(o: Outlook): set<Hazard> {
    set h | h in ALL_HAZARDS && Threatens(o, h)
  }

  lemma {:induction false} NoHazards(o: Outlook)
    ensures HazardsOf(o) == {} <==> forall h :: !Threatens(o, h)
  {
    forall h ensures Threatens(o, h) ==> h in HazardsOf(o) {
    }
  }

  ghost function AttributesOf(r: Runner): Devices
    reads r`devices
  {
    map n | n in r.devices :: r.devices[n].attrs
  }

  /** The outlook of a runner behind buildInventory. */
  ghost function OutlookOf(r: Runner): Outlook
    requires r.Valid()
    reads r`devices, r`domains, r`objects, r.objects`interfaces
  {
    Outlook(r.cfg.namePrefix, r.writesSSHConfig, AttributesOf(r), false, Lonely(Lists(r)), r.domains)
  }
}
