/**
 libvirt and the vbmc tool as the runner sees them: the names of what exists, and calls that may fail.

 A forward call may fail at any time, and then has no effect; creating, defining, starting or adding
 something that is already there always fails. A lookup of a volume and a cleanup call work whenever reliable holds, except
 that vbmc is run under the caller's context: once that is done it is not run any more.
 */
module Hypervisor {
  import opened Prelude
  import opened HardwareAddr

  /** What has been done to domains, in order: a successful run of virt-customize with these commands, or a start. */
  datatype Event = Customized(name: string, commands: string) | Started(name: string)

  /** What an interface of a domain is attached to. */
  datatype Source =
    | Network(name: string)
    | Tunnel(address: Option<nat>, port: nat, localAddress: nat, localPort: nat)

  datatype DomainInterface = DomainInterface(dev: string, mac: seq<Byte>, source: Source, pxe: bool)

  /** The parts of a domain definition that depend on the inventory. */
  datatype DomainArgs = DomainArgs(name: string, interfaces: seq<DomainInterface>, pxeBoot: bool)

  /** JoinHostPort and SplitHostPort cancel out, so the address is kept as its two parts. */
  datatype BMC = BMC(host: string, port: int, user: string, password: string)

  /** A device with its BMC. */
  datatype HostBMC = HostBMC(name: string, bmc: BMC)

  /** An entry of the ssh_config; the OOB server is the jump host of all of them. */
  datatype SSHHost = SSHHost(name: string, user: string)

  datatype SSHConfig = SSHConfig(server: nat, hosts: seq<SSHHost>)

  class Libvirt {
    const reliable: bool
    // The address the OOB server gets, if it gets any.
    const lease: nat
    var volumes: set<string>
    var defined: set<string>
    var running: set<string>
    var vbmcs: set<string>
    // Base image volumes that do not have all of their content.
    var partial: set<string>
    // How volumes, domains and BMCs with a name were last created.
    var backings: map<string, Option<string>>
    var definitions: map<string, DomainArgs>
    var bmcs: map<string, BMC>
    // BMCs that have been started and not been stopped, and those that were deleted while active.
    var started: set<string>
    var cutOff: set<string>
    // The two files that may be written.
    var sshConfig: Option<SSHConfig>
    var bmcConfig: Option<seq<HostBMC>>
    // The caller's context is done.
    var interrupted: bool
    var log: seq<Event>

    // ----- forward calls ----------------------------------------------------------

    /** A call without an effect on what exists, such as opening a connection or a pool. */
    method Call() returns (ok: bool)
    {
      ok := *;
    }

    method LookupVolume(name: string) returns (ok: bool)
      ensures ok ==> name in volumes
      ensures reliable ==> (ok <==> name in volumes)
    {
      ok := *;
      ok := (ok || reliable) && name in volumes;
    }

    /** A volume, on top of another one if there is a backing. */
    method CreateVolume(name: string, backing: Option<string>) returns (ok: bool)
      modifies `volumes, `backings
      ensures ok ==>
        name !in old(volumes) && volumes == old(volumes) + {name} && backings == old(backings)[name := backing]
      ensures !ok ==> volumes == old(volumes) && backings == old(backings)
    {
      ok := *;
      if ok && name !in volumes {
        volumes, backings := volumes + {name}, backings[name := backing];
      } else {
        ok := false;
      }
    }

    /** A volume for a base image, still without its content. */
    method CreateImage(name: string) returns (ok: bool)
      modifies `volumes, `partial
      ensures ok ==> name !in old(volumes) && volumes == old(volumes) + {name} && partial == old(partial) + {name}
      ensures !ok ==> volumes == old(volumes) && partial == old(partial)
    {
      ok := *;
      if ok && name !in volumes {
        volumes, partial := volumes + {name}, partial + {name};
      } else {
        ok := false;
      }
    }

    /** The transfer of the content. */
    method Upload(name: string) returns (ok: bool)
      modifies `partial
      ensures partial == old(partial) - if ok then {name} else {}
    {
      ok := *;
      if ok {
        partial := partial - {name};
      }
    }

    method DefineDomain(args: DomainArgs) returns (ok: bool)
      modifies `defined, `definitions
      ensures ok ==>
        && args.name !in old(defined) && args.name !in running && defined == old(defined) + {args.name}
        && definitions == old(definitions)[args.name := args]
      ensures !ok ==> defined == old(defined) && definitions == old(definitions)
    {
      ok := *;
      if ok && args.name !in defined && args.name !in running {
        defined, definitions := defined + {args.name}, definitions[args.name := args];
      } else {
        ok := false;
      }
    }

    method StartDomain(name: string) returns (ok: bool)
      modifies `running, `log
      ensures ok ==>
        name in defined && name !in old(running) && running == old(running) + {name} && log == old(log) + [Started(name)]
      ensures !ok ==> running == old(running) && log == old(log)
    {
      ok := *;
      if ok && name in defined && name !in running {
        running, log := running + {name}, log + [Started(name)];
      } else {
        ok := false;
      }
    }

    /** A run of virt-customize. */
    method VirtCustomize(name: string, commands: string) returns (ok: bool)
      modifies `log
      ensures log == old(log) + if ok then [Customized(name, commands)] else []
    {
      ok := *;
      if ok {
        log := log + [Customized(name, commands)];
      }
    }

    /** The address of a domain, once it has a lease. */
    method Lease() returns (ip: Option<nat>)
      ensures ip.Some? ==> ip.value == lease
    {
      var leased: bool := *;
      ip := if leased then Some(lease) else None;
    }

    method WriteSSHConfig(content: SSHConfig) returns (ok: bool)
      modifies `sshConfig
      ensures ok ==> sshConfig == Some(content)
    {
      ok := *;
      sshConfig := if ok then Some(content) else None;
    }

    method WriteBMCConfig(content: seq<HostBMC>) returns (ok: bool)
      modifies `bmcConfig
      ensures ok ==> bmcConfig == Some(content)
    {
      ok := *;
      bmcConfig := if ok then Some(content) else None;
    }

    // ----- vbmc, which runs under the caller's context ------------------------------

    /** An interrupt may come at any time. */
    method Notice()
      modifies `interrupted
      ensures old(interrupted) ==> interrupted
    {
      var now: bool := *;
      interrupted := interrupted || now;
    }

    /** The BMCs that answer. */
    ghost function Active(): set<string>
      reads `vbmcs, `started
    {
      vbmcs * started
    }

    /** vbmc add. When it is killed the BMC may have been added all the same. */
    method VbmcAdd(name: string, bmc: BMC) returns (ok: bool)
      modifies `vbmcs, `bmcs, `started, `interrupted
      ensures old(interrupted) ==> interrupted && !ok && vbmcs == old(vbmcs)
      ensures ok ==> name !in old(vbmcs) && vbmcs == old(vbmcs) + {name} && bmcs == old(bmcs)[name := bmc]
      ensures !ok ==> vbmcs == old(vbmcs) || (interrupted && name !in old(vbmcs) && vbmcs == old(vbmcs) + {name})
      ensures Active() == old(Active())
    {
      Notice();
      ok := *;
      if interrupted || !ok || name in vbmcs {
        return false;
      }
      vbmcs, bmcs, started := vbmcs + {name}, bmcs[name := bmc], started - {name};
      Notice();
      ok := !interrupted;
    }

    /** vbmc start with several names; when it fails it may have started some of them. */
    method VbmcStart(names: seq<string>) returns (ok: bool)
      modifies `started, `interrupted
      ensures old(interrupted) ==> interrupted && !ok
      ensures old(started) <= started <= old(started) + Elements(names)
      ensures ok ==> started == old(started) + Elements(names)
    {
      if interrupted {
        return false;
      }
      Notice();
      ok := *;
      ok := ok && !interrupted;
      if ok {
        started := started + set n | n in names;
      } else {
        var some: set<string> := *;
        started := started + (some * set n | n in names);
      }
    }

    /** vbmc stop with several names; when it fails it may have stopped some of them. */
    method VbmcStop(names: seq<string>) returns (ok: bool)
      modifies `started, `interrupted
      ensures old(interrupted) ==> interrupted && !ok
      ensures old(started) - Elements(names) <= started <= old(started)
      ensures ok ==> started == old(started) - Elements(names)
    {
      if interrupted {
        return false;
      }
      Notice();
      ok := *;
      ok := ok && !interrupted;
      if ok {
        started := started - set n | n in names;
      } else {
        var some: set<string> := *;
        started := started - (some * set n | n in names);
      }
    }

    /** vbmc delete with several names; when it fails it may have deleted some of them. */
    method VbmcDelete(names: seq<string>) returns (ok: bool)
      modifies `vbmcs, `cutOff, `interrupted
      ensures old(interrupted) ==> interrupted && !ok && vbmcs == old(vbmcs)
      ensures vbmcs <= old(vbmcs) && old(vbmcs) - vbmcs <= Elements(names)
      ensures ok ==> vbmcs == old(vbmcs) - Elements(names)
      ensures cutOff == old(cutOff) + (old(Active()) - vbmcs)
      ensures reliable && !interrupted ==> ok
    {
      if interrupted {
        return false;
      }
      Notice();
      ok := CleanupCall();
      ok := ok && !interrupted;
      var gone := set n | n in names;
      if !ok {
        var some: set<string> := *;
        gone := gone * some;
      }
      cutOff, vbmcs := cutOff + (gone * vbmcs * started), vbmcs - gone;
    }

    // ----- cleanup calls ----------------------------------------------------------

    method CleanupCall() returns (ok: bool)
      ensures reliable ==> ok
    {
      ok := *;
      ok := ok || reliable;
    }

    method DeleteVolume(name: string)
      modifies `volumes
      ensures volumes == old(volumes) || volumes == old(volumes) - {name}
      ensures reliable ==> volumes == old(volumes) - {name}
    {
      var ok := CleanupCall();
      if ok {
        volumes := volumes - {name};
      }
    }

    method UndefineDomain(name: string)
      modifies `defined
      ensures defined == old(defined) || defined == old(defined) - {name}
      ensures reliable ==> defined == old(defined) - {name}
    {
      var ok := CleanupCall();
      if ok {
        defined := defined - {name};
      }
    }

    method DestroyDomain(name: string)
      modifies `running
      ensures running == old(running) || running == old(running) - {name}
      ensures reliable ==> running == old(running) - {name}
    {
      var ok := CleanupCall();
      if ok {
        running := running - {name};
      }
    }
  }
}
