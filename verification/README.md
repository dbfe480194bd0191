# Verification of runtopo

runtopo turns a DOT graph of a network into running virtual machines. Most of the program hands work
to libvirt, virt-customize and vbmc. What is modelled here is the part that decides things: who gets
which address, which UDP ports carry which cable, which MAC address an interface has, in what order
interfaces and domains are visited, what happens to the world when a step fails, and how the texts
that other programs read are written. `dafny verify dfyconfig.toml` checks everything.

The project follows the program:

| file | part of the program |
|---|---|
| `Prelude`, `Decimal`, `Graph` | small values, numerals, nodes, links, host names |
| `NaturalOrder` | the natural-order comparator |
| `HardwareAddr` | MAC addresses as numbers |
| `IPAllocation` | the address allocator, on a sorted list of ranges |
| `AutoManagement`, `Topology`, `Incidence` | the automatic management network, `Parse`, links at their devices |
| `Cabling`, `Pairing`, `InterfaceOrder`, `InventoryBuilder` | `buildInventory`: closed form, theorems about it, the sort, the loops |
| `Cables`, `MgmtWiring` | what the interfaces do for links and devices, in terms of their attributes |
| `VirtualBMC`, `RunnerState` | the BMC registry, the fields of a Runner |
| `Domains` | the definitions of domains |
| `AddressText` | MAC, IPv4 and IPv6 addresses as text |
| `Hosts`, `ManagementNetwork`, `HostsFile` | the host list, the end-to-end theorem, the dnsmasq file |
| `FanIn` | goroutines, the unbuffered channel and the collector |
| `Quoting`, `Commands`, `DeviceSetup` | shell quoting, virt-customize command files, the commands for a device and what they do |
| `Hypervisor`, `Images`, `Stages`, `Startup`, `Transaction` | libvirt as an oracle; the stages of `Run` and their rollback |
| `Hazards` | the ways in which `Run` can panic |
| `Lifecycle` | `Run`, `Destroy`, and sequences of them on one runner or on two |

How things are modelled:

- A Go string is a Dafny string with one char per byte. An IP address is the number of its position in
  netaddr's order. `uint` and `uint64` wrap around where the code's arithmetic is done in them.
- A Go map is iterated in an order nobody knows. Every such loop picks the next key with an arbitrary
  choice, so each contract holds for every order.
- The objects the program updates in place are classes: devices, the topology, the allocator, the
  BMC registry, the Runner. Their methods are proved against functions and predicates on values,
  and the theorems are about these.
- A panic is a result of its own (`None`, `false` or `Panic`), and contracts say when it happens.
- libvirt and vbmc are a record of the names that exist, of what disks, domains and BMCs were created
  from, of the BMCs that are active, and of what was customized with which commands. A forward call may
  fail at any time, and creating, defining, starting or adding what is already there always fails.
  `reliable` says that lookups of volumes and cleanup calls work. vbmc runs under the caller's context: once that is done (`interrupted`) no call
  of it has an effect any more, not even in a rollback.

## Findings

- **Ports.** The local ports are distinct exactly when no two links clash (`Pairing.DistinctIffNoClash`).
  A gap of at least the number of links that use a port is enough; if all links join two simulated
  devices the gap is also the limit (`Pairing.GapIsTheLimit`, and `Pairing.GapOfOneIsTooSmall` for
  two links). Nothing checks it when the inventory is built.
- **Comparator.** It panics exactly when a run of digits that does not fit an int meets another run of
  digits behind equal chunks (`NaturalOrder.NatCompare`), as for swp1 and swp99999999999999999999
  (`NaturalOrder.LargePortNumberPanics`).
- **MAC addresses.** The loop over the links panics exactly when the addresses it has to allocate
  exceed 48 bits (`InventoryBuilder.ConnectLinks`; `Pairing.LastBaseIsExhausted` is the last base).
- **Host list.** `gatherHosts` indexes the first interface of every device, and so it panics exactly
  when some device other than the two OOB devices is not linked to anything (`Hosts.GatherHosts`,
  `ManagementNetwork.SingleDeviceIsNotLinked`).
- **Rollback.** Volumes and domains are restored after every failure. BMC registrations are not, if
  the failure comes after startup, that is, when the ssh_config or the BMC file cannot be written
  (`Lifecycle.Run`, where `reached` is `Up`), and if the context is done when startup fails: the
  rollback uses the same context, so every BMC added so far stays (`VirtualBMC.BMCMan.StartAll`).
- **Base images.** The volume of a failed download is taken for the image by the next run. The entries
  are whole images exactly when none of the volumes that were found is such a rest, and no further
  download repairs one (`Images.DownloadBaseImages`).
- **A second attempt.** Two things leave a nil map of domain handles: a run that fails in
  `defineDomains` or behind it (`Transaction.WithDomains`), and a `Destroy` that succeeds
  (`Lifecycle.Destroy`). From then on no number of runs on this Runner succeeds, unless there is no
  device at all (`Lifecycle.FailAndRetry`, `Lifecycle.DestroyAndRetry`): where it comes to storing the
  first handle it panics, having defined a domain (`Stages.DefineDomains`).
- **Destroy.** It may be called on another Runner. On the Runner that ran it is refused, before
  anything is destroyed, exactly when some simulated device has a BMC (`Lifecycle.RunAndDestroyHere`).
- **ssh_config.** With `WriteSSHConfig` and without a handle for the OOB server, `Run` panics once
  everything has been started (`Transaction.Launch`), so it never succeeds
  (`Lifecycle.RunWithoutServer`).
  It lists every node that is no OOB device, fake ones included, which have no domain
  (`Transaction.SSHHosts`).
- **Networks without a name.** A link to a libvirt network whose right-hand side is empty becomes a
  tunnel to port 0 in the domain (`Domains.EndsInDomain`).
- **Command files.** A key is written into the file as it is. Blank lines aside, which virt-customize(1)
  says are ignored, a device gets exactly the commands that were meant if and only if every authorized
  key, without the newlines at its end, has no newline and no backslash at its end, and the DOT text
  does not end in a backslash (`Commands.CommandsUnderstood`). A second line in a key becomes a command
  of its own (`Commands.SecondLineIsCommand`), and a command that ends in a backslash swallows its
  successor (`Quoting.BackslashSwallows`). The hosts file on the OOB server comes out right whatever
  keys there are, unless there is no host and the last key ends in a backslash
  (`Commands.WrittenHostsRoundTrip`).
- **Addresses.** An IPv4-mapped IPv6 address prints like the IPv4 address in it, so a hosts file with
  one does not read back; all others do (`HostsFile.HostsFileRoundTrip`).

## Model

| member | source | states |
|---|---|---|
| NaturalOrder.ChunksCharacterised | runner/libvirt/helper.go:152-180 | Chunking is lossless and unique: the only list of maximal alternating digit and non-digit chunks that concatenates to the string. |
| NaturalOrder.NextChunk | runner/libvirt/helper.go:154-180 | The loop returns the longest leading run of one class, which is never empty, so both remainders shrink. |
| NaturalOrder.NatCompare | runner/libvirt/helper.go:152-203 | The loop refines the order on chunk lists: the sign of its result is that order, and it panics exactly for an overflow behind equal chunks. |
| NaturalOrder.MustAtoi | runner/libvirt/helper.go:205-211 | The conversion digit by digit, with its overflow check, yields the value of the numeral, and fails exactly if that does not fit a 64-bit int. |
| NaturalOrder.CompareOne | runner/libvirt/helper.go:188-199 | One comparison of two chunks decides by value, then by bytes, and panics exactly if both are digits and one overflows. |
| NaturalOrder.NatOrderTotal | runner/libvirt/helper.go:152-203 | The order is antisymmetric, zero only for equal strings, and transitive, on all strings. |
| NaturalOrder.ChunksTransitive | runner/libvirt/helper.go:188-199 | Mixed numeric and byte-wise comparison of chunks is transitive, in all combinations of the two classes. |
| NaturalOrder.FirstDifferenceDecides | runner/libvirt/helper.go:188-199 | Where two strings part, digits decide by value, and bytes only for equal values or other characters. |
| NaturalOrder.NumbersAscend | runner/libvirt/helper_test.go:11-28 | Interfaces of one kind sort by number, swp2 before swp10. |
| NaturalOrder.PrefixFirst | runner/libvirt/helper.go:182-203 | A string sorts before everything that only continues it. |
| NaturalOrder.BytesDecide | runner/libvirt/helper.go:196-198 | strings.Compare is negative exactly for a proper prefix or a smaller byte at the first difference. |
| NaturalOrder.LargePortNumberPanics | runner/libvirt/helper.go:205-211 | Two ports of one kind make the comparator panic if one number exceeds an int. |
| NaturalOrder.LastPortNumber | runner/libvirt/helper.go:205-211 | swp9223372036854775808 is the first port on which it panics. |
| HardwareAddr.Fold | runner/libvirt/runner.go:309-312 | The shift loop folds the base address to its big-endian number modulo 2^64, exactly for six bytes. |
| HardwareAddr.MacAddrFromUint64 | runner/libvirt/helper.go:142-150 | Panics exactly from 2^48 on; otherwise the six bytes decode to the number. |
| HardwareAddr.SixByteRoundTrip | runner/libvirt/runner.go:309-312 | Folding six bytes and encoding them again is the identity. |
| HardwareAddr.AssignedAddress | runner/libvirt/helper.go:142-150 | Different numbers below 2^48 get different addresses, which decode to them. |
| HardwareAddr.BigEndian | runner/libvirt/helper.go:146-149 | The most significant byte comes first, and consecutive numbers differ in the last byte. |
| IPAllocation.IPAllocator.constructor | topology/helper.go:11-17 | A new allocator has the addresses of the prefix, without network and broadcast address. |
| IPAllocation.IPAllocator.Reserve | topology/helper.go:22-28 | Succeeds exactly for free addresses and removes just that one. |
| IPAllocation.IPAllocator.Allocate | topology/helper.go:33-41 | Returns the least free address and removes just that one; fails exactly when none is free. |
| IPAllocation.WithoutMembers | topology/helper.go:22-41 | Shrinking, splitting or dropping a range removes one address from the set, and keeps the ranges sorted and disjoint. |
| IPAllocation.Replay | topology/helper.go:11-41 | For every sequence of calls: free, reserved and issued addresses are disjoint and together the usable pool. |
| IPAllocation.Drain | topology/helper_test.go:11-28 | Without reservations exactly 2^(W-bits)-2 allocations succeed, in increasing order, and none for the two longest prefix lengths. |
| IPAllocation.DrawnSmallest | topology/helper.go:33-41 | k allocations draw the k smallest free addresses, all different. |
| IPAllocation.SmallestUnique | topology/helper.go:33-41 | There is only one set of the k smallest. |
| IPAllocation.PrefixEnds | topology/helper.go:11-17 | A prefix ends with the addresses of its family, so the pool of an IPv4 prefix has only addresses below 2^32. |
| AutoManagement.SameAddresses | topology/topology.go:189-238 | Any two outcomes, for whatever iteration orders, use the same set of addresses. |
| AutoManagement.PoolSizes | topology/topology.go:189-238 | Requests that fit take one address each, so the rest of the pool is left to the other devices. |
| AutoManagement.LoopsAssign | topology/topology.go:189-238 | If no round runs dry the two loops give every managed device its own address: the requested one, or one of the smallest nobody requested. |
| AutoManagement.RoundFails | topology/topology.go:231-236 | A round finds no address only if the managed devices outnumber the pool. |
| AutoManagement.PortLinksAt | topology/topology.go:218-225 | The i-th attached device is wired from port swp(i+2) of the switch to its eth0. |
| AutoManagement.PortsDistinct | topology/topology.go:210-225 | No switch port is used for two devices. |
| AutoManagement.PortsAvoidFirst | topology/topology.go:174-179 | No device is attached to swp1, the port of the server. |
| Topology.T.AddDevices | topology/topology.go:46-52 | Succeeds exactly if every node that is not fake has a valid host name, and files every node under its name. |
| Topology.WhichNamesAreGood | topology/topology.go:46-52 | The names AddDevices accepts, in terms of the grammar of host names and the functions of the nodes. |
| Graph.HostnameGrammar | topology/helper.go:44-68 | The valid host names are the words of a grammar: a letter, then letters, digits and hyphens, no hyphen at the end. |
| Topology.T.ReserveExplicit | topology/topology.go:189-207 | For every order: succeeds exactly if the explicit addresses parse, are distinct and lie in the pool, and then has reserved just these. |
| Topology.T.WireDevices | topology/topology.go:210-238 | For every order: the attached devices and the drawn addresses after the completed rounds, and why it stopped early. |
| Topology.T.SetupAutoMgmtNetwork | topology/topology.go:142-241 | For all orders: succeeds exactly if the prefix parses and the pool suffices; then the addresses are an assignment and every managed device has its port. |
| Topology.T.Associate | topology/topology.go:60-77 | Succeeds exactly if all ends are known; each device then has the links that name it, and nil is dereferenced only for an uplink of a missing OOB device. |
| Topology.T.AssociateAll | topology/topology.go:60-77 | After the devices and the management network are set up, association always succeeds: no device is missing. |
| Topology.Parse | topology/topology.go:34-84 | Succeeds exactly if the names are valid and, if asked for, the management network can be set up; gives the nodes, the links, the link lists and the addresses. |
| Incidence.IncidentMultiplicity | topology/topology.go:68-75 | A link occurs at a device once per end that names it, twice for a loop. |
| Incidence.Handshake | topology/topology.go:60-77 | The lengths of all link lists add up to twice the two-ended links plus the one-ended uplinks. |
| Topology.T.ParsedHandshake | topology/topology.go:34-84 | So it is for the link lists of the devices of any topology that Parse returns. |
| Cabling.SlotMember | runner/libvirt/runner.go:364-423 | A device has a slot exactly for each end of a link that names it and for which the loop creates an interface. |
| Cabling.SlotsDistinct | runner/libvirt/runner.go:364-423 | No device gets two interfaces for one end. |
| Cabling.IfacesAppend | runner/libvirt/runner.go:365-423 | One iteration appends to every device the records of the ends of that link, and nothing else. |
| Pairing.SlotsShareLocalPort | runner/libvirt/runner.go:394-422 | Two interfaces share a local port exactly if they are the ends of a clash. |
| Pairing.DistinctIffNoClash | runner/libvirt/runner.go:364-433 | In the sorted inventory all local ports are distinct if and only if no two links clash. |
| Pairing.GapSuffices | runner/libvirt/runner.go:92-98 | A gap of at least the number of port-consuming links rules clashes out. |
| Pairing.GapIsTheLimit | runner/libvirt/runner.go:92-98 | If all links join simulated devices, the ports are distinct exactly up to that many links. |
| Pairing.GapOfOneIsTooSmall | runner/libvirt/runner.go:92-98 | Two links between two devices clash with a gap of one. |
| Pairing.EndsArePeers | runner/libvirt/runner.go:394-419 | The two ends of an ordinary link carry each other's ports and tunnel addresses. |
| Pairing.LinkIsWired | runner/libvirt/runner.go:364-433 | After the sort: both ends are in the inventory, are mutual peers, and nobody else listens on the ports they send to. |
| Pairing.AutomaticMacs | runner/libvirt/runner.go:314-318 | The i-th assigned address decodes to base plus i, so assigned addresses are distinct. |
| Pairing.LastBaseIsExhausted | runner/libvirt/helper.go:142-145 | With base ff:ff:ff:ff:ff:ff a single link exhausts the addresses. |
| Cables.NetworkInterface | runner/libvirt/runner.go:375-393 | An uplink of an OOB device is on network "default", a libvirt-network link on the one it names, with the port name and address of the link, no tunnel and no ports. |
| Cables.CableInterfaces | runner/libvirt/runner.go:394-422 | Every other link gives its simulated ends an interface each with the name, boot flag and address of its side, the tunnel address of the other node, and ports given by the number of cables before. |
| Cables.OneInterfaceEach | runner/libvirt/runner.go:364-423 | A device has exactly as many interfaces as link ends. |
| Cables.CableIsWired | runner/libvirt/runner.go:325-332 | Without clashes, the two ends send to each other at the tunnel addresses their nodes ask for, and nobody else listens there. |
| MgmtWiring.OOBDevicesAreWired | topology/topology.go:153-179 | The server's eth1 and the switch's swp1 are joined, and both have eth0 on network "default". |
| MgmtWiring.AddedDevices | topology/topology.go:143-170 | The devices that are added for missing ones are an OOB server and an OOB switch, simulated, with an image and without BMC, config file or tunnel address. |
| MgmtWiring.JoiningDevicesAreWired | topology/topology.go:209-225 | Exactly the devices with another role and without no_mgmt have their eth0 joined to the switch, on the ports swp2 to swp(k+1), one each. |
| MgmtWiring.AddressesAreUsable | topology/topology.go:182-238 | These devices have different addresses between network and broadcast address, none that of the server, and the requested ones. |
| MgmtWiring.DefaultPool | topology/topology.go:143-152 | Without a server in the graph the addresses are 192.168.200.1 to 192.168.200.253. |
| InterfaceOrder.NameLessTotal | runner/libvirt/runner.go:425-431 | Eth0 first, then natural order, is a strict total order on names. |
| InterfaceOrder.Less | runner/libvirt/runner.go:426-431 | The function literal computes that order, and panics exactly on two names that are not eth0 and on which the comparator panics. |
| InterfaceOrder.Eth0First | runner/libvirt/runner.go:425-433 | The first interface is eth0 exactly if the device has an eth0. |
| InterfaceOrder.SortedUnique | runner/libvirt/runner.go:425-433 | With distinct names there is only one sorted permutation, so the unstable sort has one result. |
| InventoryBuilder.CreateDevices | runner/libvirt/runner.go:320-363 | Succeeds exactly if all attributes are usable and no BMC is registered yet; makes one device per node that is not fake, replacing one of that name and keeping all others, and lists each wanted BMC once with its registered data. |
| RunnerState.WhichDevicesAreOK | runner/libvirt/runner.go:320-363 | That condition in terms of the attributes: for every node that is not fake, tunnelip parses, config can be read, and with bmc its domain is not registered yet. |
| InventoryBuilder.ConnectLeft | runner/libvirt/runner.go:366-406 | The branches at the left end: nothing, uplink, libvirt network or tunnel; what each appends, and whether the link goes on to its right end. |
| InventoryBuilder.ConnectRight | runner/libvirt/runner.go:407-422 | The right end appends the mirror image of the left end. |
| InventoryBuilder.ConnectLinks | runner/libvirt/runner.go:364-423 | The loop with its two counters appends the closed form to what every device had, and panics exactly if the MAC addresses run out. |
| InventoryBuilder.SortAll | runner/libvirt/runner.go:425-433 | Sorts every device's interfaces and keeps each list a permutation; panics only if some device has two port names that cannot be compared. |
| InventoryBuilder.BuildInventory | runner/libvirt/runner.go:302-435 | On a runner holding any devices: fails exactly for unusable devices; panics only if MAC addresses run out, and then always, or port names cannot be compared; otherwise there is a new device per node, devices of other topologies stay, and every list is sorted and holds what its device started with and the interfaces of its links. |
| InventoryBuilder.BuildAfresh | runner/libvirt/runner.go:302-435 | Without devices of other topologies, that is an inventory for the pairing theorems, sorted, with its BMCs registered. |
| Hosts.GatherHosts | runner/libvirt/customize.go:206-229 | Panics exactly if some device other than the OOB devices has no interface; otherwise one entry per device with eth0 first and an address. |
| Hosts.HostEntries | runner/libvirt/customize.go:206-229 | The list consists of exactly the devices, other than the OOB devices, that have an address and whose first interface is an eth0, each with that address and the MAC of that interface. |
| ManagementNetwork.OnlyEth0 | topology/topology.go:218-224 | The only eth0 of a managed device is its end of the link to the switch. |
| ManagementNetwork.FirstIsMgmt | runner/libvirt/customize.go:212-213 | The first interface of a managed device is the one wired to the management switch. |
| ManagementNetwork.LinkedIffInterfaces | runner/libvirt/customize.go:212 | A device has an interface exactly if some link has an end at it. |
| ManagementNetwork.BuildableIffFeasible | runner/libvirt/runner.go:302-435 | The order in which managed devices are attached makes no difference: MAC addresses and links suffice exactly under a condition on options, nodes and graph. |
| ManagementNetwork.ManagementHosts | runner/libvirt/libvirt_test.go:54-96 | End to end: succeeds exactly under conditions on options, nodes and graph, except that the sort may panic over port numbers that do not fit an int; then exactly one entry per managed device, with an address from the pool, distinct from the others and as requested, and the MAC of the eth0 wired to the switch. |
| AddressText.SplitJoin | runner/libvirt/customize.go:231-237 | Splitting what was joined gives the parts back, if none contains the separator. |
| AddressText.MACRoundTrip | runner/libvirt/customize.go:234 | A printed MAC address reads back. |
| AddressText.IPv6RoundTrip | runner/libvirt/customize.go:234 | Eight groups, printed with the longest run of zeros shortened, read back. |
| AddressText.IPRoundTrip | runner/libvirt/customize.go:234 | A printed address of either family reads back, except that an IPv4-mapped one comes back as the IPv4 address in it. |
| HostsFile.HostsFileRoundTrip | runner/libvirt/customize.go:231-237 | Reading the file gives the host list back if and only if no name contains a comma or a newline and no address is IPv4-mapped. |
| HostsFile.HostnamesArePlain | topology/helper.go:55-68 | Valid host names contain neither. |
| HostsFile.GenerateDnsmasqHostsFile | runner/libvirt/customize.go:231-237 | The loop writes a file that reads back as the hosts, for valid host names, exactly if no address is IPv4-mapped. |
| Commands.WriteCommands | runner/libvirt/runner.go:681-705 | The buffer holds the commands for the device in order: the topology file, the keys as they are, the host entries and the hosts file. |
| Commands.CommandsRoundTrip | runner/libvirt/runner.go:681-705 | The file is read back as these commands and nothing else, not even a blank line, if and only if no key contains a newline or ends in a backslash, and the DOT text does not end in one where it is sent. |
| Commands.CommandsUnderstood | runner/libvirt/runner.go:681-705 | Blank lines aside, it is read as the commands for the keys without the newlines at their ends if and only if no key has another newline or a backslash there, and the DOT text does not end in one where it is sent. |
| DeviceSetup.DeviceIsSetUp | runner/libvirt/runner.go:681-705 | With safe keys and blank lines aside, the commands read as: the DOT text exactly on the six Cumulus functions, each key for root and there also for cumulus, and on an OOB server the hosts, in order, and the hosts file. |
| DeviceSetup.WhoLogsIn | runner/libvirt/runner.go:682-693 | root may log in with each key, cumulus exactly on Cumulus Linux, nobody else. |
| Domains.TemplateArgs | runner/libvirt/runner.go:836-874 | The loop gives every interface its name, address, source and boot flag, and asks for PXE exactly if an interface does. |
| Commands.SecondLineIsCommand | runner/libvirt/runner.go:688-693 | The second line of a key becomes a command of its own. |
| Commands.KeyFileLeavesEmptyCommand | runtopo.go:146-165 | A key file that ends in a newline leaves an empty command behind. |
| Commands.WrittenHostsRoundTrip | runner/libvirt/runner.go:688-704 | For any keys: the last command writes a file that lists the hosts if and only if there are hosts or the last key does not end in a backslash, and no address is IPv4-mapped. |
| HostsFile.ManagementFileReads | runner/libvirt/libvirt_test.go:54-96 | The file of a managed topology reads back as its correct host list exactly if no assigned address is IPv4-mapped, and always with an IPv4 prefix. |
| FanIn.StepInv | runner/libvirt/runner.go:474-513 | Every step of a worker, the starting loop or the collector keeps the invariant and uses up one of the remaining steps. |
| FanIn.Conservation | runner/libvirt/runner.go:478-496 | In every reachable state running, blocked and received workers add up to numStarted. |
| FanIn.CollectorSafe | runner/libvirt/runner.go:493-513 | On return every worker has delivered its one result; the error is nil exactly if all succeeded, else the first received failure, never a mere interruption; the map then has every key's value. |
| FanIn.Progress | runner/libvirt/runner.go:714-723 | Until the collector returns some step is enabled; only running jobs can be waited for. |
| FanIn.Bounded | runner/libvirt/runner.go:714-723 | Every schedule of n jobs has at most 3n+2 steps, and the collector has returned exactly after that many. |
| FanIn.OrderIrrelevant | runner/libvirt/runner.go:493-513 | Runs whose jobs end alike agree in verdict and map, whatever the completion order. |
| FanIn.Schedule | runner/libvirt/runner.go:479-513 | The scheduler always finds an enabled step, and takes any enabled step that is wished for, so every interleaving can occur. |
| Images.CreateVolumeFromURL | runner/libvirt/volume.go:67-127 | Touches no volume that was there; leaves a whole image on success, and a partial one if it fails after creating it. |
| Images.FindImages | runner/libvirt/runner.go:449-467 | Present and wanted images together are the images of the devices, for shared images and any lookup results; with working lookups only missing ones are wanted. |
| Images.FetchAll | runner/libvirt/runner.go:474-505 | In any interleaving: only volumes of wanted images are added, those that were there are untouched, every new handle names a whole image, and the collector's guarantee holds. |
| Images.DownloadBaseImages | runner/libvirt/runner.go:437-514 | On success every device's image has its entry, so the missing-image panic cannot be reached; the entries are whole images if and only if no volume found was the rest of a failed download, which stays one; only base image volumes are added. |
| Stages.CreateVolumes | runner/libvirt/runner.go:516-578 | Creates the volumes of all devices, all new, each on top of the volume of its image, or takes back those it created; panics only if an image is missing. |
| Stages.DeleteDeviceVolumes | runner/libvirt/runner.go:582-604 | Deletes the volumes of the devices and no others. |
| Stages.DefineDomains | runner/libvirt/runner.go:606-641 | Defines all domains, each with the interfaces of its device, and stores their handles, or undefines those it defined and drops the map; panics only on a nil map, leaving exactly one domain of a device defined. |
| Stages.UndefineDomains | runner/libvirt/runner.go:645-662 | Stops and undefines the domains of the devices and no others. |
| Startup.StartJobs | runner/libvirt/runner.go:676-712 | Starts a job for every device with an image, with the commands for it, or panics, exactly if an OOB server is to be customized and some device has no interface. |
| Startup.CustomizeDomains | runner/libvirt/runner.go:664-724 | In any interleaving: succeeds only when every device with an image has been customized with its commands, and starts none; panics only, and in the first case always, for a device without interfaces or an OOB server whose prefix does not parse. |
| Startup.SortedDevices | runner/libvirt/runner.go:732-735 | All devices once, by function, in any order among equals. |
| Startup.StartListNames | runner/libvirt/runner.go:745-758 | The visited devices start exactly the domains of simulated devices with an image. |
| Startup.StartedByStartupOrder | runner/libvirt/runner.go:732-758 | Domains are started in the order OOB servers, OOB switches, exits, superspines, spines, leaves, TORs, hosts, others. |
| Startup.StartDomains | runner/libvirt/runner.go:726-764 | Starts exactly these, by function, and registers and starts all BMCs; or stops what it started, and leaves no BMC registered unless the context is done. No nil handle is used. |
| VirtualBMC.BMCMan.Add | runner/libvirt/vbmc.go:64-79 | Fails exactly for a registered name; otherwise a BMC with the configured address and credentials on the next port, and the registry stays contiguous. |
| VirtualBMC.BMCMan.PortsContiguous | runner/libvirt/vbmc.go:64-79 | After any calls the ports are distinct, contiguous from the first, and as many as the counter has advanced. |
| VirtualBMC.BMCMan.StartAll | runner/libvirt/vbmc.go:81-99 | Registers every entry with its data and makes it active, or leaves the external registry as it was unless the context is done; if it was done when the failure came, everything added stays. |
| VirtualBMC.BMCMan.StopAll | runner/libvirt/vbmc.go:101-114 | Stops and removes the entries and nothing else, and removes none while it is active. |
| Transaction.SSHHosts | runner/libvirt/runner.go:799-816 | One entry per node that is no OOB device, for cumulus exactly on the Cumulus functions. |
| Transaction.WriteConfigs | runner/libvirt/runner.go:243-254 | Panics if and only if the ssh_config is wanted and the OOB server has no domain handle; on success the wanted files have been written. |
| Transaction.CustomizeAndStart | runner/libvirt/runner.go:236-241 | In the log of events, every start comes after the customization of all devices with an image, each with its commands; on failure nothing it started keeps running. |
| Transaction.Launch | runner/libvirt/runner.go:236-256 | The same, and: an error after startup can only come from the two files; without a handle for a wanted ssh_config it panics once everything is up. |
| Transaction.HazardsStay | runner/libvirt/runner.go:618-641 | Defining the domains gives every device its handle and does not change the hazards. |
| Transaction.WithDomains | runner/libvirt/runner.go:224-241 | With the deferred cleanup: all domains defined and started, or domains and running domains as before and the handles gone; success only without hazards, panic only with one. |
| Transaction.WithVolumes | runner/libvirt/runner.go:215-257 | The same with volumes: the whole footprint is installed, or the world is unchanged. |
| Transaction.NothingOwed | runner/libvirt/runner.go:178-257 | What a successful run owes nothing of: disks on top of their images, domains with their interfaces, commands run, BMC data, files. |
| Lifecycle.OutlookAgrees | runner/libvirt/runner.go:188-257 | What decides about the hazards of a run can be read off the options, the topology and the runner beforehand, also if the runner holds devices of other topologies. |
| Lifecycle.LonelyDevices | runner/libvirt/customize.go:212 | The devices on which gatherHosts would fail are those without interfaces so far that no link names. |
| Lifecycle.Run | runner/libvirt/runner.go:178-257 | For a failure at any call: with working cleanup all is as before except base images, and BMCs exactly if startup had succeeded or possibly if the context is done; without it still nothing is lost. It succeeds only without hazards, with nothing owed and the BMCs active, and panics only with one or over port names. It leaves its BMCs registered, and no handles after an error in or behind defineDomains. |
| Lifecycle.FirstRun | runner/libvirt/runner.go:178-257 | On nodes: after a first run that succeeds, every node that is not fake has a new volume and domain, which runs exactly if it has an image, and an active BMC if it wants one; nothing else is new. |
| Lifecycle.RunWithoutServer | runner/libvirt/runner.go:776-779 | A run that wants the ssh_config never succeeds without a simulated OOB server or a handle of that name. |
| Lifecycle.Destroy | runner/libvirt/runner.go:262-300 | Removes the whole footprint and nothing else, deletes no active BMC, and leaves a nil map of handles; refused, removing nothing, exactly if buildInventory returns an error. |
| Lifecycle.DestroyUndoesRun | runner/libvirt/runner.go:259-261 | Installing and tearing down leaves everything as it was, except base images. |
| Lifecycle.RunAndDestroy | runner/libvirt/runner.go:259-300 | Run, then Destroy on another runner with the same options: it is not refused, and only base images remain. |
| Lifecycle.SecondBuildRefused | runner/libvirt/runner.go:344-349 | With its own BMCs registered, a topology can be built again if and only if no simulated device has a BMC. |
| Lifecycle.RunAndDestroyHere | runner/libvirt/runner_test.go:58-62 | After a successful run, Destroy on the same runner is refused, leaving everything installed, if and only if some simulated device has a BMC; otherwise it undoes the run. |
| Lifecycle.Retry | runner/libvirt/runner.go:606-641 | Once the map of handles is nil no number of runs succeeds, unless there is no device. |
| Lifecycle.FailAndRetry | runner/libvirt/runner.go:224-241 | A run that fails in defineDomains or behind it is followed by failures only. |
| Lifecycle.DestroyAndRetry | runner/libvirt/runner.go:290 | So is a successful Destroy. |
| Quoting.ShellRoundTrip | runner/libvirt/sshutil_test.go:127-135 | A shell reads exactly the words that were quoted, whatever they contain. |
| Quoting.BuildCommand | runner/libvirt/sshutil_test.go:38-46 | The assembled command line is read as the name and its arguments. |
| Quoting.CommandReads | runner/libvirt/customize.go:136-139 | One escaped command reads back, unless it ends in a backslash: then it goes on with the next line. |
| Quoting.CommandFileRoundTrip | runner/libvirt/customize.go:136-139 | A file of escaped blocks and raw lines reads back as its commands if and only if none of them ends in a backslash and no raw line contains a newline. |
| Quoting.MeantRoundTrip | runner/libvirt/runner.go:681-705 | Blank lines aside, it is read as its commands without the newlines at the ends of raw lines if and only if then none ends in a backslash and no raw line contains a newline. |
| Quoting.ReadsOn | runner/libvirt/customize.go:136-139 | Behind a newline that no backslash precedes reading starts afresh, whatever came before. |
| Quoting.BackslashSwallows | runner/libvirt/runner.go:684-692 | A command that ends in a backslash is read as one with its successor. |
| Quoting.NewlineSplits | runner/libvirt/runner.go:688-693 | A raw line with a newline in it is read as two commands. |

## Left out

- DOT parsing and the graph library: nodes, attributes and links are inputs. A topology enumerates its graph links in one order, chosen arbitrarily; the original may enumerate them differently in each call.
- Parsing of addresses, prefixes, MAC addresses and URLs: the parsed results are inputs, and the base name of a URL is a parameter.
- IPv6 zones.
- libvirt, virt-customize, vbmc, HTTP and files beyond the names that exist; handles and their reference counts; closing connections.
- The contents of volumes; domain XML beyond names, interfaces and the boot flag; the texts of the ssh_config beyond hosts and users and of the BMC file beyond its entries; udev rules, password hashes (and the panic if hashing fails), error and log messages, option setters.
- The commands of virt-customize that do not depend on the topology, and those for the network of the OOB devices.
- String conversion of device functions and the table of built-in defaults.
- Ports above 65535, explicit MAC addresses that collide, and a BMC port range that runs out: the program does not check them.
- sort.Slice itself: its contract, a sorted permutation, is assumed by callers, and an insertion sort stands in for it.
- Comments and leading blanks in virt-customize command files; the shell beyond quoting and words.
- Waiting for a DHCP lease may take forever in the original; here it ends, with success or failure.
- After a panic nothing is promised about the world, and nothing is undone.
- InventoryBuilder.SortAll: whether two names that cannot be compared meet is up to the sort, so with such names it may panic or not.
- ManagementNetwork.ManagementHosts: the same.
- Lifecycle.Run: outside vbmc, a context cancelled by the caller is just one more reason for a call to fail.
- Startup.CustomizeDomains: what a job does to a disk image is not modelled, only how it ends.
- Lifecycle.Destroy: an existing connection is not reused; connecting is one more call that may fail.
