# A verified model of tinydocker's state handling

tinydocker is a small container runtime in C. Three parts of it decide whether the host stays consistent, and they are
what this project models and proves things about:

* the address pools of its networks: a lowest-free-address allocator over IPv4 ranges (prefix notation of section 3.1 of
  RFC 4632) in a text file that is loaded, edited, printed and published by rename under a lock, with readers that take
  none;
* the life of a container as a resource protocol: `run` acquires mounts, a cgroup, a process, an address, an interface, NAT
  rules and metadata stage by stage and must undo them on failure, a one-byte pipe gates the child, and `rm` is a second
  teardown that may be retried any number of times;
* the metadata file that connects the two: a strict key=value format, the volume list by which `rm` unmounts what `run`
  mounted, and a status that several commands rewrite without a lock.

Objects that the C code updates in place are classes (`NetworkRecord`, `Store`, `MountTable`, `NatTable`, `CgroupState`,
`Host`), and its loops are methods proved against specification functions; the laws are lemmas about those functions.
The concurrent protocols (`StoreProtocol`, `Handshake`, `StatusMachine`) are state machines over their steps, and their
theorems range over every schedule. Everything the operating system decides (a lock, a write, an unmount, a command, a
kill) is an arbitrary parameter, so each theorem holds whatever fails; a theorem that needs something to succeed says so
(`Quiet` in the names of predicates: no cleanup action is refused).

The modules, bottom up: `Text`, `Numbers`, `Ipv4`, `Names`, `Paths`, `VolumeSpec` (parsers and printers); `NetworkState`,
`NetworkFile`, `AddressPool`, `NetworkTable`, `NetworkStore`, `StoreProtocol`, `RetriedRelease` (networks); `StatusCodec`,
`MetadataRoundTrip`, `MetadataVolumes`, `StatusInfo`, `StatusCommands`, `StatusMachine` (metadata); `Mounts`, `MountOrder`,
`Volumes`, `NatRules`, `Cgroup`, `ContainerRun`, `Handshake`, `WorkspaceGuard`, `ContainerRemove` (containers).

`dafny verify dfyconfig.toml` checks the whole project.

## Where the code does not do what one would expect

Each of these is a lemma below, with the exact condition under which the expectation does hold.

* A CIDR such as `10.0.0.0/`, line feed, `24` is accepted and stored, because `strtol` skips white space
  (core/safety.c:70); the stored file can then not be read any more (`NetworkState.LineBreakInCidrIsAccepted`,
  `NetworkFile.ImageRoundTrip`, `NetworkStore.PublishedIsReadable`).
* The metadata writer accepts records that its reader refuses or changes (`MetadataRoundTrip.MetadataSurvivesIff`).
* `//` as a container path is the container root (`Paths.JoinHitsRootIff`). A volume past the 32nd that is mounted there hides
  all others, so that `rm` can take everything for unmounted and delete the workspace through the live mounts. The exact
  condition is `WorkspaceGuard.GuardHoldsIff`, the simplest case `WorkspaceGuard.RootVolumeDefeatsTheGuard`, the deletion
  `ContainerRemove.RemoveTooEarly`.
* A volume path accepted by the option parser may be too long behind the mount point; such a run fails, and although every
  cleanup action succeeds the workspace directory stays (`ContainerRun.Host.DockerRun`, `Volumes.JoinableIff`).
* A retried `rm` can report a busy mount although nothing is refused. Whether some sequence of earlier failures leads there
  is decided by the cuts of the mount list (`MountOrder.OnePassSufficesIff`); a mount point that is mounted again after
  something below it is necessary for it (`MountOrder.NoSandwichPasses`) but not sufficient
  (`MountOrder.SandwichCanBeHarmless`). The next retry succeeds (`Mounts.TwoQuietPassesSuffice`).
* When the kill of the child is refused, the cleanup of a failed run waits for a child that waits for its byte
  (docker/container.c:251-269). It would not if it closed its write end before it waits (`Handshake.NobodyWaitsForEver`,
  `Handshake.RefusedKillDeadlocks`).
* An `rm` that fails after giving the address back gives it back again when it is retried, even if another container has it
  by then, and removes that container's port mappings (`RetriedRelease.RetriedCleanupIsHarmlessIff`).
  `StoreProtocol.LiveHoldersDiffer` therefore speaks of holders whose address nobody has released.
* A status rewrite that was read before an `rm` and is published after it recreates the metadata file
  (`StatusMachine.RemovedForGoodIff`).
* Rules of an address with more than 30 tokens are never deleted (`NatRules.NatTable.DeleteDnatRules`).
* README.md:222 of tinydocker starts a container named `demo`. Names of fewer than six characters can never be started,
  since no interface name can be made from them (core/safety.c:386-388, `ContainerRun.StartedNamesAreLong`). The model
  follows the code.

## Model

| member | source | states |
|---|---|---|
| Numbers.ParseLongPrinted | core/safety.c:59-82 | The strict integer reader gives back every integer that was printed with %d, and accepts it exactly when it is in range. |
| Numbers.ParseUint64Printed | core/status_codec.c:70-85 | The 64-bit reader gives back every printed value up to 2^64 - 1. |
| Ipv4.NtopThenPton | docker/network.c:24-37 | An address survives being printed and read, for all 2^32 addresses. |
| Ipv4.PtonThenNtop | docker/network.c:24-37 | There is only one accepted text for an address, the printed one. |
| Ipv4.OctetOrder | docker/network.c:24-37 | Which number a dotted text stands for: a.b.c.d is a * 2^24 + b * 2^16 + c * 2^8 + d, printed and read. |
| Ipv4.AlignedFits | core/safety.c:226-230 | For every prefix the masked network and its broadcast stay within 32 bits, and up to /30 there is room for a gateway and a container; which prefix and network a text has is the next row. |
| Ipv4.CidrMeans | core/safety.c:186-232 | For every address a and prefix p up to 32 the text of a/p parses to prefix p and to the block of 2^(32-p) addresses, aligned to its size, that contains a. |
| Ipv4.ValidCidrIff | core/network_state.c:40-70 | Such a text is a valid network exactly when p is at most 30 and a is the first address of its block. |
| Ipv4.CidrLength | core/safety.c:186-232 | Every accepted CIDR text has 1 to 19 characters, so it fits the field of the record. |
| Names.ValidateName | core/safety.c:26-57 | The cursor loop accepts exactly the non-empty names of allowed characters up to the length, other than . and .. |
| Names.MakeVethName | core/safety.c:369-389 | The hash loop and the print compute the specified name, or refuse. |
| Names.VethNameDefined | core/safety.c:369-399 | An interface name exists exactly for valid names of at least six characters, and then both ends have 15 characters. |
| Names.FnvVectors | core/safety.c:369-389 | The hash has the published values of 32-bit FNV-1a on the empty text, a, and fo. |
| Names.VethShape | core/safety.c:369-399 | td, the first six characters of the container name, a dash, six hexadecimal digits of the hash; the peer has tp instead of td. |
| Names.HostIsNeverPeer | core/safety.c:391-399 | No host interface is ever named like any peer interface, over all pairs of containers. |
| Names.VethCollision | core/safety.c:369-399 | Two containers share an interface name exactly when their first six characters and the low 24 bits of their FNV-1a hashes agree. |
| Paths.HasUnsafePathComponent | core/safety.c:259-282 | The component loop finds a . or .. component exactly when there is one. |
| Paths.UnsafeFromIsHasUnsafe | core/safety.c:259-282 | What the cursor scan computes is the statement about the list of components of the whole path. |
| Paths.JoinRootfsPath | core/safety.c:284-315 | Joins or refuses exactly as specified: relative paths, the root, unsafe components and overlong results are refused. |
| Paths.JoinAcceptsIff | core/safety.c:284-315 | When it accepts, without naming the specification: both paths absolute, the container path not just a slash and without . or .. components, and room for the result. |
| Paths.JoinComponents | core/safety.c:284-315 | The components of a joined path are those of the root followed by those of the container path. |
| Paths.JoinNeverLeaves | core/safety.c:259-315 | Containment at every step: after k components of the container path the walk, with . and .. resolved, is exactly those k components below the root. |
| Paths.JoinHitsRootIff | core/safety.c:299-306 | A joined path is the root itself exactly when the container path consists of slashes only. |
| Paths.DoubleSlashPassesTheRootCheck | core/safety.c:299-302 | The check for / is not that condition: // is accepted. |
| VolumeSpec.ParsedIsValid | core/safety.c:123-184 | Whatever the volume parser accepts has two paths free of colons that meet the path rules. |
| VolumeSpec.AcceptedPathsIff | core/safety.c:123-184 | Which pairs of paths are accepted, in terms of their characters, lengths and components. |
| VolumeSpec.ModeMeans | core/safety.c:123-184 | Without a mode or with :rw the volume is writable, with :ro read-only, with any other mode refused. |
| VolumeSpec.VolumeRoundTrip | core/safety.c:123-184 | host:container:mode parses back to the same volume exactly for the volumes the command line accepts. |
| NetworkState.ValidateAllocatedAddresses | core/network_state.c:115-145 | The double loop accepts exactly the lists of distinct addresses strictly between gateway and broadcast. |
| NetworkState.FormatUsedIps | core/network_state.c:236-249 | The print loop produces exactly the specified list text when it fits the buffer, and refuses a zero address. |
| NetworkState.FormatNetworkRecord | core/network_state.c:213-251 | Prints the one text of a valid record when it fits the buffer, and refuses otherwise. |
| NetworkState.RecordText | core/network_state.c:230-249 | The text itself: name:bridge:cidr: and then each address followed by a semicolon. |
| NetworkState.FormatRecordLength | core/network_state.c:213-251 | A valid record prints to at most 1451 characters, so the buffer of 4096 never overflows. |
| NetworkState.ParseOneAddress | core/network_state.c:93-105 | One entry is accepted exactly when it is a number from 1 to 2^32 - 1 that has not occurred yet. |
| NetworkState.SplitFields | core/network_state.c:171-188 | The separator loop yields the fields exactly when there are four of them. |
| NetworkState.ParseUsedIps | core/network_state.c:72-113 | The separator loop reads exactly the specified list: no empty, zero, oversized or repeated entry, at most 128. |
| NetworkState.ParseNetworkRecord | core/network_state.c:147-211 | The line parser accepts and returns exactly what the specification does. |
| NetworkState.RecordRoundTrip | core/network_state.c:147-251 | A valid record, printed and parsed, comes back unchanged exactly when its CIDR text has no line break. |
| NetworkState.ParsedRecordIsValid | core/network_state.c:147-211 | Every parsed record is valid and can be printed again. |
| NetworkState.LineBreakInCidrIsAccepted | core/network_state.c:40-70 | The condition can fail: a line feed before the prefix length is accepted and printed, and the printed record is refused. |
| NetworkFile.PrintRecords | docker/network.c:213-224 | The print loop writes the image of the whole table, or fails when some record is invalid. |
| NetworkFile.NetworkRecordNamesAreUnique | core/network_state.c:253-272 | The double loop decides uniqueness of the names. |
| NetworkFile.LoadNetworkRecords | docker/network.c:65-158 | The line loop over the file loads exactly the specified table or refuses the file. |
| NetworkFile.LoadedIsStorable | docker/network.c:65-158 | Every loaded table is valid, uniquely named, within 128 records and can be stored again. |
| NetworkFile.ImageRoundTrip | docker/network.c:65-158 | Whole-file round trip: a printed table loads to itself exactly when no CIDR has a line break, is refused otherwise, and has at most 185856 bytes. |
| AddressPool.NetworkRecord.FirstFree | docker/network.c:682-693 | The candidate loop finds the least free address without 32-bit wrap-around, for every prefix up to 30. |
| AddressPool.NetworkRecord.Holds | docker/network.c:684-689 | The inner loop decides whether a candidate is in use. |
| AddressPool.NetworkRecord.Allocate | docker/network.c:677-698 | Appends the least unused address to the record in place and returns it, or leaves the record alone; looks at no more than used + 1 candidates. |
| AddressPool.NetworkRecord.Compact | docker/network.c:728-741 | The compaction loop leaves exactly the other addresses, in order, in place. |
| AddressPool.NetworkRecord.Release | docker/network.c:728-741 | The record keeps exactly the other addresses and stays valid. |
| AddressPool.AllocIsLeastUnused | docker/network.c:677-698 | The address handed out is usable, unused and the least such, within used + 1 of the first candidate (pigeonhole), and the list stays valid. |
| AddressPool.AllocFailsIff | docker/network.c:677-698 | An allocation fails exactly when min(128, 2^(32-prefix) - 3) addresses are in use. |
| AddressPool.CapacityOf | docker/network.c:677-698 | From the written text: a network a/p has min(128, 2^(32-p) - 3) addresses for containers, one for /30, five for /29, 128 from /24 on. |
| AddressPool.AllocThenRelease | docker/network.c:728-741 | Releasing what was just handed out restores the list verbatim. |
| AddressPool.ReleaseAlgebra | docker/network.c:728-741 | Releasing is idempotent and releases commute. |
| NetworkTable.ApplyKeepsValid | docker/network.c:262-345 | Every update of a valid table gives a valid table of at most 128 uniquely named records. |
| NetworkTable.ApplyKeepsStorable | docker/network.c:262-287 | The updated table can be read again exactly when the update does not add a CIDR with a line break. |
| NetworkTable.AddMeans | docker/network.c:262-287 | Adding succeeds exactly when there are fewer than 128 records, none of that name, and the record is valid; the record is then at the end, and found by its name. |
| NetworkTable.DeleteMeans | docker/network.c:321-345 | Deleting always succeeds and cuts out the one record of that name, all others staying as they were and in their order; the name is not found any more; a table without it is unchanged. |
| NetworkTable.AddressUpdatesMean | docker/network.c:652-748 | An allocation adds an unused address to the list of the one named network, a release takes the address from it, and nothing else in the table changes. |
| NetworkTable.AddressUpdateSucceedsIff | docker/network.c:652-748 | Both need the network to exist; a release needs a non-zero address, used or not, an allocation a network below its capacity. |
| NetworkTable.CapacityOverHistory | docker/network.c:652-748 | After any history of updates an allocation on an existing network fails exactly at the capacity. |
| NetworkTable.AllocThenReleaseTable | docker/network.c:652-748 | Allocation then release restores the whole table. |
| NetworkTable.UseSurvives | docker/network.c:652-748 | No update of anybody takes an address out of use except its release or the deletion of its network. |
| NetworkTable.NoTwoHolders | docker/network.c:652-748 | While an address is held, no later allocation of any history hands it out. |
| NetworkStore.Store.Load | docker/network.c:65-158 | A missing file is an empty table; any other is loaded whole or refused. |
| NetworkStore.Store.Write | docker/network.c:184-260 | Publishes the image of the whole table or leaves the file as it was. |
| NetworkStore.Store.Lookup | docker/network.c:671-676 | The search loop finds the first record of the name. |
| NetworkStore.Store.AllocNewIp | docker/network.c:652-708 | From the bytes of the file: load, find, allocate, publish; on any refusal the file and the result say nothing happened. On success the next reader finds an address that was not in use added to that network, and no other change. |
| NetworkStore.Store.ReleaseUsedIp | docker/network.c:711-748 | The same for a release, given the text of the address: the next reader finds every other address still in use, that one not, and no other change. |
| NetworkStore.Store.AddNetworkInfo | docker/network.c:262-287 | Publishes the table with the new record, unless the table is full, the name exists, or the record cannot be printed; the next reader finds the old records and the new one after them. |
| NetworkStore.Store.DropNamed | docker/network.c:333-338 | The in-place compaction loop keeps exactly the records of other names, in order. |
| NetworkStore.Store.DeleteNetworkInfo | docker/network.c:321-345 | When it reports success no record the next reader finds has that name, and the others are there as before, in their order; otherwise the file is untouched. |
| NetworkStore.PublishedIsReadable | docker/network.c:184-260 | After a published update the next reader sees exactly the updated table, unless the update added a CIDR with a line break, when it can read nothing. |
| NetworkStore.ReleaseByText | docker/network.c:711-716 | The text of an address names that address and no other. |
| StoreProtocol.EveryInterleavingIsSafe | docker/network.c:160-287 | Any number of commands, failures and crashes at any step: the visible file is the complete image of the committed table, every update was applied to the latest one, reports of success and failure are honest, and readers without the lock see one committed table. |
| StoreProtocol.HistoryOnlyGrows | docker/network.c:184-260 | A published update stays published. |
| StoreProtocol.LiveHoldersDiffer | docker/network.c:652-748 | In every interleaving two live holders never have the same address. |
| StoreProtocol.AloneUpdates | docker/network.c:160-287 | From every reachable state with the lock free: an update that works alone from there, applies to the committed table and meets no failure is published and reported as a success, and the visible file loads to the updated table. |
| StoreProtocol.ReadersNeverWait | docker/network.c:65-158 | In every reachable state, whoever holds the lock, a reader gets the committed table in its own two steps. |
| RetriedRelease.InUseIffHeld | docker/network.c:652-748 | Over any history that keeps the network a free address comes into use exactly by being handed to somebody who still has it. |
| RetriedRelease.RepeatedReleaseIsHarmlessIff | docker/container.c:216-224 | The release of a retried rm changes nothing exactly when nobody was given the address since the first release; otherwise it takes the address from them. |
| RetriedRelease.RetryTakesFromTheNextHolder | docker/container.c:216-224 | It does happen: the next run is given the released address, and the retried rm frees it under that run. |
| RetriedRelease.RetriedCleanupIsHarmlessIff | docker/container.c:216-224 | The whole network part of a retried rm, rules and address, changes nothing exactly when nobody was given the address meanwhile; a holder loses the address and every rule of it. |
| RetriedRelease.RetryAgainstTheNextRun | docker/container.c:216-224 | On the file and the chains: the next run is given the address and maps its ports, the retried rm leaves both as if that had not happened. |
| StatusCodec.KeyNames | core/status_codec.c:87-168 | The key names are distinct and free of = and line breaks, and each selects its field. |
| StatusCodec.ParseKeyValue | core/status_codec.c:87-169 | One key line is accepted and stored exactly as specified: known key, not seen before, value within its limits. |
| StatusCodec.ReadKeyLines | core/status_codec.c:199-235 | The loop with its seen bitmask accepts exactly the specified header, each key once. |
| StatusCodec.ReadVolumeLines | core/status_codec.c:206-218 | The volume part of the loop takes each line in order as a volume and refuses a line that is too long or more than announced; that there are not fewer is checked later. |
| StatusCodec.ParseContainerInfo | core/status_codec.c:171-252 | The parser accepts and returns exactly what the specification does. |
| StatusCodec.AcceptedShape | core/status_codec.c:199-245 | In every accepted file each required key occurs exactly once, volume_cnt is the last key, and exactly that many non-empty lines follow, which are the volumes. |
| StatusCodec.KeyOrderIsFree | core/status_codec.c:59-68 | Permuting the key lines before volume_cnt changes neither acceptance nor the result. |
| StatusCodec.WriteContainerInfo | core/status_codec.c:259-302 | The writer prints the one text of a record that passes its checks and refuses any other. |
| StatusCodec.PrintedLines | core/status_codec.c:281-300 | That text line by line, each key literally before its field, then one line for each volume. |
| MetadataRoundTrip.ParseOfPrinted | core/status_codec.c:171-302 | What reading a printed record gives in every case: the record with its lines stripped and empty volumes dropped, or a refusal. |
| MetadataRoundTrip.MetadataSurvivesIff | core/status_codec.c:259-302 | An accepted record is read back unchanged exactly when detach is 0 or 1, the name is valid, no volume is empty and the three unchecked texts fit a line; values with = and every 64-bit start time included. |
| MetadataVolumes.CreateVolumeStrings | docker/status_info.c:182-209 | Records the first 32 volumes as host:container:mode, or fails on an empty or overlong one. |
| MetadataVolumes.ParseVolumeStrings | docker/container.c:189-203 | The loop of rm parses every recorded volume, or reports corruption. |
| MetadataVolumes.RemovalSeesWhatRunMounted | docker/status_info.c:193-209 | Through printing, the file and parsing, rm works on exactly the first 32 volumes that run mounted, in order. |
| Mounts.PassUndoesMounts | docker/volumes.c:81-105 | Unmounting a list last first restores any table, for nested, repeated and differently spelled targets. |
| Mounts.TeardownIsCompleteIff | docker/container.c:205-215 | When a teardown reports success, nothing of the container is mounted exactly when at most one more mount sat on the root than the listed paths name. |
| Mounts.TwoQuietPassesSuffice | docker/container.c:205-215 | Whatever earlier passes left, two passes without refusals unmount everything and report it. |
| MountOrder.OnePassSufficesIff | docker/container.c:205-215 | One pass without refusals is enough after every sequence of passes refused anywhere, if and only if it is after every cut of the list of mounts. |
| MountOrder.NoSandwichPasses | docker/container.c:205-215 | In particular when no mount point is mounted again after something strictly below it. |
| MountOrder.SandwichCanBeHarmless | docker/container.c:205-215 | That is not necessary: a list with such a triple on which one pass is always enough. |
| MountOrder.CanEndTooEarlyIff | docker/container.c:205-232 | Over all lists of mounts, named paths and sequences of refused passes: a pass can report success with mounts left if and only if some mount on the root hides the earlier ones, everything after it is named, and a pass over the mounts up to it succeeds. |
| Mounts.QuietPassMayReportBusy | docker/volumes.c:81-105 | How it fails otherwise: the pass empties the table but still reports a busy mount. |
| Volumes.MountTable.Umount | docker/volumes.c:97-101 | Of the errors of umount, not being mounted is none. |
| Volumes.MountTable.UmountVolumes | docker/volumes.c:81-105 | The backward loop performs the specified pass: it goes on after failures, and EINVAL and ENOENT are not failures. |
| Volumes.MountTable.Rollback | docker/volumes.c:65-75 | The backward rollback loop performs the specified pass over the volumes before the failed one. |
| Volumes.MountTable.MountVolume | docker/volumes.c:34-63 | One round adds the volume's host directory at its container path below the mount point, read-only exactly when the volume is; or leaves nothing unless the clean-up of a failed remount is refused. |
| Volumes.MountTable.MountVolumes | docker/volumes.c:14-78 | All or nothing: exactly the n mounts, in order, each with the source, target and mode of its volume, or the old table when no rollback unmount is refused; with refusals what is left is a rollback from some point. |
| Volumes.MountTable.TeardownMounts | docker/container.c:205-215 | The volumes, then the root, whatever became of the volumes. |
| Volumes.JoinableIff | docker/volumes.c:42-47 | For a volume of the command line only the length of the joined path can be in the way; the parser admits paths that do not fit. |
| Volumes.LongVolumeIsNotJoinable | core/safety.c:123-184 | Such a volume exists for every mount point. |
| Volumes.GuardDownMeansGone | docker/container.c:225-232 | If the guard stays down, nothing of the container is mounted any more. |
| Volumes.QuietTeardownOfAll | docker/container.c:281-292 | Undoing a complete set of mounts without refusals restores the table. |
| Volumes.QuietTeardownOfRoot | docker/container.c:281-292 | Undoing no more than the root mount restores the table, and raises the guard exactly when some volume path cannot be built. |
| Volumes.RolledBackIsBounded | docker/volumes.c:65-75 | Whatever a failed mount_volumes leaves is within the bounds the cleanup relies on, refusals included. |
| NatRules.DestinationTestIsExact | docker/network.c:996-1003 | The ip: prefix test of a destination is equality of addresses. |
| NatRules.LineNamesDestination | docker/network.c:985-1003 | Looking for the destination in the tokens of a listed line finds it exactly for the rules of the address. |
| NatRules.MappingRules | docker/network.c:923-967 | Both rules of a port mapping belong to the address, and iptables lists them alike. |
| NatRules.PortsOfRules | docker/network.c:923-967 | Both rules of a mapping, as given and as listed, match the host port and send it to the container port of the address. |
| NatRules.PortsOfMappings | docker/network.c:923-967 | So the i-th rule that a list of mappings adds to a chain has the ports of the i-th mapping, the right way round. |
| NatRules.NatTable.MapPort | docker/network.c:940-963 | Adds both rules, or takes the first one back; the rules of other addresses are untouched either way. |
| NatRules.NatTable.SetPortMap | docker/network.c:923-967 | On success both chains gain exactly the mapping rules in order; on failure only short rules of this address were added. |
| NatRules.NatTable.DeleteDnatRules | docker/network.c:969-1024 | Deletes exactly the rules of the address, in order and with duplicates, if no deletion is refused and no such rule has more than 30 tokens; success is reported only then. |
| NatRules.NatTable.UnsetPortMap | docker/network.c:1026-1043 | On success both chains keep precisely the other addresses' rules; on failure those are untouched and no rule is added. |
| NatRules.NatTable.SetThenUnset | docker/network.c:923-1043 | Setting the mappings of an address, failing anywhere or nowhere, and then removing the address: both chains lose exactly its rules, so chains that had none are as before. |
| Cgroup.CgroupState.Prepare | docker/cgroup.c:223-260 | Creates the directory and owns it, or owns nothing; an existing directory of somebody else stays. |
| Cgroup.CgroupState.Cleanup | docker/cgroup.c:282-304 | Removes only what this attempt created, refuses an empty path, and keeps the flag when the removal fails. |
| Cgroup.CgroupPathsDiffer | docker/cgroup.c:56-69 | Different containers have different cgroup directories. |
| ContainerRun.Host.InitWorkspace | docker/workspace.c:235-279 | The mount point is known before the overlay is mounted on it; a failure leaves no mount. |
| ContainerRun.Host.PrepareFilesystem | docker/workspace.c:235-279 | What the workspace and volume stages leave, on success and on each failure. |
| ContainerRun.Host.ConnectContainer | docker/network.c:792-896 | Address and interface both acquired, or, when the undo is not refused, neither. |
| ContainerRun.Host.DisconnectContainer | docker/network.c:898-920 | Deletes only an interface with our mark; an absent one is fine. |
| ContainerRun.Host.CreateContainerInfo | docker/status_info.c:108-211 | Gives the record of the run exactly when every field fits its array; what the record says is `ContainerRemove.StartedRecord`. |
| ContainerRun.Host.WriteMetadata | docker/status_info.c:213-305 | The complete new file, or the old one. |
| ContainerRun.Host.ProcessStages | docker/container.c:522-588 | What the stages up to the child in its cgroup have acquired when one of them fails, and when none does. |
| ContainerRun.Host.NetworkStages | docker/container.c:590-604 | What the network and port stages have acquired when one fails; on success exactly the mapping rules of a fresh address. |
| ContainerRun.Host.ReleaseStages | docker/container.c:606-633 | Metadata and release: each pipe end closed at most once here, and the cleanup told which are left. |
| ContainerRun.Host.ReleaseProcess | docker/container.c:249-269 | Kills and reaps the child, then closes each open end once; after a refused kill it never ends if the child goes on waiting, and then nothing has changed. |
| ContainerRun.Host.CleanupNetwork | docker/container.c:271-279 | Gives back rules, interface and address of this run, each whatever became of the others. |
| ContainerRun.Host.CleanupFilesystem | docker/container.c:281-308 | Unmounts, and deletes the workspace only when nothing of the container is mounted. |
| ContainerRun.Host.RunStages | docker/container.c:519-633 | Every stage acquires what the state records, so that on failure the cleanup finds the host as its bookkeeping says. |
| ContainerRun.Host.CleanupRunFailure | docker/container.c:244-322 | From every state a failed stage can leave: exactly when it ends; then each pipe end is closed once, no workspace is deleted under a mount, no cgroup but the own is removed; without refusals everything is given back. |
| ContainerRun.Host.DockerRun | docker/container.c:506-704 | An existing container is refused without a trace; otherwise the container is started exactly when every stage is granted, and then has acquired everything (its record and mounts are spelled out in `ContainerRemove.StartedRecord` and `StartedMounts`); a failed run has, unless a cleanup action was refused, given back every resource, the workspace directory excepted exactly when some volume path cannot be built; directories of others survive in any case; a refused kill can block the cleanup. |
| ContainerRun.AddressGrantedIff | docker/network.c:652-698 | The network stage is given an address exactly when the file can be updated, the default network exists and its pool is not full. |
| ContainerRun.StartedNamesAreLong | core/safety.c:386-388 | No container with a name of fewer than six characters is ever started. |
| ContainerRemove.StartedRecord | docker/container.c:605-614 | Field by field, what every reader of the metadata of a started container gets: RUNNING, the pid and start time of the cloned process, its image, command, address and name, and the first 32 volumes. |
| ContainerRemove.StartedIsAlive | docker/status_info.c:394-442 | A refresh that finds the cloned process by its start time leaves that record alone. |
| ContainerRemove.StartedMounts | docker/container.c:519-545 | A started container has its root and, above it, every volume from the right source, at the right target and in the right mode. |
| StatusInfo.SoundIsReadable | docker/status_info.c:307-376 | A sound record, once written, is read back by every reader, within the size limit. |
| StatusInfo.SoundWithStatus | docker/status_info.c:378-392 | Rewriting the status keeps a record sound. |
| StatusInfo.OnlyTheStatus | docker/status_info.c:378-392 | A status rewrite changes no other field. |
| StatusCommands.Refresh | docker/status_info.c:394-442 | Leaves the file alone, or writes the record as read with EXITED, according to what the process table says. |
| StatusCommands.RefreshFile | docker/status_info.c:394-442 | On the bytes of the file: after reading and refreshing, every reader sees RUNNING exactly when it was RUNNING and the recorded process exists with the recorded start time, or the record has none, or nothing could be found out or written; all else is unchanged. |
| StatusCommands.UpdateStatus | docker/status_info.c:378-392 | Writes the current record back with only the status changed, or nothing. |
| StatusCommands.Watch | docker/container.c:1013-1031 | One waiting phase: looks again until the list is empty or unreadable or its polls are used up, and no earlier observation was empty. |
| StatusCommands.DockerStop | docker/container.c:989-1043 | STOPPED is written only for a RUNNING container, at the first observation of an empty process list, within 1 + time * 10 + 20 observations; without refusals it is written exactly when there is such an observation. |
| StatusMachine.EveryInterleavingIsHonest | docker/status_info.c:378-442 | Any number of unlocked refreshes, stops, exits and removals: the file, while it exists, is readable and is the record of the run but for the status; every STOPPED and EXITED ever published has its evidence. |
| StatusMachine.NeverRunningAgain | docker/status_info.c:378-442 | In every interleaving a status that is not RUNNING never becomes RUNNING again. |
| StatusMachine.StopAlonePublishes | docker/container.c:989-1043 | A stop alone that finds the process of the run and then no process makes every reader see STOPPED and the rest as it was. |
| StatusMachine.ExitAlonePublishes | docker/status_info.c:378-442 | A foreground run alone at the end of its container, or a refresh alone that does not find the process, makes every reader see EXITED. |
| StatusMachine.LivingIsLeftAlone | docker/status_info.c:394-442 | While the process of the run lives, which means that who looks finds it or finds out nothing, no interleaving of refreshes, stops and removals changes or removes the file. |
| StatusMachine.RemovedForGoodIff | docker/status_info.c:213-305 | Removed metadata stays removed in every continuation exactly when no command still holds a copy to write back; otherwise a rename recreates the file. |
| StatusMachine.CopyHeldAtRemoval | docker/status_info.c:394-442 | A schedule from a completed run on which the metadata is removed while another command still holds a copy. |
| ContainerRemove.CleanNetwork | docker/container.c:216-224 | Rules, interface and address in this order; success means that none is left. |
| ContainerRemove.RemoveCgroup | docker/cgroup.c:119-129 | Removes the directory whoever made it; an absent one is fine. |
| ContainerRemove.RemoveStorage | docker/container.c:225-235 | The workspace goes only after a teardown that reported success, and is deleted under a mount exactly when that report was wrong. |
| WorkspaceGuard.TeardownLeaves | docker/container.c:205-215 | What any teardown makes of what earlier ones have left of a container's mounts; that a success means none is left while the guard holds; and that one without refusals empties the table. |
| ContainerRemove.CleanContainerRuntime | docker/container.c:173-242 | In general: the workspace is deleted under a mount exactly when the teardown reports success and has left one. While the guard holds: never, gone metadata means nothing left, and the metadata is removed exactly on success. |
| ContainerRemove.DockerRm | docker/container.c:1046-1082 | A running container is not touched, in any state of the host. For a tracked one: success exactly when the metadata is gone, and then nothing is left; without refusals a container with at most 32 volumes that is not running loses all mounts, and everything else too when one pass can unmount its list. |
| ContainerRemove.RunThenRemove | docker/container.c:1046-1082 | A run and then an rm that finds a process with the start time of the cloned one: the rm fails, and the container still has everything it had acquired. |
| ContainerRemove.RemoveTwice | docker/container.c:1046-1082 | Two rms without refusals leave nothing of a container with at most 32 volumes, whatever failed before. |
| ContainerRemove.Perform | docker/container.c:989-1082 | Each of the commands keeps the invariant, whatever fails. |
| ContainerRemove.Session | docker/container.c:173-242 | Any sequence of refresh, stop, exit and rm with any failures: while anything of the container remains, its metadata remains. |
| ContainerRemove.SessionThenRemove | docker/container.c:1046-1082 | After any such sequence, once the process is gone, two rms without refusals leave nothing of a container with at most 32 volumes. |
| ContainerRemove.StartedIsTracked | docker/container.c:589-614 | A completed run whose volumes the guard can handle establishes the invariant that all these statements start from. |
| WorkspaceGuard.GuardHoldsIff | docker/status_info.c:182-191 | Exactly when the guard fails, over all volume lists and all sequences of refusals: some volume past the 32nd sits on the root, all later ones have named mount points, and a teardown of the mounts up to it succeeds. |
| WorkspaceGuard.GuardHoldsIffPlain | docker/status_info.c:182-191 | When no recorded volume is on the root, the first two conditions alone decide. |
| WorkspaceGuard.GuardHoldsWhenNamed | docker/status_info.c:182-191 | The guard holds with at most 32 volumes, or when none past the 32nd is on the root. |
| WorkspaceGuard.CutListRaisesTheGuard | docker/container.c:205-227 | With more than 32 volumes a guard that holds goes up at the first removal, so the workspace is kept. |
| WorkspaceGuard.RootVolumeDefeatsTheGuard | docker/container.c:205-232 | The guard does fail: with a 33rd volume on // and no refusal at all, the teardown reports success with the root and 32 volumes still mounted. |
| ContainerRemove.RemoveTooEarly | docker/container.c:225-232 | The consequence: whenever earlier removals have left such mounts, the next removal deletes the workspace under them. |
| Handshake.EveryInterleavingIsSafe | docker/container.c:485-503 | In every interleaving, with failures and deaths at any step, the command is executed only after cgroup, network, port maps and metadata succeeded; not once cleanup began; and a parent killed by the broken pipe has published the metadata. |
| Handshake.ReleasedMeansExecuted | docker/container.c:485-503 | In every schedule in which the child neither fails to switch its root nor dies: once all are at their end and the parent has released the child, the command was handed to execve. |
| Handshake.CommandCanBeExecuted | docker/container.c:485-503 | And for each number of command processes and both orders of closing there is such a schedule, without any failure. |
| Handshake.NobodyWaitsForEver | docker/container.c:568-633 | In every reachable state, whoever died, a step other than a death is possible unless all are at their end or the cleanup waits for a child that waits for the byte; that deadlock needs a refused kill, and closing the write end before the wait removes it; runs are bounded. |
| Handshake.RefusedKillDeadlocks | docker/container.c:249-269 | The deadlock is reached: a stage fails while the child waits, and the kill is refused. |
| Handshake.CanAlwaysFinish | docker/container.c:249-269 | The protocol can still be brought to its end without another death exactly when the cleanup does not yet wait, with its write end open, for a child that has switched its root. |
| Handshake.OwnWriteEndWouldBlock | docker/container.c:485-491 | Why the child closes its own write end before it reads: in the state it would otherwise be in, which no run of the model reaches, it would wait for ever after the parent has died. |

## Left out

- Durability: `fsync`, power loss and torn disk writes; a crash in the model is the death of a process.
- Kernel and tools: clone flags, namespaces, pivot_root, OverlayFS, cgroup limits, and what `ip`, `brctl` and `iptables` do
  beyond their effect on the modelled tables; each is an arbitrary success or failure.
- `create_network`, `delte_network` and the default bridge: only their updates of the state file are modelled
  (docker/network.c:262-345), not the bridge commands; deleting a network ends all claims on its addresses.
- Interface aliases and indexes: an interface is absent, ours or somebody else's; races on live interfaces are not decided
  here.
- `docker_exec`, `docker_commit`, `docker_top`, `docker_ps`, `docker_inspect`, `docker_stats`, image cache, tar extraction,
  environment loading, log files: input and output, no shared state of their own. Their refresh of the status is modelled.
- Option parsing, messages, logging, tables of output and timestamps: user interface; the clock's texts are parameters.
- Symbolic links in the host path of a volume (docker/volumes.c:38-43) and a failing execve: the mount source is the path as
  given, and the child is at its end when it has called execve.
- Memory exhaustion and null arguments: fixed arrays are bounded sequences, allocation does not fail.
- The /proc stat parser and the process list reader: their results are parameters; easy members.
- Two runs of one name at the same time: `container_exists` is an unlocked check, so one run per name is assumed.
- Loops over several container names in one stop or rm: each name is handled as by itself.
- ContainerRun.Host.DockerRun: ends where the child is released; waiting for a foreground container and its status rewrite
  are `StatusCommands.UpdateStatus` and `StatusMachine`. The pipe is two flags here; its interleavings are in `Handshake`.
- ContainerRemove.Session: commands of other containers between the steps are not interleaved; what they do to the shared
  state file is in `StoreProtocol` and `RetriedRelease`.
- ContainerRemove.SessionThenRemove: speaks of containers with at most 32 volumes; with more, `rm` keeps the workspace and the
  metadata while the guard holds (`WorkspaceGuard.CutListRaisesTheGuard`).
- ContainerRemove.StartedIsTracked: asks that the guard can handle the volumes (`WorkspaceGuard.GuardHoldsIff` says exactly
  which ones), that no rule of the address with more than 30 tokens was there before the run, and for what C strings and the
  option parser guarantee about the arguments.
- ContainerRun.Host.CleanupRunFailure: a wait that never ends is an outcome of its own, after which nothing more happens in
  this run; that the child ends by itself, or when the write end is closed, is a parameter here and a theorem in `Handshake`.
- StoreProtocol.EveryInterleavingIsSafe: assumes that no added CIDR has a line break; without that the next reader fails, as
  `NetworkStore.PublishedIsReadable` says exactly.
- Bit masks of network addresses are written as arithmetic modulo powers of two; the FNV hash stays on 32-bit vectors.
