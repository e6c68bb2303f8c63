# Verified model of the GE360 Bridge control plane

GE360 Bridge gives devices access to local services through WireGuard. Its control plane keeps registries of
devices, resources and groups, enrolls devices, updates and backs up itself, restarts unhealthy services, and helps
devices through NAT by hole punching or a relay. This project models the parts of it that are protocols, loops over
state or wire formats, and proves what they promise.

| modules | what they model |
|---|---|
| `UpdatePaths`, `UpdatePackage`, `UpdateRollback`, `UpdateEngine`, `UpdateHost`, `UpdateLimits`, `Retention`, `Names` | the update transaction: package format, software snapshots, installation, rollback at every failure point |
| `BackupArchive`, `BackupStore` | configuration backups and their restoration |
| `RelayServer`, `RelayPump`, `RelayFallback` | the session table of the relay, its pump threads, and the protocol between client, relay and Bridge |
| `ReconnectPolicy`, `Tunnel` | backoff and tunnel controller of the Android client |
| `TraversalSessions`, `TraversalAttempt` | hole punching sessions and attempts |
| `SlidingWindow`, `RequestGate`, `SelfHealing` | a theory of sliding windows over whole runs, and its users |
| `Registry`, `RegistryMeaning`, `RegistryIntegrity`, `RegistryStore`, `Access` | registries, their operations and files, and access decisions |
| `Pairing` | single-use enrollments |
| `Bits`, `StunCodec`, `StunClient` | the STUN parsers of the Bridge and of the Android client (RFC 5389) |
| `Metrics` | bucketing of cumulative counters |

The form follows the program. What updates fields in place is a class, what loops is a method with a loop, and both
are tied to functions about which the properties are proved. Lemmas whose names end in `Means` or `Refusals` say what
these functions compute, in fields and numbers. Threads that interleave (`RelayPump`, `RelayFallback`,
`Tunnel`) are state machines whose steps are single accesses, requests or lock sections, and the theorems hold over
every sequence of steps.

Assumptions. The clock does not go back. `RelayServer.Relay.CreateSession`, `TraversalSessions` and `SelfHealing`
follow the several readings, or the time after a reading, of the program; elsewhere an operation reads the clock once.
Readings that the program takes before a lock are taken to come in the order of the sections under that lock
(`RequestGate`, `TraversalSessions`).
Random ids are new. An atomic rename is one step. SHA-256 is any function, and injective or of 64 hexadecimal digits
only where a lemma says so. JSON encoders are any functions that decode to what they encoded, and of bounded expansion
only where a lemma says so. Validators of texts, restarts, health checks, WireGuard commands and permissions answer
from outside; commands and file operations may fail at any point unless the model says otherwise. Software targets are
regular files. Byte counts and counters are unbounded as in Python; the 64-bit arithmetic of the Android client is
written out.

Results that a reader might not expect, each with its exact condition and, where it is not obvious, a run that shows
it:

- A software snapshot may be written that cannot be read again: its total size is checked only on reading
  (`UpdateRollback.SnapshotReadsBack`, `UpdateLimits.UnreadableSnapshot`). The same holds for a package that is built
  (`UpdatePackage.PackageRoundTrip`, `UpdateLimits.UnreadablePackage`).
- A full relay refuses a device that already has a session (`RelayServer.Relay.CreateSession`), and with two readings
  of the clock a device can get a second session (`RelayServer.SecondSession`, `RelayServer.TwoSessionsForOneDevice`).
- The last status that a relay client polls for is never looked at (`RelayFallback.RequestAndWait`).
- A device renamed to the id of another one is found in its place, and the relay then serves the wrong peer
  (`RelayFallback.FoundByItsOwnId`, `RelayFallback.WrongDeviceIsSet`).
- After a crash between two saves an enrollment can create a second device, if the first is renamed meanwhile
  (`Pairing.Enrollments.SecondDevice`, `Pairing.TwoDevicesFromOneEnrollment`).
- Self-healing limits restarts by the start of their run, so that ten minutes can see four restarts
  (`SelfHealing.Healer.Run`, `SelfHealing.FourRestarts`); its waiting time is cut to whole seconds
  (`SelfHealing.RetryAfterIsExact`).
- After a crash between the two writes of the resources the removal of the last resource is undone
  (`RegistryStore.CrashBetweenWrites`).
- With two MAPPED-ADDRESS attributes the two STUN parsers disagree (`StunClient.TwoMappedAddressesDisagree`).
- The first reconnect comes after twice the initial delay (`Tunnel.DelaysAreBackoffs`), and a valid policy with delays of
  2^62 milliseconds yields negative ones (`ReconnectPolicy.DelaysAreBackoff`, `ReconnectPolicy.OverflowingPolicy`).

## Model

| member | source | states |
|---|---|---|
| `UpdateHost.Host.ApplyUpdate` | ge360_bridge/update_engine.py:624-703 | Every outcome with the answers that lead to it, at every failure point. Rejected if and only if the package is refused, not newer or not staged; without a configuration backup, or with too large a file, nothing is installed. Updated only after restart, health check and history said yes, and then each payload file is at its target and every other path as before; rolled back only after the recovery was answered yes, and then the software is exactly as before, as it is when rejected or aborted. On a disk without faults the answers decide: every yes ends in an update, and a no after the installation in a rollback whose success is that of the recovery, if the new snapshot is the newest and readable. |
| `UpdateHost.Host.InstallPayload` | ge360_bridge/update_engine.py:427-446 | All targets hold their payload, or, after a failure at any file, only targets changed. |
| `UpdateHost.Host.CreateSoftwareRollback` | ge360_bridge/update_engine.py:367-424 | A snapshot that is made records what is installed; the three newest snapshots stay, nothing later than one that stays is dropped, and the new one stays if it is the newest; otherwise it fails and installs nothing. |
| `UpdateHost.Host.RestoreSoftwareRollback` | ge360_bridge/update_engine.py:486-505 | Restores a prefix of the snapshot, and all of it on success; an unreadable snapshot changes nothing. |
| `UpdateHost.Host.RestoreOne` | ge360_bridge/update_engine.py:492-505 | One file of a snapshot is restored or left alone; a file that fails its checks is never installed. |
| `UpdateHost.Host.Recovery` | ge360_bridge/update_engine.py:671-673 | From any state between the installations, restoring keeps everything outside the targets, and a complete restore gives the software from before the update. |
| `UpdateHost.InstalledHolds` | ge360_bridge/update_engine.py:444-446 | Installing an enumeration of the payload establishes the meaning of a successful update. |
| `UpdateHost.AcceptedPayload` | ge360_bridge/update_engine.py:213-300 | The payload of an accepted package has canonical names only and at most 256 files. |
| `UpdateEngine.InstallHolds` | ge360_bridge/update_engine.py:444-446 | In any order, each file ends up with its own payload and nothing but targets changes; rests on distinct targets. |
| `UpdateEngine.RestoreProgress` | ge360_bridge/update_engine.py:486-505 | Restoring any prefix of a snapshot, from any state that agrees with the original outside the targets, keeps that agreement and settles the prefix. |
| `UpdateEngine.RestoreRecovers` | ge360_bridge/update_engine.py:486-505 | A complete restore gives exactly the original from any such state: after a partial installation, an interrupted restore or a complete one. |
| `UpdateEngine.RestoreItemMeans` | ge360_bridge/update_engine.py:486-505 | An entry of a snapshot is restored if and only if the saved bytes have its size and digest, or there are none for a file that did not exist; then its target alone changes, to those bytes or to nothing. |
| `UpdatePaths.SafeIsCanonical` | ge360_bridge/update_engine.py:88-111 | What the path check returns passes it again, unchanged. |
| `UpdatePaths.SafeMeans` | ge360_bridge/update_engine.py:88-111 | A path is accepted if and only if it is relative, without parent steps and backslashes, and its normal form is a Python file of the package with word names, one of the three scripts, or a unit of the bridge; the result is that normal form. |
| `UpdatePaths.UnitNameMeans` | ge360_bridge/update_engine.py:106-111 | The accepted units, spelled out: the name of the bridge, perhaps a suffix behind a hyphen, and the ending of a service or timer. |
| `UpdatePaths.ModuleTarget` | ge360_bridge/update_engine.py:114-127 | The target and the mode of a Python file. |
| `UpdatePaths.ScriptTargets` | ge360_bridge/update_engine.py:114-127 | The targets and modes of the three scripts. |
| `UpdatePaths.UnitTarget` | ge360_bridge/update_engine.py:114-127 | The target and the mode of a unit. |
| `UpdatePaths.TargetsAreDistinct` | ge360_bridge/update_engine.py:114-120 | Different canonical logical paths are installed at different places. |
| `UpdatePaths.PartsOfJoin` | ge360_bridge/update_engine.py:93-96 | Joining path parts and splitting them again is the identity, on parts without slashes that are neither empty nor a dot. |
| `UpdatePackage.ReadPackage` | ge360_bridge/update_engine.py:213-300 | The loops compute the result of the specification, with the same error for every refused archive. |
| `UpdatePackage.EntriesFit` | ge360_bridge/update_engine.py:266-285 | The manifest loop passes if and only if every entry fits its payload (mode, size, digest) and no path is declared twice. |
| `UpdatePackage.ScanMeans` | ge360_bridge/update_engine.py:222-251 | The loop over the members passes if and only if every member is regular, complete, of at most four mebibytes and permitted, none comes twice after normalization, and the total keeps to the limit; it gives exactly what they carry. |
| `UpdatePackage.ReadMeans` | ge360_bridge/update_engine.py:213-300 | An archive is accepted if and only if it keeps to the limits, can be scanned, and has a complete manifest of the known schema and of a valid version that declares the payload and nothing else; the result is that manifest and that payload. |
| `UpdatePackage.MemberRefusals` | ge360_bridge/update_engine.py:222-251 | The cause of each refusal of a member. |
| `UpdatePackage.EntryRefusals` | ge360_bridge/update_engine.py:266-285 | The cause of each refusal of an entry of the manifest. |
| `UpdatePackage.ManifestRefusals` | ge360_bridge/update_engine.py:253-300 | The cause of each other refusal of a manifest. |
| `UpdatePackage.AcceptedIsDescribed` | ge360_bridge/update_engine.py:253-300 | In an accepted archive payload names and manifest names are the same set, every runtime file is there, and the versions agree. |
| `UpdatePackage.ManifestDeterminesPayload` | ge360_bridge/update_engine.py:278-287 | Under an injective hash a manifest fits at most one payload. |
| `UpdatePackage.TamperingShows` | ge360_bridge/update_engine.py:213-300 | Under an injective hash two accepted archives with one manifest carry the same files. |
| `UpdatePackage.BuildUpdatePackage` | ge360_bridge/update_engine.py:725-789 | Collects exactly the files the tree offers for distribution, each once and sorted, behind a manifest; or refuses, with the error of the first check that fails and only then. |
| `UpdatePackage.CollectedMeans` | ge360_bridge/update_engine.py:725-741 | The files of a tree that are offered: Python files of the package, the three scripts, and services and timers whose name begins like the bridge. |
| `UpdatePackage.BuiltIsDescribed` | ge360_bridge/update_engine.py:758-775 | The built manifest fits the files it was built from. |
| `UpdatePackage.ScanBuilt` | ge360_bridge/update_engine.py:222-251 | Scanning built members gives back exactly the manifest and the files, or fails if they exceed the limits. |
| `UpdatePackage.PackageRoundTrip` | ge360_bridge/update_engine.py:744-789 | A built package reads back as its manifest and files if and only if it keeps to limits that the builder does not check. |
| `UpdateLimits.UnreadablePackage` | ge360_bridge/update_engine.py:744-789 | Witness: a complete tree of files of the largest permitted size is built without complaint, and its package is refused whatever its compressed size. |
| `UpdateRollback.SnapshotReadsBack` | ge360_bridge/update_engine.py:449-483 | A snapshot reads back as what was installed if and only if its total size is within the reading limit, which is not checked when it is written. |
| `UpdateLimits.FullFilesDoNotReadBack` | ge360_bridge/update_engine.py:449-466 | Nine or more installed files of the largest permitted size do not read back. |
| `UpdateLimits.UnreadableSnapshot` | ge360_bridge/update_engine.py:367-414 | Witness: on a disk without faults, with every file of a complete package installed at the largest permitted size, a snapshot is made and kept and cannot be read again. |
| `UpdateRollback.LoadSaved` | ge360_bridge/update_engine.py:457-479 | Reading saved members gives the saved payload, or nothing if the limits are exceeded. |
| `UpdateRollback.LoadMeans` | ge360_bridge/update_engine.py:457-479 | The loop over the members of a snapshot passes if and only if every member fits and the total keeps to the limit; the last manifest and the last payload of each path count. |
| `UpdateRollback.ReadRollbackMeans` | ge360_bridge/update_engine.py:449-483 | Which snapshot and payload a file gives, if any, for every list of members. |
| `Names.Sort` | ge360_bridge/update_engine.py:741 | All names of a set in strictly ascending order. |
| `Names.SortedListIsUnique` | ge360_bridge/update_engine.py:741 | A set of names has one sorted list, so the order of what is written is determined. |
| `Names.BelowMeans` | ge360_bridge/update_engine.py:741 | The order of names is that of a dictionary: by the first character in which they differ, and a prefix first. |
| `Retention.SortNewestFirst` | ge360_bridge/update_engine.py:418-422 | A strictly ordered enumeration of all files, newest first, ties by name. |
| `Retention.SlicingRetains` | ge360_bridge/backup.py:310-325 | Keeping the first files of the sorted list keeps the newest ones. |
| `Retention.RetainedIsUnique` | ge360_bridge/update_engine.py:417-424 | Which files stay is determined by their times and names. |
| `Retention.NewestIsRetained` | ge360_bridge/update_engine.py:417-424 | The newest file always stays. |
| `Retention.LatestIsRetained` | ge360_bridge/update_engine.py:417-424 | A file that is later than all others stays, and of files of the same time the one with the greatest name. |
| `Retention.DroppedIsOlder` | ge360_bridge/update_engine.py:417-424 | What is dropped is never later than what stays. |
| `Retention.Prune` | ge360_bridge/update_engine.py:417-424 | What is left are the newest files, or, after a failure, a superset of them; contents do not change. |
| `BackupArchive.ReadBackup` | ge360_bridge/backup.py:417-477 | The loops compute the result of the specification, with the same error for every refused archive. |
| `BackupArchive.DeclaredFit` | ge360_bridge/backup.py:458-474 | The manifest loop passes if and only if every entry fits its file and no name is declared twice. |
| `BackupArchive.AddMembersMeans` | ge360_bridge/backup.py:424-442 | The loop over the members passes if and only if every member is regular, complete, of at most two mebibytes and permitted, and no name comes twice; it gives their data. |
| `BackupArchive.ReadArchiveMeans` | ge360_bridge/backup.py:417-477 | Which manifest and files an archive gives, if any: exactly those that its members are, if the manifest accounts for the files, leaves out client keys and the files form a valid snapshot. |
| `BackupArchive.SnapshotMeans` | ge360_bridge/backup.py:107-163 | A snapshot has every required file and no file that is neither required nor optional. |
| `BackupArchive.FileRefusals` | ge360_bridge/backup.py:424-442 | The cause of each refusal of a member. |
| `BackupArchive.DeclaredRefusals` | ge360_bridge/backup.py:458-474 | The cause of each refusal of an entry of the manifest. |
| `BackupArchive.ArchiveRefusals` | ge360_bridge/backup.py:417-477 | The cause of each other refusal of an archive with a manifest. |
| `BackupArchive.NoManifestIsRefused` | ge360_bridge/backup.py:447-451 | Without a manifest, or with one that cannot be decoded, there is no backup. |
| `BackupArchive.AcceptedAccounts` | ge360_bridge/backup.py:417-477 | The files of an accepted backup are exactly those of its manifest, complete, permitted and intact. |
| `BackupArchive.ManifestDeterminesFiles` | ge360_bridge/backup.py:466-474 | Under an injective hash two accepted backups with the same entries hold the same files. |
| `BackupArchive.TarReadsBack` | ge360_bridge/backup.py:424-442 | Reading the members that were written gives back the files and the manifest. |
| `BackupArchive.BackupRoundTrip` | ge360_bridge/backup.py:350-388 | A backup of any valid configuration reads back as exactly that configuration, for an encoder that needs a bounded number of bytes for each entry and character. |
| `BackupArchive.ManifestIsSmall` | ge360_bridge/backup.py:352-370 | The manifest of a backup stays below the size limit of a file: there are at most 18 names. |
| `BackupStore.Configuration.SnapshotSources` | ge360_bridge/backup.py:254-281 | Captures exactly the files a backup covers, if and only if they form a valid snapshot within the size limit. |
| `BackupStore.Configuration.CreateBackup` | ge360_bridge/backup.py:328-404 | A scheduled backup is skipped if and only if the day has one; a new backup records the captured files and stays; only the newest backups stay, and none that is dropped is later than one that stays; an existing name is never overwritten; a new backup that pruning drops at once is an error. On a disk without faults each refusal comes exactly for its cause. |
| `BackupStore.Configuration.StoreBackup` | ge360_bridge/backup.py:370-404 | The new backup records the captured files, and vanishes only if enough others are newer. |
| `BackupStore.Configuration.RestoreBackup` | ge360_bridge/backup.py:535-577 | Without `apply` nothing changes and the plan names the files; with it, files of the backup replace those of the configuration, and after a failure each file is the old or the restored one; a safety backup that is reported holds the configuration from before. On a disk without faults an accepted archive is restored. |
| `BackupStore.RecordedReadsBack` | ge360_bridge/backup.py:417-477 | A recorded backup is accepted and reads back as the configuration it was made from. |
| `BackupStore.RestoreUndoes` | ge360_bridge/backup.py:565-569 | Restoring the backup of a configuration, whatever happened since, brings back everything captured; the whole configuration comes back if and only if no further file has appeared; restoring twice is restoring once. |
| `RelayServer.CleanupKeeps` | ge360_bridge/relay_server.py:337-343 | A cleanup leaves exactly the sessions that are a day old at most, active ones with traffic in the last 90 seconds, and waiting ones of at most two minutes, unchanged; and the invariants hold: at most 50 sessions, one per device, no port twice. |
| `RelayServer.SecondSession` | ge360_bridge/relay_server.py:316-334 | Adding a session leaves one session per device if and only if no session of that device survived the cleanup. |
| `RelayServer.TwoSessionsForOneDevice` | ge360_bridge/relay_server.py:316-334 | Witness: two readings of the clock on either side of two minutes give one device two sessions. |
| `RelayServer.ActivationKeeps` | ge360_bridge/relay_server.py:213-215 | Activation keeps the invariants, takes exactly its session off the waiting list, sets its status and the address of its bridge, and changes nothing else. |
| `RelayServer.TouchKeeps` | ge360_bridge/relay_server.py:235-236 | Traffic keeps the invariants, and keeps an active session alive for another 90 seconds exactly up to its greatest age. |
| `RelayServer.BindUdpPair` | ge360_bridge/relay_server.py:284-302 | The first usable pair among the random picks, or nothing if and only if none of them is usable. |
| `RelayServer.Relay.CleanupSessions` | ge360_bridge/relay_server.py:337-343 | The loop removes exactly the expired sessions. |
| `RelayServer.Relay.Touch` | ge360_bridge/relay_server.py:235-236 | Moves the last activity of that session only. |
| `RelayServer.Relay.CreateSession` | ge360_bridge/relay_server.py:305-334 | Refused if and only if no public host is configured, or 50 sessions survive the cleanup, whether or not the device has one, or, for a device without an unexpired session, no random pair of ports is free; otherwise the unexpired session of the device, or one new waiting session on a pair that is free of other sessions and of foreign ports and that expects the client at its address; with one clock reading all invariants are kept. |
| `RelayServer.Relay.OpenSession` | ge360_bridge/relay_server.py:323-334 | One new waiting session on a pair of picks that is free of other sessions and of foreign ports, or no change if and only if no pick is. |
| `RelayServer.Relay.Activate` | ge360_bridge/relay_server.py:437-444 | Sets status and expected bridge address of that session, normalized if it is a global address, and changes nothing else; an unknown session is refused. |
| `RelayServer.Relay.Requests` | ge360_bridge/relay_server.py:427-436 | Exactly the sessions in the waiting status that survive a cleanup. |
| `RelayServer.Relay.GetStatus` | ge360_bridge/relay_server.py:469-475 | A device sees a session if and only if it is its own and survives. |
| `RelayPump.EveryRunForwards` | ge360_bridge/relay_server.py:221-255 | In every interleaving of the pumps of all sessions: what is sent is an unmodified, ordered, at-most-once selection of what was received and allowed on the other side, and goes to an address that passed the check on the side it leaves by. |
| `RelayPump.CountersAtLoopHead` | ge360_bridge/relay_server.py:236-255 | At every loop head the counters equal number and total size of what was sent; with an expected client address, all that reaches the bridge side came from it. |
| `RelayPump.UndisturbedBridgeTurn` | ge360_bridge/relay_server.py:217-242 | On the side of the bridge an undisturbed turn learns the source of a datagram, and sends exactly that datagram if the client is known, if and only if it comes from the address of the activation or there was none yet; nothing else changes. |
| `RelayPump.UndisturbedClientTurn` | ge360_bridge/relay_server.py:217-253 | The same on the side of the client, with the address that the session was created with. |
| `RelayPump.CheckPasses` | ge360_bridge/relay_server.py:217-233 | In any interleaving a check lets a datagram of the bridge pass if and only if the session has no bridge address or that one, and a datagram of the client likewise with the client address. |
| `RelayPump.BridgeSideIsActivated` | ge360_bridge/relay_server.py:213-219 | In every run, what passed on the side of the bridge came, at its check, from the address of the latest activation of that session, or was checked before the first one. |
| `RelayPump.ClientSideIsOpened` | ge360_bridge/relay_server.py:217-219 | In every run, what passed on the side of the client came from the address that the session was created with, if there was one. |
| `RelayPump.AddressesAreGiven` | ge360_bridge/relay_server.py:150-175 | The expected addresses of a session are those of its latest activation and of its creation. |
| `RelayPump.ActivationSets` | ge360_bridge/relay_server.py:213-215 | An activation sets the bridge address of its session and leaves the client address and everything else. |
| `RelayPump.OpeningStarts` | ge360_bridge/relay_server.py:150-201 | A new session starts both pumps from nothing. |
| `RelayPump.EndedIsOver` | ge360_bridge/relay_server.py:222-230 | A pump that has ended does nothing any more, and it ends at its loop head. |
| `RelayPump.StepKeepsInvariant` | ge360_bridge/relay_server.py:221-255 | The invariant behind it, for one step of one pump. |
| `RelayPump.SessionsAreIsolated` | ge360_bridge/relay_server.py:150-175 | An event of one session leaves all other sessions alone. |
| `RelayFallback.RequestAndWait` | android-sdk/ge360-bridge-android/src/main/java/com/ge360/bridge/RelayFallbackClient.kt:26-70 | The plan is delivered if and only if the status becomes ACTIVE before the last poll; a timeout if and only if every status seen made the client ask again; the answer to the last poll is never looked at. |
| `RelayFallback.LookMeans` | android-sdk/ge360-bridge-android/src/main/java/com/ge360/bridge/RelayFallbackClient.kt:51-69 | What a client does with each status, and that it does not look at one when no polls are left. |
| `RelayFallback.AskMeans` | ge360_bridge/relay_server.py:459-464 | What a device that asks gets: a new waiting session, or for its own active session the plan at once. |
| `RelayFallback.MonitorMeans` | ge360_bridge/relay_client.py:276-310 | A monitor fetches exactly the sessions that wait, and an activation that arrives makes active the session of its request and no other. |
| `RelayFallback.PollMeans` | android-sdk/ge360-bridge-android/src/main/java/com/ge360/bridge/RelayFallbackClient.kt:51-69 | What one poll comes to, by the state of the session and the polls that are left: the plan, a failure, or waiting with one poll less. |
| `RelayFallback.SettingMeans` | ge360_bridge/relay_client.py:182-221 | The Bridge sets a peer if and only if the request is complete, the first device with that id or name is enabled, not expired and has a key, and the command succeeds. |
| `RelayFallback.SettingsAreActive` | ge360_bridge/relay_client.py:192-206 | In every run each peer that was set belonged to a device that was registered, enabled and not expired at that moment. |
| `RelayFallback.PlanComesAfterSetting` | ge360_bridge/relay_client.py:182-221 | In every interleaving of devices, relay, monitors, expiry and registry changes: a client has its plan only after the Bridge successfully set the endpoint of a device answering to its id to the bridge endpoint of that session. |
| `RelayFallback.PlanComesAfterOwnSetting` | ge360_bridge/relay_client.py:182-221 | That device is the one with the id, if in no state of the run another device is found for the id. |
| `RelayFallback.SettingsAreOwn` | ge360_bridge/relay_client.py:192-206 | Under the same condition every setting of the run for an id was made for the device with that id. |
| `RelayFallback.NamesAreNotIds` | ge360_bridge/core.py:400-404 | No other device is found for an id that is registered while no device is named like the id of another. |
| `RelayFallback.WrongDeviceIsSet` | ge360_bridge/core.py:652-667 | Witness: after two registrations and a renaming to the id of the later device, a run delivers the plan of that device although the only setting was made for the other. |
| `Registry.IdsAreNames` | ge360_bridge/core.py:220-221 | Every id that the program draws is a name that it accepts. |
| `RelayFallback.NextKeeps` | ge360_bridge/relay_server.py:437-475 | The invariant behind it, for one step. |
| `RelayFallback.UndisturbedRunDelivers` | ge360_bridge/relay_client.py:276-310 | The protocol can deliver: an undisturbed run gives an active device its plan. |
| `RelayFallback.FoundByItsOwnId` | ge360_bridge/core.py:400-404 | The device found for an id is the one with that id if and only if no earlier device has it as its name. |
| `Tunnel.AtMostOneAttempt` | android-sdk/ge360-bridge-android/src/main/java/com/ge360/bridge/AndroidWireGuard.kt:285-296 | In every interleaving at most one attempt is pending, and it is the one that can be cancelled. |
| `Tunnel.RaisesAreChecked` | android-sdk/ge360-bridge-android/src/main/java/com/ge360/bridge/AndroidWireGuard.kt:298-315 | In every interleaving the backend is only cycled or raised by an attempt that found the tunnel wanted and configured, and after that the permission granted. |
| `Tunnel.WishMeans` | android-sdk/ge360-bridge-android/src/main/java/com/ge360/bridge/AndroidWireGuard.kt:200-283 | Whether the tunnel is wanted and configured changes by what the caller does and by nothing else. |
| `Tunnel.BackendMeans` | android-sdk/ge360-bridge-android/src/main/java/com/ge360/bridge/AndroidWireGuard.kt:243-315 | Exactly what brings the backend up and down. |
| `Tunnel.CountMeans` | android-sdk/ge360-bridge-android/src/main/java/com/ge360/bridge/AndroidWireGuard.kt:298-335 | Exactly what counts failures and what forgets them. |
| `Tunnel.ScheduledMeans` | android-sdk/ge360-bridge-android/src/main/java/com/ge360/bridge/AndroidWireGuard.kt:285-296 | Scheduling replaces the pending attempt by a new one, for a wanted and configured tunnel only, at once or after the delay for the next failure. |
| `Tunnel.ExecutorMeans` | android-sdk/ge360-bridge-android/src/main/java/com/ge360/bridge/AndroidWireGuard.kt:298-335 | When the executor takes a task, and when an attempt ends: without wish, configuration or permission, after success, and after a failure that is the last or no longer matters. |
| `Tunnel.AttemptMeans` | android-sdk/ge360-bridge-android/src/main/java/com/ge360/bridge/AndroidWireGuard.kt:298-320 | The order of the checks of an attempt, and which attempts take the backend through a cycle. |
| `Tunnel.TasksMean` | android-sdk/ge360-bridge-android/src/main/java/com/ge360/bridge/AndroidWireGuard.kt:243-260 | What waits for the executor: what a stop takes away and brings, and what taking up a task takes off. |
| `Tunnel.StopHolds` | android-sdk/ge360-bridge-android/src/main/java/com/ge360/bridge/AndroidWireGuard.kt:243-260 | After a stop, whatever came before and whatever callbacks and stops follow: unless something starts the tunnel again no attempt is pending, and once the executor is drained the backend is down. |
| `Tunnel.FreshStartGivesUp` | android-sdk/ge360-bridge-android/src/main/java/com/ge360/bridge/AndroidWireGuard.kt:298-335 | From a fresh start, if every attempt fails and nothing else happens, exactly `maxAttempts` attempts are made: at once, then after the delays for attempts 2 to `maxAttempts`. |
| `Tunnel.DelaysAreBackoffs` | android-sdk/ge360-bridge-android/src/main/java/com/ge360/bridge/AndroidWireGuard.kt:285-296 | Those delays are the exponential backoff, two times the initial delay first, up to the maximum. |
| `Tunnel.SuccessStartsOver` | android-sdk/ge360-bridge-android/src/main/java/com/ge360/bridge/AndroidWireGuard.kt:315-318 | A success starts the count anew: after a later drop again `maxAttempts` attempts are made, the first after the delay for attempt 1. |
| `ReconnectPolicy.DelayForAttempt` | android-sdk/ge360-bridge-android/src/main/java/com/ge360/bridge/AndroidWireGuard.kt:44-51 | The loop computes the delay in 64-bit arithmetic. |
| `ReconnectPolicy.DelaysAreBackoff` | android-sdk/ge360-bridge-android/src/main/java/com/ge360/bridge/AndroidWireGuard.kt:44-51 | All delays up to some number of doublings are min(maximum, initial * 2^k) if and only if the last doubling does not overflow. |
| `ReconnectPolicy.OverflowingPolicy` | android-sdk/ge360-bridge-android/src/main/java/com/ge360/bridge/AndroidWireGuard.kt:44-51 | Witness: a valid policy whose second delay is negative. |
| `ReconnectPolicy.DelayIsBackoff` | android-sdk/ge360-bridge-android/src/main/java/com/ge360/bridge/AndroidWireGuard.kt:44-51 | With a maximum below 2^62 the formula min(maximum, initial * 2^k) holds for every attempt, where k is one less than the attempt and 30 at most. |
| `ReconnectPolicy.DelaysGrow` | android-sdk/ge360-bridge-android/src/main/java/com/ge360/bridge/AndroidWireGuard.kt:44-51 | With a maximum below 2^62 the delays never shrink. |
| `TraversalAttempt.Attempt.AttemptTraversal` | ge360_bridge/p2p.py:414-499 | The session and the answers of commands, pings and readings decide the end: nothing is commanded unless the session is prepared or punching and the peer can be read; success if and only if both commands work and one of five pings is followed by a handshake above the baseline and not before the start; exhausted if and only if five pings show none. Success leaves the candidate with keepalive 25; every other end puts a previous endpoint back with its keepalive, if the command takes effect. The session records the end, the pings and the last reading. |
| `TraversalAttempt.Attempt.Punch` | ge360_bridge/p2p.py:443-461 | The punching loop: stops at the first handshake that is seen, at most five pings, and only commands for the candidate. |
| `TraversalAttempt.Attempt.Finish` | ge360_bridge/p2p.py:463-499 | The previous endpoint is put back, or the keepalive of the candidate is stopped when there was none. |
| `TraversalSessions.Registry.Prepare` | ge360_bridge/p2p.py:238-293 | Accepted if and only if fewer than six requests of the device were accepted in the last minute of the whole run; an accepted request stores its session, and a session that was ever stored is in the registry if and only if less than ninety seconds have passed since; if the two readings of every request are at most half a minute apart, a device never has more than twelve live sessions. |
| `TraversalSessions.Registry.RateLimit` | ge360_bridge/p2p.py:124-131 | The first critical section: accepted if and only if the sixth last request of the device that was accepted is a minute old or more. |
| `TraversalSessions.Registry.StoreSession` | ge360_bridge/p2p.py:258-283 | The second critical section, with requests of others in between: the session is stored for ninety seconds, and of the others exactly the expired ones go. |
| `TraversalSessions.Registry.Consequences` | ge360_bridge/p2p.py:257-283 | After every critical section, whatever the order of the requests, both bounds hold, and a session stored at some time is there if and only if less than ninety seconds have passed since. |
| `TraversalSessions.Registry.Cleanup` | ge360_bridge/p2p.py:104-121 | A session stays, unchanged, if and only if now is before its expiry; exactly the recent attempts stay. |
| `TraversalSessions.TwelveInTtl` | ge360_bridge/p2p.py:21-26 | Six accepted requests in any minute allow at most twelve in any two minutes, hence in 90 seconds and a lag of thirty. |
| `TraversalSessions.LiveIsBounded` | ge360_bridge/p2p.py:257-283 | A device has at most twelve live sessions. |
| `RequestGate.Gate.AllowedRequest` | ge360_bridge/pairing_server.py:25-34 | Accepted if and only if the twentieth last accepted request of that address, over the whole run, is more than a minute old; other addresses are left alone. |
| `RequestGate.DropOld` | ge360_bridge/pairing_server.py:28-30 | Popping from the front of a sorted deque leaves exactly the recent times. |
| `SlidingWindow.RunStaysLimited` | ge360_bridge/p2p.py:124-131 | Over every run of requests every window holds at most the limit. |
| `SlidingWindow.AcceptKeepsLimit` | ge360_bridge/pairing_server.py:25-34 | Accepting while the window that ends now is not full keeps every window of the history within the limit. |
| `SlidingWindow.FullWindowMustRefuse` | ge360_bridge/pairing_server.py:31-32 | Accepting into a full window breaks the limit: the test is the weakest possible. |
| `SlidingWindow.FreeMeans` | ge360_bridge/p2p.py:124-131 | A window is not full if and only if there are fewer accepted times than the limit, or the one that came a limit back has left it. |
| `SlidingWindow.LimitedMeansSpaced` | ge360_bridge/p2p.py:124-131 | What a limit means for single requests: the one that comes a limit later is out of the window. |
| `SlidingWindow.KeepsAccepted` | ge360_bridge/p2p.py:124-131 | The stored list, pruned again and again, keeps representing the recent part of the whole history. |
| `SlidingWindow.DriftedStaysLimited` | ge360_bridge/self_healing.py:240-251 | Events that follow a limited history by at most a drift keep to the limit in windows that are shorter by the drift. |
| `SelfHealing.Healer.Run` | ge360_bridge/self_healing.py:309-353 | Over every sequence of runs, single-resource runs, dry runs and crashes: each result and each entry of the histories is the one that fields of the resource, the answers of the world and the history of its attempts call for, until the process dies. In particular a restart is commanded if and only if an enabled self-healing resource with a loaded unit is offline or times out, the third last attempt is ten minutes old or more, it is no dry run, and the process survives until then. Recorded epochs are at most three in every ten minutes, and restarts as they happen at most three in every window that is shorter by the longest run; a dry run changes nothing. |
| `SelfHealing.RunIsMeant` | ge360_bridge/self_healing.py:309-353 | The same for the specification of a run over resources of different names. |
| `SelfHealing.OnlyOne` | ge360_bridge/self_healing.py:318-322 | A run for one name is a run over the resource of that name alone. |
| `SelfHealing.DecideMeans` | ge360_bridge/self_healing.py:161-306 | The exact guard of each outcome in fields of the resource, the world and the history of its attempts. |
| `SelfHealing.FourRestarts` | ge360_bridge/self_healing.py:309-353 | Witness: that bound is exact. In every longer window there can be four restarts of one resource. |
| `SelfHealing.Healer.HealResource` | ge360_bridge/self_healing.py:161-306 | For one resource, the exact guard of each outcome and of each entry in the three histories, by the history of the whole run although the code sees only what the file kept; nothing else changes. |
| `SelfHealing.Healer.Attempt` | ge360_bridge/self_healing.py:240-306 | An attempt is in the file before its restart is commanded, whatever the crash point. |
| `SelfHealing.RetryAfterIsExact` | ge360_bridge/self_healing.py:196-212 | The answered waiting time is exact on whole seconds: limited strictly before it, not limited at it; on other clocks it can be up to a second too short. |
| `SelfHealing.PruneAttemptsIsPrune` | ge360_bridge/self_healing.py:53-56 | Filter and sort agree with the recent part of sorted times. |
| `SelfHealing.PruneAttemptsMeans` | ge360_bridge/self_healing.py:53-56 | Exactly the values of the last ten minutes, and of the next one, are kept, in order. |
| `SelfHealing.GoodAttempt` | ge360_bridge/self_healing.py:240-251 | Recording an attempt before commanding it keeps the epochs of both histories within the limit. |
| `RegistryIntegrity.RunKeepsIntegrity` | ge360_bridge/core.py:488-834 | From empty registries every run of operations keeps ids, names, ports and addresses unique, no reserved port, allowed and denied lists disjoint and naming devices, groups naming devices and resources. |
| `RegistryIntegrity.ApplyKeeps` | ge360_bridge/core.py:488-834 | The same for one operation in any state. |
| `RegistryIntegrity.RenameKeeps` | ge360_bridge/core.py:652-681 | Renaming a device renames it in every list and keeps the integrity. |
| `RegistryIntegrity.RemoveKeeps` | ge360_bridge/core.py:612-627 | Removing a resource takes exactly its name away and leaves no group naming it. |
| `RegistryIntegrity.ApplyKeepsIds` | ge360_bridge/core.py:634-712 | No operation takes a device away. |
| `Registry.FindDevice` | ge360_bridge/core.py:400-404 | The first device with that id or name. |
| `Registry.NextHost` | ge360_bridge/core.py:436-444 | The least unused address, or none if and only if all are used. |
| `RegistryMeaning.AddMeans` | ge360_bridge/dashboard.py:233-250 | A device is added if and only if its name is valid and unused, its metadata are valid, its id is new and an address is free; it comes last, as given, on the least free address. Each refusal has its exact cause. |
| `RegistryMeaning.EnabledMeans` | ge360_bridge/core.py:634-645 | Exactly the first device with that id or name is switched, and nothing else of it changes. |
| `RegistryMeaning.UpdateMeans` | ge360_bridge/core.py:684-712 | Exactly expiry and metadata of that device change, if and only if they are valid. |
| `RegistryMeaning.RenameMeans` | ge360_bridge/core.py:652-681 | When a renaming is accepted, and what it changes in the device and in both lists of every resource. |
| `RegistryMeaning.RegisterMeans` | ge360_bridge/core.py:488-543 | When a registration is accepted, and each field of the new resource. |
| `RegistryMeaning.RegisterRefusals` | ge360_bridge/core.py:488-543 | The cause of each refusal of a registration. |
| `RegistryMeaning.UpdateResourceMeans` | ge360_bridge/core.py:550-609 | When an update is accepted, and each field of the resource after it. |
| `RegistryMeaning.UpdateResourceRefusals` | ge360_bridge/core.py:550-609 | The cause of each refusal of an update. |
| `RegistryMeaning.UpdateOfNothing` | ge360_bridge/core.py:550-609 | An update of a resource that is not there is refused. |
| `RegistryMeaning.RemoveMeans` | ge360_bridge/core.py:612-627 | A resource goes from its place, its name from every group, and nothing else. |
| `RegistryMeaning.DecisionMeans` | ge360_bridge/core.py:806-834 | After a decision the name of the device is on the list it calls for and on no other of that resource; all other names stay where they were. |
| `RegistryMeaning.CreateMeans` | ge360_bridge/core.py:715-724 | When a group is created, and each field of it. |
| `RegistryMeaning.RemoveGroupMeans` | ge360_bridge/core.py:727-734 | A group goes from its place, and nothing else. |
| `RegistryMeaning.GroupMeans` | ge360_bridge/core.py:737-791 | What switching, assigning and granting change in a group, and that they change nothing else. |
| `RegistryMeaning.GroupRefusals` | ge360_bridge/core.py:737-791 | What these operations refuse, and which cause comes first. |
| `RegistryMeaning.NormalGroupMeans` | ge360_bridge/core.py:284-293 | Reading a group drops empty names and falls back to the legacy list if the other is empty. |
| `RegistryMeaning.NormalResourceMeans` | ge360_bridge/core.py:252-281 | Reading a resource switches self-healing off if it has no unit. |
| `RegistryStore.ReadAfterSave` | ge360_bridge/core.py:296-315 | A read after a save returns the normalized list, even an empty one. |
| `RegistryStore.CrashBetweenWrites` | ge360_bridge/core.py:314-316 | After a crash between the two writes the new list is read if and only if it is not empty or the mirror was. |
| `RegistryStore.NormalState` | ge360_bridge/core.py:252-293 | In registries with integrity reading changes nothing; the fallback to the legacy list of a group never brings anything back. |
| `RegistryStore.Store.RemoveResource` | ge360_bridge/core.py:612-627 | Comes to the specified state with the saves in the order of the program; the check of the groups never refuses. |
| `RegistryStore.Store.RenameDevice` | ge360_bridge/core.py:652-681 | Comes to the specified state over two files, with the resources saved only if one changed. |
| `RegistryStore.Store.AddDevice` | ge360_bridge/dashboard.py:233-250 | Appends the device with the least free address; an invalid or used name, invalid metadata, a full network or a used id refuses and changes no file. |
| `RegistryStore.Store.SetDeviceEnabled` | ge360_bridge/core.py:634-645 | Switches exactly the first device answering to the identifier; the save never refuses. |
| `RegistryStore.Store.UpdateDevice` | ge360_bridge/core.py:684-712 | Changes metadata and expiry of exactly the first device answering to the identifier, or refuses an unknown device or invalid metadata; the save never refuses. |
| `RegistryStore.Store.RegisterResource` | ge360_bridge/core.py:488-543 | Appends the resource to both files, or refuses with the error of the first failing check and changes no file; the save never refuses. |
| `RegistryStore.Store.UpdateResource` | ge360_bridge/core.py:550-609 | Changes exactly the given fields of that resource in both files, or refuses with the error of the first failing check. |
| `RegistryStore.Store.SetAccess` | ge360_bridge/core.py:806-834 | Puts the name of the device on at most one of the two lists of that resource, in both files. |
| `RegistryStore.Store.CreateGroup` | ge360_bridge/core.py:715-724 | Appends an empty enabled group; an invalid or used name refuses. |
| `RegistryStore.Store.RemoveGroup` | ge360_bridge/core.py:727-734 | Leaves exactly the other groups; the check of the groups never refuses. |
| `RegistryStore.Store.SetGroupEnabled` | ge360_bridge/core.py:737-745 | Switches exactly that group; the check of the groups never refuses. |
| `RegistryStore.Store.SetGroupDevice` | ge360_bridge/core.py:748-768 | Adds or takes out exactly that member; the check of the groups never refuses. |
| `RegistryStore.Store.SetGroupResource` | ge360_bridge/core.py:771-791 | Permits or revokes exactly that resource, under both keys; the check of the groups never refuses. |
| `Access.RenamePreservesAccess` | ge360_bridge/core.py:841-856 | Renaming a device changes the decision for no device and no resource. |
| `Access.RenameKeepsGate` | ge360_bridge/core.py:884-894 | Nor the addresses that the proxy admits. |
| `Access.NewResourceIsClosed` | ge360_bridge/core.py:488-543 | A new resource is open to the active devices it is registered with and to nobody else, whatever groups permitted before. |
| `Access.RemoveThenRegister` | ge360_bridge/core.py:612-627 | Removing a resource and registering its name again with nobody allowed closes it for every device. |
| `Access.OverrideSettlesOnePair` | ge360_bridge/core.py:806-834 | An override decides for its device and resource and changes no other decision. |
| `Access.RevokedDeviceIsShutOut` | ge360_bridge/core.py:648-649 | A disabled device is admitted nowhere and shown nothing. |
| `Access.GateMatchesLauncher` | ge360_bridge/core.py:884-915 | The proxy admits the address of a device to an enabled resource if and only if the launcher of that device shows it. |
| `Access.ReachablePassesSnapshotCheck` | ge360_bridge/backup.py:107-163 | Whatever operations were completed, the registries pass the checks of a backup. |
| `Access.AllowsMeans` | ge360_bridge/core.py:420-433 | A device may use a resource if and only if it is enabled, today is not after its last day, it is not denied by name, and it is allowed by name or by an enabled group that has it and permits the resource. |
| `Access.SourceMeans` | ge360_bridge/core.py:841-856 | The exact condition of every reason that is given, with the first permitting group. |
| `Access.ExpiredDeviceIsShutOut` | ge360_bridge/core.py:421-433 | From the day after its last one a device is admitted nowhere and shown nothing; up to and including that day its expiry changes no decision. |
| `Access.ShownInOrder` | ge360_bridge/core.py:905-915 | The launcher shows resources in the order of the registry. |
| `Access.UpdateKeepsAccess` | ge360_bridge/core.py:550-609 | Configuring a resource changes no decision. |
| `Access.AssignmentSettles` | ge360_bridge/core.py:748-768 | Assigning a device to a group, or taking it out, changes what groups permit for that device only, by what that group permits. |
| `Access.GrantSettles` | ge360_bridge/core.py:771-791 | Granting a resource to a group, or revoking it, changes what groups permit for that resource only, for the members of that group. |
| `Access.RemovedGroupPermitsNothing` | ge360_bridge/core.py:727-745 | Removing or disabling a group takes away exactly what only that group permitted. |
| `Pairing.CleanupEnrollments` | ge360_bridge/pairing.py:71-83 | The loop computes the specified list. |
| `Pairing.CleanedMembers` | ge360_bridge/pairing.py:71-83 | Exactly the records that were there stay, aged, except those that are to be purged. |
| `Pairing.CleanedMeans` | ge360_bridge/pairing.py:71-83 | What a cleanup leaves of each record, in fields: a pending record that is over becomes expired, and one that was used or has expired stays for 604800 seconds; the order is kept. |
| `Pairing.CleanedRecord` | ge360_bridge/pairing.py:71-83 | A record still pending after a cleanup is unchanged and not over. |
| `Pairing.Enrollments.CreateEnrollment` | ge360_bridge/pairing.py:152-198 | Succeeds if and only if name, metadata, lifetime and groups are valid, no device answers to the name and no pending record has it; adds exactly that record. |
| `Pairing.Enrollments.ConsumeEnrollment` | ge360_bridge/pairing.py:233-298 | Carries out the specified request for every fault between its writes, keeps the integrity of all files, and counts the devices that each enrollment made. |
| `Pairing.SuccessMeans` | ge360_bridge/pairing.py:233-298 | A request succeeds if and only if it matches a pending unexpired record, no device answers to its name, its groups exist, an address is free, the drawn id is new and nothing cuts it short; then it adds exactly that device on the least unused address, puts it in its groups and ends the record. |
| `Pairing.DenialLeaves` | ge360_bridge/pairing.py:239-293 | A refusal leaves the registries alone; a missing group, key or address, or a failed save, leaves the enrollments alone too. |
| `Pairing.DenialMeans` | ge360_bridge/pairing.py:239-293 | The exact cause of every refusal of a request for a record; a record whose name is taken is ended by a request that matches it. |
| `Pairing.UnknownIsDenied` | ge360_bridge/pairing.py:239-248 | A request for an id without a record is refused as not valid, after the check of its key. |
| `Pairing.CrashMeans` | ge360_bridge/pairing.py:284-298 | A crash between the saves leaves the device, with or without its groups, and the enrollments as they were. |
| `Pairing.Enrollments.Enroll` | ge360_bridge/pairing.py:259-298 | Devices, groups and record change together or, after a failure of the second save, none of them. |
| `Pairing.Enrollments.ListEnrollments` | ge360_bridge/pairing.py:226-230 | Saves and returns the cleaned list. |
| `Pairing.Enrollments.AtMostOneDevice` | ge360_bridge/pairing.py:233-298 | Over every run an enrollment that no crash cut off has created at most one device, even after its record is purged. |
| `Pairing.Enrollments.SecondDevice` | ge360_bridge/pairing.py:253-298 | An enrollment that has already made a device, which takes a crash, makes another for a matching request if and only if no device answers to its name, its groups exist and an address is free. |
| `Pairing.TwoDevicesFromOneEnrollment` | ge360_bridge/pairing.py:284-298 | Witness: a crash between the saves, a renaming, and the same request once more give two devices from one enrollment. |
| `Pairing.EnrolledKeeps` | ge360_bridge/pairing.py:267-290 | The new device and its memberships keep the integrity of the registries. |
| `Pairing.EnrolledAccess` | ge360_bridge/pairing.py:285-290 | The new device can use exactly what the enabled groups of its enrollment permit. |
| `StunCodec.ParseStunResponse` | ge360_bridge/nat_discovery.py:127-173 | The loop computes the parse of the specification on arbitrary bytes, staying in bounds. |
| `StunCodec.WalkTiles` | ge360_bridge/nat_discovery.py:140-152 | The attributes read, with their padding, tile the body exactly, and every tiling is read back. |
| `StunCodec.ParseOfMessage` | ge360_bridge/nat_discovery.py:127-173 | Parsing an encoded response gives what its attributes say, for every transaction id and list of attributes. |
| `StunCodec.AcceptedIsMessage` | ge360_bridge/nat_discovery.py:127-152 | Every accepted datagram is an encoded response with the expected transaction id. |
| `StunCodec.MappedAddressRoundTrip` | ge360_bridge/nat_discovery.py:154-160 | The first XOR-MAPPED-ADDRESS, else the first MAPPED-ADDRESS, decodes to the endpoint it was made from. |
| `StunCodec.InterpretMeans` | ge360_bridge/nat_discovery.py:154-173 | What a response says, by attribute numbers: 0x0020 before 0x0001 for the mapped address, 0x802B for the origin and 0x802C for the other address, the first of each. |
| `StunCodec.HeaderInBytes` | ge360_bridge/nat_discovery.py:127-139 | The header of an accepted response, byte by byte. |
| `StunCodec.EncodedInBytes` | ge360_bridge/nat_discovery.py:102-124 | The value of an address attribute, byte by byte. |
| `StunCodec.DecodeOfEncode` | ge360_bridge/nat_discovery.py:102-124 | Decoding inverts encoding for IPv4 and IPv6, plain and masked (sections 15.1 and 15.2 of RFC 5389). |
| `StunCodec.EncodeOfDecode` | ge360_bridge/nat_discovery.py:102-124 | Every value that decodes is the encoding of what it decodes to, but for its first byte. |
| `StunCodec.DecodeRefusals` | ge360_bridge/nat_discovery.py:102-124 | Which values are refused, with the exact cause of each refusal. |
| `StunCodec.HeaderRefusals` | ge360_bridge/nat_discovery.py:127-139 | The cause of each refusal of a datagram by its header. |
| `StunCodec.EncodeInjective` | ge360_bridge/nat_discovery.py:102-124 | Different endpoints have different encodings. |
| `StunClient.ParseResponse` | android-sdk/ge360-bridge-android/src/main/java/com/ge360/bridge/TraversalClient.kt:75-118 | The client loop computes the scan of the specification. |
| `StunClient.ParseAddress` | android-sdk/ge360-bridge-android/src/main/java/com/ge360/bridge/TraversalClient.kt:120-134 | The in-place XOR of the client computes its decoder. |
| `StunClient.ClientAccepts` | android-sdk/ge360-bridge-android/src/main/java/com/ge360/bridge/TraversalClient.kt:75-118 | The client accepts if and only if the header is that of a success response to its request and the scan keeps an address, which is the result. |
| `StunClient.ClientDecodes` | android-sdk/ge360-bridge-android/src/main/java/com/ge360/bridge/TraversalClient.kt:120-134 | The client decodes exactly the values of eight bytes and more of the IPv4 family, their first eight bytes like the bridge. |
| `StunClient.ClientRoundTrip` | android-sdk/ge360-bridge-android/src/main/java/com/ge360/bridge/TraversalClient.kt:75-134 | An IPv4 endpoint in the only address attribute of a response, masked or not, is what the client gets. |
| `StunClient.DecodersAgree` | android-sdk/ge360-bridge-android/src/main/java/com/ge360/bridge/TraversalClient.kt:120-134 | Where the client decodes an address the bridge decodes the same one. |
| `StunClient.ScanKeeps` | android-sdk/ge360-bridge-android/src/main/java/com/ge360/bridge/TraversalClient.kt:93-110 | What the client keeps, in terms of all attributes that the bridge reads. |
| `StunClient.ParsersAgree` | ge360_bridge/nat_discovery.py:154-160 | When both parsers accept they agree with an XOR-MAPPED-ADDRESS, and otherwise if and only if the first and the last MAPPED-ADDRESS say the same. |
| `StunClient.SingleMappedAddressAgrees` | ge360_bridge/nat_discovery.py:154-160 | In particular a single MAPPED-ADDRESS is enough. |
| `StunClient.TwoMappedAddressesDisagree` | android-sdk/ge360-bridge-android/src/main/java/com/ge360/bridge/TraversalClient.kt:102-108 | For any two IPv4 endpoints there is a response on which the parsers disagree. |
| `Metrics.DeviceSeries` | ge360_bridge/metrics.py:288-327 | One point per bucket that occurs, in order, whose counters add up to the growth of the cumulative counters and whose samples add up to the number of rows. |
| `Metrics.DeviceBuckets` | ge360_bridge/metrics.py:293-315 | Each bucket holds exactly the growths of the rows that fall into it. |
| `Metrics.BridgeSeries` | ge360_bridge/metrics.py:355-378 | The same for connections and errors of the bridge. |
| `Metrics.BridgeBuckets` | ge360_bridge/metrics.py:355-369 | Each bucket holds exactly its growths and the uptime reported last in it. |
| `Metrics.LastUptimeMeans` | ge360_bridge/metrics.py:355-369 | The uptime of a bucket is that of its last row. |
| `Metrics.SortedKeys` | ge360_bridge/metrics.py:319-327 | The keys in strictly increasing order. |
| `Metrics.Conservation` | ge360_bridge/metrics.py:293-315 | For any bucket size the buckets add up to the sum of all amounts. |
| `Metrics.BucketSizeIrrelevant` | ge360_bridge/metrics.py:250-251 | Two bucket sizes give the same total. |
| `Metrics.GrowthTelescopes` | ge360_bridge/metrics.py:308-312 | The positive differences add up to last minus first if and only if the counter never goes back, and to more otherwise. |
| `Metrics.BucketIsAligned` | ge360_bridge/metrics.py:250-251 | A bucket is the greatest multiple of its size that is not after the time. |

## Left out

- UpdateHost.Host.ApplyUpdate: does not model version order, staging checks, restart and health loops, or the configuration that a rollback restores: their answers are parameters. Whether the history of a failed update is written does not matter to the software.
- UpdatePackage.BuildUpdatePackage: reads a tree as a map from relative paths to contents, and not as a file system.
- SelfHealing.Healer.Run: a state file that cannot be read counts as empty in the program and is not part of the model.
- BackupStore.Configuration.CreateBackup: which names are of the current day comes from outside; a disk that is full while the archive is written is not modelled.
- RelayServer.Relay.CreateSession: which addresses are global comes from outside.
- RequestGate.Gate.AllowedRequest: the clock, which the program reads before it takes the lock, is taken to be read in the order of the lock sections.
- TraversalSessions.Registry.Prepare: the readings of requests that run side by side are taken to come in the order of their critical sections.
- RegistryStore.Store.RemoveResource: takes writes to succeed, as the other operations of that class do; a crash is modelled between the two writes of the resources only.
- RegistryStore.Store.AddDevice: the grants that the dashboard adds for a new device are operations of their own (`SetAccess`); metadata are accepted or refused as a whole.
- Pairing.Enrollments.ConsumeEnrollment: a failure to take the devices back is not told apart from a crash; the branch for a pending record that is over is dead after the cleanup and has no counterpart.
- Tunnel.StopHolds: takes bringing the backend down to succeed; closing the controller is not modelled.
- Sockets, TLS pinning, HTTP, systemd, ping, SQLite, tar, gzip and JSON texts: outcomes, abstract values or maps.
- File modes after a rollback, symbolic links, directories, temporary files and other installation directories.
- Records from before the registries had ids, and the migrations that upgrade them.
- The WireGuard configuration file, bundles, audit events, the mirror of traversal sessions, the dashboard and the command line.
- Sockets of the pumps: closing them is the end of a pump at its loop head.
- Averages and ratios of metrics, handshake ages, and the series of resources: rounding of floats, or easier than what is there.
- NAT classification, candidate validation, server catalogues, health probes and diagnostics: branch tables that would add easy members only.
