# glusterfs-volume in Dafny

A model of the Docker volume plugin `glusterfs-volume`. The plugin serves Docker volumes out of one GlusterFS volume. Each Docker volume is a sub-directory `/name` of the gluster volume. It is FUSE-mounted on the host at `root/name` when a container needs it and unmounted when the last container lets go.

The model covers:

- **The mount registry.** A map from volume name to an entry. Each entry holds `connections`, the mountpoint, `createdAt` and a per-client acquisition count `ids`.
- **Mount and Unmount** in the three driver variants:
  - `driver.go`: module `GlusterDriver`;
  - `main.go`: module `GlusterMain`;
  - `minio/s3.go`: module `MinioDriver`.
- **The facade operations** Get, Path, List, Create, Remove and Capabilities.
- **The builders** for mountpoints, remote paths and helper argument vectors (`Paths`, `Helpers`).
- **gfs.go's connector** (`GfsConnector`), including its recursive removal of a remote directory tree.

Each registry operation (Mount, Unmount, and minio's Create and Remove) is a pure function of the form

`(registry, request, outcomes of the outside calls) -> Outcome(registry', result, helper argvs run)`.

The facade operations that only read the registry or work on the remote volume return a `Result`, or a `Change` of the remote listing. The gfs.go helpers return a `Result` or `Change` in the same way, a `Removal` for the recursive deletion, or the argv a helper runs paired with its result.

Modelling choices:

- **Local calls.** The outcomes of `os.Lstat`, `os.MkdirAll` and the `glusterfs` and `umount` helpers are a `Host` parameter.
- **The remote volume.** Seen through gfapi, it is a tree of `Node`s. A `Faults` parameter says which remote calls fail, by path.
- **Shared code.** The Unmount of all three variants is the same code and is modelled once, as `ActiveMounts.Unmount`. The Mount of `minio/s3.go` is the Mount of `driver.go` and is modelled once, as `GlusterDriver.Mount`. The Path, List, Create and Remove of `main.go` are the ones of `driver.go` and are modelled once in `GlusterDriver`.

Two invariants are stated:

- **`ActiveMounts.Inv`** is what the code actually keeps:
  - every mountpoint is `root/name`;
  - `createdAt` is never set;
  - counts are positive;
  - the clients never hold more acquisitions than `connections` records.
- **`ActiveMounts.Valid`** is the counting invariant, which the `connections` counter and the per-client `ids` counts are evidently meant to keep: `connections` equals the sum of `ids`. The code breaks it. The lemmas show exactly where, and the corrected definitions keep it.

Where the code departs from what its names, comments and sibling variants suggest, the model follows the code:

- A Mount that fails leaves the entry it created in the registry, even for a mountpoint that is not a directory.
- The physical unmount runs when no client key is left, not when `connections` reaches zero.
- A failing `umount` keeps the already-decremented entry.
- `driver.go`'s and `main.go`'s Remove is a single `Rmdir`, not a recursive delete.
- Errors are reported under the model's own names (`Common.Error`).

## Model

| member | source | states |
|---|---|---|
| Paths.Subdir | driver.go:367-370 | the remote directory of a volume is `/` followed by the volume name |
| Paths.MountpointLastSegment | driver.go:362-365 | the last path segment of `root/name` is `name`, so a mountpoint names its volume |
| Paths.MountpointInjective | minio/s3.go:47-50 | two distinct volume names never share a mountpoint under one root |
| Helpers.ServerFlagsLayout | driver.go:311-313 | position 2i of the server flags is `--volfile-server` and position 2i+1 is the i-th host |
| Helpers.GlusterfsArgv | main.go:201-211 | the helper vector has 6 + 2·hosts entries, starts with `glusterfs` and ends with `--volfile-id vol --subdir-mount /name mountpoint` |
| Helpers.GlusterfsArgvServers | driver.go:307-326 | every host is passed to the helper, in order, each after its own `--volfile-server` |
| Helpers.ServerFlagsRoundTrip | gfs.go:143-145 | the server list is read back unchanged from the flags built for it |
| Helpers.GlusterfsArgvRoundTrip | gfs.go:139-149 | parsing a built helper vector gives back hosts, volume, sub-directory and mountpoint |
| Helpers.GlusterfsArgvParsed | minio/s3.go:259-278 | every vector the parser accepts is the one built from what it parsed, so distinct requests never share a vector |
| Helpers.UmountArgv | driver.go:328-332 | the unmount helper is `umount` with the mountpoint as its only argument (inline at driver.go:272 and main.go:263) |
| Helpers.MountArgv | gfs.go:159-171 | `mount -t glusterfs <host>:/<volume>/<name> <mountpoint>` with the host drawn from the configured list, which must not be empty |
| ActiveMounts.EmptyRegistryInv | main.go:328-329 | the empty registry the plugin starts with satisfies the invariant |
| ActiveMounts.ValidNoClientsIffNoConnections | driver.go:33-38 | under the counting invariant, no client is recorded exactly when no connection is |
| ActiveMounts.Acquire | driver.go:229-230 | one more connection and one more acquisition for the client; the client joins `ids`; other clients and the mountpoint are unchanged |
| ActiveMounts.AcquirePreservesValid | driver.go:229-230 | an acquisition keeps `connections == sum(ids)` |
| ActiveMounts.ReleaseAsWritten | driver.go:260-267 | one connection fewer; the client key survives exactly when it held more than two acquisitions, and then holds one fewer; other clients are unchanged |
| ActiveMounts.ReleaseAsWrittenPreservesEntryInv | driver.go:260-267 | a release keeps the mountpoint, the zero `createdAt`, positive counts and `sum(ids) <= connections` |
| ActiveMounts.Unmount | driver.go:237-281 | untracked, then no connections, then unknown client, each an error that changes nothing; otherwise one release; `umount` runs on the mountpoint exactly when no client key is left; the entry is deleted exactly when that `umount` succeeds, else kept released with an error; no other entry changes (same code in main.go:228-272 and minio/s3.go:189-233) |
| ActiveMounts.UnmountPreservesInv | driver.go:260-278 | Unmount keeps the registry invariant |
| ActiveMounts.ReleaseAsWrittenKeepsSumIffNotTwo | driver.go:263-267 | starting from `connections == sum(ids)`, a release keeps the equality exactly when the client did not hold two acquisitions |
| ActiveMounts.DoubleAcquireUnmountsEarly | driver.go:253-278 | a client that acquired twice and releases once triggers `umount` and loses the entry; its second Unmount reports the volume not found |
| ActiveMounts.UnmountIgnoresRemainingConnections | driver.go:269-278 | whenever a release leaves no client key, `umount` runs; starting from `connections == sum(ids)`, a connection is still recorded at that moment exactly when the client held two acquisitions |
| ActiveMounts.ReleaseIntended | driver.go:263-267 | corrected release: the key survives exactly when the client held more than one acquisition |
| ActiveMounts.UnmountIntended | driver.go:237-281 | corrected Unmount: the same three errors in the same order, each changing nothing; `umount` runs on the mountpoint exactly when `connections` reaches zero; the entry is deleted exactly when that `umount` succeeds, and the result is an error exactly when it fails; no other entry changes |
| ActiveMounts.ReleaseIntendedPreservesValid | driver.go:260-267 | the corrected release keeps `connections == sum(ids)`, and no client is left exactly when no connection is |
| ActiveMounts.UnmountIntendedPreservesValid | driver.go:237-281 | the corrected Unmount keeps the counting invariant for every entry |
| ActiveMounts.DoubleAcquireIntended | driver.go:253-278 | with the correction a client that acquired twice needs two releases before `umount` runs |
| GlusterDriver.StaleLstatError | driver.go:203-226 | the error checked after the mount helper is nil exactly when Lstat found an existing entry |
| GlusterDriver.Mount | driver.go:184-235 | an untracked name is registered at `root/name` before any check; a failure leaves a tracked entry unchanged; success returns `root/name`, adds one connection and one acquisition of the client, keeps every other client's count and the creation time, and sets the mountpoint to `root/name` when the helper ran, else keeps it; success holds exactly when Lstat saw a directory, or the mountpoint was created for a volume that already had connections; a non-directory mountpoint is an error (same code in minio/s3.go:136-187) |
| GlusterDriver.MountTouchesOnlyName | driver.go:192-199 | Mount changes no entry but the mounted volume's |
| GlusterDriver.MountErrors | driver.go:205-226 | the error each failure returns: the MkdirAll error when the mountpoint cannot be created; the Lstat error when Lstat failed; and, whenever the helper ran, the error Lstat returned before it (`StaleLstatError`), whatever the helper did |
| GlusterDriver.MountExecs | driver.go:201-222 | the exact helpers run, each at most once: the cleanup `umount` exactly when Lstat failed, then the mount helper exactly when MkdirAll did not fail, the mountpoint is not a non-directory, and there are no connections or Lstat failed |
| GlusterDriver.MountPreservesInv | driver.go:190-230 | Mount keeps the registry invariant |
| GlusterDriver.MountPreservesValid | driver.go:220-230 | Mount keeps `connections == sum(ids)` |
| GlusterDriver.MountIgnoresHelperResults | driver.go:209-224 | Mount's outcome does not depend on the exit status of the mount helper or of the cleanup `umount` |
| GlusterDriver.MountSucceedsDespiteFailedHelper | driver.go:220-234 | a first Mount on an existing directory reports success and records a connection although the helper failed |
| GlusterDriver.FreshMountpointMountFails | driver.go:203-226 | a first Mount that creates the mountpoint and mounts successfully still returns the not-exist error and records nothing |
| GlusterDriver.MountIntended | driver.go:220-230 | corrected Mount: the helper runs under the same conditions, and a Mount that ran it succeeds only if the helper did |
| GlusterDriver.MountIntendedAgrees | driver.go:201-230 | the corrected Mount runs exactly the helpers the one as written runs, and is identical to it when the helper does not run or runs on an existing directory and succeeds |
| GlusterDriver.MountIntendedAttemptEntry | driver.go:220-230 | after a successful helper run, the corrected Mount records the tracked entry, mounted at `root/name`, with one more acquisition |
| GlusterDriver.MountIntendedOnlyAcquires | driver.go:227-230 | a success of the corrected Mount returns `root/name` and only acquires: the client's count goes up by one, other clients and the creation time are kept, and the mountpoint is `root/name` when the helper ran |
| GlusterDriver.MountIntendedTouchesOnlyName | driver.go:192-230 | the corrected Mount, too, changes no entry but the mounted volume's |
| GlusterDriver.MountIntendedPreservesValid | driver.go:220-230 | the corrected Mount keeps `connections == sum(ids)` |
| GlusterDriver.MountIntendedRecordsOnlyMounted | driver.go:220-226 | with the correction, a Mount that ran the helper succeeds exactly when the helper did |
| GlusterDriver.Get | driver.go:108-151 | an untracked name succeeds exactly when the connection works and `/name` stats as a directory, and is reported with its modification time and no mountpoint |
| GlusterDriver.GetTracked | driver.go:113-123 | under the registry invariant, a tracked name is answered from its entry, `root/name` with the zero creation time, whatever the remote volume holds |
| GlusterDriver.FindVolume | driver.go:347-360 | found exactly when tracked, with the entry's mountpoint and no creation time |
| GlusterDriver.VolumeOf | driver.go:335-345 | only a directory makes a volume, named after it and stamped with its modification time |
| GlusterDriver.List | driver.go:71-105 | succeeds exactly when connect, Open and Readdir do; lists every visible directory and nothing else, as `Remote.VisibleVolumes` of the top level, which VisibleVolumesSingle and VisibleVolumesAppend pin to one volume per visible directory in listing order (same code in main.go:72-106) |
| GlusterDriver.Path | driver.go:176-181 | always succeeds with `root/name`, tracked or not; agrees with a tracked entry; its last segment is the volume name (same code in main.go:158-163) |
| GlusterDriver.Create | driver.go:51-68 | succeeds exactly when connect and Mkdir succeed and the name is free, appending an empty directory; a failure changes nothing (same code in main.go:52-69) |
| GlusterDriver.Remove | driver.go:154-173 | succeeds exactly when connect works, the `Rmdir` is not faulted and `name` is an existing, empty directory; success removes exactly that entry, keeping the others in order; a failure changes nothing (same code in main.go:136-155) |
| GlusterDriver.CreateThenGet | driver.go:132-149 | a volume Create made is found by an untracked Get, stamped with the creation time |
| GlusterDriver.CreateThenRemove | driver.go:164-172 | removing a volume just created restores the remote top level |
| GlusterMain.Mount | main.go:166-226 | with connections, Mount only acquires (what an acquisition leaves unchanged is MountOnlyAcquires); without, it acquires exactly when the mountpoint is ready and the helper succeeds; the helper runs exactly when there are no connections and the mountpoint is ready; failure changes no counts |
| GlusterMain.MountOnlyAcquires | main.go:174-221 | a successful Mount only acquires: the client's count goes up by one, and every other client's count, the mountpoint and the creation time stay as they were, or as registration set them |
| GlusterMain.MountErrors | main.go:183-218 | a failed first mount returns the MkdirAll, Lstat, non-directory or helper error, in that order |
| GlusterMain.MountTouchesOnlyName | main.go:174-181 | Mount changes no entry but the mounted volume's |
| GlusterMain.FailedMountLeavesEntry | main.go:174-181 | a failed Mount of an untracked name leaves an entry with no connections and no clients |
| GlusterMain.MountPreservesInv | main.go:172-222 | Mount keeps the registry invariant |
| GlusterMain.MountPreservesValid | main.go:220-221 | Mount keeps `connections == sum(ids)` |
| GlusterMain.FirstMount | main.go:183-225 | the first Mount runs the helper once and records one connection for its client |
| GlusterMain.SecondMount | main.go:220-225 | a second client's Mount runs nothing and records a second connection |
| GlusterMain.TwoClientsUnmount | main.go:228-272 | releasing the first of two clients keeps the mount; releasing the second runs `umount` and deletes the entry |
| GlusterMain.TwoClientsShareOneMount | main.go:166-272 | two clients share one physical mount: one helper run, one `umount` on the last release, then no entry |
| GlusterMain.VolumeOf | main.go:299-308 | only a directory makes a volume, with no creation time and the mountpoint `root/name`, whose last segment is the volume name |
| GlusterMain.Get | main.go:109-133 | never consults the registry; succeeds exactly when the connection works and `/name` stats as a directory |
| GlusterMain.GetAgreesWithPath | main.go:299-313 | the mountpoint Get reports is the one Path reports |
| MinioDriver.Create | minio/s3.go:66-73 | always refused as not supported; nothing changes and nothing runs |
| MinioDriver.Remove | minio/s3.go:111-117 | always refused as not supported; nothing changes and nothing runs |
| MinioDriver.List | minio/s3.go:76-85 | always succeeds with no volumes |
| MinioDriver.Get | minio/s3.go:88-108 | never fails; a volume is reported exactly when tracked, with its creation time and mountpoint |
| MinioDriver.Path | minio/s3.go:120-133 | succeeds exactly when tracked, with the entry's mountpoint; otherwise a not-mounted error |
| MinioDriver.GetAgreesWithPath | minio/s3.go:93-133 | Get reports a volume exactly when Path finds one, at the same mountpoint |
| MinioDriver.GetTracked | minio/s3.go:93-103 | under the invariant a tracked volume reads as `root/name` with the zero creation time |
| MinioDriver.PathAgainstGlusterDriver | minio/s3.go:124-132 | for a tracked volume this Path agrees with driver.go's; for an untracked one this refuses while driver.go answers |
| MinioDriver.PathAfterMount | minio/s3.go:142-151 | under the registry invariant, after any Mount, failed ones included, Path answers `root/name` |
| MinioDriver.PathAfterUnmount | minio/s3.go:221-230 | after an Unmount that releases an acquisition, Path refuses exactly when the last key was released and `umount` succeeded; otherwise it answers the old mountpoint |
| MinioDriver.CapabilityScopes | main.go:274-276 | main.go advertises local scope; driver.go (283-285) and minio/s3.go (235-237) advertise global |
| Remote.VisibleVolumes | main.go:97-103 | the listed volumes are exactly the directories whose name does not start with `.`, by name only |
| Remote.VisibleVolumesSingle | driver.go:97-102 | one listing entry gives one name-only volume exactly when it is a directory whose name does not start with `.`, and none otherwise |
| Remote.VisibleVolumesAppend | driver.go:97-102 | the filter goes entry by entry: the volumes of a concatenated listing are those of each part, in order, so each visible directory gives exactly one volume, in listing order |
| GfsConnector.RemoveAll | gfs.go:62-71 | nothing of the subtree is left exactly when no error is returned; the first call opens the path; on success the last call removes it |
| GfsConnector.RemoveContent | gfs.go:29-60 | the first call opens the path |
| GfsConnector.RemoveAllNoFaults | gfs.go:62-71 | with no failing call, the whole subtree, the directory included, is deleted |
| GfsConnector.RemoveEachNoFaults | gfs.go:44-59 | with no failing call, the loop returns nil and leaves only `.` and `..` |
| GfsConnector.RemoveEachSucceeded | gfs.go:44-59 | when the loop returns nil, it left exactly `.`, `..` and the files whose unlink failed, in listing order |
| GfsConnector.RemoveEachAborts | gfs.go:49-53 | the loop fails only with the error of some subdirectory's removal, and leaves every later entry untouched |
| GfsConnector.Create | gfs.go:77-88 | `Mkdir("/" + name)`: fails exactly when faulted or the name is taken; otherwise appends an empty directory |
| GfsConnector.CreateThenGet | gfs.go:108-127 | a directory `create` made is what `get` returns |
| GfsConnector.List | gfs.go:90-106 | succeeds exactly when Open and Readdir of `.` do, returning every entry unfiltered |
| GfsConnector.Get | gfs.go:108-127 | succeeds exactly when `/name` stats as a directory; a stat error is passed on; an existing non-directory is its own error |
| GfsConnector.Remove | gfs.go:129-136 | first opens `/name`; an absent name fails there; otherwise the result is `removeAll` of that entry |
| GfsConnector.RemoveNoFaults | gfs.go:129-136 | removing an existing directory with no failing call takes exactly that entry away |
| GfsConnector.MountWithGlusterfs | gfs.go:139-156 | the helper vector decodes to the configured hosts and volume, `/name` and the mountpoint; the call fails exactly when the helper does |
| GfsConnector.MountWithMount | gfs.go:159-171 | `mount -t glusterfs <host>:/<volume>/<name> <mountpoint>`; fails exactly when the helper does |
| GfsConnector.Unmount | gfs.go:173-179 | `umount <mountpoint>`; fails exactly when the helper does |

## Left out

- Process execution: helpers are recorded as argument vectors, and their exit status is a parameter. Their output text is not modelled.
- gfapi: `Init`, `Mount`, `Open`, `Readdir`, `Stat`, `Mkdir`, `Rmdir`, `Unlink`, `Close` and the deferred `vol.Unmount()` are replaced by the `Node` tree and the `Faults` oracle. Mode bits (0755) are not modelled.
- `os.Lstat` and `os.MkdirAll` are outcome parameters.
- Locking: every operation is one atomic step. Unmount in driver.go:237 and main.go:228 takes no lock. The race this allows cannot be expressed in a sequential model.
- `rand.Intn` in gfs.go:163 is the `pick` parameter.
- Time: RFC 3339 formatting is not modelled; `createdAt` is an opaque integer. No variant ever assigns `createdAt`, so it stays Go's zero time.
- Logging, `main()` with its environment parsing and socket serving (main.go:323-346), src/main.go and test/main.go.
- minio/s3.go does not compile as given: `activeMount` is undefined at minio/s3.go:146, and `Unmount`, `unmount`, `volume` and `findVolume` are declared on `*glusterfsDriver` (minio/s3.go:189, :280, :287, :299). Its Mount and Unmount are therefore modelled by the identical text of driver.go, as `GlusterDriver.Mount` and `ActiveMounts.Unmount`.
- minio/s3.go `connect`: it refers to configuration fields the minio parameters do not have. Its `mount` helper builds the same vector as driver.go's and is covered by `Helpers.GlusterfsArgv`.
- Go `int` overflow of `connections` and of the client counts: counts are unbounded integers.
- Paths.Join: models `filepath.Join` only for a clean directory and a single name segment. It does not clean `..`, `.` or doubled separators.
- GfsConnector.RemoveContent: its own contract states only the first call. What the loop deletes is stated by the RemoveEach lemmas, and what the directory removal leaves by `GfsConnector.RemoveAll`.
- Helpers.MountArgv: states that the server is one of the configured hosts, not which one. `GfsConnector.MountWithMount` names `hosts[pick]`. Its `requires pick < |hosts|` leaves out an empty host list, for which `rand.Intn(len(d.hosts))` panics (gfs.go:163); the model does not represent the panic.

## Findings

| source | as written | input that shows it | evidently intended | confidence | as-written member | corrected member |
|---|---|---|---|---|---|---|
| driver.go:203-226 | after running the mount helper, Mount tests the Lstat error. The MkdirAll error is bound by a shadowing `:=` and the helper's error is discarded. The same code is in minio/s3.go:155-178. | Lstat finds a directory and the helper fails: Mount succeeds with one connection. Lstat reports not-exist, MkdirAll and the helper succeed: Mount returns the not-exist error. | test the helper's own error | not executed | GlusterDriver.MountSucceedsDespiteFailedHelper | GlusterDriver.MountIntendedRecordsOnlyMounted |
| driver.go:260-267 | the client key is deleted when its count after the decrement is at most 1. The same code is in main.go:251-258 and minio/s3.go:212-219. | a client holding 2 acquisitions releases one: its key is gone, `connections` is 1 and `sum(ids)` is 0 | delete the key when the count reaches 0 | not executed | ActiveMounts.ReleaseAsWrittenKeepsSumIffNotTwo | ActiveMounts.ReleaseIntendedPreservesValid |
| driver.go:269-278 | `umount` runs when no client key is left, whatever `connections` says. This is the second row's defect seen from Unmount, not a separate one: once the release is corrected, no client key is left exactly when no connection is (the second ensures of `ActiveMounts.ReleaseIntendedPreservesValid`), so the two triggers coincide. The same code is in main.go:260-269 and minio/s3.go:221-230. | the same client's first release runs `umount` and deletes the entry while one acquisition is outstanding. Its second release is refused with not-found. | unmount when `connections` reaches 0 | not executed | ActiveMounts.DoubleAcquireUnmountsEarly | ActiveMounts.DoubleAcquireIntended |
