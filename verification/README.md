# PVC cluster state, modelled and proved

PVC (Parallel Virtual Cluster) keeps everything it knows about nodes, VMs, networks and storage in a
ZooKeeper tree, and moves VM disks between clusters as snapshots. This project models the parts of its
daemon and API code where that state is changed by loops and multi-step protocols, and proves what those
loops and protocols keep.

| file | models |
|---|---|
| `ZkTree.dfy` | the store: a prefix-closed tree of versioned nodes with atomic multi-operation transactions |
| `ZkWrite.dfy`, `ZkDelete.dfy`, `ZkRename.dfy` | the key operations of `ZKHandler` |
| `ZkSchema.dfy`, `ZkSchemaPlain.dfy`, `SchemaV15.dfy` | `ZKSchema.apply` and `ZKSchema.validate` for any well-formed schema, what they do in an operator's terms, and the shipped schema version 15, which is a well-formed one |
| `ClusterBackup.dfy` | `cluster_backup` and `cluster_restore`, built on `ZKHandler.write` |
| `DiffTransfer.dfy`, `Mirror.dfy` | block transfer of a snapshot, full and incremental, and the choice of the incremental parent |
| `UnifiedDiff.dfy` | the VM configuration sent as a one-context-line unified diff (the format of the "Diff -u or -U Output Format" section of IEEE Std 1003.1-2008), and the patcher that applies it |
| `Promotion.dfy`, `PromotionOutcome.dfy` | promotion of a mirror, as runs of events on two clusters, and what it leaves there |
| `Autobackup.dfy` | the tracked list of full and incremental backups |
| `VmSnapshot.dfy` | one snapshot over all volumes of a VM |
| `Migration.dfy` | moving VMs between nodes and choosing a target |
| `Acl.dfy` | the order of firewall rules |
| `ByteSize.dfy`, `NMinusOne.dfy` | size rounding, and memory left after losing a node |
| `Text.dfy`, `Wrappers.dfy` | string operations and `Option` |

Code that changes state in steps is a class or a method with loops here too, each tied by its `ensures` to
a function or predicate; the laws are lemmas about those.

## What the code turned out not to do

Where a promise does not hold of the code as written, a failing case is proved, and the condition under
which the promise does hold.

- A configuration diff whose last shown line of context is the empty line behind a final newline cannot be
  applied: the patcher runs off the end of the original (`UnifiedDiff.RoundTrip`). A removed line starting
  with `--` (as the end of an XML comment can) or an added one starting with `++` is taken for a file
  header (`UnifiedDiff.RoundTripExact`), unless two such mistakes cancel (`UnifiedDiff.MistakesCancel`). A hunk that
  only adds lines before the first or after the last line cannot be read at all (`UnifiedDiff.ShortRangeRaises`).
- A snapshot is listed on the remote cluster as soon as its configuration has arrived, before its blocks.
  After an update that broke off, the next one may take that snapshot as its parent, and then the mirror
  need not equal the source (`Mirror.BrokenUpdate`; in general, `Mirror.ConvergesExactly`).
- The worker takes any state but shutdown for the end of the shutdown, and nothing keeps others from writing the VM's
  state. So a started VM can end up started on both clusters whenever somebody may still start it: a fence, a
  keepalive, an autostart, the end of a restart or migration; or when a flush or return migrates it while its
  guest runs. A VM found restarting, or migrating with its guest running, is not even shut down first. Exactly these
  cases are unsafe (`Promotion.WritersSafety`); `Promotion.PromotionSafety` says for any behaviour of the others when
  the promotion is safe, and `Promotion.UnsafeRun` gives the failing run.
- In the same cases, and when a shutdown is reported at its timeout, the guest may go on running and writing while its
  disks are taken, unless there are none (`Promotion.WritersDisks`, `Promotion.DisksAgreeExactly`).
- With a `full_retention` of zero and an interval above one, an incremental backup's parent is removed
  (`Autobackup.NeverOrphansExactly`).
- A negative order leaves firewall rules with a gap until the next change, and from the eleventh rule on
  a change reorders the others, because orders are sorted as text (`Acl.AddDense`, `Acl.AddExact`).
- The VM snapshot removal stops at the first failure. Once one volume was removed, repeating it never
  succeeds, since it then finds a volume without the snapshot (`VmSnapshot.RetryExact`,
  `VmSnapshot.RetryFails`).
- A node limit of nothing but commas allows no requested node and every node found by a search
  (`Migration.SearchRespectsLimit`).

## Model

| member | source | states |
|---|---|---|
| `ZkTree.RunKeepsValid` | daemon-common/zkhandler.py:283-345 | a committed transaction, whatever it holds, leaves every node below an existing one |
| `ZkTree.Server.Commit` | daemon-common/zkhandler.py:338-345 | all operations take effect, or none and the store is untouched |
| `ZkWrite.CommitExact` | daemon-common/zkhandler.py:283-345 | the transaction of any samples, repeated keys included, commits if and only if each key is still as sampled, or as an earlier entry of the list leaves it, and each new path's parent exists or is created earlier; what it then changes is exactly the listed values and versions |
| `ZkWrite.QuietWriteExact` | daemon-common/zkhandler.py:283-345 | without interference a write takes effect if and only if the resolved paths are distinct and each new path's parent exists or is created earlier in the list |
| `ZkWrite.InterferenceAborts` | daemon-common/zkhandler.py:315-336 | if a key's first sample no longer fits at the time of the commit, nothing is committed |
| `ZkWrite.VersionGrows` | daemon-common/zkhandler.py:315-336 | transactions that write a key and do not delete it leave it at another version, those that do neither never at an older one |
| `ZkWrite.UpdateAborts` | daemon-common/zkhandler.py:283-345 | when other clients create or update a key after it was sampled, and do not delete it, the write takes no effect |
| `ZkWrite.WriteExact` | daemon-common/zkhandler.py:283-345 | whatever other clients do between the samples and the commit, a write of distinct keys takes effect if and only if each still has its sampled version and each new one a parent |
| `ZkWrite.SampledExact` | daemon-common/zkhandler.py:283-336 | one sample for each key the schema knows, in order: its value, and the version it had when it was read, or none if it was absent when asked for; the sampling ends early exactly when a key raises or vanishes between the two requests |
| `ZkWrite.Handler.Write` | daemon-common/zkhandler.py:283-345 | the loop asks for and reads each key against the store of those moments and commits the samples against the last one; a key that vanishes between the two requests ends it before the commit |
| `ZkDelete.Handler.DeleteTree` | daemon-common/zkhandler.py:347-366 | deleting children first removes exactly the subtree, and every single deletion is one the server accepts |
| `ZkDelete.Handler.Delete` | daemon-common/zkhandler.py:347-366 | the loop over the keys does what `AfterDelete` says: missing keys are passed over, and what was removed before a failure stays removed |
| `ZkDelete.RecursiveExact` | daemon-common/zkhandler.py:347-366 | a recursive deletion removes exactly the nodes at or below the given keys, in any order and nesting, and fails only when a key cannot be resolved |
| `ZkDelete.PlainExact` | daemon-common/zkhandler.py:347-366 | a deletion without recursion succeeds if and only if everything below each key is named before it, and then equals the recursive one |
| `ZkDelete.StopsAt` | daemon-common/zkhandler.py:347-366 | a deletion that fails stops at a key that raises or, without recursion, still has something below it; exactly what was named before that key is gone |
| `ZkRename.MoveElement` | daemon-common/zkhandler.py:392-405 | the interleaved creations and deletions of one element run on any tree that agrees with the one read below the source and has the destination free; they carry the subtree over |
| `ZkRename.RenameExact` | daemon-common/zkhandler.py:382-455 | renaming an existing key is accepted if and only if the destination is absent, outside the source, and has a parent; every descendant then stands at the matching path with its data, the source is gone and all else is unchanged |
| `ZkRename.NotIntoItself` | daemon-common/zkhandler.py:392-405 | renaming a key into itself never commits |
| `ZkRename.RenameAll` | daemon-common/zkhandler.py:382-455 | several pairs that do not touch each other move together in one valid transaction |
| `ZkRename.Handler.RenameElement` | daemon-common/zkhandler.py:392-405 | the recursion terminates and appends exactly the operations of that element |
| `ZkRename.Handler.RenameChildren` | daemon-common/zkhandler.py:396-403 | the loop over the children appends their operations in the server's order |
| `ZkRename.Handler.Rename` | daemon-common/zkhandler.py:382-455 | all pairs are checked, then moved together or not at all |
| `ZkSchema.CreateGrows` | daemon-common/zkhandler.py:1017-1115 | creating a demanded key makes no new item that an earlier loop would have had to visit |
| `ZkSchema.SameDemands` | daemon-common/zkhandler.py:1017-1115 | what the schema demands is the same before and during `apply` |
| `ZkSchema.Handler.ApplyBase` | daemon-common/zkhandler.py:1019-1032 | the base keys are all there, each created below an existing parent |
| `ZkSchema.Handler.ApplyKey` | daemon-common/zkhandler.py:1036-1071 | one key of an item is there, with what lies below it if it is a nested one |
| `ZkSchema.Handler.ApplyItem` | daemon-common/zkhandler.py:1036-1071 | an item's keys, and what lies below its nested keys, are all there |
| `ZkSchema.Handler.ApplyBelow` | daemon-common/zkhandler.py:1034-1115 | the nested loops reach every item of an element and undo nothing done before |
| `ZkSchema.Handler.Apply` | daemon-common/zkhandler.py:1017-1115 | on any prefix-closed tree: the result satisfies the schema, no existing node or value changes, only demanded keys are created, every creation finds its parent, and a satisfied tree is left alone |
| `ZkSchema.SatisfiedExact` | daemon-common/zkhandler.py:920-1014 | the keys `validate` looks for are exactly the ones a satisfied schema has |
| `ZkSchema.Handler.ValidateItem` | daemon-common/zkhandler.py:936-962 | one item's keys are reported present if and only if they are; no answer exactly when a nested key to be listed is missing |
| `ZkSchema.Handler.Validate` | daemon-common/zkhandler.py:920-1014 | true exactly on the trees that satisfy the schema, raising exactly when a node whose children it lists is missing |
| `ZkSchemaPlain.DemandedIsPlain` | daemon-common/zkhandler.py:1017-1115 | which keys may be created and with which value, spelt out: the base keys, and the keys of each node, domain, network, OSD and pool, of each volume one level and each snapshot two levels below its pool, and of each reservation and rule below its network's key; "False", "default", "300" and the version's digits in four cases, empty otherwise |
| `ZkSchemaPlain.AppliedPlainly` | daemon-common/zkhandler.py:1017-1115 | after `apply` all of these keys are there, nothing that existed has changed, and what is new is one of them with that value |
| `ZkSchemaPlain.SatisfiedIsAllThere` | daemon-common/zkhandler.py:920-1014 | `validate` is true exactly when all of these keys are there |
| `ZkSchemaPlain.UnanswerablePlainly` | daemon-common/zkhandler.py:966-1012 | `validate` raises exactly when the node above some kind of object is missing, or a network lacks the node above its reservations or rules |
| `SchemaV15.V15WellFormed` | daemon-common/zkhandler.py:586-810 | the shipped schema has the properties the other schema results need: parents before children, elements and nested keys apart |
| `ClusterBackup.CollectLists` | daemon-common/cluster.py:2001-2021 | the depth-first walk lists each covered path once with its value, parents first |
| `ClusterBackup.BackedIsCovered` | daemon-common/cluster.py:2001-2021 | a backup covers all paths but those below /zookeeper and /patroni |
| `ClusterBackup.BackupRestores` | daemon-common/cluster.py:1997-2055 | restoring a backup of any tree onto any tree commits, gives every backed-up path its saved value, and leaves all others, /zookeeper and /patroni included, unchanged |
| `ClusterBackup.BackupVersion` | daemon-common/cluster.py:2031-2047 | the version compared on restore is the one stored in the tree that was backed up |
| `ClusterBackup.Cluster.GetData` | daemon-common/cluster.py:2001-2021 | the recursion appends exactly the walk below its path |
| `ClusterBackup.Cluster.GetChildren` | daemon-common/cluster.py:2007-2021 | the loop over the children, with its exclusions, appends exactly their walks |
| `ClusterBackup.Cluster.Backup` | daemon-common/cluster.py:1997-2028 | the dump holds each backed-up path once, with its value |
| `ClusterBackup.Cluster.Restore` | daemon-common/cluster.py:2031-2055 | raises without a stored version that is a number, refuses another one than its own, and otherwise writes the dump in one transaction |
| `ClusterBackup.BackupAndRestore` | daemon-common/cluster.py:1997-2055 | a backup restored on another cluster is accepted exactly when the number stored at /schema/version is that cluster's schema version, and then every backed-up path has its saved value and nothing else changed; another number is a mismatch, no number raises, and both change nothing |
| `ClusterBackup.FreshVersion` | daemon-common/cluster.py:1972-1994 | a cluster initialized at schema version 15 stores that number there |
| `DiffTransfer.BytesRoundTrip` | daemon-common/vm.py:3650-3654 | decoding the big-endian header gives back the number, for all numbers that fit |
| `DiffTransfer.BigEndian` | daemon-common/vm.py:3650-3654 | the most significant byte comes first |
| `DiffTransfer.FrameBytes` | daemon-common/vm.py:3650-3654 | a frame is eight bytes of offset, eight of length, and the data |
| `DiffTransfer.FrameApplied` | api-daemon/pvcapid/helper.py:1384-1392 | a received frame writes its data at its offset, also when the data is shorter than announced |
| `DiffTransfer.OverlayOne` | daemon-common/vm.py:3656-3668 | one more extent extends the overwritten part by exactly that extent |
| `DiffTransfer.Sender.SendBatch` | daemon-common/vm.py:3614-3648 | one request delivers the buffered frames in order; a broken one leaves each byte old or from the snapshot |
| `DiffTransfer.Sender.DiffCallback` | daemon-common/vm.py:3656-3668 | buffering, flushing once 128 MiB are buffered, and skipping absent extents lose and repeat nothing |
| `DiffTransfer.Sender.SendDiff` | daemon-common/vm.py:3597-3683 | framing, batching, final flush and ordered writes together overwrite exactly the given extents with the snapshot's bytes; a failure leaves only old or new bytes |
| `DiffTransfer.Receiver.ReceiveDiff` | api-daemon/pvcapid/helper.py:1367-1403 | the parts found under their indices, however malformed, are written in order until one does not fit; an empty request fails |
| `DiffTransfer.Receiver.ReceiveFull` | api-daemon/pvcapid/helper.py:1346-1357 | the stream ends up at the image's start whatever its pieces, and succeeds if and only if it fits |
| `DiffTransfer.Sender.FullChunks` | daemon-common/vm.py:3697-3706 | the chunks are the whole snapshot, none empty and none over the chunk size |
| `DiffTransfer.Sender.SendFull` | daemon-common/vm.py:3697-3706 | chunked, cut into any other pieces on the way, and written: the target equals the snapshot |
| `DiffTransfer.FramesMixed` | daemon-common/vm.py:3614-3668 | applying any frames cut from the snapshot always succeeds and leaves each byte old or from the snapshot |
| `Mirror.Converges` | daemon-common/vm.py:4263-4290 | the diff since any snapshot not newer than the mirror's base turns the mirror into the new snapshot |
| `Mirror.ConvergesExactly` | daemon-common/vm.py:4053-4061 | it does so for all histories if and only if the parent is not newer than the base |
| `Mirror.Pair.TakeSnapshot` | daemon-common/vm.py:3960-4044 | a new local snapshot keeps the history consistent |
| `Mirror.Pair.CreateMirror` | daemon-common/vm.py:4053-4290 | an update from whichever common snapshot is picked makes the remote equal the newest one as long as every listed snapshot's blocks had arrived, and keeps that so |
| `Mirror.BrokenUpdate` | daemon-common/vm.py:4053-4290 | an update that breaks off before its first block, and a successful one that takes its snapshot as the parent, leave a wrong mirror |
| `UnifiedDiff.ParseUnifiedDiff` | api-daemon/pvcapid/helper.py:1444-1490 | the loop over the diff's lines computes `Patch`, and raises exactly when that has no result; what is returned neither begins nor ends with white space |
| `UnifiedDiff.SplitsIntoLines` | api-daemon/pvcapid/helper.py:1449-1453 | both texts are split into lines that together are the text, each with one line break at its end except perhaps the last, and "\r\n" is one line break |
| `UnifiedDiff.HunkStartReads` | api-daemon/pvcapid/helper.py:1461-1469 | of any header's second word, all but the first character must be two integers with a comma between them; the first, less one, is the start |
| `UnifiedDiff.HunkStartNeedsComma` | api-daemon/pvcapid/helper.py:1461-1466 | without a second word, or a comma in it, the patcher raises |
| `UnifiedDiff.HunkElsewhere` | api-daemon/pvcapid/helper.py:1468-1474 | a hunk that starts beyond the end of the original raises, one that starts at or before the line reached is applied there |
| `Text.ParsesSigned` | api-daemon/pvcapid/helper.py:1466 | `int` reads a numeral with white space around it and a sign before it |
| `Text.ParsesNothingElse` | api-daemon/pvcapid/helper.py:1466 | and nothing else |
| `Text.StripIsCore` | api-daemon/pvcapid/helper.py:1490 | `strip` removes white space only, and all of it at both ends |
| `UnifiedDiff.HeaderRead` | api-daemon/pvcapid/helper.py:1456-1466 | the patcher reads the start line that difflib prints |
| `UnifiedDiff.ShortRangeRaises` | api-daemon/pvcapid/helper.py:1462-1466 | a hunk whose old range is one line, printed without a length, makes the patcher raise |
| `UnifiedDiff.BodyPatched` | api-daemon/pvcapid/helper.py:1467-1482 | one hunk's removed, added and unchanged lines turn the old text into the new one |
| `UnifiedDiff.HunksPatched` | api-daemon/pvcapid/helper.py:1450-1490 | so do all hunks of a diff, with the unshown lines between them |
| `UnifiedDiff.HeaderCounts` | daemon-common/common.py:474-485 | the two lengths in a hunk's header count its lines of the old text and of the new one |
| `UnifiedDiff.ContextIsShort` | daemon-common/common.py:474-485 | a hunk never shows three unchanged lines in a row |
| `UnifiedDiff.RoundTrip` | api-daemon/pvcapid/helper.py:1444-1490 | for any edit script of clean lines that keeps the first and last line: the patched lines are the snapshot's, or the patcher raises, by whether the last shown line can be found |
| `UnifiedDiff.TextRoundTrip` | daemon-common/common.py:474-485 | for the same scripts the patched text is the snapshot's without the white space at its ends; so for an empty diff the original's |
| `UnifiedDiff.RoundTripExact` | api-daemon/pvcapid/helper.py:1444-1490 | for the same scripts, unless as many lines starting with "++" are removed as added, and no more starting with "--": the result is right if and only if no removed line starts with "--", no added one with "++", and the last shown line can be found |
| `UnifiedDiff.NoNewPluses` | api-daemon/pvcapid/helper.py:1455-1458 | the patcher never adds a line that starts with "++" |
| `UnifiedDiff.MistakesCancel` | api-daemon/pvcapid/helper.py:1455-1458 | a family of scripts in which both kinds of bad line cancel out, so that a bad line alone does not make the result wrong |
| `Promotion.PromotionSafety` | daemon-common/vm.py:4543-5048 | for any relation by which the others may change the VM's state and guest at any time, and with the worker cut off anywhere: the VM is never in state start on both clusters, if and only if it was found in state stop or disable, or no chain of such changes leads to start from where the worker takes the shutdown for done (for a VM not found started: from where it was found) |
| `Promotion.UnsafeRun` | daemon-common/vm.py:745-765 | in every other case there is a run that ends with both started |
| `Promotion.RemoteStartsWhereLocalStopped` | daemon-common/vm.py:5001-5048 | whenever the remote VM is started its disks are the local ones at the end of the shutdown, with nothing running or written since, if and only if the VM was found in state stop or disable, or it was found started and no chain of changes runs its guest from where the shutdown is taken for done |
| `Promotion.DisksAgreeExactly` | daemon-common/vm.py:4590-4612 | the disks alone always agree, if and only if the VM was found in state stop or disable, or it was found started and there are no disks or no such chain runs the guest before the end |
| `Promotion.WritersSafety` | node-daemon/pvcnoded/objects/VMInstance.py:249-531 | with the node daemons' own behaviour and any set of further writers of the state about, the promotion is safe if and only if the VM was found in state stop or disable, or none of them starts the VM, none migrates it while its guest may run, and it was not found restarting or migrating |
| `Promotion.WritersDisks` | node-daemon/pvcnoded/objects/VMInstance.py:471-531 | a started VM's disks arrive as they were at the end of its shutdown, if and only if none of the writers about starts it, and no timeout, flush or return of it is possible while its guest may run |
| `PromotionOutcome.PromotesStopped` | daemon-common/vm.py:4543-5048 | a worker that is not cut off, with a VM that is not started and not disturbed, leaves the remote one in the found state if that is stop or disable, else started; its volumes are the local ones; and the local VM is removed if asked for, else a mirror |
| `PromotionOutcome.PromotesStarted` | daemon-common/vm.py:4543-5048 | the same of a started VM, whose remote one is started, however long its shutdown takes and wherever it ends |
| `PromotionOutcome.RefusesOther` | daemon-common/vm.py:4517-4538 | a VM that exists on the other cluster and is no mirror is left alone on both |
| `PromotionOutcome.RefusesNoLongerStarted` | daemon-common/vm.py:745-755 | so is one that has left state start by the time its shutdown is requested |
| `PromotionOutcome.NothingLost` | daemon-common/vm.py:4994-5048 | in every run, with any faults and interference: the local VM is removed only on request and once the remote one has its final state, and that is only set when each remote volume holds the snapshot of the local one |
| `PromotionOutcome.Faults` | daemon-common/vm.py:4388-5048 | the faults allowed for: a cut before or after any step, and anything on the volume being sent |
| `PromotionOutcome.Interference` | daemon-common/vm.py:4388-5048 | and the others' part: any change the relation allows, any writes while the guest runs |
| `PromotionOutcome.DaemonsAlone` | node-daemon/pvcnoded/objects/VMInstance.py:249-531 | the states the node daemons by themselves can bring a VM to, with its guest on or off: exactly those listed |
| `PromotionOutcome.OneWriterAbout` | node-daemon/pvcnoded/objects/VMInstance.py:249-531 | the same with any one of the further writers about |
| `Autobackup.Worker.RunVmBackup` | daemon-common/autobackup.py:171-484 | the loops over the tracked list compute `NextList`, and drop the snapshots of what expires and of every incremental |
| `Autobackup.MarkedIsBeyond` | daemon-common/autobackup.py:455-468 | marking finds exactly the backups behind the `full_retention`-th full one |
| `Autobackup.KeepsPrefix` | daemon-common/autobackup.py:455-484 | marking and removing keep exactly the list through that full backup |
| `Autobackup.RunsChained` | daemon-common/autobackup.py:171-187 | over any runs with fresh names every incremental's parent is the newest full backup older than it |
| `Autobackup.NeverOrphansExactly` | daemon-common/autobackup.py:171-187 | no tracked incremental ever lacks its parent, if and only if retention is positive or the interval at most one |
| `Autobackup.Bounded` | daemon-common/autobackup.py:455-484 | the newest full backup is at index at most interval - 1, there are at most retention + 1 full ones, and at most retention * interval + 1 backups |
| `Autobackup.SnapshotsMatch` | daemon-common/autobackup.py:432-484 | one run keeps the VM's snapshots equal to those of the tracked full backups |
| `Autobackup.LiveIsFull` | daemon-common/autobackup.py:432-484 | after any successful runs the VM's snapshots are exactly those of the tracked full backups |
| `Autobackup.EveryRun` | daemon-common/autobackup.py:171-484 | after any runs: the newest entry has the last run's name, and is incremental exactly when that run was not forced and a full backup was among the newest interval - 1 entries, with the newest full one as its parent; behind it are the earlier entries with fewer than `full_retention` full ones before them; the snapshots are those of the full backups |
| `Autobackup.ForcedIsFull` | daemon-common/autobackup.py:174-178 | a forced run leaves a full backup in front, and its snapshot |
| `VmSnapshot.CreateThenRemove` | daemon-common/vm.py:2160-2344 | snapshotting all volumes under a fresh name and removing it again is the identity |
| `VmSnapshot.FieldByField` | daemon-common/ceph.py:999-1156 | what creating, recording and removing a snapshot leave of each volume: its snapshots, each entry, and the count, and nothing at any other volume |
| `VmSnapshot.RecordKeeps` | daemon-common/ceph.py:999-1040 | recording a received snapshot makes the count right, exactly when it was not recorded before |
| `VmSnapshot.RecordedConsistent` | daemon-common/ceph.py:999-1040 | after recording received snapshots every volume's entries and count are right, exactly when none was recorded before |
| `VmSnapshot.RetryExact` | daemon-common/vm.py:2299-2350 | after a removal that stopped at the n-th volume a retry succeeds if and only if n is zero and it would have succeeded before |
| `VmSnapshot.RetryFails` | daemon-common/vm.py:2299-2350 | two volumes of which one command works once: no retry succeeds |
| `VmSnapshot.Cluster.AddSnapshot` | daemon-common/ceph.py:999-1040 | when it succeeds, the snapshot, its entry and the count change together; only the entry and the count for a snapshot received from elsewhere |
| `VmSnapshot.Cluster.RemoveSnapshot` | daemon-common/ceph.py:1122-1156 | when it succeeds, the snapshot, its entry and the count change together |
| `VmSnapshot.Cluster.CreateVmSnapshot` | daemon-common/vm.py:2160-2254 | without `zk_only`: succeeds if and only if the name is fresh on every volume, no volume repeats and every command works; otherwise, when the cleanups work, the store is as it was |
| `VmSnapshot.Cluster.RecordVmSnapshot` | daemon-common/vm.py:2160-2254 | with `zk_only`: succeeds if and only if the name is new and every volume exists, and then enters and counts the snapshot of each |
| `VmSnapshot.Cluster.CleanUp` | daemon-common/vm.py:2169-2175 | removing what was taken gives back the store from before the first snapshot |
| `VmSnapshot.Cluster.RemoveVmSnapshot` | daemon-common/vm.py:2299-2350 | succeeds if and only if every listed volume still has the snapshot and every command works; otherwise exactly the volumes before the first failure are done and the VM's entry stays |
| `Migration.GetNodes` | daemon-common/common.py:842-862 | the nodes within the limit, ready, and not the current one, in the server's order |
| `Migration.FindTargetNodeMemFree` | daemon-common/common.py:868-880 | the first eligible node with the most free memory, none if none has any |
| `Migration.FindTargetNodeMemProv` | daemon-common/common.py:886-902 | the first eligible node with the most unprovisioned memory, none if none has any |
| `Migration.FindTargetNodeLoad` | daemon-common/common.py:908-920 | the first eligible node with the least load below 9999 |
| `Migration.FindTargetNodeVcpus` | daemon-common/common.py:926-938 | the first eligible node with the fewest vCPUs below 9999 |
| `Migration.FindTargetNodeVms` | daemon-common/common.py:944-956 | the first eligible node with the fewest VMs below 9999 |
| `Migration.FindTargetNode` | daemon-common/common.py:804-836 | the selector of the VM or the cluster's default decides which; an unknown one finds nothing |
| `Migration.FoundIsBest` | daemon-common/common.py:804-956 | a found target is a node the search may send the VM to, none such has a larger margin, and nothing is found exactly when no margin is positive or the selector is unknown |
| `Migration.FoundPlainly` | daemon-common/common.py:804-956 | for each way to choose, in the terms of the nodes' figures: what is found is the first of the best nodes in service that the limit names, and nothing is found exactly when none is acceptable |
| `Migration.DoneMeans` | daemon-common/vm.py:880-1098 | a command that is done asks for a migration, live if wanted, of a started VM and leaves any other state, and sets node and last node as each of the three commands should |
| `Migration.NotDoneMeans` | daemon-common/vm.py:880-1098 | any other outcome changes nothing, but for the move that makes a VM's node its home, and has its reason |
| `Migration.SearchRespectsLimit` | daemon-common/common.py:804-836 | every found target is within the limit, if and only if the limit is absent, empty or names some node |
| `Migration.Store.MoveVm` | daemon-common/vm.py:880-961 | every refusal and every new value of state, node and last node; asking for the current node of a migrated VM only makes it its home |
| `Migration.Store.MigrateVm` | daemon-common/vm.py:964-1049 | every refusal and new value; a forced second migration keeps the first last node |
| `Migration.Store.UnmigrateVm` | daemon-common/vm.py:1052-1098 | back to the last node, which is cleared; refused exactly when there is none |
| `Migration.HomeRemembered` | daemon-common/vm.py:964-1098 | after any migrations, forced or not, failed or not, unmigrating brings the VM to the node it started on |
| `Migration.LimitRespected` | daemon-common/vm.py:880-1098 | over any commands, a VM whose node and home are within an unchanged limit stays within it |
| `Acl.GetNetworkAcls` | daemon-common/network.py:106-141 | the list is sorted by the text of the orders and holds a rule for every order in use |
| `Acl.ListsEach` | daemon-common/network.py:106-141 | with distinct orders every rule is listed exactly once |
| `Acl.AddDense` | daemon-common/network.py:560-604 | after an addition the orders are 0 to n - 1, once each, if and only if the requested order is none or not negative; they are distinct in any case |
| `Acl.RemoveDense` | daemon-common/network.py:639-660 | after any removal the orders are 0 to n - 1, once each |
| `Acl.AddExact` | daemon-common/network.py:560-604 | the new rule stands at the requested place and the others keep their order if and only if there were at most ten |
| `Acl.AddedPlaces` | daemon-common/network.py:560-604 | for any order: the new rule stores the requested one, or the number of rules if none or a higher one is requested, and every other rule its place in the list with the new one in it, a negative order counting from the end |
| `Acl.RemoveExact` | daemon-common/network.py:639-660 | the others close the gap in order if and only if every order left is a single digit |
| `Acl.AlwaysDense` | daemon-common/network.py:534-660 | over any commands without negative orders both directions hold the orders 0 to n - 1, for every n |
| `Acl.StepChanges` | daemon-common/network.py:534-662 | an addition changes one direction and adds one rule there, a removal removes one from the direction that has it |
| `Acl.Network.Renumber` | daemon-common/network.py:578-596 | the loop gives each listed rule its place and touches no other direction |
| `Acl.Network.AddAcl` | daemon-common/network.py:534-606 | refused exactly when either direction has the name, otherwise one step of the model |
| `Acl.Network.RemoveAcl` | daemon-common/network.py:609-662 | refused exactly when neither direction has the name, otherwise one step of the model |
| `ByteSize.FormatBytesToHuman` | daemon-common/ceph.py:108-120 | the loop from the largest unit down ends at the smallest unit that takes at most four digits |
| `ByteSize.Units` | daemon-common/ceph.py:77-90 | the units are the powers of 1024, up to the tenth |
| `ByteSize.SmallestUnitIs` | daemon-common/ceph.py:108-120 | that unit is the smallest one that fits, and none fits if the largest does not |
| `ByteSize.Printable` | daemon-common/ceph.py:108-120 | a size is printed at all if and only if it is at most 9999 of the largest unit |
| `ByteSize.RoundTrip` | daemon-common/ceph.py:123-138 | reading the printed size gives less than one unit more, exact up to 9999, and otherwise less than b * 1024 / 9999 over |
| `ByteSize.Monotone` | daemon-common/ceph.py:108-138 | a larger size never rounds to a smaller one |
| `ByteSize.Idempotent` | daemon-common/ceph.py:108-138 | a rounded size is printed as before |
| `NMinusOne.CheckOverprovisioning` | daemon-common/cluster.py:161-189 | memory counts as overprovisioned if and only if losing some node would leave less than the VMs were given |
| `NMinusOne.WorstLoss` | daemon-common/cluster.py:164-183 | the total without the largest node is the minimum over all ways to lose one |
| `NMinusOne.SortedDropLast` | daemon-common/cluster.py:806-810 | the metrics' sum of all but the last sorted total is the same number |

## Left out

- External systems: ZooKeeper sessions and retries, RBD and Ceph commands, libvirt, HTTP, Celery and locks
  are parameters that say whether a step works, or contracts (`diff_iterate` reports everything written
  since its parent; no discards).
- Parsing of XML, JSON and regular expressions, and how keys resolve to paths in `ZkWrite`, where a key is a path,
  unknown, or an exception.
- Floating point in the size functions: ceilings and products are exact; the load average is a real number.
- ZkWrite.UpdateAborts: a key that is deleted and created again after it was sampled can show the sampled version, and
  then the write takes effect.
- ZkWrite.Handler.Write: its result says whether the transaction took effect; what the client library reports of a rejected
  one is not modelled. The same holds of the results of `ZkRename.Handler.Rename` and `ClusterBackup.Cluster.Restore`.
- ZkDelete.Handler.Delete: nobody else changes the store meanwhile, and the keys do not include the root, whose deletion
  ends in an error after some of what is below it is gone. The other results of that module share this.
- ZkRename.Handler.Rename: nobody else changes the store between its reads and its commit, and pairs whose key
  the schema does not know are dropped beforehand.
- UnifiedDiff.RoundTripExact: scripts in which mistakes may cancel, which add at least one line starting with "++", remove
  at least as many, and remove no more starting with "--". Some of them succeed (`UnifiedDiff.MistakesCancel`).
- UnifiedDiff.RoundTrip: the scripts keep the first and the last line, and lines hold no other line break than the newline.
  The texts are split at newlines for the diff, and at every kind of line break for the patch. `UnifiedDiff.TextRoundTrip`
  and `UnifiedDiff.RoundTripExact` share both.
- UnifiedDiff.TextRoundTrip: which edit script difflib finds is not modelled, only how it prints one; the result
  holds for every script.
- Mirror.Pair.CreateMirror: one volume of constant size, with no resize between snapshots.
- Promotion.RemoteStartsWhereLocalStopped: each volume's transfer is one step whose result is the snapshot, which is
  what `Mirror` proves for a mirror all of whose listed snapshots are complete.
- Promotion.PromotionSafety: the nodes of the other cluster do nothing to the mirror during the run.
- Promotion.WritersSafety: when each writer turns to a VM is not modelled. One that may be about is taken to write at any
  time, since each decides first and writes later; nobody changes the VM by hand.
- Autobackup.Worker.RunVmBackup: successful runs only; a failed export is tracked and skips the pruning.
- VmSnapshot.Cluster.RecordVmSnapshot: what the cleanup after a failure leaves of the received snapshots.
- Migration.HomeRemembered: a node being flushed or fenced, and a node daemon that aborts a migration, also write
  the VM's node; only the three commands are modelled.
- Migration.Store.MigrateVm: SR-IOV ports, the wait for the node daemon, and nodes whose figures cannot be read.
- Acl.GetNetworkAcls: the rules' texts, which the listing reads with a leftover loop variable, and rules
  that vanish while they are listed.
- Acl.Network.AddAcl: the order is the number the text stands for; a text that is no number raises before any change.
- Schema `migrate` and `rollback`, volume rename, automirror cleanup, the SR-IOV ledger, metrics text, API wrappers, the
  command line, provisioner tables and daemon start-up.
