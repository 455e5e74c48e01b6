# A verified model of the myfs file system, the p2p chat channel and two text machines

This project models four parts of the repository in Dafny and proves what they are for.

* **`exp_5/myfs`**, a FAT file system. A block device, a FAT cache in memory, a table of open files. Files and
  directories are linked cluster chains, directories are slots packed into such a chain, and the directories
  form a tree. The model keeps the shape of the Rust code: `MyFileSystem` is a class whose methods update `fat`,
  `fatDirty`, `openFiles` and the blocks of the device in loops; `ChainIter` and `DirSlotIter` are classes that
  step through a chain and a directory.
* **`exp_3/mychat/p2p.zig`**, a two-way channel over one shared buffer and four semaphores, as a state machine
  whose steps are single waits, posts and copied bytes, and as a class that takes these steps in place.
* **`exp_3/myshell/parse.zig`**, the shell-line parser, loop by loop.
* **`exp_5/myfs_shell/src/main.rs`**, the path canonicaliser and the resolving of paths over the file system.

## How the file system is proved

Each layer is a value that the next one is stated about. `Device` makes logical blocks of physical ones.
`Volume` cuts clusters out of blocks and makes byte strings ("objects") of cluster chains. `FatChains` says when
a FAT is a set of disjoint chains (`FatOk`). `Persist` joins the two into a sound volume (`VolOk`): disjoint
chains that end in an end-of-chain mark, every used cluster in exactly one chain, a boot sector on block 0, and,
unless the FAT cache is dirty, both FAT copies on the disk equal to it. `Tree` decodes directories and says when
they form a tree of files in order (`Coherent`): every entry of a directory names a directory one level deeper,
records 24 bytes per entry, no object has two entries, every file has exactly the clusters its size needs and
only zeros behind its end. `MyFileSystem.Valid` is all of this together with the state of the handles, and every
public operation keeps it. Its effect is stated on `Files(view)`, a map from directory entries to byte strings.
`Replay` then shows that any run of file operations answers exactly as that map does. `Worlds` adds directories to
that model, as rows of named slots; `Session` shows that any sequence of calls, from formatting through mounting
again, answers exactly as it does. As long as no name ends in a space every directory's names stay distinct. In
such a state `Resolve` shows that canonical paths and entries correspond one to one, and that creating or removing
an entry adds or takes away exactly its path. `OnDisk` says where every byte of boot sector, FATs, directories and
files lies, and what stands there.

Device faults are part of the model: the environment may make a bounded number of block writes fail
(`MemoryBackend.faults`). `Intact` is what every operation keeps as long as no write fails during it (`Steady`);
`Valid` adds that no write will. When a write does fail (`Faulted`), the operation reports it and the handles stay
as they were. The rollback theorems hold when no second write fails during the same call (`FaultedOnce`), so that
zeroing during the rollback succeeds: `WriteFaulted` and `GrowFaulted` say what is then on the disk, down to the
bytes that may have been damaged. Operations that the code does not roll back say what they leave behind:
`RemoveFaulted`, `ShrinkFaulted`, `DirsOnly`, `SlotTorn`.

Facts of the code that the statements make visible:

* `mkdir` claims its cluster before it looks for a slot. `Mkdir` says exactly when that loses a cluster: the
  parent has no free slot and one cluster is free. `MkdirLosesCluster` is a run that gets there.
* `lookup` compares the trimmed stored name with the untrimmed key. `StoredNameMatchesKey` gives the exact
  condition under which an entry is found under the name it was created with; `UntidyName` says what happens when
  it fails, and `TrailingSpaceRun` is a run that ends with two entries of one name.
* The last two checks of `FsConfig::validate` can never fail (`ValidateIff`).
* The p2p client sends its JOIN before it starts receiving. If the host has anything to send, some run keeps the
  client from ever joining, and otherwise none does (`BlockedIff`). A run that cannot go on has delivered
  everything exactly if it is not blocked (`RunDeliversIff`), and the point of no return is the moment the host
  passes the turnstile first (`DeliverableIff`).
* A line of the shell parser is read exactly if it can be written as commands, words of plain and quoted pieces, and
  redirections (`ParseMeaning`); vertical tab and form feed separate words but do not end one.
* The report speaks of 16-byte directory entries (`exp_5/report.typ`); the code has 24, and so has the model.

## Model

| member | source | states |
|---|---|---|
| `Replay.Run` | exp_5/myfs/src/lib.rs:751-883 | any run of reads, writes, truncates, seeks, opens, closes and syncs on any mix of files and handles gives, reply by reply, what the map from entries to byte strings gives, and ends in its state; a device fault is reported and stops the run, with all replies before it right |
| `Replay.Perform` | exp_5/myfs/src/lib.rs:689-922 | one operation on the disk is one step of that map, errors included, unless it reports a device fault |
| `Replay.StepOthers` | exp_5/myfs/src/lib.rs:751-883 | an operation changes no other file, a refused one changes nothing, a read changes no file |
| `Replay.WriteMeaning` | exp_5/myfs/src/lib.rs:1057-1094 | after a write the data stands at its offset, a gap before it reads as zeros, all other bytes are as before |
| `Replay.ReadMeaning` | exp_5/myfs/src/lib.rs:765-777 | a read gives the bytes from the offset on, as many as are asked for or there are |
| `Replay.TruncateMeaning` | exp_5/myfs/src/lib.rs:810-883 | truncation keeps a prefix or pads with zeros; bytes cut off never come back |
| `Replay.StepKeepsNames` | exp_5/myfs/src/lib.rs:751-883 | file operations neither add nor remove files |
| `Replay.WrittenIsStep` | exp_5/myfs/src/lib.rs:1096-1114 | a written file, its entry and its handle are the model's write |
| `Replay.TruncatedIsStep` | exp_5/myfs/src/lib.rs:810-883 | a truncated file, its entry and its handle are the model's truncation |
| `Session.RunSession` | exp_5/myfs/src/lib.rs:586-922 | any sequence of creates, mkdirs, removals, lookups, time settings and file operations, by location or by handle, answers call by call as the model of directories, files, cursors and free clusters does and ends in its state, up to the first device fault, which is reported; tidy names keep every directory's names distinct |
| `Session.Lifetime` | exp_5/myfs/src/lib.rs:486-568 | formatting, any sequence of calls, sync, mounting again, any further sequence: unless a device write fails, every answer is the model's, which starts with an empty root and only closes all files when it is mounted again |
| `Session.PerformCall` | exp_5/myfs/src/lib.rs:586-922 | one call on the disk is one step of the model, refusals and lost clusters included; a new directory gets an id that none has |
| `Session.CreatedIsStep` | exp_5/myfs/src/lib.rs:620-636 | a created file, its slot and the clusters it took are the model's |
| `Session.MadeIsStep` | exp_5/myfs/src/lib.rs:638-653 | a made directory, its slot and the clusters it took are the model's |
| `Session.DirRemovedIsStep` | exp_5/myfs/src/lib.rs:671-687 | a removed directory gives back one cluster for each row of its slots |
| `Session.NamesAre` | exp_5/myfs/src/lib.rs:593-606 | the names of a volume are distinct exactly if those of its model are |
| `Worlds.CallsKeepNames` | exp_5/myfs/src/lib.rs:586-687 | calls that create no name ending in a space keep all names distinct and convertible |
| `Worlds.CreatedIsFound` | exp_5/myfs/src/lib.rs:593-636 | in the model, what is created under a name without trailing spaces is found under it and under every name that differs in the case of letters only |
| `Worlds.RemovedIsLost` | exp_5/myfs/src/lib.rs:593-669 | in the model, what is removed is not found any more |
| `Worlds.MkdirLosesCluster` | exp_5/myfs/src/lib.rs:638-653 | a run from formatting on, on five blocks, in which mkdir fails and takes the last cluster with it |
| `Worlds.TrailingSpaceRun` | exp_5/myfs/src/lib.rs:593-636 | a run from formatting on that creates two entries of one name |
| `FileSystem.MyFileSystem.ReadAt` | exp_5/myfs/src/lib.rs:765-777 | returns exactly the stored bytes of the range, cut at the end of the file; refuses what is no file |
| `FileSystem.MyFileSystem.WriteAt` | exp_5/myfs/src/lib.rs:798-808 | overlays the bytes, pads a gap with zeros, dates the entry, tells the open handle; fails with NoSpace exactly when too few clusters are free and then changes nothing; a device fault leaves the handles, and either the FAT of before with only the bytes to be written damaged, or all written but the entry |
| `FileSystem.MyFileSystem.Truncate` | exp_5/myfs/src/lib.rs:810-883 | prefix or zero padding; clusters are taken or given back as the sizes differ; NoSpace exactly when the growth does not fit or the size leaves 32 bits; a device fault leaves the handles, during a growth the FAT, the file and all other objects but the slot being written, and during a cut the bytes before the new end |
| `FileSystem.MyFileSystem.SetMtime` | exp_5/myfs/src/lib.rs:892-903 | the entry and the entry cached by its handle get the given time and date, all their other fields and all other entries stay; a device fault can damage the bytes of that slot only |
| `FileSystem.MyFileSystem.Open` | exp_5/myfs/src/lib.rs:689-712 | a file that is not open gets the first unused of ten handles with cursor 0; TooManyOpenFiles exactly when all ten are used; every refusal leaves the table alone |
| `FileSystem.MyFileSystem.CloseHandle` | exp_5/myfs/src/lib.rs:714-718 | frees exactly that handle |
| `FileSystem.MyFileSystem.FindOpenHandle` | exp_5/myfs/src/lib.rs:720-731 | finds the handle of a location or there is none |
| `FileSystem.MyFileSystem.SeekHandle` | exp_5/myfs/src/lib.rs:740-749 | moves the cursor to any position up to the end, refuses any behind it |
| `FileSystem.MyFileSystem.ReadHandle` | exp_5/myfs/src/lib.rs:751-763 | reads from the cursor and moves it by the number of bytes read |
| `FileSystem.MyFileSystem.WriteHandle` | exp_5/myfs/src/lib.rs:779-796 | writes at the cursor, moves it behind the data, refreshes the cached entry; a device fault leaves what it leaves at WriteAt |
| `FileSystem.MyFileSystem.TruncateHandle` | exp_5/myfs/src/lib.rs:885-889 | truncates the handle's file; a device fault leaves what it leaves at Truncate |
| `FileSystem.MyFileSystem.Lookup` | exp_5/myfs/src/lib.rs:593-606 | the first entry that shows the normalized name, or NotFound |
| `FileSystem.MyFileSystem.CreateFile` | exp_5/myfs/src/lib.rs:620-636 | adds one empty file in the first slot without an entry, growing the directory only if there is none; the entry has attribute 32, the given time, no cluster and size 0, the entry of its directory gets its new size and the time; everything else keeps its place and entry; refusals change nothing, and a device fault leaves a sound volume in which only directories have changed |
| `FileSystem.MyFileSystem.Mkdir` | exp_5/myfs/src/lib.rs:638-653 | adds one empty directory, with attribute 16, and dates the entry of its parent; says exactly when the failing path loses the cluster it has claimed; a device fault leaves a sound volume in which only directories have changed |
| `FileSystem.MyFileSystem.Rm` | exp_5/myfs/src/lib.rs:655-669 | removes one file that is not open, frees exactly its clusters and dates the entry of its directory; a device fault leaves its chain freed from the end on, or freed and only directories changed |
| `FileSystem.MyFileSystem.Rmdir` | exp_5/myfs/src/lib.rs:671-687 | removes one directory without entries, frees exactly its clusters and dates the entry of its parent; a device fault leaves what it leaves at Rm |
| `FileSystem.MyFileSystem.Sync` | exp_5/myfs/src/lib.rs:910-922 | both FAT copies equal the cache afterwards; no data cluster changes |
| `FileSystem.FormatOnDevice` | exp_5/myfs/src/lib.rs:486-547 | accepts exactly the valid configurations the device can hold and yields a valid, empty, synced file system whose free clusters and root fill the data region up to less than a cluster |
| `FileSystem.OpenOnDevice` | exp_5/myfs/src/lib.rs:550-568 | gives back what mounting the disk contents means, or its error |
| `FileSystem.SyncAndReopen` | exp_5/myfs/src/lib.rs:550-568 | after sync, mounting again gives the same boot sector, FAT, directories and files |
| `FileSystem.ReadFatCache` | exp_5/myfs/src/lib.rs:1622-1644 | decodes the first FAT copy |
| `FileSystem.MyFileSystem.AllAccounted` | exp_5/myfs/src/lib.rs:1276-1309 | free clusters plus all chain lengths are the data clusters, which fill the volume up to less than a cluster, in every valid state |
| `FileSystem.MyFileSystem.EveryChainIsNamed` | exp_5/myfs/src/lib.rs:286-342 | every chain is walked without error and is a directory, a file of matching size, or lost by a failed mkdir |
| `FileSystem.MyFileSystem.EveryDirectoryIsNamed` | exp_5/myfs/src/lib.rs:1490-1523 | the directories form a tree below the root; each has one entry, which records 24 bytes per entry |
| `Tree.AllBelowRoot` | exp_5/myfs/src/lib.rs:1504-1523 | every directory lies below the root |
| `Tree.EntriesDistinct` | exp_5/myfs/src/lib.rs:655-687 | no two entries share an object |
| `Tree.ObjectFacts` | exp_5/myfs/src/lib.rs:1057-1133 | a file's object has exactly the clusters its size needs and zeros behind its end |
| `Tree.WrittenOk` | exp_5/myfs/src/lib.rs:1057-1094 | a write into the grown object is the write into the file, and leaves zeros behind the new end |
| `Tree.GrownOk` | exp_5/myfs/src/lib.rs:834-838 | the zero fill of a growing truncate changes no byte |
| `Tree.ShrunkOk` | exp_5/myfs/src/lib.rs:855-871 | cutting the chain and clearing the rest of the last cluster is truncating the file, with zeros behind its end |
| `Tree.SetFileOk` | exp_5/myfs/src/lib.rs:1096-1114 | replacing one file's entry and bytes keeps the tree in order and every other entry |
| `Tree.SetFileFiles` | exp_5/myfs/src/lib.rs:1096-1114 | and changes the map of files at that entry only |
| `Tree.AddEntryOk` | exp_5/myfs/src/lib.rs:620-653 | adding an entry keeps the tree in order up to the recorded size of its directory |
| `Tree.RemoveEntryOk` | exp_5/myfs/src/lib.rs:655-687 | removing an entry keeps the tree in order up to the recorded size of its directory |
| `Tree.RefreshOk` | exp_5/myfs/src/lib.rs:1490-1502 | refreshing the recorded size restores full order |
| `Tree.ExtendOk` | exp_5/myfs/src/lib.rs:1472-1486 | a directory may grow by unused slots; every entry keeps its place |
| `Tree.RetargetOk` | exp_5/myfs/src/lib.rs:1108-1112 | handles stay coherent when their file's entry is rewritten |
| `Tree.RetargetIs` | exp_5/myfs/src/lib.rs:1108-1112 | a handle gets the new entry of its file, and after a cut its cursor goes back to the end; other handles stay |
| `Tree.AddedDates` | exp_5/myfs/src/lib.rs:1490-1502 | creating an entry writes size and time into the entry of its directory |
| `Tree.RemovedDates` | exp_5/myfs/src/lib.rs:1490-1502 | so does removing one |
| `Tree.EntryErrors` | exp_5/myfs/src/lib.rs:1409-1424 | which error a slot without a file, or without a directory, is reported with |
| `Tree.TouchOk` | exp_5/myfs/src/lib.rs:892-903 | changing times keeps the tree in order and all files |
| `Namespace.LookupIsMembership` | exp_5/myfs/src/lib.rs:593-606 | lookup succeeds exactly on the names a directory shows, and finds the one entry that has it |
| `Namespace.CreateCheckIs` | exp_5/myfs/src/lib.rs:620-636 | a name can be taken exactly if it can be spelled with the allowed characters and no entry of the directory shows it in capitals; which error it is refused with otherwise |
| `Namespace.AddedNames` | exp_5/myfs/src/lib.rs:620-653 | creating an entry adds exactly its stored name to its directory and none elsewhere |
| `Namespace.AddedDistinct` | exp_5/myfs/src/lib.rs:620-653 | names stay distinct exactly when the stored name was not there yet |
| `Namespace.CreateKeepsNames` | exp_5/myfs/src/lib.rs:620-653 | creating under a name without trailing spaces keeps names distinct, and lookup then finds the entry |
| `Namespace.RemovedNames` | exp_5/myfs/src/lib.rs:655-687 | removing an entry removes exactly its name |
| `Namespace.CreateKeepsAllNames` | exp_5/myfs/src/lib.rs:620-653 | creating under names without trailing spaces keeps the names of every directory distinct and convertible |
| `Namespace.RemoveKeepsAllNames` | exp_5/myfs/src/lib.rs:655-687 | so does removing |
| `Namespace.UntidyName` | exp_5/myfs/src/lib.rs:593-633 | a name with a trailing space always passes the check and is never found; it duplicates a name exactly if the trimmed one was there |
| `Namespace.TrailingSpaceDuplicates` | exp_5/myfs/src/lib.rs:593-633 | with a trailing space two entries of one name come about |
| `FileSystem.MyFileSystem.DoGrowingWrite` | exp_5/myfs/src/lib.rs:1057-1094 | grows the chain by the lowest free clusters, writes, and on a failing write restores the whole FAT and leaves all bytes outside the written range as they were; file sizes never leave 32 bits |
| `FileSystem.MyFileSystem.GrowFile` | exp_5/myfs/src/lib.rs:826-853 | growing truncate with rollback: after a device fault the FAT is what it was before the call, and of the objects only bytes behind the end of the file and of the slot of its entry can have changed |
| `FileSystem.MyFileSystem.ShrinkFile` | exp_5/myfs/src/lib.rs:855-882 | shrinking truncate: exactly the clusters behind the new end become free; after a device fault the bytes before it are intact and the rest is freed in part |
| `FileSystem.MyFileSystem.CutFile` | exp_5/myfs/src/lib.rs:855-871 | the object afterwards is the cut and cleared prefix; a device fault leaves its first bytes |
| `FileSystem.MyFileSystem.EnsureFcbChainCapacity` | exp_5/myfs/src/lib.rs:955-988 | the chain has the asked length with zeroed new clusters, or nothing has changed |
| `FileSystem.MyFileSystem.TrimChainLen` | exp_5/myfs/src/lib.rs:990-1011 | keeps a prefix of the chain, frees the rest, touches no other object; after a device fault the prefix is kept and the rest freed from some cluster on |
| `FileSystem.MyFileSystem.AllocateClusters` | exp_5/myfs/src/lib.rs:1276-1297 | the n lowest free clusters, zeroed; NoSpace exactly when fewer are free; every error leaves the FAT unchanged |
| `FileSystem.MyFileSystem.CollectFree` | exp_5/myfs/src/lib.rs:1278-1285 | first fit finds n clusters exactly when n are free |
| `FileSystem.MyFileSystem.UndoAllocation` | exp_5/myfs/src/lib.rs:1288-1293 | taking the marks back restores the FAT |
| `FileSystem.MyFileSystem.FreeChainFrom` | exp_5/myfs/src/lib.rs:1299-1309 | frees exactly the chain, or after a device fault exactly its clusters from some one on; on a malformed chain nothing changes |
| `FileSystem.MyFileSystem.AppendClusters` | exp_5/myfs/src/lib.rs:972-986 | links new clusters behind a chain, or makes them one |
| `Persist.TornWalk` | exp_5/myfs/src/lib.rs:1299-1309 | after an interrupted free the walk from the start meets a free cluster |
| `Persist.TrimTornWalk` | exp_5/myfs/src/lib.rs:990-1011 | after an interrupted trim the walk yields what was to be kept, with its bytes |
| `Persist.RollBack` | exp_5/myfs/src/lib.rs:1082-1087 | cutting an extended chain back to its old length gives the old FAT and the old chains |
| `Persist.UndoReached` | exp_5/myfs/src/lib.rs:1082-1087 | the same whether or not the chain had to grow |
| `Persist.GrownRoom` | exp_5/myfs/src/lib.rs:955-988 | the grown object is the old one followed by zeros and has room for the write |
| `Persist.GrewCount` | exp_5/myfs/src/lib.rs:955-988 | a chain grows at the cost of just as many free clusters |
| `Persist.TrimCount` | exp_5/myfs/src/lib.rs:990-1011 | a trim gives back just what was cut off |
| `FileSystem.MyFileSystem.ReadChainBytes` | exp_5/myfs/src/lib.rs:1314-1343 | bytes of the object, or an error when the range leaves it |
| `FileSystem.MyFileSystem.WriteChainBytes` | exp_5/myfs/src/lib.rs:1348-1381 | splices the object and changes no other; a device fault may only have damaged bytes that were to be written |
| `FileSystem.MyFileSystem.ZeroFillChainRange` | exp_5/myfs/src/lib.rs:1116-1133 | zeroes the range in pieces |
| `FileSystem.MyFileSystem.ReadClusterBytes` | exp_5/myfs/src/lib.rs:1383-1389 | the blocks of a cluster in order |
| `FileSystem.MyFileSystem.WriteClusterBytes` | exp_5/myfs/src/lib.rs:1391-1403 | rewrites one cluster and neither another one nor boot block and FATs |
| `FileSystem.MyFileSystem.ZeroCluster` | exp_5/myfs/src/lib.rs:1153-1158 | zeroes one cluster and nothing else |
| `Streams.StreamByParts` | exp_5/myfs/src/lib.rs:1348-1403 | a stream is known from its clusters |
| `Streams.CursorWrite` | exp_5/myfs/src/lib.rs:1363-1378 | changing bytes inside one cluster is changing them in the stream |
| `Volume.HoldsWrite` | exp_5/myfs/src/lib.rs:1348-1381 | rewriting a cluster of one object splices that object only |
| `Volume.HoldsSplit` | exp_5/myfs/src/lib.rs:990-1011 | cutting a chain cuts its object in two |
| `Streams.StreamTorn` | exp_5/myfs/src/dev.rs:147-166 | bytes made of parts whose bytes are old or new have old or new bytes |
| `Volume.ClusterTorn` | exp_5/myfs/src/lib.rs:1391-1403 | a cluster whose writing was interrupted holds old and new bytes only |
| `Volume.ClusterFrame` | exp_5/myfs/src/lib.rs:1391-1403 | writing the blocks of one cluster changes no other cluster, no FAT and not the boot block |
| `FileSystem.MyFileSystem.ReadFcbAt` | exp_5/myfs/src/lib.rs:1409-1414 | the entry at a location, or the right error |
| `FileSystem.MyFileSystem.WriteFcbAt` | exp_5/myfs/src/lib.rs:1426-1431 | rewrites exactly that slot |
| `FileSystem.MyFileSystem.DeleteDirSlot` | exp_5/myfs/src/lib.rs:1433-1438 | marks exactly that slot deleted |
| `FileSystem.MyFileSystem.DirSizeOf` | exp_5/myfs/src/lib.rs:945-953 | 24 bytes for each occupied slot, which always fits 32 bits |
| `FileSystem.MyFileSystem.FillFreeDirSlot` | exp_5/myfs/src/lib.rs:1453-1487 | the first slot without an entry, or the first one of a new zeroed cluster behind the directory |
| `FileSystem.MyFileSystem.FindDirLoc` | exp_5/myfs/src/lib.rs:1504-1523 | the recursive search terminates; what it finds is the one entry of the target, and it misses none below the directory |
| `FileSystem.MyFileSystem.RefreshDirSize` | exp_5/myfs/src/lib.rs:1490-1502 | writes the current size into the directory's entry, wherever that is; a device fault can damage that slot only |
| `FileSystem.DirSlotIter.Next` | exp_5/myfs/src/lib.rs:378-405 | slot number i of the scan is slot i of the directory |
| `Directory.ScanPosition` | exp_5/myfs/src/lib.rs:1444-1451 | slot j of cluster k of the scan is the slot at the offset computed for k * slots-per-cluster + j |
| `Directory.SlotInside` | exp_5/myfs/src/lib.rs:1444-1451 | slots never straddle clusters |
| `Directory.SlotsApart` | exp_5/myfs/src/lib.rs:1444-1451 | different slots share no byte |
| `Directory.SlotWrite` | exp_5/myfs/src/lib.rs:1426-1438 | writing one slot's bytes changes exactly that slot |
| `Directory.SlotExtend` | exp_5/myfs/src/lib.rs:1472-1486 | a zeroed cluster adds unused slots behind the old ones |
| `Directory.SlotsFill` | exp_5/myfs/src/lib.rs:1444-1451 | a cluster has as many slots of 24 bytes as fit into it |
| `Directory.CountIs` | exp_5/myfs/src/lib.rs:945-953 | the count that sizes are made of is the number of slots with an entry |
| `Directory.SlotRoundTrip` | exp_5/myfs/src/lib.rs:244-264 | a written FCB reads back as occupied with the same value exactly when its name is no slot mark |
| `Directory.FcbRoundTrip` | exp_5/myfs/src/fs.rs:273-347 | decoding the 24 bytes of an FCB gives it back |
| `FileSystem.ChainIter.Next` | exp_5/myfs/src/lib.rs:300-342 | yields the walk, one element a call |
| `FatChains.WalkCleanIff` | exp_5/myfs/src/lib.rs:286-342 | on any FAT the walk is without error exactly when the start is 0 or reaches an end mark through used entries in range |
| `FatChains.WalkShape` | exp_5/myfs/src/lib.rs:286-342 | it yields distinct clusters in range and at most one error, last |
| `FatChains.WalkErrors` | exp_5/myfs/src/lib.rs:300-342 | a walk that ends in an error has followed links and come back to a cluster, left the data region, or met a free one; which error tells which |
| `FatChains.ChainsDistinct` | exp_5/myfs/src/lib.rs:1276-1309 | no cluster lies in two chains or twice in one |
| `FatChains.AllocOk` | exp_5/myfs/src/lib.rs:1286-1294 | marking a free cluster makes a chain of one |
| `FatChains.JoinOk` | exp_5/myfs/src/lib.rs:972-986 | linking a new cluster behind a chain keeps all chains disjoint |
| `FatChains.SplitOk` | exp_5/myfs/src/lib.rs:990-1011 | ending a chain early makes two disjoint chains |
| `FatChains.DropOk` | exp_5/myfs/src/lib.rs:1299-1309 | freeing a chain leaves all others |
| `FatChains.Conservation` | exp_5/myfs/src/lib.rs:1276-1309 | free entries plus chain lengths are the data clusters |
| `FatChains.LowestFreeMeaning` | exp_5/myfs/src/lib.rs:1276-1285 | free clusters in increasing order, none skipped |
| `FatChains.LowestFreeCount` | exp_5/myfs/src/lib.rs:1276-1285 | as many as asked exactly when that many are free |
| `FatChains.EntryRoundTrip` | exp_5/myfs/src/fat.rs:19-37 | the 16-bit encoding loses exactly links to the two marker numbers |
| `FileSystem.MyFileSystem.FlushFat` | exp_5/myfs/src/lib.rs:1242-1274 | one FAT copy becomes the encoded cache; clusters, boot block and the other copy stay |
| `Persist.FatRoundTrip` | exp_5/myfs/src/fat.rs:19-37 | decoding a flushed table gives it back exactly when no entry links to a marker |
| `Persist.SoundIsEncodable` | exp_5/myfs/src/fat.rs:19-37 | a table of disjoint chains has no such link |
| `Persist.BootRoundTrip` | exp_5/myfs/src/fs.rs:236-268 | decoding the 16 bytes of a boot sector gives it back |
| `Persist.ValidateBootIff` | exp_5/myfs/src/lib.rs:1564-1620 | with two FAT copies mounting accepts exactly what formatting writes; which error tells a bad configuration from a bad boot sector |
| `Persist.MountFlushed` | exp_5/myfs/src/lib.rs:550-568 | a flushed volume mounts with its boot sector and table |
| `Persist.FlushFrame` | exp_5/myfs/src/lib.rs:1242-1274 | writing a FAT copy disturbs no data cluster |
| `Geometry.GetFatBlockCount` | exp_5/myfs/src/lib.rs:1526-1550 | the sizing loop computes the recursive size and terminates |
| `Geometry.FatSizing` | exp_5/myfs/src/lib.rs:1526-1550 | the loop reassigns at most once, never truncates to 16 bits, the FAT addresses every cluster, and with more than one block it is no larger than the clusters of the first guess need |
| `Geometry.Pow2Iff` | exp_5/myfs/src/lib.rs:131-207 | what the check takes for a power of two is one |
| `Geometry.ValidateIff` | exp_5/myfs/src/lib.rs:131-207 | the accepted configurations, exactly; the last two checks never fail |
| `Geometry.RegionsDisjoint` | exp_5/myfs/src/lib.rs:1166-1199 | boot block, FATs and clusters occupy disjoint block ranges inside the disk |
| `Geometry.BlocksCovered` | exp_5/myfs/src/lib.rs:1166-1199 | every block belongs to the boot block, a FAT or a cluster, apart from fewer at the end than make a cluster |
| `Geometry.ClustersFill` | exp_5/myfs/src/lib.rs:1183-1190 | there are as many clusters as the data region has room for |
| `Geometry.ClusterInside` | exp_5/myfs/src/lib.rs:1170-1199 | every cluster's blocks are inside the disk, so no 16-bit step overflows |
| `Geometry.ClusterIdBounds` | exp_5/myfs/src/lib.rs:1183-1190 | there is a root cluster, ids stay below the end mark, the FAT has an entry for each |
| `Geometry.VolumeBytes` | exp_5/myfs/src/lib.rs:1089-1091 | no file size leaves 32 bits |
| `Device.LogicalBlockDevice.New` | exp_5/myfs/src/dev.rs:64-97 | accepts exactly the block sizes that group whole physical blocks without a rest |
| `Device.LogicalBlockDevice.ReadBlockInto` | exp_5/myfs/src/dev.rs:125-145 | fills the buffer with the physical blocks of the logical one |
| `Device.LogicalBlockDevice.WriteBlockFrom` | exp_5/myfs/src/dev.rs:147-166 | changes exactly that logical block; a device fault leaves every byte of it old or new |
| `Device.MemoryBackend.ReadPhysicalBlock` | exp_5/myfs/src/dev.rs:193-214 | copies one block into part of a buffer |
| `Device.MemoryBackend.WritePhysicalBlock` | exp_5/myfs/src/dev.rs:216-234 | replaces one block, or fails and changes nothing |
| `Device.ViewFrame` | exp_5/myfs/src/dev.rs:104-166 | logical blocks do not overlap |
| `OnDisk.PhysicalByte` | exp_5/myfs/src/dev.rs:104-166 | a logical device has the bytes of its physical blocks, in the same order |
| `OnDisk.MetaBytes` | exp_5/myfs/src/lib.rs:1242-1274 | the sixteen bytes of the boot sector, and the two bytes of every FAT entry in both copies unless the FAT has changed since |
| `OnDisk.SlotBytes` | exp_5/myfs/src/lib.rs:1444-1451 | the 24 bytes of every directory slot: which block, which offset, what is there; 0 and 0xE5 mark unused and deleted ones |
| `OnDisk.FcbBytes` | exp_5/myfs/src/fs.rs:273-347 | the bytes of an entry one by one; a file has attribute 0x20, a directory 0x10 |
| `OnDisk.FileByte` | exp_5/myfs/src/lib.rs:1170-1199 | every byte of a file: its cluster is found along the FAT from the start in its entry, its block and offset from there |
| `Names.NameIff` | exp_5/myfs/src/name.rs:16-202 | the accepted names, exactly: a base of at most nine characters, or a base, a dot and an extension of at most three, of digits, letters, underscores and blanks, the last part not blank |
| `Names.SpelledName` | exp_5/myfs/src/name.rs:159-189 | such a name is stored in capitals, both parts filled up with blanks |
| `Names.NamesMeet` | exp_5/myfs/src/name.rs:196-202 | two names mean the same exactly if they differ in the case of letters only |
| `Names.NameRoundTrip` | exp_5/myfs/src/name.rs:147-189 | printing a converted name and converting the print gives the same name |
| `Names.StoredNameMatchesKey` | exp_5/myfs/src/name.rs:196-202 | the stored name prints as the key exactly when base and extension do not end in a space |
| `Names.UntrimmedIff` | exp_5/myfs/src/name.rs:147-157 | which names those are: none that ends in a blank or has one in front of a dot |
| `Names.TrailingSpaceIsLost` | exp_5/myfs/src/name.rs:196-202 | a concrete name for which it does not |
| `Names.StoredNameIsNoMark` | exp_5/myfs/src/name.rs:159-189 | a stored name never looks like an unused or deleted slot |
| `P2p.StepKeepsInv` | exp_3/mychat/p2p.zig:70-87 | every step of every thread keeps the token counts and the contents of the buffer |
| `P2p.Exclusive` | exp_3/mychat/p2p.zig:70-87 | at most one thread touches the buffer |
| `P2p.RunSafe` | exp_3/mychat/p2p.zig:70-87 | in every interleaving each side has got a prefix of what the other planned to send, intact and in order |
| `P2p.NoDeadlock` | exp_3/mychat/p2p.zig:70-87 | with both loops running some thread can move while anything is under way |
| `P2p.StepRank` | exp_3/mychat/p2p.zig:70-87 | every step brings the end exactly one step nearer |
| `P2p.EndIsDelivered` | exp_3/mychat/p2p.zig:136-172 | where nothing can move all sends have completed and arrived |
| `P2p.BlockedRun` | exp_3/mychat/p2p.zig:232-239 | a frame pending for a client that has not joined keeps it from ever joining |
| `P2p.StuckBeforeJoin` | exp_3/mychat/p2p.zig:232-239 | before the join all threads are stuck only when a frame for the client is pending |
| `P2p.BlockedIff` | exp_3/mychat/p2p.zig:200-239 | some run keeps the client from ever joining exactly if the host has anything to send |
| `P2p.RunDeliversIff` | exp_3/mychat/p2p.zig:206-239 | whatever both plan to send, a run that cannot go on has joined and delivered all of both plans exactly if no frame blocks the JOIN |
| `P2p.DeliverableIff` | exp_3/mychat/p2p.zig:70-239 | in every state before the JOIN has gone out, everything can still be delivered exactly if no frame for the client is in the buffer or on its way into it |
| `P2p.AheadRun` | exp_3/mychat/p2p.zig:232-239 | once such a frame is on its way the client never joins, whatever the threads do |
| `P2p.SendThrough` | exp_3/mychat/p2p.zig:70-79 | a sender that finds turnstile and buffer free can go through to its post |
| `P2p.ShmRegion.SendStep` | exp_3/mychat/p2p.zig:70-79 | a step of sending changes semaphores and buffer as the state machine does |
| `P2p.ShmRegion.RecvStep` | exp_3/mychat/p2p.zig:81-87 | a step of receiving changes semaphores and histories as the state machine does |
| `P2p.ShmRegion.Run` | exp_3/mychat/p2p.zig:136-172 | any scheduler comes to an end, with everything delivered exactly if no frame blocks the JOIN |
| `ChatFrames.FrameBytes` | exp_3/mychat/common.zig:5-23 | the bytes of each kind of frame; a message fits exactly if fields and separators take at most 512 bytes |
| `ChatFrames.AnyFrame` | exp_3/mychat/p2p.zig:89-134 | what is printed for any buffer and whether it is accepted, from the fields in front of its first record separator |
| `ChatFrames.FrameRoundTrip` | exp_3/mychat/p2p.zig:89-134 | a received buffer is printed as the sent message, whatever stale bytes follow, exactly when no printed field contains a separator and the info of a JOIN has no unit separator before a record separator |
| `ChatFrames.MessagesArrive` | exp_3/mychat/p2p.zig:70-134 | in every run, whatever both sides plan to say, the k-th buffer each gets is printed as the k-th message of the other, exactly when that is legible |
| `ShellParse.AllocParse` | exp_3/myshell/parse.zig:81-167 | the parser's loop terminates and answers Parse, whose meaning ParseMeaning and the lemmas on refused lines give |
| `ShellParse.AllocParseWord` | exp_3/myshell/parse.zig:49-79 | a word as WordFrom reads it, which WordReads shows to be the text of its plain and quoted pieces, and where it ends |
| `ShellParse.ParseLeadingFd` | exp_3/myshell/parse.zig:28-38 | a descriptor directly in front of a redirection |
| `ShellParse.ParseFdToken` | exp_3/myshell/parse.zig:41-46 | a descriptor behind an ampersand |
| `ShellParse.WordReads` | exp_3/myshell/parse.zig:49-79 | plain stretches and stretches in either quotes, in any order, are read as their text up to the character that ends the word; one without text is refused |
| `ShellParse.FormsRead` | exp_3/myshell/parse.zig:81-167 | a line written with any white space, plain or quoted words, and redirections with or without descriptors is read as its commands with their words and redirections in order, or refused exactly if a command is missing; the defaults are 0 for input and 1 otherwise |
| `ShellParse.ParseMeaning` | exp_3/myshell/parse.zig:81-167 | a line is parsed into a pipeline exactly if it is a way to write that pipeline |
| `ShellParse.UnclosedQuote` | exp_3/myshell/parse.zig:49-76 | open quotes are reported as such |
| `ShellParse.EmptyQuotes` | exp_3/myshell/parse.zig:49-77 | a word of empty quotes is refused |
| `ShellParse.NoTarget` | exp_3/myshell/parse.zig:118-158 | a redirection at the end of the line misses its target |
| `ShellParse.BadTarget` | exp_3/myshell/parse.zig:91-103 | a redirection in front of a bar or an angle bracket is unexpected |
| `ShellParse.BadDuplicate` | exp_3/myshell/parse.zig:119-131 | a duplication without a number is unexpected |
| `ShellParse.PrintRoundTrip` | exp_3/myshell/parse.zig:81-167 | every pipeline of non-empty words, file redirections and duplications has a line that is parsed back into exactly it |
| `ShellParse.ParsedIff` | exp_3/myshell/parse.zig:81-167 | the pipelines that lines are parsed into are exactly those of commands with words and of words and targets that are not empty |
| `ShellParse.ParseAgain` | exp_3/myshell/parse.zig:81-167 | printing what was parsed and parsing it again gives the same |
| `ShellParse.PipeDistributes` | exp_3/myshell/parse.zig:107-114 | parsing distributes over an unquoted pipe behind a part that is neither blank nor ends in a pipe, and is an error behind any other |
| `ShellParse.OpenIffSolid` | exp_3/myshell/parse.zig:91-166 | a line ends inside a command exactly when its last solid character is no pipe |
| `Paths.FromCwdStr` | exp_5/myfs_shell/src/main.rs:28-58 | the loop over the components computes FromCwd, whose meaning FromDirectory, FromRoot and Composes give |
| `Paths.ResultIsCanonical` | exp_5/myfs_shell/src/main.rs:28-58 | no empty component, no dot, no double dot, all upper case |
| `Paths.Idempotent` | exp_5/myfs_shell/src/main.rs:28-58 | canonicalising again changes nothing |
| `Paths.Composes` | exp_5/myfs_shell/src/main.rs:28-58 | going to a and from there to a relative b is going to a/b |
| `Paths.FromDirectory` | exp_5/myfs_shell/src/main.rs:28-58 | from a directory, ".." leads to its parent or stays at the root, "." stays, and any other name leads to its component in capitals |
| `Paths.FromRoot` | exp_5/myfs_shell/src/main.rs:28-58 | a path with a leading slash starts at the root wherever one stands; the empty path is refused |
| `Paths.UpAgain` | exp_5/myfs_shell/src/main.rs:28-58 | going to a/c/.. is going to a |
| `Paths.EmptyPartsVanish` | exp_5/myfs_shell/src/main.rs:28-58 | doubled and trailing slashes change nothing |
| `Paths.PathText` | exp_5/myfs_shell/src/main.rs:28-58 | how a list of components is written |
| `Paths.ParentAndNameOf` | exp_5/myfs_shell/src/main.rs:298-318 | splitting off the last component of a canonical path gives the parent's canonical path and the name |
| `Resolve.ResolveTarget` | exp_5/myfs_shell/src/main.rs:276-296 | the component-by-component lookups on the disk compute the entry the tree has for that path, or the error of the first component that stops |
| `Resolve.ResolveParentAndName` | exp_5/myfs_shell/src/main.rs:298-326 | the directory and the name a path stands for; refuses the root and parents that are files |
| `Resolve.PathsAreEntries` | exp_5/myfs_shell/src/main.rs:276-296 | entries and canonical paths correspond one to one: every entry has a path that resolves to it, and only one |
| `Resolve.OnePath` | exp_5/myfs_shell/src/main.rs:276-296 | no two canonical paths lead to one entry |
| `Resolve.PathTo` | exp_5/myfs_shell/src/main.rs:276-296 | every entry has a path, with one component for each level of the tree |
| `Resolve.FromAnywhere` | exp_5/myfs_shell/src/main.rs:276-296 | the canonical path of an entry resolves to it whatever the current directory |
| `Resolve.ResolvedFromThere` | exp_5/myfs_shell/src/main.rs:276-296 | after going to a, a relative b resolves to what a/b resolved to before |
| `Resolve.UpFromDirectory` | exp_5/myfs_shell/src/main.rs:276-296 | ".." from an entry resolves to the directory that the entry lies in, from the root to the root |
| `Resolve.CreatedPaths` | exp_5/myfs/src/lib.rs:620-653 | creating an entry adds exactly its path; every other path leads where it led before |
| `Resolve.RemovedPaths` | exp_5/myfs/src/lib.rs:655-687 | removing an entry takes away exactly its path |
| `Resolve.RewrittenPaths` | exp_5/myfs/src/lib.rs:1096-1114 | writing, truncating or touching a file moves no path |
| `Resolve.CreateAt` | exp_5/myfs_shell/src/main.rs:188-195 | creating a file by its path succeeds exactly if the parent is a directory, the name is new and there is room; the path led nowhere before, leads to the file afterwards, and no other path changes |
| `Resolve.MakeDirAt` | exp_5/myfs_shell/src/main.rs:175-179 | the same for a directory, which needs a cluster of its own |
| `Resolve.RemoveAt` | exp_5/myfs_shell/src/main.rs:196-202 | removing a file by its path succeeds exactly if the path resolves to a file that is not open; it leads nowhere afterwards, and no other path changes |
| `Resolve.RemoveDirAt` | exp_5/myfs_shell/src/main.rs:181-187 | removing a directory by its path succeeds exactly if the path resolves to a directory without entries |

## Left out

- Device faults: the environment may make a bounded number of block writes fail. What a call that meets one leaves on the disk is stated for every operation but formatting; where the code rolls back, for calls that meet no more than one.
- Replay.Run, Session.RunSession and Session.Lifetime: say nothing of what follows a device fault.
- A failing write of an entry after a successful growing write is not rolled back by the code (`exp_5/myfs/src/lib.rs:1106-1107`); `WriteAt` says so.
- Clock: `Utc::now()` is a parameter (`now`, `later`), and a packed time stamp is two opaque 16-bit numbers; a failing conversion of the current time, outside 1980 to 2107, is not modelled.
- Integer width: `usize` has 64 bits.
- Byte order: boot sector and entries are copied as they lie in memory (`exp_5/myfs/src/fs.rs:259-267`); the model takes the low byte first, as the code does for the FAT.
- FileSystem.OpenOnDevice: the boot sector must ask for two FAT copies, which the code does not check and formatting always writes.
- Locations and cluster ids passed to public operations name directories of the volume, as the callers in the repository make sure.
- Error texts: an error keeps its kind and, where the code has one, its location, handle or position, not its message.
- `FileBackend`, logging, FUSE callbacks, command-line tools and the dump of the FAT: input and output only.
- `stat`, `stat_root` and the directory listing: read-only views of entries that the tree already states.
- Date and time packing in `exp_5/myfs/src/fs.rs`: a finite 16-bit domain.
- `exp_3/mychat/shmem.zig`, `fifo.zig` and `mq.zig`: other transports of the chat.
- Shared memory mapping, signals, process exit and the `client_present` semaphore: the p2p model covers one client session.
- Parser numbers of 2^32 and more: the code declares them unreachable; the model's descriptors are unbounded.
- Resolve.ResolveTarget: requires that components before the last lead to directories or to files without clusters, and so do the calls by path; the code looks a name up in the clusters of a file as if they were slots (`exp_5/myfs_shell/src/main.rs:284-288`).
- FileSystem.MyFileSystem.EnsureFcbChainCapacity: stated for the chains of a sound volume, and so are `TrimChainLen`, `ReadChainBytes`, `WriteChainBytes` and `DirSlotIter.Next`; what a malformed chain yields is stated for the walk itself and for `FreeChainFrom`.
- Persist.ValidateBootIff: stated for two FAT copies, like `OpenOnDevice`.
- Times and the recorded sizes of directories are in the views but not in the model of whole sessions.
- Memory allocation failures in the Zig programs.
