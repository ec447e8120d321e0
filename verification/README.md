# A verified model of the bhaskix storage, signature, ring, loader and audit cores

The modules state and prove what six parts of the system promise:

* **the journalled write-back block cache** (`fs`): an LRU cache of at least two frames, with pins and
  dirty pages, over a device that may fail any read, refuse any write, and stop after any write; a
  write-ahead log over it; mounting, recovery, formatting, allocation and reading;
* **the SLH-DSA-SHA2-128s verifier and signer** (`bootsig`), FIPS 205 sections 4.4, 5 to 8 and 9;
* **the shared-memory frame ring** (`abi`) and **the split virtqueue** (`device`), VIRTIO 1.0 section 2.4,
  each as a two-party protocol in interleaved steps;
* **the ELF64 parser and relocation walk** (`elf`);
* **the audit hash chain** (`auditlog`).

## How the pieces fit

| file | what it holds |
|---|---|
| Words, Blocks, Records, Packing, Checksum | bytes, little-endian words, sealed records, numbers laid end to end, the running FNV-1a fold |
| CacheModel, Cache | the plain block map a cache stands for; the cache as a class |
| Superblock, Inode, Bitmap, Allocation, Format, Filesystem | the disk layout, formatting, whole runs of allocation, reading a file |
| Journal, Recovery | the commit block read and built; what recovery gives |
| Ledger, Volume, Mount | what every device write leaves recoverable; transactions; mounting over whatever waits |
| Crash, Tear, Collision | stopping anywhere, restarting and remounting; when a remount tears; the checksum exception |
| Transaction, Service, Fresh, Lives | whole operations; the service that mounts before each; a formatted device mounted; any number of machines in turn |
| Digits, SlhDsa, SlhReference, SlhVerifier, SlhSigner, SlhBinding | base-2^b digits; the scheme as functions; the verifier defined a second time; the verifier as it runs; the signer; what an accepted signature binds |
| Ring, RingProtocol, Virtqueue | index arithmetic and framing; producer and consumer; driver and device |
| Elf, ElfTheorems, ElfWritten, ElfRelocation, ElfDynamic, ElfRefused | the parser as functions; loops, streaming and exactness; files as the format lays them out; relocations, and as they are written down; a file refused half-way |
| AuditLog, AuditRecord | the chain, its verifier, tamper evidence; what a log written from records says |

**The crash argument.** The device keeps its `history`, one disk per write it accepted, so a machine that stops
leaves one of those disks. A volume keeps a ghost `book` that gives each of them a mark: the transaction number
and a *stand*, which is the state a mount must show, the *loose* blocks (file data, which the journal does not
cover), and where the commit header the disk may still carry came from. `Volume.Valid()` says that every disk
in the history stands where its mark says. Every method keeps it, through evictions and write-backs nobody
asked for and through every error. `Commit` says the marks it adds are the old durable state or exactly the new
one, `StopsAdvance` that a later disk never falls back, `Restart` puts a new machine on any one of the disks
and mounts it, and `Remount` mounts the same cache again after an operation failed. The disks a mount passes
through are part of the history and stand as well, so a machine may be stopped in the middle of its own
recovery. `Lives.Run` puts these together over whole operations and any number of machines, the cache mounted
again before every operation: what fits succeeds unless the device fails during it, and what was acknowledged
is there for the next machine, each operation whole, and in order. Only data changed in place by operations
after the last one kept is not settled. The device counts its failures, so that "unless the device fails" is
said of each call: of the failures during it, whatever happened before.

**One exception, stated exactly, disk by disk.** A commit header left on the device by a refused clear would
come back to life if later payload blocks agreed with its checksum. A disk is *forged* if it commits over
another payload than its header was committed over; `EveryStopRecovers` excepts that disk and no other. Under a
header the volume knows, a forged disk is two payloads with one checksum (`Ledger.ForgedCollides`); a disk at
rest fails to recover exactly when what it commits is harmful (`Ledger.BreaksExactly`); and since a 32-bit
checksum has collisions, it happens (`Collisions.AccidentHappens`). A header that already announced something
with a checksum that did not match when the volume was first mounted is of unknown origin, and there any
transaction it comes to commit is forged. None of this can happen while the device has refused no write and the
log announced nothing at mount (`Steady`), which `Restart` carries from each machine to the next.

**What was found.**

* The way to clear a pending transaction is said to be to mount again, and the file service mounts the same
  cache before every write. That keeps the crash claim if what the cache shows committed is what the device
  holds committed (`CrashSafety.Settled`). If the commit block still waits because its flush was refused, the
  replay may put one home on the device before it, and that can tear exactly when the commit changes two
  homes, one of which the journal covers (`Tearing.TearsExactly`, over every disk a mount may pass through;
  `CrashSafety.Remount` promises the rest). `Tearing.RefusedIsPoised` says that a refused commit leaves such a
  state, `Tearing.TornReplay` makes the replay do it, and `Tearing.CommitThenMount` goes from the one to the
  other in one run.
* `read_head` accepts a journal of fewer than nine blocks while `stage` counts to eight, so a slot may lie in
  file data (`Volumes.SlotInLog`). `Stage` then overwrites that data, and `Commit` refuses the transaction.
  A formatted filesystem always has nine blocks (`Formatting.LayoutIsLaid`).
* `commit` takes any order of the right length. It keeps its promise exactly when each slot the order misses
  has a home that already holds its logged block (`Volumes.Volume.Commit`); `Volumes.CommitFirstTwice` loses a
  change with the order [0, 0].
* `read_head` does not compare the inode count with the table. `Inodes.TableHolds` says when every inode has
  its place.
* `mark` reads back exactly when the length is below 2^24 and the member is none or at most 14
  (`Ring.MarkReadsBack`); the uplink bit is where member 15 would be.
* The comment on `used` says blocks past the map read as taken; the code reads them as free, and so does
  `Bitmaps.UsedIn`. The allocation results are about blocks below `blocks`.
* The relocation walk calls its callback before it has seen later entries, although its documentation says a
  bad table is refused whole. `ElfRefused.RefusedInPart` gives a file that parses and is refused after its first entry
  was applied, and `ElfRelocation.ForEachRelative` says when that happens.
* `home` checks only that a destination is non-zero and below `blocks`. That destinations lie outside the
  log is a stated precondition (`Recovery.Contained`), which every transaction a volume builds meets.

## Model

| member | source | states |
|---|---|---|
| `PageCache.Device.Read` | fs/src/cache.rs:57-76 | a block in range is read exactly or fails; a failure is counted and hands back nothing |
| `PageCache.Device.Write` | fs/src/cache.rs:57-76 | a write happens whole, as one more state of the history, or not at all, and is counted as a failure |
| `PageCache.Cache.New` | fs/src/cache.rs:235-250 | any frame memory: refused below two frames, capped at 64, otherwise as many as fit; the cache shows the device as it is with nothing waiting |
| `PageCache.Cache.Resident` | fs/src/cache.rs:282-286 | the frame holding a block, if any does |
| `PageCache.Cache.Victim` | fs/src/cache.rs:298-321 | none exactly when every frame is pinned; otherwise an empty frame, or the unpinned one whose block was wanted longest ago in the whole access history |
| `PageCache.Cache.WriteBack` | fs/src/cache.rs:367-387 | at most one device write, carrying what a reader sees; the frame is clean afterwards; a refusal changes nothing; the count of writes is the device's |
| `PageCache.Cache.Load` | fs/src/cache.rs:409-421 | a frame is relabelled only after its read succeeded; a failed read changes nothing |
| `PageCache.Cache.Refill` | fs/src/cache.rs:403-421 | a frame nobody holds is given to another block only after what it held is on the device; a failure loses nothing a reader sees |
| `PageCache.Cache.Admit` | fs/src/cache.rs:390-423 | what a reader sees never changes, whatever the outcome; exactly when each error comes; a resident block keeps its frame, any other takes the least recently wanted; only that frame changes; hits and misses counted |
| `PageCache.Cache.Page` | fs/src/cache.rs:561-564 | the bytes given are the plain map's; the only failures are the range, every frame pinned, or the device |
| `PageCache.Cache.Pin` | fs/src/cache.rs:331-335 | the frame named holds the block and is held; every other pin and the view stand; exactly when each error comes |
| `PageCache.Cache.Unpin` | fs/src/cache.rs:342-346 | one frame let go, nothing else changed; a slot that does not exist is ignored |
| `PageCache.Cache.Forget` | fs/src/cache.rs:544-553 | pinned frames and what they show survive; every other block shows the device |
| `PageCache.Cache.Put` | fs/src/cache.rs:434-459 | exactly one entry of the map changes, to the new bytes, or an error and none does; exactly when each error comes |
| `PageCache.Cache.Edit` | fs/src/cache.rs:466-470 | one entry of the map changes, to what the caller makes of the old bytes; an error changes none |
| `PageCache.Cache.AdmitBoth` | fs/src/cache.rs:483-494 | both blocks end up resident in different frames, unless exactly one frame is unpinned and neither block is in a pinned one |
| `PageCache.Cache.Copy` | fs/src/cache.rs:479-512 | the destination's entry becomes the source's and nothing else changes; it refuses for lack of a second frame exactly when cramped; an error changes nothing; which frames were used and what was written back on the way |
| `PageCache.Cache.Flush` | fs/src/cache.rs:522-531 | afterwards the device is the view and nothing waits; it counts its writes; stopped part-way, it fails only on a refused write and the view stands |
| `PageCache.Squeezed` | fs/src/cache.rs:479-512 | source and destination frames meet exactly when one frame is usable and neither block is held elsewhere |
| `CacheModel.CleanKeeps` | fs/src/cache.rs:367-387 | writing a frame back keeps coherence and the view and sets one device block to what a reader sees |
| `CacheModel.ReloadKeeps` | fs/src/cache.rs:409-421 | giving a clean frame to another block keeps coherence and the view |
| `CacheModel.OverwriteSets` | fs/src/cache.rs:434-459 | a frame taking a whole block changes one entry of the view and makes that block wait |
| `CacheModel.SpillsLeave` | fs/src/cache.rs:367-423 | after any of an operation's device writes each block holds what it held or what a reader sees |
| `CacheModel.WantKeepsTime` | fs/src/cache.rs:390-423 | a slot's clock reading stays the time its block was last wanted |
| `Checksum.FoldSplits` | fs/src/lib.rs:189-213 | folding pieces in turn is folding their concatenation |
| `Checksum.Continue` | fs/src/lib.rs:196-213 | the byte loop computes the fold |
| `Checksum.OneByteTells` | fs/src/lib.rs:182-213 | one changed byte changes the running hash wherever it is, and the checksum too unless the hashes are zero and the one that stands for it |
| `Checksum.KnownAnswers` | fs/src/lib.rs:189-213 | the published FNV-1a values of nothing and of one letter |
| `Collisions.BlocksCollide` | fs/src/lib.rs:189-213 | from every state of the checksum two different blocks lead to the same one |
| `Records.SealedReads` | fs/src/lib.rs:175-180 | every number put into a record reads back, whatever is put after it |
| `Records.SealedChecks` | fs/src/lib.rs:328-346 | a sealed record carries the checksum of its own covered bytes |
| `Inodes.SuperblockRoundTrip` | fs/src/lib.rs:328-346 | a written superblock reads back as itself exactly when it is sane for the device, and is refused as out of range otherwise |
| `Inodes.ReadsExactly` | fs/src/lib.rs:279-321 | a head is accepted as this superblock if and only if it is sane for the device and the covered bytes and checksum are those writing it makes |
| `Superblocks.SaneExactly` | fs/src/lib.rs:304-319 | the checks on the fields hold if and only if every region has a block and the log two, no block is two regions', none is past the filesystem or left out between them, and the device and the table are long enough |
| `Inodes.InodeRoundTrip` | fs/src/lib.rs:409-497 | every inode decodes to itself, and no encoding reads as a slot nobody wrote |
| `Inodes.UnwrittenIsFree` | fs/src/lib.rs:412-430 | a zeroed slot is a free inode |
| `Inodes.InodesApart` | fs/src/lib.rs:242-253 | an inode lies whole inside one block, and no two overlap |
| `Inodes.InodeAtExactly` | fs/src/lib.rs:242-253 | an inode of the count is looked for at its byte of the table, and refused if and only if it is past the count or a block number has no room |
| `Inodes.TableHolds` | fs/src/lib.rs:242-253 | every inode has a place inside the table if and only if the table is long enough for the count |
| `Bitmaps.BitSet` | fs/src/lib.rs:603-615 | setting a bit changes that bit and no other |
| `Bitmaps.SetIs` | fs/src/lib.rs:594-615 | setting a block changes what is read of that block and no other |
| `Bitmaps.Bitmap.Of` | fs/src/lib.rs:573-590 | refused exactly when the image does not hold the region or the map is too short for the blocks |
| `Bitmaps.Bitmap.FirstFree` | fs/src/lib.rs:557-564 | the block allocation would take next, or none if a 32-bit number cannot name it |
| `Bitmaps.Bitmap.Allocate` | fs/src/lib.rs:626-634 | the lowest block not held becomes held and nothing else changes; full exactly when there is none |
| `Bitmaps.Bitmap.Free` | fs/src/lib.rs:643-649 | refused exactly for what is not data; otherwise that block and no other stops being held |
| `Bitmaps.Bitmap.InUse` | fs/src/lib.rs:670-674 | the number of data blocks held |
| `Bitmaps.MarkedIs` | fs/src/lib.rs:822-827 | marking the first n blocks sets those bits and no others |
| `Allocation.Serve` | fs/src/lib.rs:626-666 | any run of takes and gives answers as the plain held-set does; metadata bits never change |
| `Allocation.OnlyData` | fs/src/lib.rs:620-649 | over any run nothing but data is ever held |
| `Allocation.HeldExactly` | fs/src/lib.rs:620-666 | after any run a data block is held exactly if it was held or was taken, and has not been given back since |
| `Allocation.NeverTwice` | fs/src/lib.rs:620-649 | over any run no block is handed out twice without being given back in between |
| `Formatting.LayoutIsLaid` | fs/src/lib.rs:786-816 | an accepted layout is sane, has a bit for every block, a slot for every inode and a nine-block journal |
| `Formatting.LayoutIsLeast` | fs/src/lib.rs:779-812 | if any layout has a bit for every block, a slot for every inode, a nine-block log and a data block, the one laid out is the only one whose data starts first |
| `Formatting.FormatSized` | fs/src/lib.rs:786-842 | accepted if and only if some such layout's metadata fits the buffer, and then laid out as the one whose data starts first; the buffer is then superblock, bitmap and root over zeros; what a refusal leaves of it |
| `Formatting.FormattedMounts` | fs/src/lib.rs:786-842 | a device carrying that metadata reads as its layout, with an empty log and nothing to recover, whatever its data blocks hold |
| `Formatting.FormattedBitmap` | fs/src/lib.rs:819-827 | in a fresh map exactly the metadata is in use |
| `Formatting.FormattedInodes` | fs/src/lib.rs:829-841 | in a fresh table the root decodes to an empty directory of generation one and every other inode is free |
| `Formatting.SlotIsAt` | fs/src/lib.rs:242-253 | the block and offset an inode is looked for at are where its slot is in the image |
| `Filesystems.ReadDetermined` | fs/src/lib.rs:938-968 | what a read gives is settled by the disk alone: the declared bytes, clipped to the size, cut at the first byte no block holds |
| `Filesystems.BlockOfExactly` | fs/src/lib.rs:917-936 | for every list of numbers the inode and its table of four-byte numbers spell, a file has a block exactly if it names one in range and not zero, and that one |
| `Filesystems.ReadsBack` | fs/src/lib.rs:938-968 | contents laid over any list of blocks, ten named in the inode and the rest in the table, read back from any offset as far as was asked or they go |
| `Filesystems.FindBlock` | fs/src/lib.rs:917-936 | through the cache a file block is found as on the plain map, direct or indirect, unless the device fails meanwhile or every frame is pinned |
| `Filesystems.ReadCached` | fs/src/lib.rs:943-968 | every byte is the file's; complete unless the device fails during this read or every frame is pinned, and then contents laid out on the disk come back as asked for; the view is untouched |
| `Filesystems.ReadImage` | fs/src/lib.rs:943-968 | the same result over a whole image, always complete: contents laid out on it come back as asked for |
| `Journal.SumIsOfWhole` | fs/src/journal.rs:125-149 | the split running checksum is the checksum of the covered bytes laid end to end |
| `Journal.ReadCommitted` | fs/src/journal.rs:83-113 | the committed transaction of the view, with nothing a reader sees changed; it fails only on the device, on pins, or on a log past 32-bit block numbers |
| `Journal.TransactionChecksum` | fs/src/journal.rs:125-149 | the checksum of the commit block and the logged blocks of the view, however often the cache evicts in between |
| `Journal.ReadHome` | fs/src/journal.rs:213-225 | the recorded home, only if it is in range; why it fails |
| `Journal.BuildTable` | fs/src/journal.rs:175-206 | magic, sequence, count and every home read back from the bytes built |
| `Journal.BuildCommit` | fs/src/journal.rs:175-206 | the bytes describe exactly this transaction over this payload; the three refusals, and no others without a failed device or pins |
| `Journal.CommitReadsBack` | fs/src/journal.rs:83-225 | the commit page built is read back as that sequence and count, home by home |
| `Recovery.ReplayAt` | fs/src/volume.rs:98-122 | a replay leaves each block as the last logged block that names it, or as it was |
| `Recovery.RecoveredAt` | fs/src/volume.rs:98-122 | recovery leaves each block but the commit block so |
| `Recovery.SameLogCommits` | fs/src/journal.rs:83-113 | what is committed depends on the log alone |
| `Recovery.Restartable` | fs/src/journal.rs:29-34 | any partly replayed disk recovers to what the untouched one does, and still holds the same transaction until the log is cleared |
| `Recovery.StopsCostNothing` | fs/src/volume.rs:1953-1980 | any number of part replayed disks in a row, then one more recovery, gives what one recovery gives |
| `Ledger.BreaksExactly` | fs/src/volume.rs:98-122 | a disk at rest fails to recover if and only if what it commits puts something else than the durable state at a block that is not loose, or goes astray |
| `Ledger.GenuineIsHarmless` | fs/src/journal.rs:83-113 | what is committed over the payload its header was committed over does no harm |
| `Ledger.ForgedCollides` | fs/src/journal.rs:125-149 | under a known header any other payload it commits is a collision of the checksum, and here it is |
| `Collisions.AccidentHappens` | fs/src/journal.rs:125-149 | on every device and under every superblock it may have there is a state a refused clear can leave, in which a volume can be open, from which one write of a waiting block takes a disk that recovers to one that does not |
| `Collisions.StaleCollides` | fs/src/journal.rs:125-149 | over any header of one home left on the device, a waiting logged block its checksum cannot tell from the one it was committed over breaks recovery when it is written |
| `Ledger.LandedStands` | fs/src/journal.rs:9-48 | once the commit block has landed the disk recovers to the new state, whatever part of the homes has been written |
| `Ledger.StepSound` | fs/src/cache.rs:403-407 | a device write nobody asked for, of any waiting block, keeps the crash claim in every phase, whatever the device held before |
| `Ledger.PrepareSound` | fs/src/volume.rs:212-228 | showing a commit block over a payload already on the device keeps the claim |
| `Ledger.CarrySound` | fs/src/volume.rs:232-237 | once the commit has landed a home may take anything |
| `Ledger.ClearSound` | fs/src/volume.rs:239-248 | clearing the log once every home is on the device keeps the claim and makes the new state durable |
| `Ledger.LooseSound` | fs/src/volume.rs:639-656 | file data changed in the cache makes its block loose and keeps the claim everywhere else |
| `Volumes.Volume.Begin` | fs/src/volume.rs:148-155 | refuses exactly while a transaction is committed and unapplied, or the device or pins prevent looking; otherwise the new transaction's number follows the last one's, and a refusal leaves the number |
| `Volumes.NumberFollows` | fs/src/volume.rs:148-155 | numbers go up by one, are never zero, and start again at one past 2^64 - 1 |
| `Volumes.NumbersApart` | fs/src/volume.rs:148-155 | no number comes back within 2^64 - 1 transactions |
| `Volumes.SlotInLog` | fs/src/volume.rs:158-161 | a slot lies in the log if and only if the log has a block for it; past that it is file data |
| `Volumes.Volume.Stage` | fs/src/volume.rs:169-181 | a block staged twice keeps its slot; a new one is copied into the next slot, which past a short log is file data and becomes loose; full exactly at eight; an error stages nothing |
| `Volumes.Volume.EditStaged` | fs/src/volume.rs:184-187 | the staged copy changes and nothing else a reader sees |
| `Volumes.Volume.EditData` | fs/src/volume.rs:589-656 | a block changes at its home at once, before or during a transaction, and if outside the log becomes loose; on a volume whose commit failed it may be opened and left as it is; the durable state elsewhere stands |
| `Volumes.Volume.Sync` | fs/src/volume.rs:210 | the device becomes the view, or a write was refused; the crash claim stands either way |
| `Volumes.Volume.Prepare` | fs/src/volume.rs:212-228 | the commit block in the cache describes exactly the staged transaction over what is on the device, and what is then shown commits under this transaction's number |
| `Volumes.Volume.CarryAll` | fs/src/volume.rs:230-237 | in any order of slots, whatever it misses, exactly the logged blocks of its slots are at their homes and nothing else changed |
| `Volumes.OrderExactly` | fs/src/volume.rs:230-237 | an order carries out the commit if and only if each slot it misses has a home that already holds its logged block |
| `Volumes.Volume.ClearCommit` | fs/src/volume.rs:125-132 | the commit block is zero on the device; if every home was there the new state is durable and the last state of the device marked with it |
| `Volumes.Volume.Commit` | fs/src/volume.rs:196-250 | for any order of slots: on success the homes of its slots are changed and the log is cleared, and what is durable is what was promised if and only if each slot it misses has a home that already held its logged block; then every state the device passed through is marked with the old durable state or exactly the new one; more blocks than the log holds are refused and change nothing; some state of the device on the way commits that many blocks under the transaction's number; it fails otherwise only if the device fails meanwhile or a frame is pinned; if the commit is shown and did not land its flush was refused, and only the commit block waits |
| `Volumes.CommitFirstTwice` | fs/src/volume.rs:196-250 | a commit of two blocks in the order [0, 0] succeeds unless the device fails during it, clears the log, changes the first home and loses the change of the second |
| `Transactions.Transact` | fs/src/volume.rs:148-250 | a whole operation of data changed in place, blocks staged, copies changed, and a commit: with nothing pending and no pins it succeeds if and only if it fits, unless the device fails during it; every state of the device on the way stands for the state it began from, but for that data, or for exactly what the operation makes of what was shown; acknowledged, the latter is durable, and was committed on the device under the number after the last |
| `Transactions.InTurn` | fs/src/volume.rs:148-250 | operations one after another on one volume: each is committed on the device under its own number by the time it is answered, the numbers run in order, and no two within 2^64 - 1 are the same |
| `Mounting.ReplayLog` | fs/src/volume.rs:108-113 | over whatever waits the view becomes the replay of the log, and every disk on the way holds at each block what the device held, what was shown, or at a home a logged block that names it; it fails only on the device, on pins, or on a home out of range |
| `Mounting.Recover` | fs/src/volume.rs:98-122 | every disk on the way is such a one or the recovered disk, and if nothing is committed stays at rest; on success the view is the recovered disk |
| `Mounting.OnTheWayRecovers` | fs/src/volume.rs:98-122 | if the log shown is on the device, every disk on the way recovers as the view does but at blocks outside the homes that were waiting |
| `Mounting.MountPartReplays` | fs/src/volume.rs:98-122 | every disk a machine passes through while it mounts a disk that commits a transaction is that disk part replayed |
| `Mounting.StoppedMountsCostNothing` | fs/src/volume.rs:1953-1980 | any number of machines, each stopped on any disk it passes through while it mounts what the one before left: the last disk recovers to what the first did |
| `Mounting.UndisturbedReady` | fs/src/volume.rs:60-73 | a test on the cache and the device alone under which a cache that shows nothing committed may be mounted over whatever waits |
| `Mounting.Mount` | fs/src/volume.rs:60-73 | over whatever waits, landed or not, the volume shows what the view recovers to, with the sequence and count of what was replayed; it succeeds if nothing fails; which disks the device passes through |
| `Fresh.MountFresh` | fs/src/volume.rs:60-73 | a formatted device mounts unless it fails, shows itself, replays nothing, has nothing loose, and is steady while it refuses no write; its first state is the disk given, and every state it goes through stands for that disk |
| `CrashSafety.EveryStopRecovers` | fs/src/journal.rs:9-48 | after any history of calls, the disk left by stopping after any device write keeps its superblock and recovers to the state it is marked with unless that one disk is forged; where headers are known a forged disk is a checksum collision, handed over; a steady volume has none |
| `CrashSafety.StopsAdvance` | fs/src/journal.rs:9-48 | a later stop never loses what an earlier one had |
| `CrashSafety.Reboot` | fs/src/volume.rs:60-73 | a new machine on a disk that stands and is not forged mounts unless its device fails, showing what the disk recovers to; and every disk it passes through while it mounts stands where the first did, so it may itself be stopped |
| `CrashSafety.FirstStands` | fs/src/volume.rs:98-122 | a disk a machine may be stopped on stands, with nothing loose, for exactly what it recovers to, and its header for the payload under it |
| `CrashSafety.Restart` | fs/src/volume.rs:1837-1912 | a new machine on any such disk mounts unless its device fails, shows the marked state everywhere outside the log and the loose blocks, knows what the old one knew, and if the old one was steady is steady with nothing loose; its device begins as the disk given, and each disk the mount passes through still stands for the marked state |
| `CrashSafety.Remount` | user/fsd/src/main.rs:284-297 | mounting the same cache again after an operation failed, over whatever it left waiting: the new volume shows what the old one stood by with what was shown committed committed, and is steady if the old one was; with no pins it mounts unless the device fails during this mount; if the commit had landed or there was none, every disk on the way stands there; if it was still waiting over a device that commits nothing, every disk on the way recovers to the old state or the new unless two homes change |
| `Tearing.UnlandedWay` | fs/src/volume.rs:98-122 | before the commit has landed every disk a mount may pass through has some homes carried and the rest untouched, or recovers to the new state |
| `Tearing.LandedWay` | fs/src/volume.rs:98-122 | once it has landed every such disk stands for the new state and is not forged |
| `Tearing.TearsExactly` | fs/src/volume.rs:98-122 | a mount of a cache whose commit block is not on the device can pass through a disk that recovers to neither state if and only if the commit changes two homes, one of them not loose |
| `Tearing.TornReplay` | fs/src/volume.rs:98-122 | over three frames the first two rounds of the replay do leave such a disk, unless the device fails during them, whatever it did before |
| `Tearing.RefusedIsPoised` | fs/src/volume.rs:196-250 | a volume whose commit was shown and did not land is in that state as soon as its first two homes change |
| `Tearing.CommitThenMount` | fs/src/volume.rs:196-250 | a commit and, if its commit block was refused, the replay that a mount begins with: if its first two rounds succeed they have left a disk that recovers to neither state, and if not the device has failed a second time |
| `Services.Operate` | user/fsd/src/main.rs:284-297 | one mount and one operation keep that account, whatever comes of either; the operation is answered with success if and only if it fits, unless the device fails in between |
| `Services.Work` | user/fsd/src/main.rs:284-297 | the service as it runs, the cache mounted again before every operation: each operation succeeds if and only if it fits, unless the device fails between its beginning and its answer; there is one chain of durable states, each the one before with one whole operation applied; every state of the device, those of the first mount included, stands for one of them, but for data changed in place by later operations; an acknowledgement is already durable, and a state holds nothing of an operation not yet begun, neither whole nor changed in place |
| `Lives.Live` | fs/src/volume.rs:1837-1912 | a machine that works, if it mounted, stops in any state its device has been in and is followed by another, whose device begins as the state it left: the next shows, outside the log, the state after some of the operations in order, every one acknowledged by the stop, and nothing of one begun only after it, but for data changed in place by operations after those |
| `Lives.StopInMount` | fs/src/volume.rs:1953-1980 | a machine that stops before its first mount is done leaves exactly what it found, outside the log |
| `Lives.Run` | fs/src/volume.rs:1837-1912 | any number of machines in turn from a formatted disk, each stopped in any state its device has been in, those of its own mount included: unless its device fails every one mounts, every operation that fits succeeds unless the device fails during it, and each machine finds all that the one before acknowledged, file data included, whole and in order; a machine that cannot mount leaves its disk to the next as well, and only a write refused to a machine at work ends the account |
| `Digits.Refill` | bootsig/src/slh_dsa.rs:229-245 | reading in bytes keeps exactly the unread bits and never passes 32 bits |
| `Digits.Base2b` | bootsig/src/slh_dsa.rs:229-245 | the masked accumulator gives the digits of Algorithm 4 and reads no byte past those the last digit needs |
| `Digits.Base2bStandard` | bootsig/src/slh_dsa.rs:224-245 | the standard's ever-growing accumulator gives the same digits |
| `Digits.DigitOfWhole` | bootsig/src/slh_dsa.rs:229-245 | a digit is cut out of the whole byte string as one number |
| `SlhDsa.NibbleOf` | bootsig/src/slh_dsa.rs:229-245 | a 4-bit digit is the high or low half of its byte |
| `SlhDsa.ChainComposes` | bootsig/src/slh_dsa.rs:248-256 | a chain carried on from where another stopped, wherever it started, is one chain |
| `SlhDsa.ChainIgnoresLeftover` | bootsig/src/slh_dsa.rs:248-256 | a leftover hash address changes no chain |
| `SlhDsa.DigitsTell` | bootsig/src/slh_dsa.rs:260-271 | different messages have different digits |
| `SlhDsa.Incomparable` | bootsig/src/slh_dsa.rs:260-271 | for any two different messages some checksummed digit of the second is smaller than the first's |
| `SlhDsa.ClimbReaches` | bootsig/src/slh_dsa.rs:290-310 | an honest authentication path leads from a leaf to the root |
| `SlhDsa.SplitIsTheNumber` | bootsig/src/slh_dsa.rs:375-381 | the three parts of a digest are the digest as one number: the FORS bits, 56 bits that hold the tree, 16 that hold the leaf |
| `SlhDsa.PathIsThePlace` | bootsig/src/slh_dsa.rs:331-352 | each layer's leaf is the next nine bits of the signature's place among all the leaves, and each layer's tree what is above them |
| `SlhReference.CallsApart` | bootsig/src/slh_dsa.rs:93-135 | no two hash calls of making or checking signatures under one key share the 22 bytes of an address |
| `SlhReference.VerifyIsReference` | bootsig/src/slh_dsa.rs:394-418 | for every hash functions and input the verification is a second definition of it, from the bottom up with the digest as one number and each hash call under its own address |
| `SlhVerifier.ChainSteps` | bootsig/src/slh_dsa.rs:248-256 | the loop computes the chain and leaves only the hash address changed |
| `SlhVerifier.DigitsOf` | bootsig/src/slh_dsa.rs:260-271 | the loops compute the message digits and the three checksum digits |
| `SlhVerifier.WotsPkFromSig` | bootsig/src/slh_dsa.rs:274-286 | the key is the function of the signature alone; what chains leave in the address changes no later hash |
| `SlhVerifier.ClimbPath` | bootsig/src/slh_dsa.rs:290-310 | the loop climbs from the index in the address, which never drops below zero |
| `SlhVerifier.XmssPkFromSig` | bootsig/src/slh_dsa.rs:313-327 | the root depends on the address only through its layer and tree |
| `SlhVerifier.HtVerify` | bootsig/src/slh_dsa.rs:331-352 | accepted exactly when the top layer's implied root is the key |
| `SlhVerifier.ForsPkFromSig` | bootsig/src/slh_dsa.rs:355-371 | the loop computes the FORS key, one address serving all trees |
| `SlhVerifier.VerifyInternal` | bootsig/src/slh_dsa.rs:394-418 | accepts, or refuses with the same reason as, the scheme's verification of the concatenated message and its second definition |
| `SlhVerifier.VerifyPure` | bootsig/src/slh_dsa.rs:430-441 | a long context is refused; otherwise the message is verified with its domain prefix |
| `SlhSigner.WotsRecovers` | bootsig/src/slh_dsa/sign.rs:83-116 | the key an honest WOTS+ signature implies is the signer's |
| `SlhSigner.XmssRecovers` | bootsig/src/slh_dsa/sign.rs:119-154 | the root an honest XMSS signature implies is the tree's |
| `SlhSigner.LayerSignsRoot` | bootsig/src/slh_dsa/sign.rs:158-185 | the root each layer recomputes from the signature below is that tree's root |
| `SlhSigner.HtRecovers` | bootsig/src/slh_dsa/sign.rs:158-185 | every layer of an honest hypertree signature, each signing the root recomputed from the one below, leads to that layer's root |
| `SlhSigner.ForsRecovers` | bootsig/src/slh_dsa/sign.rs:188-228 | the key an honest FORS signature implies is the signer's, whatever was signed |
| `SlhSigner.SecretsAt` | bootsig/src/slh_dsa/sign.rs:83-116 | each secret is drawn under an address of its own |
| `SlhSigner.SignedVerifies` | bootsig/src/slh_dsa/sign.rs:235-287 | for every hash functions, key, randomness and message the verifier accepts what the signer makes |
| `SlhBinding.ChainBinds` | bootsig/src/slh_dsa.rs:248-256 | two different starts that reach the same end exhibit a collision between an input of each chain |
| `SlhBinding.ClimbBinds` | bootsig/src/slh_dsa.rs:290-310 | two different climbs to the same root exhibit a collision between an input of each |
| `SlhBinding.WotsBinds` | bootsig/src/slh_dsa.rs:274-286 | two different messages or signatures under one WOTS+ key exhibit a collision between an input of each, or an input the second hashes to a chain value of the first |
| `SlhBinding.XmssBinds` | bootsig/src/slh_dsa.rs:313-327 | two different messages or signatures of one leaf under one XMSS root exhibit a collision, or an input the second hashes to a chain value of the first |
| `SlhBinding.HtBinds` | bootsig/src/slh_dsa.rs:331-352 | through all the layers: two different messages or hypertree signatures to one root exhibit the same, at some layer |
| `SlhBinding.ForsBinds` | bootsig/src/slh_dsa.rs:355-371 | two different FORS signatures of one digest that imply one key exhibit a collision between an input of each |
| `SlhBinding.AcceptedIsMade` | bootsig/src/slh_dsa.rs:394-418 | under an honest key the verifier accepts only what the signer makes for that message and randomizer, unless checking the two hashes different inputs alike or hashes something to a chain value the signer stopped at; the partner of completeness |
| `Ring.ForRegion` | abi/src/ring.rs:76-87 | the largest power of two that fits after the header, or none exactly when nothing fits |
| `Ring.MaskIsRemainder` | abi/src/ring.rs:103-105 | masking an index is its remainder, for a power-of-two capacity |
| `Ring.BelievedExactly` | abi/src/ring.rs:133-147 | a pair of indices is believed if and only if the head is the tail and at most a capacity more, modulo 2^64 |
| `Ring.RunsAreTheTransfer` | abi/src/ring.rs:363-390 | the two runs cover the transfer byte for byte in index order, inside the area, without overlapping |
| `Ring.Apart` | abi/src/ring.rs:101-105 | two indices less than a capacity apart are at different offsets |
| `Ring.WriteFits` | abi/src/ring.rs:303-316 | for every believable cursor, wrapped or not, a frame is placed exactly when it and its prefix fit the room, at the head |
| `Ring.ReadFits` | abi/src/ring.rs:334-347 | for every believable cursor, wrapped or not, a length can be read exactly when its four bytes are there, and a frame exactly when it and its prefix are, at the tail |
| `Ring.MarkReadsBack` | abi/src/ring.rs:244-288 | a marked length reads back if and only if it is below 2^24 and the member is none or at most 14 |
| `Ring.MarkExactly` | abi/src/ring.rs:244-270 | what marking makes of a length, a member and a flag, bit by bit |
| `Ring.MarkedExactly` | abi/src/ring.rs:272-288 | what any 32-bit prefix says, bit by bit |
| `RingProtocol.SendableExactly` | abi/src/ring.rs:244-316 | the frames that may be sent are exactly those with a byte whose prefix reads back |
| `RingProtocol.StepsDefined` | abi/src/ring.rs:133-158 | in every reachable state each side's cursor is believable and every byte it touches is inside the area |
| `RingProtocol.StepKeeps` | abi/src/ring.rs:303-390 | every step of either side keeps the invariant, stale copies included |
| `RingProtocol.DecideReads` | abi/src/ring.rs:323-347 | a length once readable is the length of a whole frame, so the consumer never gives up on one |
| `RingProtocol.FramesCrossOnceInOrder` | abi/src/ring.rs:303-390 | for every interleaving what has been received is the front of what was sent, and the indices meet if and only if it is all of it |
| `RingProtocol.WritesMissUnread` | abi/src/ring.rs:207-218 | for every interleaving a byte being written is never one still to be read, across the wrap |
| `Virtqueues.SlotSurvivesWrap` | device/src/virtqueue.rs:113-128 | a 16-bit index names the same slot as the count it stands for |
| `Virtqueues.Virtqueue.Publish` | device/src/virtqueue.rs:113-128 | the head is stored in its slot, then the index is published |
| `Virtqueues.NextCompletion` | device/src/virtqueue.rs:151-174 | in every reachable state the driver's copy of the index equals the device's exactly when everything completed has been collected, and otherwise names the slot of the next completion |
| `Virtqueues.Virtqueue.CompletedWithLength` | device/src/virtqueue.rs:151-174 | in every reachable state of the protocol with this memory and index, what is returned is the next completion not yet collected with its length, and nothing exactly when all have been |
| `Virtqueues.TakeKeeps` | device/src/virtqueue.rs:113-128 | the device takes the head stored for the count it has reached, however stale its copy of the index |
| `Virtqueues.LoadLengthKeeps` | device/src/virtqueue.rs:151-174 | the length loaded last belongs to the completion whose id was loaded before it, whatever the device does in between |
| `Virtqueues.StepKeeps` | device/src/virtqueue.rs:113-174 | every single store or load of either side keeps the invariant, stale copies included |
| `Virtqueues.QueueIsExact` | device/src/virtqueue.rs:113-192 | for every interleaving of single loads and stores and across index wraps: heads are taken in order, completions collected in order and once with the length stored for them, posted less seen counts the uncollected, and a side finds nothing new only when it has had everything it could have seen |
| `ElfTheorems.WalkTable` | elf/src/lib.rs:356-461 | the loop over program headers is the recursive parse, first refusal included |
| `ElfTheorems.SpanIsPages` | elf/src/lib.rs:241-246 | a segment's span is exactly the pages it takes up an address of, and there is none if and only if one of them reaches 2^64 |
| `ElfTheorems.Parse` | elf/src/lib.rs:300-499 | header checks, table, overlap and entry, in the order and with the errors of the function |
| `ElfTheorems.FrontAgreesOrAsks` | elf/src/lib.rs:275-300 | any front of a file parses as the whole does, or asks for more with one of two errors |
| `ElfTheorems.CoveringFrontIsEnough` | elf/src/lib.rs:272-300 | a front covering the header, the table and the dynamic segment parses exactly as the whole file, error included |
| `ElfTheorems.TableExact` | elf/src/lib.rs:356-461 | the table is accepted if and only if every header is, and the segments are precisely the loads in order |
| `ElfTheorems.OverlapExact` | elf/src/lib.rs:468-481 | nothing is reported if and only if no segment's page reaches 2^64 and no page holds an address of two segments; what is reported is the case |
| `ElfTheorems.AcceptsExactly` | elf/src/lib.rs:300-499 | an image is accepted, as this image, if and only if it is well formed: every address a segment takes up is in its half, no page is two segments', and the entry is an address of one |
| `ElfTheorems.RefusedForCause` | elf/src/lib.rs:300-499 | whatever error a file is refused with, what that error says is the case |
| `ElfWritten.WrittenParses` | elf/src/lib.rs:300-499 | a file written field after field, with program headers of any size, is accepted exactly when what was written is in order, with exactly those segments and that entry |
| `ElfRelocation.AcceptedIsSafe` | elf/src/lib.rs:241-246 | an accepted segment's file range is in the file, its page span is unwrapped, inside its half and around it, and its protection is that of its two low flag bits, which are not both set |
| `ElfRelocation.FileOffsetOf` | elf/src/lib.rs:504-512 | the loop finds the first segment whose file bytes hold the range |
| `ElfRelocation.FileOffsetMeans` | elf/src/lib.rs:504-512 | an offset found lies inside one segment's file bytes at the address's distance |
| `ElfDynamic.FileOffsetExactly` | elf/src/lib.rs:504-512 | a range is found in the first segment whose file bytes hold it, and not found exactly if there is none before one that wraps |
| `ElfRelocation.FindRelocations` | elf/src/lib.rs:527-566 | the dynamic scan gives the table's place and count, or why not |
| `ElfDynamic.DynamicSays` | elf/src/lib.rs:527-566 | a dynamic table written as any list of tags and values is scanned to its end: the last value of each tag counts, and says where the relocations are, that there are none, or that they are refused |
| `ElfDynamic.CutShortIsRefused` | elf/src/lib.rs:527-566 | a table whose bytes end before it does is refused |
| `ElfDynamic.PastTheEnd` | elf/src/lib.rs:527-566 | a table that begins past the end of the bytes is refused unless it has no room for a pair |
| `ElfDynamic.EntryReads` | elf/src/lib.rs:567-589 | an entry of a table written from any list of relocations is read as it was written, and is applied exactly if it is relative and the eight addresses it writes are one segment's |
| `ElfRelocation.ForEachRelative` | elf/src/lib.rs:527-589 | applies exactly the entries before the first bad one, once each in table order, each writing eight addresses of one segment; succeeds exactly when there is none; on a refusal nothing was applied if and only if there was no table or its first entry is bad |
| `ElfRefused.RefusedInPart` | elf/src/lib.rs:527-589 | a file that parses, whose table has one good and one bad entry: the first is applied and the walk then refused |
| `AuditLog.Chain.Append` | auditlog/src/lib.rs:115-124 | the entry carries the record, the old head and the new, which becomes the head |
| `AuditLog.Verify` | auditlog/src/lib.rs:192-235 | accepts exactly the sound logs, with the right summary; a refusal names the first break, and everything before it is sound |
| `AuditLog.SameHeadSameEntries` | auditlog/src/lib.rs:42-48 | two accepted logs with the same head after n entries agree on them, or an entry is named whose link hashes different inputs of the two logs alike |
| `AuditLog.TamperEvidence` | auditlog/src/lib.rs:192-235 | two different accepted logs with the same head, even if their counts differ, give an entry of each whose link inputs differ and hash alike, or if one is empty an entry of the other whose link input hashes to the genesis value |
| `AuditLog.WriteLog` | auditlog/src/lib.rs:115-124 | appending in order writes exactly that log and leaves the chain at its head |
| `AuditLog.WrittenVerifies` | auditlog/src/lib.rs:115-124 | every log written in sequence from an attach record is accepted with the writer's head and count |
| `AuditRecords.KeptReads` | telemetry/src/audit.rs:156-213 | a record written field after field reads back |
| `AuditRecords.AcceptedExactly` | auditlog/src/lib.rs:192-235 | of the logs written from any records, exactly those are accepted whose records are in sequence with an attach record first |
| `AuditRecords.WrittenSays` | auditlog/src/lib.rs:150-235 | a log written from any records in sequence is accepted and says what they say: how many, which boot, how many operations came before, and as lost the sum of the counts of the gap records |
| `AuditLog.PrefixVerifies` | auditlog/src/lib.rs:192-235 | the entries before a break are an accepted log of their own |

## Left out

- SHA-256, and any claim that it or FNV-1a has no collisions: hashes are parameters, and collisions are extracted instead.
- How the 22 bytes of a compressed address enter SHA-256: the tweakable hash takes the address as a value, which those bytes tell (`SlhReference.CallsApart`).
- Torn writes inside one block: a device write happens whole or not at all, as the log itself assumes (fs/src/journal.rs:21-27).
- Memory ordering and volatile access: the ring and queue protocols are interleavings of single loads and stores.
- The file and directory operations of `fs/src/volume.rs` (create, write, remove and the entries they keep): `Transactions.Transact` has their shape, with what they write as a parameter.
- `Virtqueue::describe` and descriptor chains, `ahci`, `abi/src/lib.rs`, `bootsig/src/statement.rs`: layouts settled by reading.
- The traits `Store` and `Pages`: one device class, and `ReadImage` beside `ReadCached`, stand for their implementations.
- Frames as one byte slice: a cache holds a sequence of blocks, so copying between two parts of one buffer is an assignment.
- The borrowed slices of `Bitmap`, `edit` and `staged_mut`: the map is copied out and put back, and an edit is a function of the old bytes.
- Overflow of the 64-bit clock and counters of the cache.
- Volumes.Volume.Stage: demands a home in range and outside the log, which the code does not check; every caller stages a bitmap, inode or data block.
- Volumes.Volume.EditData: while building, demands a block that is neither the superblock nor the commit block, though the code does not check an indirect block's number read off the disk; on a volume whose commit failed, demands that the block is left as it is, as every caller does before `begin` refuses.
- Volumes.Volume.Commit: demands that an order of the right length holds only slots of this transaction; a number up to seven past them would copy what an earlier transaction left in its slot.
- Mounting.Mount: demands fewer than 2^32 blocks, that a transaction shown committed names no block of the log, and otherwise that the device is at rest under what is shown; `Mounting.Undisturbed` is a test of the last on the cache and device alone.
- CrashSafety.Remount: demands that a volume that is building shows nothing committed, which a steady one never does; and promises nothing of the disks on the way when the commit waits over a device that commits an older transaction.
- CrashSafety.EveryStopRecovers: excepts a forged disk; see above for the exact condition.
- Transactions.Transact: demands a log of at least nine blocks, as formatted; over a shorter one the steps' own contracts hold.
- Lives.Run: says nothing of machines after one whose device refused it a write while it worked; `CrashSafety.Restart` and `Remount` do.
- Formatting.FormatSized: demands that the inode table's size in bytes fits 64 bits, which the code's multiplication assumes.
- Ring.WriteFits: demands that the index plus the frame does not wrap 64 bits, as the framing functions' own additions do.
- Ring.ReadFits: the same demand.
- RingProtocol.FramesCrossOnceInOrder: covers runs whose indices stay below 2^64; that frames eventually arrive is not stated.
- SlhBinding.AcceptedIsMade: that nobody can guess the FORS secrets of a digest never signed is a matter of the hash, not of the scheme's structure.
- Virtqueues.QueueIsExact: the driver keeps at most `size` chains in flight and the device completes only what it took; the code relies on both.
- ElfTheorems.AcceptsExactly: file lengths below 2^64.
