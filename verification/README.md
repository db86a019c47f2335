# A Dafny model of the xv6 kernel's core and two of its user programs

This project models the parts of an xv6 fork where correctness is hard to see from
one function: the buffer cache and the redo log, files and the block bitmap, mkfs,
directories and link counts, page tables and physical pages, sleep and wakeup, the
process tree, pipes, the user-level allocator, the shell's parser and grep's matcher.
It states what they are for and proves it for all inputs, all states and all runs.

Code that changes things in place is modelled as classes and methods with loops, each
proved against a specification function or predicate. Protocols between processes are
step relations; a run is a sequence of states and actions, and the theorems hold in
every state of every run, for any number of processes. Pointers are indices or
addresses. C's unsigned arithmetic is written out where it can wrap.

## What is in the files

- `Params.dfy`, `Blocks.dfy`, `Sets.dfy`: constants of param.h; disk blocks as 512 bytes
  or 128 little-endian words; counting.
- `BufferCache.dfy`: bio.c. `LruList` is the doubly linked list, `BufferCache` the
  cache over it and over the disk of memide.c.
- `LogSpec.dfy`, `Log.dfy`: log.c. `LogSpec` is the protocol as sequences of block
  writes with crashes between any two of them; `Log` is the code over the cache,
  whose writes to the disk are shown to be exactly those sequences.
- `LogAdmission.dfy`: begin_op, log_write and end_op run by many processes.
- `FsState.dfy`, `FileContent.dfy`, `FileSystem.dfy`: fs.c and file.c: who owns each
  block, what a file's bytes are, and the operations.
- `DiskFormat.dfy`: how inodes and bitmap bits lie in their blocks (fs.h).
- `Space.dfy`, `FileOps.dfy`: how many blocks the files take, and what the operations
  mean for the files alone, without blocks.
- `CrashSafety.dfy`: the file system's operations through the log, with crashes, from
  the image that mkfs makes.
- `Mkfs.dfy`, `MkfsTree.dfy`: mkfs.c builds the state that fs.c starts from.
- `Links.dfy`, `LinkCalls.dfy`: link counts and directory entries (sysfile.c, fs.c).
- `Dirents.dfy`, `DirCalls.dfy`, `DirReads.dfy`, `DirEffects.dfy`, `Volumes.dfy`: directories
  as records in files, so that link, unlink and create are transactions of `CrashSafety`,
  and what these do to names, files and free blocks.
- `Paging.dfy`, `VirtualMemory.dfy`: vm.c and kalloc.c. `AddressSpaces.dfy`: how growproc,
  fork, exec and wait use them.
- `SleepWakeup.dfy`, `ProcessTree.dfy`, `ProcessTable.dfy`: proc.c and spinlock.c.
- `Pipe.dfy`: pipe.c.
- `Umalloc.dfy`: umalloc.c.
- `ShellGrammar.dfy`, `ShellRoundTrip.dfy`, `Shell.dfy`: the parser in sh.c.
- `Grep.dfy`: the matcher in grep.c.

## Findings

Each is a lemma or method with a concrete case and, where one exists, the exact condition.

- With `log.size` equal to LOGSIZE, as mkfs makes it, `log_write` can refuse a block
  that its operation has reserved (`NewBlocksPass`), and two operations that pass its
  unlocked test together overrun the log area by a block (`LogFits`, `Overrun`). Both
  are impossible exactly when `log.size > LOGSIZE`.
- Even then `log_write` panics on a full log for a block that is already logged
  (`RelogPanics`), and a full transaction has as many blocks as there are buffers
  (`FullCommit`), so that `commit` finds no buffer for the log block: `Commit`
  succeeds exactly when fewer than NBUF blocks are logged.
- mkfs rounds the root directory up by a whole block when its size is already a
  multiple of the block size; that makes a hole (`FixRoot`). 32 entries do it
  (`FullRoot`).
- A file or directory made in a directory that has been removed but is still someone's
  current directory breaks the link counts, and this is the only way `link` and
  `create` can (`LinkKeeps`, `MkdirKeeps`, `CreateKeeps`, `RemovedParent`).
- Opening ".." with O_CREATE in such a directory panics in `ilock` if and only if the
  directory's parent is no longer in use either (`NamedUsed`, `GoneParent`).
- A process is killed from birth if and only if `kill` has hit its slot since `wait`
  last reaped it, or since the start (`BornKilledIff`). `kill` finds free slots: with
  pid 0 (`KillZero`), and with the pid that a failed fork left (`BornKilled`).
- A reader comes to sleep on a pipe with bytes in it if and only if, while it sleeps, a
  killed process writes more than PIPESIZE bytes (`StrandedIff`); 513 bytes do it
  (`SleepsOn`).
- `growproc(-sz)` gives back all of a process's pages, reports failure and leaves the size
  as it was (`Spaces.Grow`). Nothing else makes a size and the pages mapped disagree
  (`LowFrom`). `copyuvm` panics on such a space if 65 pages are free (`Spaces.Run`,
  `ForkPanics`); whether a process without pages still gets to call fork is not modelled.

## Model

| member | source | states |
|---|---|---|
| `LruList.UnlinkKeeps` | bio.c:132-133 | taking a buffer out of the circular doubly linked list leaves the list of the others, both directions consistent |
| `LruList.PushFrontKeeps` | bio.c:134-137 | linking it in behind the head gives the list with that buffer first |
| `BufferCache.MovedToFront` | bio.c:130-138 | moving a buffer to the front keeps the list a permutation of all NBUF buffers ordered by last full release |
| `BufferCache.Cache.constructor` | bio.c:38-56 | after binit the cache is valid, all buffers are free and reads show the disk |
| `BufferCache.Cache.FindCached` | bio.c:69-76 | finds the buffer that caches the block, if and only if there is one |
| `BufferCache.Cache.FindVictim` | bio.c:78-92 | finds the least recently released buffer among the unreferenced clean ones, if there is any |
| `BufferCache.Cache.Bget` | bio.c:61-93 | hit or recycled as above, panics exactly when neither is possible, no block cached twice, and the contents seen through the cache do not change |
| `BufferCache.Cache.Iderw` | memide.c:39-60 | one block moves between buffer and disk, the direction chosen by the dirty flag; the contents seen do not change |
| `BufferCache.Cache.Bread` | bio.c:96-106 | the buffer returned holds the latest contents, logged or on disk |
| `BufferCache.Cache.Bwrite` | bio.c:109-116 | exactly one write reaches the disk, of that block with that data |
| `BufferCache.Cache.Brelse` | bio.c:120-141 | on the last release the buffer becomes the most recently released; otherwise the order stays |
| `LogSpec.CommitPrefixOld` | log.c:177-202 | a prefix of commit's writes that stops before the header leaves the old state, fully installed |
| `LogSpec.CommitPoint` | log.c:193-202 | the first header write commits: the disk now recovers to the new state |
| `LogSpec.CommitPrefixNew` | log.c:193-202 | every longer prefix still recovers to the new state |
| `LogSpec.CommitSettles` | log.c:193-202 | the whole commit leaves the new state installed and the log empty |
| `LogSpec.RecoverPrefix` | log.c:69-122 | a crash anywhere inside recovery loses nothing |
| `LogSpec.RecoverWhole` | log.c:116-122 | a completed recovery leaves the committed state installed and the log empty |
| `LogSpec.RebootsSettle` | log.c:116-122 | so does recovery after any number of crashes inside recovery |
| `LogSpec.CrashAtomicity` | log.c:69-122 | after a crash at any point of a commit and any number of crashes in recovery, the home blocks are all old or all new, decided by whether the first header write reached the disk |
| `LogSpec.RunIsDurable` | log.c:69-122 | over any sequence of commits and crashes the disk holds exactly the transactions whose header was written, in order |
| `Log.HeaderRoundTrip` | log.c:85-113 | the block list written in a header block is the list read back from it |
| `Log.HeaderLayout` | log.c:34-37 | the header block on disk: the count in its first four bytes and the block numbers in the next ones, low byte first |
| `Log.Journal.WriteLog` | log.c:177-190 | writes the transaction's blocks to the log area, in order and nothing else; it finds buffers exactly when fewer than NBUF blocks are pinned |
| `Log.Journal.InstallTrans` | log.c:69-82 | copies each logged block to its home, in order and nothing else, and unpins it |
| `Log.Journal.WriteHead` | log.c:101-113 | writes one block, the header with the current list |
| `Log.Journal.ReadHead` | log.c:85-96 | reads the list on disk and writes nothing |
| `Log.Journal.RecoverFromLog` | log.c:115-122 | its writes are those of the protocol, and it leaves the committed state installed |
| `Log.Journal.Commit` | log.c:192-202 | its writes are those of the protocol, the disk ends up with the contents that were seen through the cache, and it succeeds exactly when fewer than NBUF blocks are logged |
| `Log.Journal.LogWrite` | log.c:213-233 | adds the block once, pins its buffer, and panics exactly on its three guards |
| `Log.Journal.Update` | log.c:204-233 | bread, change, log_write, brelse: readers see the new block, the disk stays, the pinned blocks are exactly the logged ones again; panics exactly on log_write's guards, so there is always a buffer before the log is full |
| `Log.Journal.Transact` | log.c:126-202 | an operation alone, from begin_op to commit: all its writes are on disk in order, or it panics, exactly when the log is full before its last write or every buffer is pinned, and has then written nothing to the disk |
| `Log.StopInCommit` | log.c:177-202 | a machine that stops after any of commit's writes leaves a disk that recovers to the contents before, or, once the header is down, to what readers of the cache saw |
| `Log.Restart` | log.c:53-67 | on such a disk a new cache and recovery show exactly those contents, and the log is ready for transactions |
| `Log.DurableIsView` | log.c:192-202 | what a commit makes durable is what readers of the cache saw |
| `LogAdmission.ReservationsFit` | log.c:126-141 | in every run the blocks logged and the reservations not yet used together never exceed LOGSIZE, and no block is listed twice |
| `LogAdmission.CommitsAlone` | log.c:145-174 | a commit runs only with no operation outstanding, and nothing is admitted or recorded until it is done |
| `LogAdmission.NoEndPanic` | log.c:145-174 | end_op's panic and log_write's second panic are unreachable |
| `LogAdmission.SomeoneElseMoves` | log.c:126-141 | when begin_op turns a process away, another one is in an operation or committing and can take its next step towards the end of it |
| `LogAdmission.GetsIn` | log.c:126-174 | from every reachable state finitely many such steps of the others lead to one in which the process is let in |
| `LogAdmission.NewBlocksPass` | log.c:218-221 | log_write accepts every block new to its operation if and only if log.size > LOGSIZE |
| `LogAdmission.LogFits` | log.c:218-230 | the logged blocks always fit the log area if and only if log.size > LOGSIZE |
| `LogAdmission.Overrun` | log.c:218-230 | otherwise a run exists that logs one block too many |
| `LogAdmission.RelogPanics` | log.c:218-221 | with log.size > LOGSIZE the size panic happens exactly when LOGSIZE blocks are logged, which uses up every reservation, is reachable, and can hit a block that is already logged |
| `LogAdmission.FullCommit` | log.c:145-174 | a commit of NBUF blocks is reachable |
| `FsState.OwnedOnce` | fs.c:372-400 | distinct file positions have distinct blocks, which are data blocks and marked in use |
| `FsState.BitmapExact` | fs.c:56-95 | a bitmap bit is set if and only if the block is metadata or some position of some inode names it |
| `FileSystem.Fs.Balloc` | fs.c:56-78 | the lowest free block, marked and zeroed; fails exactly when none is free |
| `FileSystem.Fs.Bfree` | fs.c:81-95 | clears the bit; the panic is exactly a bit that is clear already |
| `FileSystem.Fs.Bmap` | fs.c:372-400 | returns the position's block, allocating it zeroed if needed, changing no other position, keeping ownership and logging every block it changed |
| `FileSystem.Fs.IndirectBlock` | fs.c:386-388 | the indirect block, allocated zeroed if needed |
| `FileSystem.Fs.WriteBlock` | fs.c:498-504 | one round of the loop stores the piece at its place, growing the file by a zeroed block at most, and logs what it changes |
| `FileSystem.Fs.WriteAccepted` | fs.c:498-511 | a write past the guards overwrites exactly its bytes |
| `FileContent.OverwriteIs` | fs.c:498-511 | such a write gives each position in its range the byte written there, keeps every other byte and grows the file only to its end |
| `FileSystem.AcceptedIs` | file.c:118-153 | how much of a long write goes in: all of it, or whole chunks up to one that would end past the largest file |
| `FileSystem.Fs.Itrunc` | fs.c:407-435 | frees exactly the inode's blocks, without ever freeing a free block; every other file keeps its bytes; every block changed is logged |
| `FileSystem.Fs.SetLinks` | fs.c:220-236 | iupdate after a change of the link count: inodes on disk equal those in memory again, no file's bytes change, the inode's block is logged |
| `FileSystem.Fs.Ialloc` | fs.c:194-214 | the lowest free inode, empty; fails exactly when there is none |
| `FileSystem.Fs.Ifree` | fs.c:331-352 | what iput does on the last reference to an unlinked inode: it is empty and free, other files are untouched, and it logs only bitmap blocks and the inode's block |
| `FileSystem.Fs.Readi` | fs.c:452-476 | returns exactly the bytes from off to the end asked for or the end of the file, allocates nothing, and fails exactly on its guards |
| `FileSystem.Fs.Writei` | fs.c:481-511 | overwrites exactly the bytes given, extends the size, leaves other files alone, keeps on-disk inodes equal to in-memory ones, is rejected exactly on its guards, panics exactly when fewer blocks are free than it needs, logs every block it changes and none in the log, and bounds their number |
| `FileSystem.Fs.Filewrite` | file.c:118-153 | the chunked loop equals one write of the part that fits, and panics exactly when fewer blocks are free than that part needs; it is a chain of transactions, each of at most MAXOPBLOCKS blocks that include all it changed, each leaving a consistent file system |
| `FileSystem.ChunkFits` | file.c:127-145 | for every size, offset and chunk length the bound on logged blocks is at most MAXOPBLOCKS |
| `DiskFormat.InodeBack` | fs.h:29-36 | an inode stored in its block reads back as it was, field by field |
| `DiskFormat.InodeLayout` | fs.h:29-36 | where it lies: type, major, minor, links, size and block numbers at their byte offsets in the 64-byte slot of its block, low byte first |
| `DiskFormat.BitBack` | fs.c:66-68 | a bit stored in its block reads back |
| `DiskFormat.BitLayout` | fs.c:64-72 | and is bit bi % 8 of byte bi / 8 of its block |
| `DiskFormat.LoadBack` | fs.h:38-48 | a disk that holds a file system reads back as that file system: all inodes, all bits, all data |
| `DiskFormat.OnDiskAt` | fs.h:38-48 | on a disk that holds a file system, the type and size of inode i are in slot i % IPB of block i / IPB of the inode area, and the bit of block b in the bitmap block b / BPB |
| `DiskFormat.UnloggedSame` | log.c:204-233 | a block that was not logged is the same before and after a transaction |
| `CrashSafety.TxnIsChange` | log.c:177-202 | installing the logged blocks turns the old disk into the new one |
| `CrashSafety.OneTxn` | log.c:69-202 | after a transaction and any fate of the machine during its commit and recoveries, the disk holds the new file system if the header was written, else the old one |
| `CrashSafety.CapacityIs` | log.c:213-221 | n blocks fit one transaction if and only if log_write lets the last of them in, by both its tests, and commit still finds a buffer |
| `Space.FreeIsRest` | fs.c:56-95 | conservation: metadata, free blocks and the blocks that the sizes of the files call for add up to the disk |
| `FileOps.FreeLeftIs` | fs.c:56-95 | so the free blocks are known from the lengths of the files |
| `FileOps.Perform` | fs.c:194-511 | writei, iupdate, ialloc and iput's freeing do to the files what they mean, keep the file system valid, log every block they change and none in the log; each panics exactly on a free inode, for want of blocks, counted from the files, or of inodes |
| `FileOps.PerformAll` | fs.c:194-511 | operations one after the other: they panic exactly when one of them is stuck on the files the ones before it made, and log at most the sum of their bounds |
| `CrashSafety.Machine.Do` | log.c:126-202 | operations in one transaction: it panics exactly when one is stuck or more distinct blocks are logged than fit, a number bounded by the operations; else the transaction is kept if and only if the header was written; the files change by all operations or by none; on a panic the disk is as it was, else it changes by exactly that commit, crash or recovery |
| `CrashSafety.Machine.Run` | log.c:69-202 | after any transactions, each followed by any fate of the machine, the outcome of each is decided as in `Do` on the files that the kept ones before it made, the disk is the log protocol's for exactly those commits and crashes, and a kernel that reads it finds a consistent file system whose files are what the kept transactions made |
| `CrashSafety.Machine.FileWrite` | file.c:118-153 | filewrite with crashes: the disk holds a write of whole chunks from the start; it stops early only at a chunk in which the machine stops, one that is stuck for want of blocks, one the file cannot hold, or, with a log of at most MAXOPBLOCKS blocks, at one that does not fit it |
| `CrashSafety.RunImage` | mkfs.c:164-251 | the same from the image that mkfs makes: every block in use is metadata or has one owner, no file has a hole, every outcome is decided as in `Do`, and the files are those of the image with the kept transactions applied |
| `Mkfs.LayoutDisjoint` | mkfs.c:94-103 | boot block, super block, log, inodes and bitmap occupy disjoint ranges below the data blocks |
| `Mkfs.Builder.constructor` | mkfs.c:94-111 | an empty image satisfies the invariant |
| `Mkfs.Builder.Ialloc` | mkfs.c:223-235 | the next inode, empty, with one link |
| `Mkfs.Builder.Iappend` | mkfs.c:255-297 | appends the bytes to the file's contents, leaves other files alone, and takes the next blocks in order |
| `Mkfs.Builder.FixRoot` | mkfs.c:157-162 | rounding up the root's size leaves no hole if and only if the size was not a multiple of the block size |
| `Mkfs.FullRoot` | mkfs.c:157-162 | an image whose root has 32 entries, and a hole |
| `Mkfs.Builder.Balloc` | mkfs.c:237-251 | sets exactly the bits below the first free block |
| `MkfsTree.Make` | mkfs.c:94-162 | main: for any files with distinct names, the image holds a root directory with their entries in order and their bytes, in exactly the blocks those take; the root has a hole if and only if its entries fill whole blocks |
| `MkfsTree.ImageGood` | mkfs.c:117-162 | that image is a directory tree in which every link count is right |
| `MkfsTree.ImageNames` | mkfs.c:117-150 | in it each name given stands in the root for the inode, in order from 2, that has the type and bytes given |
| `Mkfs.Mount` | mkfs.c:164-251 | an image so built satisfies everything fs.c's invariant asks |
| `Links.PendKeeps` | sysfile.c:140-142 | counting a link to a file ahead of its entry, or taking that back, keeps every count right |
| `Links.LinkKeeps` | fs.c:551-578 | adding the entry keeps every count right, if and only if the directory has not been removed |
| `Links.EraseKeeps` | sysfile.c:218-220 | erasing a file's entry leaves exactly one decrement owed |
| `Links.AllocKeeps` | sysfile.c:260-267 | a new inode with one link counted and none made yet |
| `Links.MkdirKeeps` | sysfile.c:269-278 | a new directory with its dots and its entry keeps every count, the tree of directories and unique names, if and only if its parent has not been removed |
| `Links.NamedOnce` | sysfile.c:213-216 | an empty directory has exactly one link |
| `Links.RmdirKeeps` | sysfile.c:213-229 | removing an empty directory keeps every count, including its parent's |
| `Links.ReclaimKeeps` | fs.c:331-352 | freeing an inode without links leaves no dangling entry |
| `LinkCalls.Disk.constructor` | mkfs.c:117-128 | a root directory alone satisfies the invariant |
| `LinkCalls.Disk.DirLookup` | fs.c:524-548 | the first entry with the name, or none |
| `LinkCalls.Disk.DirLink` | fs.c:551-578 | fails if the name is there, else fills the first free entry or appends one |
| `LinkCalls.Disk.IsDirEmpty` | sysfile.c:168-181 | whether every entry past the dots is free |
| `LinkCalls.Disk.LinkCount` | sysfile.c:133-142 | the first half of link, after which other calls may run |
| `LinkCalls.Disk.LinkEntry` | sysfile.c:144-164 | the second half: makes the entry or takes the count back |
| `LinkCalls.Disk.Link` | sysfile.c:119-165 | makes the link, or changes nothing; succeeds exactly when the file exists, is no directory, the parent exists on the same device and the name is free |
| `LinkCalls.Disk.Unlink` | sysfile.c:184-239 | removes the entry and the counts, or changes nothing; succeeds exactly for a name other than a dot of a file or an empty directory; its panic is unreachable |
| `LinkCalls.Disk.Create` | sysfile.c:241-283 | returns an existing file, refuses an existing name otherwise, or makes the inode and its entries; link counts stay right if and only if the parent has not been removed; it panics exactly for want of an inode and on the ".." of a removed directory whose parent is not in use |
| `LinkCalls.NamedUsed` | sysfile.c:250-257 | every name in a directory stands for an inode in use, except that ".." |
| `LinkCalls.Disk.Reclaim` | fs.c:331-352 | freeing an inode without links keeps the invariant |
| `LinkCalls.UnlinkKeeps` | sysfile.c:218-229 | unlinking a file or an empty directory keeps every count |
| `LinkCalls.CreateKeeps` | sysfile.c:260-278 | creating a file or directory keeps every count if and only if the parent has not been removed |
| `LinkCalls.RemovedParent` | sysfile.c:241-283 | mkdir and unlink from a new disk, and then creating a file in the removed directory leaves a count without a link |
| `LinkCalls.GoneParent` | fs.c:288-312 | mkdir, unlink and iput from a new disk that lead to the panic on ".." |
| `Dirents.RecordBack` | fs.c:572-573 | the record dirlink writes reads back as that inode number and name, for every name that fits |
| `Dirents.RecordLayout` | fs.h:50-56 | the record is the inode number in two bytes, low byte first, and the name padded with zeros to DIRSIZ |
| `Dirents.WriteRecord` | fs.c:551-578 | writing a record into a directory's bytes changes that entry, or adds one, and no other |
| `DirReads.Lookup` | fs.c:524-548 | the loop over records read off the disk finds the first entry in use with the name, or none |
| `DirReads.FreeSlot` | fs.c:564-570 | the loop finds the first free record, or the end |
| `DirReads.IsDirEmpty` | sysfile.c:168-181 | the loop tells whether every record past the dots is free |
| `DirCalls.UnlinkView` | sysfile.c:218-229 | unlink's writes of a zero record and of link counts make of the tree what unlinking is for; file by file, the directory keeps its length and loses a link only to a subdirectory, and the file loses a link or, with its last link and user, its type and bytes |
| `DirCalls.CreateView` | sysfile.c:260-278 | ialloc, the counts, the dots and the entry that create writes make exactly the new inode and its entries; file by file, one file of the type asked with one link, empty unless a directory, and the parent |
| `DirCalls.LinkView` | sysfile.c:140-152 | the count and the record that link writes make the link; file by file, one count up and one record, no other file |
| `DirCalls.CallShows` | sysfile.c:119-283 | for each call that changes directories, its operations on bytes and inodes give the tree that the call on the tree gives |
| `DirCalls.CallUpholds` | sysfile.c:119-283 | and the tree stays sound, if and only if the call does not put an entry in a removed directory or raise a count of 32767 |
| `DirCalls.CallCost` | sysfile.c:119-283 | whatever the files are, a call logs at most 18 blocks, and the bitmap's if it frees a file |
| `DirEffects.UnlinkEffect` | sysfile.c:184-239 | after a successful unlink the name stands for nothing and every other name of the directory for what it did; with its last link and user the file has no type and no bytes and all its blocks are free again, else it keeps both and has one link less; no other file differs |
| `DirEffects.CreateEffect` | sysfile.c:241-283 | after a successful create the name stands for the first inode that was free, which is an empty file or a directory of two dots, and every other name stands for what it did; no other file differs |
| `DirEffects.LinkEffect` | sysfile.c:119-165 | after a successful link the name stands for the file, which has one link more and its bytes, and every other name stands for what it did; no other file differs |
| `DirEffects.ReclaimEffect` | fs.c:331-352 | freeing an unlinked inode takes its type and bytes and frees all its blocks |
| `DirEffects.CallEffect` | sysfile.c:119-283 | so for each call on any sound tree: those effects under the conditions that the source tests, and no change under the others |
| `DirEffects.HaltsIff` | fs.c:551-578 | a call panics by itself if and only if it adds an entry to a directory that has no free record and cannot grow, or creates the ".." of a removed directory whose parent is gone |
| `DirEffects.CallClear` | sysfile.c:119-283 | no call is stuck if the blocks that its records can take, and an inode for create, are free |
| `DirEffects.OnTree` | sysfile.c:119-283 | the calls on the tree of `LinkCalls` succeed in the same cases and give the same tree |
| `Volumes.Lower` | sysfile.c:119-283 | reading the disk, a call asks for exactly the operations whose effect is `CallEffect`, and panics by itself exactly as in `HaltsIff` |
| `Volumes.Volume.Do` | sysfile.c:119-283 | a call as one transaction, with any fate of the machine: if it is not kept no file has changed; if it is, names, files and free blocks are as `Effect` says; it panics on what `HaltsIff` names, and, with a log and cache that have room for 19 blocks and the bitmap, it is kept whenever the machine lives and blocks and inodes suffice; the tree is sound again if and only if that condition allows |
| `Volumes.Volume.Run` | log.c:69-202 | over any calls and crashes the tree on disk is sound before and after every call, up to one that meets the condition, and each call that is kept has had its effect on the files before it |
| `Volumes.Start` | mkfs.c:94-162 | mkfs and boot give such a volume, in which each name given to mkfs stands for a file with the bytes given |
| `Paging.SameSpaces` | vm.c:36-55 | writing a page that is no directory or table moves no mapping of any address space |
| `Paging.OneEntry` | vm.c:61-80 | writing a page table entry changes that virtual page of that directory and no other anywhere |
| `Paging.GrantIsEntry` | vm.c:35-55 | an address space grants, from both levels of its tables, what the page table entry alone says: no directory entry takes a right away |
| `Paging.TableInv` | vm.c:45-53 | a zeroed page may become a table |
| `Paging.MapInv` | vm.c:69-73 | mapping an unmapped page keeps every page free or owned by exactly one use |
| `Paging.UnmapInv` | vm.c:269-276 | so does freeing a user page and clearing its entry |
| `Paging.DropInv` | vm.c:284-298 | so does giving up a directory without user pages |
| `VirtualMemory.Kernel.constructor` | kalloc.c:30-53 | every page past the kernel is on the free list |
| `VirtualMemory.Kernel.Kalloc` | kalloc.c:82-95 | pops the list linked through the pages; 0 exactly when it is empty |
| `VirtualMemory.Kernel.Kfree` | kalloc.c:59-77 | pushes the page, filled with junk, on the list |
| `VirtualMemory.Kernel.Walk` | vm.c:35-55 | finds or makes the table, whose directory entry lets user mode read and write; no mapping of any directory changes; 0 exactly when there is no table and none is wanted or no page is free |
| `VirtualMemory.Kernel.Mappages` | vm.c:60-80 | maps the region and nothing else; user frames become owned by their page; it fails exactly when a table is missing and no page is free; "remap" is unreachable |
| `VirtualMemory.Kernel.FreeUser` | vm.c:269-276 | frees one user page; the panics are unreachable |
| `VirtualMemory.Kernel.Deallocuvm` | vm.c:255-279 | the loop that skips missing tables frees the same pages, in the same order, as a walk page by page, and clears exactly their entries; those pages are then accessible to nobody, and every other access is as before |
| `VirtualMemory.TableSkip` | vm.c:265-268 | where there is no table, a page by page walk up to the next table frees nothing |
| `VirtualMemory.Kernel.Freevm` | vm.c:283-298 | everything the directory owned is free, everything else is as it was |
| `VirtualMemory.Kernel.Setupkvm` | vm.c:118-136 | succeeds exactly when 65 pages are free; then the directory maps exactly the kernel's map, and at every address of the 4 GB grants what that map says: kernel only, text read-only, nothing in the user half; else no use of any page has changed |
| `VirtualMemory.Kernel.NewPage` | vm.c:234-246 | one page taken, filled and mapped, or nothing mapped |
| `VirtualMemory.Kernel.Allocuvm` | vm.c:221-249 | succeeds exactly when enough pages are free for the new pages and the missing tables; then the new pages are zeroed, user mode may read and write them, and every other access is as before; else every mapping is as before |
| `VirtualMemory.Kernel.Copyuvm` | vm.c:315-345 | panics exactly when some page below the size is not mapped and memory lasts up to the first such page; else succeeds exactly when 65 pages, one per page copied and one per 1024 of them are free; then the child has equal contents and grants the same access to each page; else no use of any page has changed |
| `VirtualMemory.SetUpGrants` | vm.c:105-116 | what the hardware grants, through both levels, on a directory that setupkvm has filled |
| `VirtualMemory.AllocGrants` | vm.c:221-249 | and after allocuvm, at every address |
| `VirtualMemory.CopyGrants` | vm.c:315-345 | and in the child that copyuvm makes |
| `VirtualMemory.ForkIsolation` | vm.c:315-345 | parent and child share no user page, and the parent's mappings and memory are untouched |
| `VirtualMemory.OtherSpaces` | vm.c:35-80 | adding to one directory changes no mapping of another |
| `AddressSpaces.Spaces.New` | vm.c:118-136 | a new directory maps no user page; every other address space keeps its pages and their contents |
| `AddressSpaces.Spaces.Alloc` | exec.c:52-66 | allocuvm from the size on never meets a mapped page, so "remap" is unreachable; the space then maps exactly the pages below the new size, the old ones as they were and the new ones zero, at exactly the price of those pages and the tables missing; other spaces are untouched |
| `AddressSpaces.Spaces.Grow` | proc.c:158-175 | growproc for every n, with 32-bit sums: exactly when it succeeds, what the size becomes, and that the space maps exactly the pages below it with the pages kept unchanged, unless all pages were given back; other spaces are untouched |
| `AddressSpaces.Spaces.Fork` | proc.c:192-199 | copyuvm on a space that maps exactly the pages below its size does not panic; the child maps exactly copies of those pages |
| `AddressSpaces.Spaces.Free` | proc.c:292 | freevm takes the one space away and leaves the others untouched |
| `AddressSpaces.ForkPanics` | proc.c:158-199 | setupkvm, allocuvm of a page, growproc(-4096) and fork from a new kernel, which panics |
| `AddressSpaces.LowFrom` | proc.c:158-175 | a space comes to lack pages below its size only by growproc(-sz) |
| `AddressSpaces.Spaces.Run` | proc.c:158-203 | over any calls every address space maps exactly the pages from a lowest one up to its size, which user mode may read and write, and the kernel's map, which it may not touch; the run panics exactly at a fork of a space whose lowest page is not 0 with 65 pages free, and only after growproc(-sz) of it |
| `SleepWakeup.InvKept` | proc.c:417-474 | every step of acquire, release, sleep, wakeup and kill keeps the locks and the debts of wakeups in order |
| `SleepWakeup.NoLostWakeup` | proc.c:417-474 | in every state of every run a process asleep on a channel whose condition is true is owed a wakeup that will still reach it, by a process that is awake |
| `SleepWakeup.SleepersHaveReason` | sleep1.p:54-133 | when no wakeup is owed, no process sleeps on a true condition |
| `SleepWakeup.OneHolder` | spinlock.c:24-68 | at most one process holds a lock |
| `SleepWakeup.WakeupNotBlocked` | proc.c:417-474 | the holder of ptable.lock always has a next step, and once it is free a process that owes a wakeup can go on |
| `SleepWakeup.ChangeOwes` | proc.c:417-474 | a change of conditions under their lock takes effect at once, and who makes one true owes its wakeup |
| `SleepWakeup.KillWakes` | proc.c:479-497 | kill makes a process that sleeps on any channel able to run, and changes no other |
| `ProcessTree.SchedulingKeeps` | proc.c:457-497 | running, stopping, waking and killing processes keeps the tree |
| `ProcessTree.AllocKeeps` | proc.c:74-90 | taking a free slot keeps the invariant |
| `ProcessTree.ForkKeeps` | proc.c:181-222 | so do fork's unlocked writes of state and parent, and its failure path |
| `ProcessTree.ExitKeeps` | proc.c:250-266 | so does exit, with its wakeups and the children passed to init |
| `ProcessTree.WaitKeeps` | proc.c:273-312 | so does a round of wait, whether it reaps, gives up or sleeps |
| `ProcessTree.LiveParents` | proc.c:181-268 | in every run each process past EMBRYO but init has a parent that is alive, and a ZOMBIE has no children |
| `ProcessTree.WaitNotMissed` | proc.c:250-308 | no parent sleeps in wait while it has a ZOMBIE child; when it next runs it reaps one |
| `ProcessTree.ReapedOnce` | proc.c:273-312 | every exited process is reaped exactly once or is still a ZOMBIE, never both |
| `ProcessTree.PidNamesOne` | proc.c:479-497 | in every state of every run a pid but 0 is in at most one slot, free or not, and one that wait has returned is in none, so kill of it returns -1 |
| `ProcessTree.KilledRuns` | proc.c:479-497 | in every run a process that slept when kill hit it is ready to run until it does, is still marked then, and when it runs it is no longer in wait |
| `ProcessTree.SleepsUntil` | proc.c:417-474 | in every run a process that has gone to sleep stays asleep on its channel until a wakeup of it or a kill, and that makes it ready |
| `ProcessTree.YieldsUntil` | proc.c:385-391 | in every run a process that yields is ready until it runs again |
| `ProcessTree.ForkMakes` | proc.c:181-222 | in every run, when fork is done there is a process able to run, with a pid that no other slot has, whose parent is the caller |
| `ProcessTree.KilledIff` | proc.c:291-300 | in every state of every run a slot is marked killed if and only if kill has hit it since the start or since wait last reaped it |
| `ProcessTree.BornKilledIff` | proc.c:86-88 | so fork starts a killed process if and only if that holds of the slot it takes |
| `ProcessTree.KillZero` | proc.c:479-497 | a run in which kill(0) marks a free slot and the next process in it is killed from the start |
| `ProcessTree.BornKilled` | proc.c:192-197 | a run in which a failed fork leaves a pid behind, kill marks it, and the next process in the slot is killed from the start |
| `ProcessTable.Ptable.AllocProc` | proc.c:74-90 | the scan is the allocation step on the first free slot |
| `ProcessTable.Ptable.Wakeup1` | proc.c:457-465 | wakes exactly the processes asleep on the channel |
| `ProcessTable.Ptable.Exit` | proc.c:250-266 | the nested scans are the exit step |
| `ProcessTable.Ptable.WaitRound` | proc.c:279-308 | frees the slot of the first ZOMBIE child, clearing pid, parent and mark, and returns its pid; else returns -1 exactly with no child or when killed, and sleeps otherwise; no other slot changes |
| `ProcessTable.Ptable.Kill` | proc.c:479-497 | for any number, the first slot that holds it as its pid, in use or not, is marked, and able to run if it slept; nothing else changes; -1 exactly if there is none |
| `Pipe.Counters` | pipe.c:85-93 | 32-bit counters that wrap still tell empty from full and index the ring right |
| `Pipe.Ring.constructor` | pipe.c:31-36 | a new pipe is an empty queue with both ends open |
| `Pipe.Ring.Close` | pipe.c:59-75 | closes that end only, wakes exactly those asleep at the other, keeps the bytes; the pipe goes away exactly when both are closed |
| `Pipe.Ring.Write` | pipe.c:78-98 | each stretch under the lock appends as many of its bytes as fit, in order, and ends done when all are in, else asleep, or failed exactly if the read end is closed or the writer killed; it wakes readers before it sleeps and when it is done; bytes that no reader is told of are left if and only if it fails after adding some |
| `Pipe.Ring.Read` | pipe.c:100-121 | each stretch takes the next bytes of the queue, as many as asked for or all there are, and wakes writers; it takes none exactly when the queue is empty, and then sleeps or fails exactly if the write end is open |
| `Pipe.Fifo` | pipe.c:78-121 | for any readers and writers the bytes read are a prefix of the bytes written, at most PIPESIZE apart, and each writer's bytes are there in order |
| `Pipe.ReadTakes` | pipe.c:100-121 | in every run a read takes bytes from the front of the pipe, as many as asked for or all there are, and then is over and wakes the writers; with none there and the write end open it sleeps, or is over exactly when killed |
| `Pipe.WriteAdds` | pipe.c:78-98 | in every run a write adds the next of its bytes until all are in or the pipe is full; then it is over, or, with a full pipe, over exactly when the read end is closed or it is killed, else asleep with the readers woken |
| `Pipe.OpenIff` | pipe.c:59-75 | in every state of every run an end is open if and only if it has not been closed |
| `Pipe.KilledIff` | pipe.c:85-106 | a call is marked if and only if its process was killed since it began, and then it is not asleep |
| `Pipe.CallsBegin` | pipe.c:78-121 | a call that begins has none of its bytes through and can take its first step |
| `Pipe.EndOfFile` | pipe.c:100-121 | a read of n > 0 bytes returns 0 if and only if the pipe is empty and its write end is closed |
| `Pipe.WritersSleepRight` | pipe.c:59-121 | in every run readers and writers are never asleep together, writers sleep only on a full pipe that is open for reading, readers only on one that is open for reading and writing |
| `Pipe.StrandsIff` | pipe.c:84-91 | one step leaves a reader asleep beside bytes if and only if it is a write by a killed process of more than PIPESIZE bytes |
| `Pipe.StrandedIff` | pipe.c:78-121 | a run has a reader asleep on a pipe with bytes in it if and only if it has such a write |
| `Pipe.SleepsOn` | pipe.c:84-91 | a run in which a killed process writes 513 bytes and the reader sleeps on beside a full pipe |
| `Umalloc.FreeSound` | umalloc.c:33-43 | joining with either neighbour keeps the list ordered, no two free blocks touching, and free and live blocks a partition of all memory obtained |
| `Umalloc.TakeSound` | umalloc.c:76-77 | so does handing out a whole block |
| `Umalloc.SplitSound` | umalloc.c:78-82 | so does handing out the tail of a block |
| `Umalloc.GrowSound` | umalloc.c:54-59 | so does adding memory from sbrk |
| `Umalloc.Separate` | umalloc.c:24-90 | any two blocks, free or live, are disjoint |
| `Umalloc.Allocator.Search` | umalloc.c:30-32 | free's search ends at the list node before the block |
| `Umalloc.Allocator.Free` | umalloc.c:24-44 | the block is no longer live, nothing else changes hands, the invariant holds |
| `Umalloc.Allocator.Morecore` | umalloc.c:46-61 | on success a block large enough is at freep or next to it, even when it was merged |
| `Umalloc.Allocator.Malloc` | umalloc.c:63-90 | ends, fails exactly when sbrk fails and no free block is large enough, and otherwise returns a block of the size asked that was not live |
| `ShellGrammar.Get` | sh.c:265-308 | a token lies within the text, is not empty unless the text ends, and is the end exactly when only white space is left |
| `ShellGrammar.Redirs` | sh.c:374-397 | terminates and does not move back; what the redirections are is `Direction` and `ArgsBack` |
| `ShellGrammar.Args` | sh.c:423-446 | terminates and does not move back |
| `ShellGrammar.ParseLine` | sh.c:344-359 | the mutually recursive parsers terminate on every text and do not move back |
| `Shell.GetToken` | sh.c:265-308 | the loops over the text compute that token |
| `Shell.Peek` | sh.c:310-320 | whether one of the characters comes next |
| `Shell.ParseRedirs` | sh.c:374-397 | the loop computes the redirections in order, from which end and to which file as `Direction` says |
| `Shell.ParseExec` | sh.c:415-446 | the loop computes the command with its arguments, wrapped in its redirections |
| `Shell.ParseBlock` | sh.c:399-413 | as the grammar says |
| `Shell.ParsePipe` | sh.c:361-372 | as the grammar says |
| `Shell.ParseLine` | sh.c:344-359 | as the grammar says |
| `Shell.LineWords` | sh.c:344-446 | every token a parsed command points at is a whole word of the text |
| `Shell.NoEndInside` | sh.c:449-493 | the position past a token is never inside another token |
| `Shell.NulTerminate` | sh.c:449-493 | writes NULs past the tokens of the command and nowhere else |
| `Shell.ParseCmd` | sh.c:327-342 | afterwards every argument and file name reads, as a C string, as the token found while parsing; leftovers are a panic |
| `ShellRoundTrip.ArgsBack` | sh.c:415-446 | printed words and redirections by <, > and >>, in any order, parse back, each to its place |
| `ShellRoundTrip.LineBack` | sh.c:344-446 | a printed command parses, up to where it was printed, to the tokens printed |
| `ShellRoundTrip.MeaningBack` | sh.c:196-258 | and those tokens spell what the command typed was meant to do |
| `ShellRoundTrip.RoundTrip` | sh.c:327-446 | for every command with well-formed words, fewer than MAXARGS arguments to a program, and redirections before, between and after them or after parentheses: parsing its printed form gives exactly its meaning with nothing left over, redirections of a program wrapped around it in order |
| `ShellRoundTrip.Direction` | sh.c:374-397 | for every text, where a redirection is parsed it is output if its arrow begins with > and input if with < |
| `ShellRoundTrip.TypedMeans` | sh.c:196-258 | every tree is what some typed command is meant to do |
| `ShellRoundTrip.ParseAndTell` | sh.c:327-493 | on every text, the C strings in the buffer that the parsed command points at after nulterminate spell exactly what the text means |
| `Grep.MatchHere` | grep.c:85-96 | computes the recursive predicate, and terminates |
| `Grep.MatchStar` | grep.c:99-106 | the loop computes zero or more repetitions followed by the rest |
| `Grep.HereIff` | grep.c:85-106 | the recursive predicate holds if and only if a prefix of the text is in the language of the pattern, given by cutting the text into pieces the pattern's items spell |
| `Grep.Match` | grep.c:73-82 | true if and only if some suffix of the text, or the whole text after ^, has a prefix in the language of the pattern |

## Left out

- Reading inodes and bits from their blocks at each access: the file system keeps them
  as values, and `DiskFormat` gives the blocks they stand for.
- Sleep locks on buffers and inodes: `Log`, `FileSystem` and `CrashSafety` run one
  transaction at a time. bget's scan and brelse's move are critical sections of the
  buffer cache; bread and bwrite go on to the disk under the buffer's own lock.
  Interleaving of longer calls is modelled in `LogAdmission`, `SleepWakeup`,
  `ProcessTree`, `Pipe` and, between the halves of link, in `LinkCalls`.
- Device inodes and calls through `devsw`.
- `namex`, `skipelem` and the inode cache: directory operations are given the inodes a
  path resolves to; names are path elements already cut to DIRSIZ.
- File descriptor reference counts (`filealloc`, `filedup`, `fileclose`).
- `sleeplock.c`: an instance of the sleep and wakeup discipline of `SleepWakeup`.
- `copyout`, `loaduvm`, `inituvm`, `clearpteu` and the rest of `exec`: the guard page that
  exec takes from user mode is not among the spaces of `AddressSpaces`. The hardware's use
  of the tables is modelled by the two-level walk of `Paging.Grant`; its caching is not.
- Device nodes made by `mknod`; `Volumes` makes files and directories. mkfs is modelled for
  files whose names fit in a record and are distinct; it does not check either.
- The contents of the trap frame, context switch and scheduler loop; a process that
  runs is modelled by the steps it takes.
- 16-bit wrap-around of `nlink` in `LinkCalls` (`DirCalls` has it), and 32-bit wrap-around
  of `nextpid`.
- What a kernel does after a panic: a panic is a result (`ok == false`, `Panic`) at which
  the machine stops.
- `malloc` is modelled for sizes whose rounding does not wrap.
- `runcmd`, the shell's execution of the tree.
- Texts are any sequences of characters, so what is proved of the shell and of grep
  also covers texts with NULs inside, which C strings cannot be.
- LogAdmission.GetsIn: states that the others can let a process in, not that a fair
  scheduler makes them.
- SleepWakeup.NoLostWakeup: covers callers that make every wakeup they owe before they
  sleep; `pipewrite` for a killed process is not such a caller, and `Pipe.StrandedIff`
  says when that matters.
- CrashSafety.Machine.Do: counts the distinct blocks of a transaction. `log_write` also
  panics when a block that is logged already is logged again at a full log, as
  `LogAdmission.RelogPanics` states; such a transaction counts as one that goes on.
- Volumes.Volume.Do: an inode that is unlinked and still open when the machine stops is
  never freed, in the source as here; what is proved is that the tree stays sound.
