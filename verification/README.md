# TécnicoFS: the tables agree, and the client sees a file system

TécnicoFS is an in-memory file system: an inode table and a block area, each with an
allocation bitmap, one flat byte array that holds both file bytes and the root directory's
44-byte records, and an open-file table. `Projeto1/fs` adds hard links (counted) and soft
links (by name). `Projeto2/fs` drops links and puts every operation under one mutex.

The project proves that these tables always agree with each other, that together they behave
like the file system a client has in mind (names, contents, handles), and that in Projeto2
any interleaving of threads is a sequential run of that file system.

## How it is built

| module | what it holds |
|---|---|
| `Base`, `Layout` | bytes, C strings, first-fit search; directory records and 32-bit inumbers as bytes |
| `Tables`, `Operations` | the tables as one value (`State`), and what each function of `state.c` and `operations.c` does to it; `Abort` is a failed `ALWAYS_ASSERT` or a copy that would leave `fs_data` or the caller's buffer |
| `Store`, `Tfs` | the same functions in place, on arrays; each is proved equal to its counterpart on `State`, and each call to the client's call |
| `Directory`, `Invariants` | directory records, what the tables agree on (`TablesOk`, `HandlesOk`, `Inv`), what they agree on whatever the client does (`AlwaysOk`), and the file system they stand for (`Abs`) |
| `FileSystem` | that file system: names, nodes with contents, open handles, and how much fits; `Safe`, `Fresh` and `Allowed` are what a client can check before calling |
| `Effects`, `Simulation` | how single changes carry the invariants and the abstraction along |
| `Always` | what every call and every run keeps, safe or not |
| `Errors` | what calls with bad arguments return, in every state of the tables |
| `Runs`, `Conservation`, `Guarantees`, `SoftLinks`, `Streams`, `ExternalCopy` | the main results for Projeto1 |
| `Locked`, `Threads`, `LockedTfs` | Projeto2: operations as one step and as micro-steps, threads, linearizability, and the locked methods |
| `Departures` | concrete runs from `tfs_init` after which the code does something unexpected |

`dafny verify dfyconfig.toml` checks everything.

## Where the code departs from its interface

The model follows the code. Each departure has its exact condition, for all inputs, and a concrete
run from `tfs_init` that shows it.

- Unlinking a soft link deletes its inode twice, and the second `inode_delete` fails its
  assertion (`Departures.UnlinkingALinkAborts`).
- `TFS_O_TRUNC` under an open handle, and removing the last name of an open file, leave a
  handle past the end of its file or on a FREE inode (`Departures.TruncatingUnderAHandle`,
  `Departures.DeletingAnOpenFile`). `Runs.InvIffSafe` proves that the handle invariant survives a
  call exactly when the call avoids this. Everything about names, inodes and link counts holds all
  the same (`Always.RunAlways`, `Conservation.LinksInEveryState`), and no two TAKEN inodes share a
  block (`Conservation.BlocksNeverShared`). But:
  - A read leaves its file exactly when it starts past the file's end (`Guarantees.ReadIffInBounds`,
    for any handle; on a FREE inode it reads what the inode's old block holds by now). It can then run
    on into the next blocks, and leave the handle past the end of a block, where the count of a write
    wraps (`Departures.ReadingPastABlock`). Apart from unlinking soft links, a call aborts
    exactly when it reads or writes so far astray that the copy would leave `fs_data` or the caller's
    buffer (`Always.CallAlways`).
  - A write through a handle on a FREE inode can land in another file, which has got the inode's
    block (`Departures.WritingIntoAnotherFile`); `Guarantees.WriteIsolation` says exactly when. A write
    past the end of its own file leaves bytes in between that nobody wrote to it
    (`Guarantees.WriteShows`).
  - A FREE inode that a handle is on becomes another file as soon as it is the smallest FREE one and
    something is created (`Departures.ReusingAnInode`, `Guarantees.ComesBackExactly`).
  - A block can be left TAKEN without an owner, exactly by a write to an inode that was freed
    (`Conservation.LeaksExactly`).
- `tfs_open` through a soft link applies TRUNC and APPEND to the link's inode, and does not create
  a missing target (`Departures.TruncatingThroughALink`, `Departures.CreatingThroughALink`).
  `SoftLinks.FlaggedOpenFollowsExactly` and `SoftLinks.DanglingOpenFollowsExactly` say exactly when
  opening the link is opening the path it stores, and `ExternalCopy.CopyReplaces` what the
  difference means for a copy. The code also follows one link only, so a handle can end up on a
  link (`Departures.OpeningAChain`); `SoftLinks.HandlesStayOnFiles` says exactly when.
- `tfs_sym_link` keeps 39 bytes of its target path, so a link to a file whose name has 39 bytes
  does not lead to it (`Departures.LinkingALongName`, `SoftLinks.SymLinkStoresPath`).
- `tfs_link` and `tfs_sym_link` do not check that the new name is free
  (`Departures.DuplicateNames`). Names stay distinct exactly unless such a call names a bound name
  and meets everything else it checks: the target, an inode for a soft link, the length of the name
  and a free record (`Always.DistinctIffFresh`). The results that speak of names as a map ask for
  distinct names.
- `tfs_open` truncates or creates the file before it looks for a handle, so it can return -1 and
  leave a change (`Departures.CreatingInVain`); `Guarantees.FailureAtomicity` says exactly when, and
  that no other failing call does.

## Model

| member | source | states |
|---|---|---|
| Base.First | Projeto1/fs/state.c:170-187 | every search takes the smallest index that qualifies, and fails only when none does |
| Base.SubSizeWraps | Projeto1/fs/operations.c:357 | the subtraction of two size_t wraps at 64 bits |
| Layout.IntRoundTrip | Projeto1/fs/state.h:17-20 | every inumber stored in a record's four bytes reads back, including -1 |
| Layout.NameFieldReads | Projeto1/fs/state.c:369-370 | a stored name reads back as its first 39 bytes, is terminated, and is not empty unless the name was |
| Layout.ComparisonsAreEquality | Projeto1/fs/state.c:408-410 | on a record written by add_dir_entry the bounded comparison of find_in_dir and the strcmp of clear_dir_entry are equality of strings |
| Layout.WriteEntryReads | Projeto1/fs/state.c:366-374 | a written record reads back and no other record of the block changes |
| Layout.MarkEmptyReads | Projeto1/fs/state.c:239-241 | a new directory has no live record, whatever its block held |
| Layout.StringFunctions | Projeto1/fs/state.c:408-410 | the two comparisons of names are what strncmp over 40 bytes and strcmp compute byte by byte, on names that are terminated or not |
| Layout.RecordBytes | Projeto1/fs/state.h:17-20 | a record is 44 bytes: the name, NULs up to byte 40, and the inumber; writing one changes no other byte |
| Layout.IntBytes | Projeto1/fs/state.h:17-20 | an inumber is stored as its base-256 digits, lowest first, and -1 as four bytes 255 |
| Layout.EmptyBytes | Projeto1/fs/state.c:239-241 | a record is empty exactly when the bytes of its inumber are all 255 |
| Layout.MarkedBytes | Projeto1/fs/state.c:239-241 | marking a new directory empty sets these bytes in every record, and no others |
| Directory.FindFinds | Projeto1/fs/state.c:392-417 | find_in_dir fails exactly for names that no live record carries, and otherwise stops at the first record that does, duplicates or not |
| Directory.ClearAgreesWithFind | Projeto1/fs/state.c:314-333 | clear_dir_entry ignores inumbers and can meet garbage names, yet clears exactly the record that find_in_dir found |
| Directory.RoomForName | Projeto1/fs/state.c:366-376 | with distinct names a record is free exactly when fewer names are bound than there are records |
| Store.SpliceInBlock | Projeto1/fs/state.c:465-471 | bytes copied into the flat array inside one block change that block there and leave every other block as it was |
| Store.Disk.CopyToBlock | Projeto1/fs/state.c:465-471 | bytes copied to the pointer that data_block_get returns change that block there, and nothing else |
| Store.BlocksAreData | Projeto1/fs/state.c:465-471 | the blocks of the tables, one after another, are the flat array |
| Tables.MemoryInBlock | Projeto1/fs/state.c:465-471 | a copy from fs_data that stays inside a block reads that block |
| Store.Disk.constructor | Projeto1/fs/state.c:98-132 | new tables have every bitmap entry FREE |
| Store.Disk.TakeFirst | Projeto1/fs/state.c:427-440 | the allocation loop takes the first FREE entry and changes no other |
| Store.Disk.InodeCreate | Projeto1/fs/state.c:206-261 | the in-place creation, directory and rollback included, leaves the tables that Tables.InodeCreate or Tables.DirectoryCreate says |
| Store.Disk.InodeDelete | Projeto1/fs/state.c:269-284 | frees the inode, and its block if it has bytes; aborts exactly where an assertion fails |
| Store.Disk.FindInDir | Projeto1/fs/state.c:392-417 | the scan over raw records returns what the decoded directory says |
| Store.Disk.AddDirEntry | Projeto1/fs/state.c:350-377 | the scan fills the first empty record in the flat array, or reports an invalid name or a full directory |
| Store.Disk.ClearDirEntry | Projeto1/fs/state.c:314-333 | the scan clears the first record with the name in the flat array |
| Store.Disk.DataBlockAlloc | Projeto1/fs/state.c:427-440 | takes the first FREE block, or returns -1 |
| Store.Disk.DataBlockFree | Projeto1/fs/state.c:448-455 | frees a valid block and aborts on any other number |
| Store.Disk.AddToOpenFileTable | Projeto1/fs/state.c:485-499 | the smallest free handle gets the inode and the offset |
| Store.Disk.RemoveFromOpenFileTable | Projeto1/fs/state.c:507-517 | frees a taken handle and aborts on any other |
| Tfs.InitTables | Projeto1/fs/operations.c:30-48 | succeeds exactly when there is an inode and a block for the root; then all invariants hold and the client sees an empty file system |
| Tfs.OpenFile | Projeto1/fs/operations.c:102-178 | on the arrays, tfs_open has the outcome and leaves the tables of Operations.Open; on good tables that is the client's call |
| Tfs.MakeSymLink | Projeto1/fs/operations.c:187-226 | on the arrays, tfs_sym_link has the outcome and leaves the tables of Operations.SymLink; on good tables that is the client's call |
| Tfs.MakeLink | Projeto1/fs/operations.c:236-276 | on the arrays, tfs_link has the outcome and leaves the tables of Operations.Link; on good tables that is the client's call |
| Tfs.CloseFile | Projeto1/fs/operations.c:278-287 | on the arrays, tfs_close frees a taken handle and rejects any other; on good tables that is the client's call |
| Tfs.WriteFile | Projeto1/fs/operations.c:289-336 | on the arrays, tfs_write has the outcome and leaves the tables of Operations.Write; on good tables that is the client's call |
| Tfs.ReadFile | Projeto1/fs/operations.c:338-376 | on the arrays, tfs_read has the outcome, bytes and offset of Operations.Read, unsigned subtraction and copies past the block included; on good tables that is the client's call |
| Tfs.UnlinkFile | Projeto1/fs/operations.c:384-419 | on the arrays, tfs_unlink has the outcome and leaves the tables of Operations.Unlink; on good tables that is the client's call |
| Tfs.CopyFromExternal | Projeto1/fs/operations.c:422-468 | the copying loop, for any chunks, has the outcome and leaves the tables of ExternalCopy.Copy; without a readable source it returns -1 and leaves the tables alone; on all tables that a run can leave it is what ExternalCopy.CopyExact says |
| Simulation.LookupAgrees | Projeto1/fs/operations.c:73-93 | in a good state tfs_lookup returns what the path is bound to, or -1, and never aborts |
| Simulation.OpenAbs | Projeto1/fs/operations.c:102-178 | tfs_open is the client's open, returned handle included |
| Simulation.LinkShows | Projeto1/fs/operations.c:236-276 | tfs_link binds one more name to the same file, exactly when the client's link does |
| Simulation.SymLinkAbs | Projeto1/fs/operations.c:187-226 | tfs_sym_link makes a new node that stores the text, or rolls its inode back unseen |
| Simulation.UnlinkAbs | Projeto1/fs/operations.c:384-419 | tfs_unlink removes one name, and the file with its last name |
| Simulation.UnlinkAborts | Projeto1/fs/operations.c:407-415 | tfs_unlink aborts exactly when the path is bound to a soft link |
| Simulation.WrittenAbs | Projeto1/fs/operations.c:310-333 | a write shows in the file it is for, at the handle's offset, and nowhere else |
| Simulation.RoomForBlock | Projeto1/fs/state.c:427-440 | one block is TAKEN for the root and one for each non-empty file, so allocation fails exactly when these fill the area |
| FileSystem.CoherentIffSafe | Projeto1/fs/operations.c:135-147 | for the client's file system, names and handles stay meaningful exactly under safe calls |
| Runs.NoPanic | Projeto1/fs/operations.c:102-419 | from a good state no assertion fails and no copy leaves its block, except in unlinking a soft link |
| Runs.InvIffSafe | Projeto1/fs/operations.c:102-419 | every call keeps link counts, block ownership and the directory well formed; the handle invariant (offset within size, inode TAKEN) survives exactly when the call is safe |
| Runs.SafeCallAgrees | Projeto1/fs/operations.c:135-147 | with distinct names, safety on the tables is the safety a client can see |
| Runs.StepSimulates | Projeto1/fs/operations.c:102-419 | refinement: every call on the tables is the client's call, reply included |
| Runs.SafeRuns | Projeto1/fs/operations.c:102-419 | safe runs keep every invariant, duplicate names included, and complete exactly when they unlink no soft link |
| Runs.RunSimulates | Projeto1/fs/operations.c:102-419 | whole runs refine the client's file system, reply by reply |
| Runs.InitEstablishes | Projeto1/fs/operations.c:30-48 | tfs_init makes the root inode 0 and all invariants true, whatever memory held |
| Runs.RefinesFromInit | Projeto1/fs/operations.c:30-419 | from tfs_init on, every run a client may make behaves like the client's file system |
| Runs.SafeRunExactly | Projeto1/fs/operations.c:102-419 | a run that finishes is safe exactly when every invariant holds after each of its calls |
| Always.CallAlways | Projeto1/fs/operations.c:102-419 | in every reachable state a call aborts exactly when it unlinks a soft link, or reads or writes through a handle left so far behind that the copy would leave fs_data or the caller's buffer; otherwise directory, inode bitmap and link counts go on agreeing, and one record changes at most |
| Always.UnlinkAlways | Projeto1/fs/operations.c:395-415 | in every reachable state tfs_unlink aborts exactly on soft links, and otherwise clears the record that find_in_dir found |
| Always.WriteAlways | Projeto1/fs/operations.c:289-336 | tfs_write aborts exactly when its handle is past the end of a block and the allocation does not fail first; it never reaches the directory |
| Always.ReadAlways | Projeto1/fs/operations.c:338-376 | tfs_read aborts exactly when its handle is past the end of its file, and the file has no block or the copy would run past the last one |
| Always.DistinctIffFresh | Projeto1/fs/operations.c:261-266 | in every reachable state names stay distinct exactly unless a link that will succeed is made under a bound name |
| Always.RunAlways | Projeto1/fs/operations.c:102-419 | any run at all keeps directory, inode bitmap and link counts in agreement, and finishes exactly when none of its calls aborts |
| Always.ReachableIsAlwaysOk | Projeto1/fs/operations.c:30-419 | so it is from tfs_init on, without any condition on the calls |
| Always.ReachableGrows | Projeto1/fs/operations.c:30-419 | reachable are the tables of tfs_init and all that a completed call makes of reachable ones |
| Always.AllowedExactly | Projeto1/fs/operations.c:102-419 | the runs that a client may make, among those that finish, are exactly those that keep every invariant and the names distinct after each call |
| Errors.BadPath | Projeto1/fs/operations.c:58-60 | without a '/' and a name after it, a path opens, creates, links, copies and removes nothing: the call returns -1 and leaves the tables as they were |
| Errors.GoodPath | Projeto1/fs/operations.c:73-93 | with them, tfs_lookup finds the first record that has exactly that name, or returns -1 if none has |
| Errors.BadName | Projeto1/fs/state.c:351-353 | a new name of no byte or more than 39 gets no link, hard or soft, and nothing shows |
| Errors.LinkNameSkipsOne | Projeto1/fs/operations.c:262 | the first byte of a link's name is not looked at |
| Errors.BadHandle | Projeto1/fs/operations.c:280-282 | through a handle that is out of range or not open, close, write and read return -1 and change nothing |
| Errors.CloseReplies | Projeto1/fs/operations.c:278-287 | tfs_close returns 0 exactly on open handles, and closes no other |
| Errors.ClosedStaysClosed | Projeto1/fs/operations.c:278-376 | after a close, whatever is called in between, the handle stays closed until an open returns it again |
| Errors.NoSource | Projeto1/fs/operations.c:430-434 | a copy from a source that cannot be opened returns -1 and touches nothing |
| Errors.NotADirectory | Projeto1/fs/state.c:356-358 | on an inode that is no directory the three directory functions return -1 and change nothing |
| Errors.FailedAssertions | Projeto1/fs/state.c:269-298 | inode_get, data_block_free and inode_delete abort exactly on the numbers that their assertions refuse |
| Conservation.LinkCounts | Projeto1/fs/operations.c:268-269 | an inode is TAKEN exactly when it is the root or a live record names it, and hard_links_count is the number of such records |
| Conservation.LinksAddUp | Projeto1/fs/operations.c:411-415 | the link counts add up to the number of live records, duplicate names included |
| Conservation.TakenInodes | Projeto1/fs/state.c:269-284 | the TAKEN inodes are the root and the distinct inumbers in live records |
| Conservation.LinksInEveryState | Projeto1/fs/operations.c:268-269 | all three hold in every reachable state, after unsafe calls and with duplicate names too |
| Conservation.BlocksNeverShared | Projeto1/fs/state.c:427-455 | in every reachable state every TAKEN inode with bytes has a TAKEN block of its own, and the root alone owns the directory's block; an open handle's inode can have another file's block only if it is FREE |
| Conservation.LeaksExactly | Projeto1/fs/operations.c:310-320 | a block becomes TAKEN without an owner exactly by the first write to a FREE inode through a handle left behind |
| Conservation.BlockOwnership | Projeto1/fs/state.c:269-284 | in every state a safe run reaches, a block is TAKEN exactly when one TAKEN inode with bytes owns it, that owner is unique, and the root alone owns the directory's block |
| Conservation.NothingLeaks | Projeto1/fs/operations.c:384-419 | a safe run from tfs_init that ends with an empty directory is back to one inode, one block and no handle |
| Guarantees.WriteChangesOneStretch | Projeto1/fs/operations.c:322-333 | in every reachable state a write changes only the bytes from its offset on in the block of its handle's inode, never the directory's |
| Guarantees.WriteShows | Projeto1/fs/operations.c:289-336 | in every reachable state, through any handle, what each TAKEN inode holds after a write, byte by byte, with whatever lay past the end of the handle's own file |
| Guarantees.WriteIsolation | Projeto1/fs/operations.c:289-336 | a write changes another file exactly when its handle is on a FREE inode that still has bytes, the other file has got their block, and the buffer differs from what is there |
| Guarantees.WriteShowsUnderNames | Projeto1/fs/operations.c:289-336 | in every reachable state, through any handle: all records are as before, every name shows what WriteShows says, the written file is overlaid if the offset is within it, and names of files that the write does not reach show what they showed |
| Guarantees.ReadIffInBounds | Projeto1/fs/operations.c:356-375 | in every reachable state, through any handle, on deleted files too: a read stays in its file exactly when the offset is within the size, and then returns the promised bytes; any other read that completes returns as much of fs_data as was asked for |
| Guarantees.FailureAtomicity | Projeto1/fs/operations.c:135-173 | in every reachable state a call that returns -1 changes nothing visible and neither bitmap, exactly unless it is an open that truncated or created the file before it found the handle table full |
| Guarantees.CreationSucceedsExactly | Projeto1/fs/operations.c:148-173 | in every reachable state creating succeeds exactly when the name has at most 39 bytes and an inode, a record and a handle are free, and takes the smallest of each |
| Guarantees.ComesBackExactly | Projeto1/fs/state.c:170-187 | in every reachable state the FREE inode that a handle was left on is TAKEN by a call exactly when the call makes a file or a link and it is the smallest FREE one |
| SoftLinks.PlainOpenFollows | Projeto1/fs/operations.c:116-147 | in every reachable state opening a link without flags is opening the path it stores, if that is unbound or a file |
| SoftLinks.SoftLinksFollowNames | Projeto1/fs/operations.c:116-147 | the same after any completed run: the link fails while its target is gone and works again once the name is back |
| SoftLinks.SymLinkStoresPath | Projeto1/fs/operations.c:210-214 | the new link stores the first 39 bytes of its target path, hence the path itself exactly when it has at most 39 bytes |
| SoftLinks.FlaggedOpenFollowsExactly | Projeto1/fs/operations.c:127-147 | in every reachable state, for any flags, opening a link equals opening the bound path it stores exactly when there is nothing to truncate in either, both start at the same offset, and no second link follows |
| SoftLinks.DanglingOpenFollowsExactly | Projeto1/fs/operations.c:127-133 | in every reachable state a link to an unbound path never opens and changes nothing; opening the path does the same exactly when it would not create the file |
| SoftLinks.HandlesStayOnFiles | Projeto1/fs/operations.c:127-134 | under a call that a client may make, handles stay on TAKEN T_FILE inodes exactly unless a chain of links is opened |
| SoftLinks.ChainsExactly | Projeto1/fs/operations.c:127-134 | during a run that a client may make, handles stay on files exactly when no call opens a chain |
| SoftLinks.EveryHandleIsOnAFile | Projeto1/fs/operations.c:127-147 | from tfs_init on, after any allowed run that opens no chain, every handle is on a TAKEN T_FILE with offset <= size <= block size |
| Streams.WritesOverlay | Projeto1/fs/operations.c:304-335 | through a handle in order, whatever became of the others, a run of writes lays their concatenation over the file from the offset on, cut at the block size, each reply the exact minimum of request and room |
| Streams.ReadsReturn | Projeto1/fs/operations.c:356-375 | through a handle in order a run of reads returns the rest of the file piece by piece, each reply the exact minimum of request and what is left |
| Streams.StreamRoundTrip | Projeto1/fs/operations.c:289-376 | in every reachable state in which the writing handle is in order: writes, then an open under any path that leads to the file, then reads return the file with the writes laid over it, on an empty file the concatenated writes cut at the block size |
| Streams.SharedStream | Projeto1/fs/operations.c:289-376 | a handle in order that was open before the writes, at any offset, reads the same file on from its offset |
| Streams.ReadBack | Projeto1/fs/operations.c:338-376 | reads through any handle in order, whenever it was opened, return the file from its offset on |
| ExternalCopy.CopyExact | Projeto1/fs/operations.c:422-468 | in every reachable state a copy never aborts, and returns 0 exactly when it fits; the destination then holds the cut source over what the open kept; the open handles are restored however it ends |
| ExternalCopy.CopyReplaces | Projeto1/fs/operations.c:437-468 | in every reachable state the destination of a copy that fits holds exactly the cut source if and only if what the open kept is no longer; nothing is kept unless it is a soft link |
| Locked.DoSimulates | Projeto2/fs/operations.c:79-328 | in a good state no operation aborts, each is the client's operation, names and files stay in bijection, and the invariants survive exactly safe calls |
| Locked.DoAllSimulates | Projeto2/fs/operations.c:79-328 | whole sequential runs never abort and refine the client's file system, with distinct names, one for each file |
| Locked.DoAlways | Projeto2/fs/operations.c:79-328 | after any calls at all, an operation aborts exactly when it reads or writes so far astray that the copy would leave fs_data or the caller's buffer; otherwise names stay distinct and every TAKEN inode keeps its one record |
| Locked.DoAllAlways | Projeto2/fs/operations.c:79-328 | any sequential run keeps this, and finishes exactly when none of its calls is astray |
| Locked.InitGood | Projeto2/fs/operations.c:25-44 | tfs_init establishes what DoAllSimulates and DoAllAlways start from |
| Locked.UnlinkDangles | Projeto2/fs/operations.c:313-320 | between its two halves an unlink leaves a record that names a FREE inode |
| Threads.MicroStepsCompose | Projeto2/fs/operations.c:79-328 | the table updates an operation makes under the mutex add up to the operation as one step |
| Threads.MidUnlinkDangles | Projeto2/fs/operations.c:313-320 | in the middle of an unlink, between two of its steps, the inode is FREE and a record still names it |
| Threads.Linearizable | Projeto2/fs/operations.c:79-328 | after any interleaving of any number of threads: the log holds exactly the calls of the execution that took the mutex, with the positions of their events, in the order in which they took it, which respects real time; replies and tables are those of the sequential run in that order |
| Threads.RealTimeOrder | Projeto2/fs/operations.c:79-83 | of any two calls in an execution, one that returned at an earlier position than the other was made took the mutex before it and precedes it in the log |
| Threads.ThreadsSeeOneFileSystem | Projeto2/fs/operations.c:79-328 | interleaved calls that respect what a client sees get the replies of the client's file system |
| Threads.MutexComesBack | Projeto2/fs/operations.c:142-155 | in any execution, after any calls: unless the call that holds the mutex is astray on the tables it found, its thread always moves towards its end, where it gives the mutex back; if it is astray, the mutex never comes back |
| Threads.NobodyIsRefused | Projeto2/fs/operations.c:79-83 | an idle thread can make any call, and a waiting one can take the mutex whenever it is free |
| Threads.LeaverReturns | Projeto2/fs/operations.c:152-160 | in any execution a thread that gave the mutex back can return |
| Threads.EverySequenceHappens | Projeto2/fs/operations.c:79-328 | any sequence of calls of which none is astray, shared out among threads in any way, is carried out to the end by some execution |
| Threads.EveryOrderHappens | Projeto2/fs/operations.c:79-328 | any overlapping calls, one by each thread, are carried out by some execution that makes all of them before the first takes the mutex, in any order in which none is astray |
| LockedTfs.Library.OpenFile | Projeto2/fs/operations.c:79-161 | on the arrays, open has the outcome of Locked.OpenPlain; it takes the mutex once, before the tables are touched, and gives it back once, after that, unless it aborts, which it does exactly when it is astray; in good states that is the client's call |
| LockedTfs.Library.CloseFile | Projeto2/fs/operations.c:163-184 | on the arrays, close frees a taken handle and rejects any other; it takes the mutex once, before the tables are touched, and gives it back once, after that; in good states that is the client's call |
| LockedTfs.Library.WriteFile | Projeto2/fs/operations.c:186-243 | on the arrays, write has the outcome of Operations.Write; it takes the mutex once, before the tables are touched, and gives it back once, after that, unless it aborts, which it does exactly when it is astray; in good states that is the client's call |
| LockedTfs.Library.ReadFile | Projeto2/fs/operations.c:245-284 | on the arrays, read has the outcome of Operations.Read; it takes the mutex once, before the tables are touched, and gives it back once, after that, unless it aborts, which it does exactly when it is astray; in good states that is the client's call |
| LockedTfs.Library.UnlinkFile | Projeto2/fs/operations.c:286-328 | on the arrays, unlink has the outcome of Locked.UnlinkPlain; it takes the mutex once, before the tables are touched, and gives it back once, after that, unless it aborts, which it does exactly when it is astray; in good states that is the client's call |
| Departures.UnlinkingALinkAborts | Projeto1/fs/operations.c:407-415 | on all tables with room for it, creating a file, linking to it softly and unlinking the link aborts |
| Departures.TruncatingUnderAHandle | Projeto1/fs/operations.c:135-140 | writing one byte and truncating through a second open leaves the first handle past the end; a read of a block's length through it leaves the block, and aborts exactly when there are two blocks |
| Departures.ReadingPastABlock | Projeto1/fs/operations.c:357-370 | with a third block that read returns, its last byte from the next block, and a write through the handle then aborts |
| Departures.DeletingAnOpenFile | Projeto1/fs/operations.c:411-415 | unlinking an open file leaves its handle on a FREE inode, and a byte written through it takes a block that no inode owns |
| Departures.ReusingAnInode | Projeto1/fs/state.c:170-187 | creating a file after an open one was unlinked puts the old handle on the new file |
| Departures.WritingIntoAnotherFile | Projeto1/fs/operations.c:310-333 | a byte written through a handle left on a deleted file lands in the file that has got its block |
| Departures.DuplicateNames | Projeto1/fs/operations.c:261-266 | linking a file under its own name gives two records with that name |
| Departures.TruncatingThroughALink | Projeto1/fs/operations.c:135-140 | opening a link with TRUNC leaves the bytes of the file it leads to |
| Departures.CreatingThroughALink | Projeto1/fs/operations.c:127-133 | opening a dangling link with CREAT fails, although opening the path it stores creates the file |
| Departures.OpeningAChain | Projeto1/fs/operations.c:127-134 | opening a link to a link gives a handle on the second link's inode |
| Departures.LinkingALongName | Projeto1/fs/operations.c:212-214 | a link to a file whose name has 39 bytes cannot be opened, while the file can |
| Departures.CreatingInVain | Projeto1/fs/operations.c:170-177 | with the handle table full, an open that returns -1 has created its file |

## Left out

- Layout.ComparisonsAreEquality: strcmp on a record whose name has no NUL in its 40 bytes is
  taken as unequal instead of reading on; `Directory.ClearAgreesWithFind` shows that in a good
  state no such record is reached.
- Tfs.WriteFile: `to_write + of_offset` is an unbounded sum. It cannot wrap, because `to_write`
  is the length of a buffer in memory.
- Tfs.InitTables: one initialisation per set of tables. A second `state_init` in the same
  process, which overwrites the parameters before it refuses, is not modelled, nor are the
  default parameters, `malloc` failure and `state_destroy`.
- Tfs.CopyFromExternal: the source is a sequence of chunks of 1 to 1024 bytes and whether it
  could be opened; a read error of the operating system is an end of input, as in the code.
- Table sizes fit an `int`, the block size is positive, as the code's types and its modulus
  by the block size require, and `fs_data` is no larger than an object in memory can be. Blocks too small for one record are covered.
- A NULL path is the empty string: the code rejects both in the same place. A link name is not
  empty, since the code uses `link_name + 1`.
- LockedTfs.Library.WriteFile: `Projeto2`'s write, read and the tables below them repeat
  `Projeto1`'s, so they share one model; Projeto2's inodes lack the link fields, which its
  operations never read here.
- The mutex is a flag in `LockedTfs` and a holder in `Threads`; `pthread` error returns are
  not modelled.
- The per-call mutexes of `Projeto1/fs/operations.c` and the lock of its open-file table are
  local or unshared in a sequential run and order nothing; Projeto1 is modelled sequentially.
- `insert_delay` and `touch_all_memory` change no table.
- `Projeto2/mbroker`, `manager`, `publisher`, `subscriber`, `producer-consumer` and `utils`
  (named pipes, logging, an interface without code) are not part of this model.
