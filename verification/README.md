# Kernel Panda, verified models

Dafny models of the parts of Kernel Panda whose correctness arguments range over every interleaving, every crash
point or every input, with those arguments proved. `dafny verify dfyconfig.toml` checks the whole project.

| files | part |
|---|---|
| `FsCodec`, `FsTree`, `FsDisk`, `FsPath`, `FsSpec`, `FileSystem`, `FsFormat`, `FsLimits` | the copy-on-write file system: sectors and codecs, stored trees, a device that loses or tears unflushed writes, transactions, and where they run out |
| `Sched`, `SchedFair`, `Parking` | the multiprocessor scheduler as a step system, its bound on starvation, and the parking that other protocols build on |
| `Ring` | shared rings: wrapping counters, slots, and sleeping without losing a wake |
| `Damage`, `Scene`, `Compositor` | the compositor: tile damage, what the screen should show, and the loops that make it so |
| `Heap` | the coalescing kernel heap |
| `Paging` | splitting huge pages, reclaiming empty tables, cloning address spaces |
| `Sha256` | SHA-256, HMAC and PBKDF2 against their standards |
| `Slots`, `Ipc`, `Nvme`, `Ticket`, `Ecam` | request slots, message endpoints, the NVMe completion ring, the ticket lock, the cache of mapped PCI buses |
| `Arithmetic` | facts about multiples and remainders |

How each part is modelled:

- State that the code changes in place is a class whose methods change its fields (`FileSystem`, `Damage`,
  `Compositor`, `Heap`, `PageTables`, `Sha256`, `Hmac`). A protocol between threads or with a device is a step
  system in which each atomic access or critical section is one step, and theorems range over whole runs.
- The file system's device is a durable image and a list of accepted writes. A power cut keeps, sector by sector,
  what was durable or any accepted write; a superblock in flight may also be left undecodable, and a data block in
  flight may hold anything. The device otherwise works. A transaction's generation number stays below 2^64.
- Names and paths in the file system are byte strings; that they are UTF-8 is not modelled. CRC-32 is computed, but
  nothing is claimed of it beyond accepting what was encoded.
- In the scheduler, a section under a processor's lock is one step; a switch is three. Idle threads do not block or
  exit.
- The compositor's screen has no padding between rows (its back buffer is allocated unpadded and indexed with the
  screen's stride), more than one pixel if pixels are three bytes, and a surface's contents do not change between
  presents. Coordinates and depths do not overflow.
- In the heap, no address plus alignment passes 2^64.
- Page tables are typed: every table is used at one level, and below level 3 is pointed at once. The page-attribute
  bit is clear.
- Request slots are sets of slot numbers; the lowest set bit is the lowest free slot.

Where the code differs from what its comments or uses suggest:

- A create in a directory that already holds 480 names stores the new node before refusing with `TooLarge`, and its
  blocks stay marked (`FileSystems.FileSystem.Transact`, `FsLimits.DirectoryFills`).
- After `Full` every data block stays marked, and no later transaction on that mount commits
  (`FileSystems.FileSystem.Transact`, `FsLimits.DeviceFills`).
- The bitmap a commit writes still marks the blocks that commit replaced; mounting again before the next commit leaks
  exactly those (`FileSystems.FileSystem.DoAndRemount`, `FsLimits.RemountLeaks`).
- A ring whose slot count does not divide 2^32 hands over a wrong message once its counters wrap
  (`Ring.InOrderExactly`).
- Front padding the heap drops is not recovered when its neighbour is freed, though the comment there says it is
  (`Heaps.Heap.ThereAndBack`, `Heaps.NotWholeAgain`); alignments up to eight never drop any (`Heaps.SmallAlignment`).
- The NVMe driver loads a completion's command id before the status that carries the phase tag
  (`Nvme.CollectedInOrder`, `Nvme.PostBetweenLoads`).
- A receiver woken for another reason can leave its name on an endpoint's waiting list. With a second receiver, that
  name can absorb a wake: the other one stays parked with the message queued, nobody owes it a wake and nothing is on
  its way (`Ipc.LosesAWake`, `Ipc.NoLostWakeExactly`).

## Model

| member | source | states |
|---|---|---|
| `FsCodec.SuperRoundTrip` | kernel/src/fs/mod.rs:229-272 | Decoding an encoded superblock gives it back, checksum and version accepted |
| `FsCodec.InodeRoundTrip` | kernel/src/fs/mod.rs:279-319 | Decoding an encoded inode gives back its kind, owner, mode, size and block pointers, for every valid inode |
| `FsCodec.DirBlockRoundTrip` | kernel/src/fs/mod.rs:343-358 | A directory block gives back exactly the entries packed into it, in order, and no others |
| `FsDisk.MarkBitMarks` | kernel/src/fs/mod.rs:402-425 | Setting or clearing one bit changes the set of marked blocks by exactly that block |
| `FsDisk.CommittedMounts` | kernel/src/fs/mod.rs:464-504 | A device whose newest intact superblock names a stored, marked tree mounts to exactly that superblock, slot and bitmap |
| `FsDisk.CrashBeforeSuper` | kernel/src/fs/mod.rs:525-538 | Whatever subset of unflushed harmless writes survives a power cut, the old tree is still the one committed, stored and marked |
| `FsDisk.CrashDuringSuper` | kernel/src/fs/mod.rs:525-538 | With only the new superblock in flight, a power cut that keeps, drops or tears it mounts to the old tree or the new one |
| `FsDisk.CommitStep` | kernel/src/fs/mod.rs:525-538 | Once the bitmap covering both trees is flushed, the old superblock still commits the old tree and the new one, in the other slot, would commit the new tree |
| `FsDisk.ImageBitmapWritten` | kernel/src/fs/mod.rs:525-538 | The bitmap read back from the sectors it was written to is the bitmap in memory |
| `FsPath.FinalNameIsLastComponent` | kernel/src/fs/mod.rs:1063-1075 | The name split off the end of a path is the last of its slash-separated components, and is missing exactly when there are none |
| `FsSpec.LevelDone` | kernel/src/fs/mod.rs:608-701 | Relinking one directory over a finished child changes the tree at the path below it only, and accounts for every block given up or claimed |
| `FsSpec.ChildUpdate` | kernel/src/fs/mod.rs:608-701 | A directory with one name's child replaced answers every path as before, except exactly the path changed inside that child |
| `FsSpec.NamesCount` | kernel/src/fs/mod.rs:642-666 | A rewritten directory holds one name more after a creation, one fewer after a removal, and otherwise as many |
| `FsSpec.Accounts` | kernel/src/fs/mod.rs:735-743 | Releasing what a commit gave up leaves the new tree marked and the set of leaked blocks unchanged |
| `FsSpec.SpareAfter` | kernel/src/fs/mod.rs:432-440 | Blocks are claimed out of the spare ones alone: what an attempt claims is what is no longer spare |
| `FsSpec.SpareBalance` | kernel/src/fs/mod.rs:735-743 | Between two trees with the same blocks leaked, what one holds less than the other is spare |
| `FsSpec.KernelReads` | kernel/src/fs/mod.rs:859-879 | The kernel's own read succeeds exactly when the path names a file, and returns its contents |
| `FsSpec.WriteTarget` | kernel/src/fs/mod.rs:808-851 | A change that meets no obstacle on the way down has a target that accepts it |
| `FsSpec.MountedTreeUnique` | kernel/src/fs/mod.rs:464-504 | Two trees that one device image mounts to answer every path alike: what a mount means is unique |
| `FsSpec.SameMeaning` | kernel/src/fs/mod.rs:551-568 | The meaning of a stored tree is a function of the image and its root block |
| `FileSystems.FileSystem.Mark` | kernel/src/fs/mod.rs:402-425 | The marked set gains or loses exactly the block; reserved blocks are never released and a block past the bitmap is ignored |
| `FileSystems.FileSystem.Allocate` | kernel/src/fs/mod.rs:432-440 | The lowest unmarked data block, now marked; `Full` exactly when every data block is marked |
| `FileSystems.FileSystem.WriteBlock` | kernel/src/fs/mod.rs:512-523 | The device accepts one write, not yet durable, that reads see at once |
| `FileSystems.FileSystem.StoreData` | kernel/src/fs/mod.rs:823-834 | The data is readable from freshly claimed blocks, exactly as many as it fills; nothing previously marked is written; failure means every block is marked and fewer were to be had |
| `FileSystems.FileSystem.StoreChunk` | kernel/src/fs/mod.rs:672-680 | One more block, holding a chunk of entries after those before it, or `Full` and what was taken so far |
| `FileSystems.FileSystem.StoreEntries` | kernel/src/fs/mod.rs:671-690 | The directory's entries are readable, in order, from freshly claimed blocks, one for each eight names and at least one; failure means every block is marked and fewer were to be had |
| `FileSystems.FileSystem.StoreDirectory` | kernel/src/fs/mod.rs:671-698 | The entries and then the inode in fresh blocks, exactly as many as that takes; `Full` only when there were fewer |
| `FileSystems.FileSystem.FindEntry` | kernel/src/fs/mod.rs:570-589 | The inode of the entry with the name, or none if no live entry has it |
| `FileSystems.FileSystem.OtherEntries` | kernel/src/fs/mod.rs:642-654 | The live entries with other names, in order |
| `FileSystems.FileSystem.CreateNode` | kernel/src/fs/mod.rs:764-795 | Refuses exactly when the name exists, without a trace; otherwise an empty file in one fresh block, or a directory in two; `Full` only when there were fewer |
| `FileSystems.FileSystem.ReplaceContents` | kernel/src/fs/mod.rs:808-851 | Refuses for a missing name, a directory or a user without write permission, without a trace; otherwise the new contents and an inode in fresh blocks, exactly as many as that takes, and the old ones retired; `Full` only when there were fewer |
| `FileSystems.FileSystem.RemoveNode` | kernel/src/fs/mod.rs:923-947 | Refuses a missing name or a directory that is not empty; otherwise the node's own blocks are retired and nothing takes its place |
| `FileSystems.FileSystem.ChangeMode` | kernel/src/fs/mod.rs:973-991 | Refuses a missing name or a user who is neither the owner nor the kernel; otherwise the same contents and owner under a fresh inode with the new mode |
| `FileSystems.FileSystem.Relink` | kernel/src/fs/mod.rs:640-701 | The directory rewritten into fresh blocks with one name added, replaced or dropped, and exactly how many blocks that takes; `Full` only with fewer; `TooLarge`, touching nothing, only when there would be more than 480 names |
| `FileSystems.FileSystem.ReplaceChild` | kernel/src/fs/mod.rs:620-637 | The change at the last component, or the rewrite of the directory below: what is linked in its place, the blocks it took, and why it stopped |
| `FileSystems.FileSystem.RewriteLevel` | kernel/src/fs/mod.rs:618-701 | One directory of the path over a finished child: the blocks taken below and here add up to exactly the need, and only a creation in a directory of 480 names finds no room |
| `FileSystems.FileSystem.Rewrite` | kernel/src/fs/mod.rs:608-701 | The path from a directory down to the change copied into fresh blocks, exactly as many as needed: the new tree differs at exactly the path; an obstacle on the way is the error and leaves no trace; a full directory keeps the new node's blocks; `Full` claims everything and that was too few |
| `FileSystems.FileSystem.Commit` | kernel/src/fs/mod.rs:525-538 | Bitmap, flush, superblock in the other slot, flush: every device state passed through is safe to cut power in, and the new tree is committed |
| `FileSystems.FileSystem.Release` | kernel/src/fs/mod.rs:740-743 | The given blocks, and only those outside the reserved area, become unmarked |
| `FileSystems.FileSystem.Prepare` | kernel/src/fs/mod.rs:708-731 | The rewrite of a transaction: its result is the exact verdict, and every device state on the way still mounts as the old tree |
| `FileSystems.FileSystem.Land` | kernel/src/fs/mod.rs:732-744 | After the commit the new tree is valid, leaks are unchanged, and the copy of the bitmap on disk still marks the blocks the commit replaced |
| `FileSystems.FileSystem.Transact` | kernel/src/fs/mod.rs:708-745 | The result is a function of the tree and the number of unmarked blocks: the first obstacle, or `Full` exactly when fewer are unmarked than must be stored, or `TooLarge` exactly when the directory holds 480 names, or success. Success changes the map of paths at exactly the path and loses no block; failure changes no path and leaks exactly what it claimed; every device state on the way mounts as the old or the new tree |
| `FileSystems.FileSystem.Mount` | kernel/src/fs/mod.rs:464-504 | Mounts whichever superblock is newer and intact; the file system is valid for every tree the image mounts to |
| `FileSystems.FileSystem.Resolve` | kernel/src/fs/mod.rs:551-568 | The stored node at the path, or the first obstacle met walking it as that user |
| `FileSystems.FileSystem.ReadFile` | kernel/src/fs/mod.rs:859-879 | The file's exact contents, or the exact error, for every path and user |
| `FileSystems.FileSystem.Do` | kernel/src/fs/mod.rs:764-991 | Create, write, remove and chmod: the exact verdict; either the change at its own path and nowhere else, or no change; crash-atomic; the unmarked blocks move by exactly what the tree gained, a full directory cost or `Full` used up, and any other error leaves no trace |
| `FileSystems.FileSystem.Durable` | kernel/src/fs/mod.rs:525-538 | Between operations, whatever is still unflushed, a power cut mounts as exactly the current tree |
| `FileSystems.FileSystem.Run` | kernel/src/fs/mod.rs:708-745 | Over any run of operations, every result is the verdict on the tree and unmarked blocks of the moment; the device states are cut up by operation, a power cut in one mounts as the tree before or after it, and between two as exactly the tree of the moment |
| `FileSystems.FileSystem.MountAndRun` | kernel/src/fs/mod.rs:464-745 | From any image that mounts: every operation's exact outcome, from the spare blocks the image has, and the device states cut up by operation as above, with a bounded generation |
| `FsSpec.EveryMountFindsATree` | kernel/src/fs/mod.rs:464-745 | Over any number of sessions, each ended by a power cut at any device state: every mount succeeds, every operation has its exact outcome, and each session begins with the tree of the moment of the cut, or the one before or after the operation it caught |
| `FsSpec.NoChangeUnwritten` | kernel/src/fs/mod.rs:708-745 | A session that wrote nothing to the device changed nothing: what operations did is what mounting finds |
| `FileSystems.FileSystem.DoAndRemount` | kernel/src/fs/mod.rs:732-744 | Mounting after a successful change gives the new tree, with exactly the blocks the change gave up leaked besides, the old root's own among them; none exactly when the old root was the empty one formatting leaves in the metadata area |
| `FileSystems.FileSystem.WriteThenRead` | kernel/src/fs/mod.rs:802-879 | Reading a file back after a successful write returns the data written |
| `FsFormat.FormatBitmap` | kernel/src/fs/format.rs:35-64 | The fresh bitmap marks exactly the reserved blocks |
| `FsFormat.Format` | kernel/src/fs/format.rs:16-91 | A device too small is refused with `Full`; otherwise it is valid, nothing is leaked, the whole data area is unmarked and only the empty root directory exists |
| `FsLimits.CreateVerdict` | kernel/src/fs/mod.rs:764-795 | Creating a new file in a root directory: needs two blocks and the directory's, or one and fails if 480 names are there |
| `FsLimits.DeviceFills` | kernel/src/fs/mod.rs:432-440 | From an empty device of 16 blocks, a write that runs out and leaves every block marked |
| `FsLimits.DirectoryFills` | kernel/src/fs/mod.rs:666-669 | From an empty device of 40000 blocks, 480 creations that succeed and one that is refused for want of room, with a free name and blocks to spare, and leaks the inode it stored |
| `FsLimits.RemountLeaks` | kernel/src/fs/mod.rs:732-744 | From an empty device of 16 blocks, two creations and a remount that finds blocks leaked which the running file system had not |
| `Sched.PopTakesHead` | kernel/src/sched/mod.rs:263-276 | On queues of runnable threads, popping takes the head of the first occupied level in the order and discards nothing |
| `Sched.PopMembers` | kernel/src/sched/mod.rs:263-276 | Popping removes exactly the thread it returns from the queues, as multisets |
| `Sched.ScheduleInv` | kernel/src/sched/mod.rs:598-657 | Choosing the next thread and marking both sides of the switch keeps the invariant |
| `Sched.SwapInv` | kernel/src/sched/mod.rs:365-418 | Saving one stack and standing on another keeps the invariant |
| `Sched.ReleaseInv` | kernel/src/sched/mod.rs:332-354 | Releasing the thread switched away from, to its queue or its graveyard, keeps the invariant |
| `Sched.StealInv` | kernel/src/sched/mod.rs:306-328 | Taking a thread from another processor's queue keeps the invariant |
| `Sched.UnblockInv` | kernel/src/sched/mod.rs:697-741 | Waking a thread in any state, on any processor, keeps the invariant |
| `Sched.BuryInv` | kernel/src/sched/mod.rs:421-432 | Freeing the stacks of the finished threads taken for burial keeps the invariant |
| `Sched.BuryingFacts` | kernel/src/sched/mod.rs:421-432 | A stack being freed belongs to a finished thread that no processor stands on, and is listed once |
| `Sched.StepInv` | kernel/src/sched/mod.rs:249-898 | Every step of every processor keeps the invariant |
| `Sched.RunInv` | kernel/src/sched/mod.rs:249-898 | Every state of every run satisfies the invariant |
| `Sched.StandsOnLiveStack` | kernel/src/sched/mod.rs:365-432 | At every point of every run, however many processors are up, the stack a processor stands on is neither freed nor awaiting it |
| `Sched.OneProcessorPerStack` | kernel/src/sched/mod.rs:365-418 | At every point of every interleaving, no two processors stand on one thread's stack, and the stack stood on is not freed or awaiting it |
| `Sched.LoadedWasSaved` | kernel/src/sched/mod.rs:365-418 | The stack pointer a switch loads is the one that thread saved at its last suspension |
| `Sched.OnExactlyOneQueue` | kernel/src/sched/mod.rs:249-254 | A thread waiting to run is on its owner's queues exactly once and on no other processor's; any other thread is on none |
| `Sched.FinishedStep` | kernel/src/sched/mod.rs:870-898 | A finished thread stays finished and no processor comes to stand on it |
| `Sched.FinishedForever` | kernel/src/sched/mod.rs:421-432 | Over any run, a finished thread never runs again and its stack is freed at most once |
| `Parking.FlagsMove` | kernel/src/sched/mod.rs:249-898 | Of all the scheduler's steps, only a wake of a thread and the thread's own parking or exit move its blocked and wake-pending flags, each in its one way |
| `Parking.WakeIsKept` | kernel/src/sched/mod.rs:697-741 | A wake is never dropped: afterwards an unfinished thread is not blocked, and is on its processor, once on the waker's queue, or will find the wake when it comes to block |
| `Parking.EndpointParks` | kernel/src/ipc.rs:305-361 | A receiver of an endpoint wakes, parks and resumes by exactly the scheduler's moves |
| `Parking.RingParks` | kernel/src/ring.rs:230-277 | A side of a ring wakes, parks and resumes by exactly the scheduler's moves |
| `Parking.RequestParks` | kernel/src/block/request.rs:171-225 | A request waiting for a slot wakes, parks and resumes by exactly the scheduler's moves |
| `SchedFair.TakeNext` | kernel/src/sched/mod.rs:263-276 | The loop over levels and entries computes exactly the pop the invariant is proved for |
| `SchedFair.PickIsPop` | kernel/src/sched/mod.rs:279-299 | On runnable queues a pick serves the head of the level the streak and boost rules name, and advances them |
| `SchedFair.PatienceDrops` | kernel/src/sched/mod.rs:279-299 | For an occupied level, a bound of at most 17 falls by one on every pick that does not serve it |
| `SchedFair.ScheduleIsPick` | kernel/src/sched/mod.rs:598-657 | A scheduling decision with a thread queued is a successful pick and advances the queues and counters as one |
| `SchedFair.QueueStep` | kernel/src/sched/mod.rs:249-354 | Every other step leaves a processor's counters alone, and of a queue takes the head for a thief, adds at the back, or does nothing |
| `SchedFair.WaitDrops` | kernel/src/sched/mod.rs:279-299 | While a thread waits, each decision of its processor brings it nearer and no other step sets it back |
| `SchedFair.LevelServed` | kernel/src/sched/mod.rs:279-299 | In any run, a level that stays occupied is passed over by at most 17 decisions running, from any streak and boost |
| `SchedFair.StarvationBound` | kernel/src/sched/mod.rs:279-299 | In any run, a thread that stays queued with k ahead of it outlasts fewer than 18 times k plus one decisions of its processor |
| `Ring.StepInv` | userland/src/lib.rs:290-365 | Every shared access of either side, and every stray wake, keeps the counters and sleep invariants |
| `Ring.RunInv` | userland/src/lib.rs:290-365 | Every state of every run satisfies them |
| `Ring.NeverBroken` | kernel/src/ring.rs:123-126 | Between honest sides the wrapping difference of the counters is the number of messages waiting, never more than the slots |
| `Ring.NoLostWake` | kernel/src/ring.rs:230-277 | A side parked although it has work is owed a wake; the one who owes it is never held up, and each of their steps is the wake or one nearer to it |
| `Ring.NeverBothParked` | kernel/src/ring.rs:230-260 | The two sides are never both parked |
| `Ring.DistinctSlots` | userland/src/lib.rs:285-287 | Messages less than a ring apart never share a slot, if the slot count divides 2^32 or the counters have not wrapped |
| `Ring.StepFifo` | userland/src/lib.rs:317-365 | Every step keeps received messages a prefix of sent ones with the rest in the slots |
| `Ring.ReceivedInOrder` | userland/src/lib.rs:317-365 | What has been received is what was sent first, on every run of a ring whose slot count divides 2^32, and on others before 2^32 messages |
| `Ring.OutOfOrder` | userland/src/lib.rs:285-287 | A run that hands over the wrong message, for every slot count that does not divide 2^32 |
| `Ring.InOrderExactly` | userland/src/lib.rs:285-287 | A ring is in order on every run if and only if its slot count divides 2^32 |
| `DamageGrid.Rect.Intersect` | userland/src/bin/compositor.rs:110-117 | The pixels in both rectangles, and no others |
| `DamageGrid.Damage.constructor` | userland/src/bin/compositor.rs:143-151 | Every pixel of the screen has a tile on the grid; tiles are 32 pixels unless the screen is too big for that |
| `DamageGrid.Damage.Add` | userland/src/bin/compositor.rs:157-172 | Exactly the tiles holding a pixel of the area become damaged, pixels past the grid counting in its last tile |
| `DamageGrid.Damage.Drain` | userland/src/bin/compositor.rs:177-192 | The grid is cleared, and the rectangles handed out cover each damaged pixel exactly once and no other |
| `DamageGrid.NextRun` | userland/src/bin/compositor.rs:181-182 | Trailing zeros and ones find the lowest run of damaged tiles, ended by a clear bit |
| `Compositors.KeepsAfter` | userland/src/bin/compositor.rs:509-512 | A three-byte pixel stored as four bytes keeps the byte after it |
| `Compositors.KeepsBefore` | userland/src/bin/compositor.rs:509-516 | The last pixel, stored one byte early, keeps the byte before it |
| `Compositors.Compositor.StorePixel` | userland/src/bin/compositor.rs:489-518 | Exactly one pixel's bytes change on the display |
| `Compositors.Compositor.Flush` | userland/src/bin/compositor.rs:489-520 | The region's bytes on the display become the back buffer's and no other byte changes |
| `Compositors.Compositor.Clear` | userland/src/bin/compositor.rs:432-443 | Exactly the region's bytes become zero |
| `Compositors.Compositor.Blit` | userland/src/bin/compositor.rs:446-472 | Exactly the bytes the surface covers in the region become the surface's own |
| `Compositors.Compositor.DrawCursor` | userland/src/bin/compositor.rs:387-408 | Exactly the inked pixels of the pointer in the region change, to their ink |
| `Compositors.Compositor.SortedByDepth` | userland/src/bin/compositor.rs:414-430 | The live surfaces, each once, from furthest to nearest, ties in table order |
| `Scene.PaintedIsTop` | userland/src/bin/compositor.rs:285-292 | Painting back to front leaves the topmost covering surface at every byte, or black |
| `Scene.TopExists` | userland/src/bin/compositor.rs:285-292 | Wherever any surface covers there is a topmost one |
| `Scene.OneByte` | userland/src/bin/compositor.rs:285-294 | What a byte of the screen should show is unique |
| `Scene.Unaffected` | userland/src/bin/compositor.rs:236-262 | A change of surfaces that covers a pixel neither before nor after does not change what it should show |
| `Compositors.Compositor.Recompose` | userland/src/bin/compositor.rs:276-297 | One region ends up showing the topmost surface, the pointer over it, or black, and nothing else changes |
| `Compositors.Compositor.Compose` | userland/src/bin/compositor.rs:265-298 | Every damaged pixel is brought up to date, no other changes, and the damage is cleared |
| `Compositors.Changed` | userland/src/bin/compositor.rs:236-262 | Wherever no damage was added the display is still what it should be |
| `Compositors.Compositor.Track` | userland/src/bin/compositor.rs:236-262 | The surface takes the slot with its handle or else the first empty one, or nothing changes; the display stays current outside the damage |
| `Compositors.Compositor.RaiseAt` | userland/src/bin/compositor.rs:329-348 | The topmost surface under the point, and no other, is lifted above every other, and its owner has the keyboard; on nothing, nobody |
| `Compositors.Compositor.MovePointer` | userland/src/bin/compositor.rs:310-319 | The pointer moves, clamped to the screen, and the display stays current outside the damage |
| `Compositors.Compositor.NowSettled` | userland/src/bin/compositor.rs:265-298 | Once the damage is cleared, every pixel ever damaged shows what full composition gives, and every other still holds its original bytes; if those were black, the whole screen is right |
| `Compositors.Compositor.Present` | userland/src/bin/compositor.rs:236-298 | After a present message the display is settled |
| `Compositors.Compositor.PointerEvent` | userland/src/bin/compositor.rs:310-326 | After a pointer event the display is settled, and only a fresh left press raises anything |
| `Heaps.SameCover` | kernel/src/allocator/linked_list.rs:74-122 | A sorted list of blocks that do not touch is determined by the bytes it covers |
| `Heaps.Adjusted` | kernel/src/allocator/mod.rs:104-112 | Large enough and aligned enough for the request and for a list node, and no larger than that needs |
| `Heaps.RoundUp` | kernel/src/allocator/mod.rs:98-102 | The least multiple of the alignment that is not below the address |
| `Heaps.MaskRoundsUp` | kernel/src/allocator/mod.rs:99-102 | Adding the alignment less one and masking the bits below it off, on 64-bit words, rounds up to the least multiple, for every power of two |
| `Heaps.CarvesExactly` | kernel/src/allocator/linked_list.rs:146-163 | A block can be carved exactly at its first aligned address, when the request fits behind it and leaves nothing, or at least a node, at the end |
| `Heaps.Heap.AddFreeRegion` | kernel/src/allocator/linked_list.rs:74-122 | The list covers exactly the range as well as before, still sorted with no two blocks touching |
| `Heaps.Heap.FindRegion` | kernel/src/allocator/linked_list.rs:128-142 | Detaches the first block that can hold the request, or nothing if none can |
| `Heaps.Heap.GiveBack` | kernel/src/allocator/linked_list.rs:221-238 | All of the detached block but the allocation, and padding under one node header, is free again |
| `Heaps.Heap.Alloc` | kernel/src/allocator/linked_list.rs:207-245 | Nothing exactly when no free block fits; otherwise an aligned block out of the lowest that does; heap, live and dropped bytes still partition the heap |
| `Heaps.Heap.Dealloc` | kernel/src/allocator/linked_list.rs:247-258 | The block is free again and nothing else changes; the partition and the statistics hold |
| `Heaps.Heap.ThereAndBack` | kernel/src/allocator/linked_list.rs:207-258 | An allocation and its return restore the free list if and only if the first block that fits begins at an aligned address, or at least a node before one; otherwise the padding in front stays lost |
| `Heaps.SmallAlignment` | kernel/src/allocator/linked_list.rs:207-258 | A request aligned to eight or less never loses padding, whatever is free |
| `Heaps.Emptied` | kernel/src/allocator/linked_list.rs:207-258 | With nothing live, the free list is one block of the whole heap if and only if no padding was ever dropped |
| `Heaps.Heap.WholeAgain` | kernel/src/allocator/linked_list.rs:178-187 | The same of every reachable heap |
| `Heaps.NotWholeAgain` | kernel/src/allocator/linked_list.rs:178-258 | Two allocations, both returned, after which the heap is not one block again |
| `Paging.OneEntry` | kernel/src/memory/paging.rs:744-854 | Changing one entry without changing what lies behind it changes no walk, from any table |
| `Paging.SplitMeaning` | kernel/src/memory/paging.rs:820-853 | A huge entry and the table of 512 that replaces it give every address the same frame, rights and flags, one page size down |
| `Paging.SplitKeeps` | kernel/src/memory/paging.rs:820-853 | Splitting keeps every table typed and singly owned and every space's meaning |
| `Paging.PageTables.PopulateSplit` | kernel/src/memory/paging.rs:820-853 | Nothing changes when no frame is left; otherwise the entry becomes a table describing the same memory |
| `Paging.PageTables.SplitOnce` | kernel/src/memory/paging.rs:753-808 | One pass brings the address down one page size, taking one frame, or reports that it is unmapped, or that there was none |
| `Paging.PageTables.SplitHugePage` | kernel/src/memory/paging.rs:744-817 | Ends with the address on a 4 KiB page and two, one or no frames taken, by the size it had; out of frames exactly when there were fewer; unmapped exactly when it was; no address in any space changes meaning, whatever the outcome |
| `Paging.PageTables.MappingSize` | kernel/src/memory/paging.rs:860-865 | Nothing exactly when the address has no meaning; otherwise every address of that much memory around it is mapped, in order, with the same rights |
| `Paging.DropKeeps` | kernel/src/memory/paging.rs:260-312 | Clearing the entry that leads to an empty table changes no meaning and leaves the table unreferenced |
| `Paging.PageTables.ReclaimEmptyTables` | kernel/src/memory/paging.rs:260-312 | Exactly the emptied level 1 table, and the level 2 table if that was all it held, are unlinked; no meaning and no level 4 entry changes, and nothing refers to them any more |
| `Paging.PageTables.NewUser` | kernel/src/memory/paging.rs:57-80 | A space that shares every kernel entry and maps nothing of the user region; every existing meaning is kept |
| `Paging.SameKernel` | kernel/src/memory/paging.rs:57-80 | Spaces that share the kernel's entries agree on every address outside the user slot |
| `Paging.StillShare` | kernel/src/memory/paging.rs:232-312 | Splitting and reclaiming leave them sharing |
| `Hashing.ZeroCountLeast` | kernel/sha256/src/lib.rs:56-62 | The padding loop's zero count is the least that leaves room for the length |
| `Hashing.FoldedMore` | kernel/sha256/src/lib.rs:42-54 | Hashing one more block extends the fold over the blocks before it |
| `Hashing.Compress` | kernel/sha256/src/lib.rs:72-103 | One block's compression is that of section 6.2.2 of FIPS 180-4, though the schedule is summed in another order |
| `Hashing.Sha256.Update` | kernel/sha256/src/lib.rs:42-54 | However the input is split across calls, the state is the fold over the whole blocks given so far and the buffer holds the rest |
| `Hashing.Sha256.Finish` | kernel/sha256/src/lib.rs:56-69 | The digest is the fold over the padded message of section 5.1.1, for everything given |
| `Hashing.Sha256Of` | kernel/sha256/src/lib.rs:105-109 | The digest of the bytes |
| `Hashing.Hmac.constructor` | kernel/sha256/src/lib.rs:120-131 | The cached states have taken in the key, hashed if longer than a block, under each pad |
| `Hashing.Hmac.Mac` | kernel/sha256/src/lib.rs:133-141 | The HMAC of section 2 of RFC 2104 over the parts joined together; the cached states are kept |
| `Hashing.Pbkdf2` | kernel/sha256/src/lib.rs:145-156 | T_1 of section 5.2 of RFC 8018; no iterations counts as one |
| `Hashing.Same` | kernel/sha256/src/lib.rs:159-161 | True exactly when the two are equal |
| `Slots.StepInv` | kernel/src/block/request.rs:156-225 | Every step of acquire and release, and every stray wake, keeps the invariant |
| `Slots.RunInv` | kernel/src/block/request.rs:156-225 | Every state of every run satisfies it |
| `Slots.OwnSlots` | kernel/src/block/request.rs:156-193 | No two requests share a slot, a single one holds exactly one, and an exclusive one holds them all alone |
| `Slots.NeverOverCount` | kernel/src/block/request.rs:186-234 | At every point of every interleaving, neither the requests in flight nor the peak exceeds the slot count |
| `Slots.NoLostWake` | kernel/src/block/request.rs:171-225 | A parked request is owed a wake, or every slot is taken, or an exclusive request waits; with every slot free it is a single one behind an exclusive one that is retrying or owed a wake |
| `Ipc.StepInv` | kernel/src/ipc.rs:268-361 | Every step keeps the invariant of an endpoint with one receiving thread |
| `Ipc.OneReceiver` | kernel/src/ipc.rs:305-361 | With one receiving thread, a message queued while it is parked has a wake on its way, and the waiting list never grows past one |
| `Ipc.LosesAWake` | kernel/src/ipc.rs:305-361 | With two or more, a run to a state with a message queued, a receiver parked, no sender owing a wake, and no receiver inside the call with a wake pending or about to look |
| `Ipc.LostStays` | kernel/src/ipc.rs:305-361 | From such a state no step of a thread already inside the call, and no wake already owed, delivers the message |
| `Ipc.NoLostWakeExactly` | kernel/src/ipc.rs:268-361 | No such state is reachable if and only if the endpoint has at most one receiving thread, or no senders or no capacity |
| `Nvme.TagTells` | kernel/src/block/nvme.rs:192-212 | The phase tag at the reader's place is the reader's own exactly when there is an entry to collect |
| `Nvme.RunInv` | kernel/src/block/nvme.rs:192-224 | Over any run and any number of wraps, the ring holds the last lap and the reader's position and phase are those of the next entry |
| `Nvme.CollectedInOrder` | kernel/src/block/nvme.rs:192-224 | Every entry is collected once, in order, after it was posted, with its own status; its id is its own exactly when it had been posted in the state the id was loaded in, or a lap earlier held the same id |
| `Nvme.StopsWhenEmpty` | kernel/src/block/nvme.rs:206-208 | The reader stops exactly when everything posted has been collected |
| `Nvme.PostBetweenLoads` | kernel/src/block/nvme.rs:200-205 | A run in which an entry posted between the two loads is taken for another command |
| `Ticket.StepInv` | kernel/src/sync.rs:97-182 | Every atomic access of lock, try_lock and release keeps the invariant |
| `Ticket.OneHolder` | kernel/src/sync.rs:97-139 | At most one holder, whose ticket is the one being served, though try_lock's load and exchange are separate |
| `Ticket.TurnIsTaken` | kernel/src/sync.rs:97-113 | While any ticket is out, the one being served is somebody's, who holds the lock or takes it at their next look |
| `Ticket.FirstComeFirstServed` | kernel/src/sync.rs:97-113 | Of two callers waiting, the earlier one holds the lock with their ticket strictly before the later one does, and never again from then on |
| `Ecam.StepInv` | kernel/src/pci.rs:228-311 | Every locked step and every page unmapped keeps the invariant |
| `Ecam.SafeToRead` | kernel/src/pci.rs:228-311 | A bus being read is mapped with all its pages, counted as read, and nobody's to clear, after failed partial maps too |
| `Ecam.EnterCases` | kernel/src/pci.rs:112-121 | Entering a bus: with a victim, no more are mapped than before; without one, fewer than the limit are, or every mapped bus is being read |
| `Ecam.EnterBound` | kernel/src/pci.rs:112-121 | So no bound of seven or more, which the buses being read keep within, is passed by entering |
| `Ecam.MappedBound` | kernel/src/pci.rs:96-121 | Never more buses stay mapped than the larger of seven and the most ever read at once |
| `Ecam.FewerThanMax` | kernel/src/pci.rs:96-121 | With at most seven buses read at once, fewer than eight stay mapped |

## Left out

- Device errors in the middle of a file system transaction, and listing, stat and owner queries, which only read.
- UTF-8 validity of stored names.
- The join, sleep and timer paths of the scheduler beyond the wakes they send, processor affinity of interrupts, and
  the assembly of the context switch, which is a save and a load here.
- Returning early from join or sleep after a stray wake.
- Rings whose other side is dishonest, ring creation, mapping and teardown; endpoint capabilities and teardown.
- The panic path of request slots, where waiting is not allowed, and the completion objects themselves.
- Keyboard focus delivery and listeners in the compositor, and mapping of client buffers.
- Padded screens, and overflow of coordinates and depths, in the compositor.
- Where the heap's list nodes lie in memory: the free list is a sequence.
- TLB shootdown, memory types, accessed and dirty bits being set by hardware, and the teardown of address spaces.
- The time taken by comparisons in the hashing crate.
- The NVMe admin queue and the submission ring.
- Wrap-around of the ticket lock's counters after 2^64 acquisitions, and of a bus's reader count after 255 readers.
- Sleeping mutexes, drivers, boot, loading of programs, accounts and partitions, which are register access or short
  straight-line code.
