/** The mounted filesystem: allocation, copy-on-write rewriting, commit, and the operations. */
module FileSystems {
  import opened FsCodec
  import opened FsTree
  import opened FsDisk
  import opened FsSpec
  import opened FsPath

  class FileSystem {
    var disk: Disk
    var superblock: SuperBlock
    var liveSlot: nat
    var bitmap: seq<Byte>
    /** What the tree being built no longer uses, kept marked until its superblock is on the device. */
    var retired: seq<U64>
    /** Every state the device has been in since mounting, the present one last. */
    ghost var trace: seq<Disk>

    ghost function Now(): Snap
      reads this`disk, this`bitmap, this`trace
    {
      Snap(disk, Marks(bitmap), trace)
    }

    ghost predicate Basics()
      reads this`disk, this`superblock, this`bitmap, this`liveSlot
    {
      && ValidDisk(disk)
      && ValidLayout(|disk.durable|, superblock)
      && |bitmap| == BLOCK_SIZE * BitmapBlocks(|disk.durable|)
      && liveSlot < 2
      && Reserved(|disk.durable|) <= Marks(bitmap)
    }

    ghost predicate FullyMarked()
      reads this`disk, this`bitmap
    {
      forall b :: Usable(|disk.durable|, b) ==> b in Marks(bitmap)
    }

    ghost function Spare(): nat
      reads this`disk, this`bitmap
    {
      |SpareSet(|disk.durable|, Marks(bitmap))|
    }

    /** Why a rewrite stopped. An obstacle on the way down leaves no trace. Running out of blocks leaves every
        block claimed, and fewer than were wanted. A directory with no room for one more name is met after the
        new node was stored, and the node's blocks stay claimed though nothing refers to them. */
    twostate predicate Failed(e: FsError, n: Node, path: seq<Name>, access: Access, a: Action, before: seq<U64>)
      reads this
    {
      var claimed := Claimed(old(Marks(bitmap)), Marks(bitmap));
      || (e == Full && FullyMarked() && Obstacle(n, path, access, a) == None && claimed < Demand(n, path, a))
      || (e == TooLarge && Obstacle(n, path, access, a) == None && NoRoom(n, path, a)
          && claimed == NodeNeed(a) && retired == before)
      || (Obstacle(n, path, access, a) == Some(e) && Now() == old(Now()) && retired == before)
    }

    // ---- the bitmap ----

    method Mark(block: nat, used: bool)
      modifies this`bitmap
      ensures |bitmap| == |old(bitmap)|
      ensures Marks(bitmap) ==
              if block >= 8 * |bitmap| || (!used && block < superblock.firstDataBlock) then old(Marks(bitmap))
              else if used then old(Marks(bitmap)) + {block} else old(Marks(bitmap)) - {block}
    {
      if !used && block < superblock.firstDataBlock {
        return;
      }
      if block / 8 < |bitmap| {
        MarkBitMarks(bitmap, block, used);
        bitmap := MarkBit(bitmap, block, used);
      }
    }

    /** The lowest free block, claimed. */
    method Allocate() returns (r: Result<U64>)
      requires Basics()
      modifies this`bitmap
      ensures Basics()
      ensures r.Ok? ==>
                && Usable(|disk.durable|, r.value)
                && r.value !in old(Marks(bitmap)) && Marks(bitmap) == old(Marks(bitmap)) + {r.value}
                && forall c: nat | Usable(|disk.durable|, c) && c < r.value :: c in old(Marks(bitmap))
      ensures r.Err? ==> r.error == Full && bitmap == old(bitmap) && FullyMarked()
    {
      LayoutFacts(|disk.durable|);
      var block := superblock.firstDataBlock;
      while block < superblock.totalBlocks
        invariant superblock.firstDataBlock <= block <= superblock.totalBlocks
        invariant bitmap == old(bitmap)
        invariant forall c: nat | Usable(|disk.durable|, c) && c < block :: c in Marks(bitmap)
      {
        if !Allocated(bitmap, block) {
          Mark(block, true);
          return Ok(block);
        }
        block := block + 1;
      }
      return Err(Full);
    }

    // ---- the device ----

    function ReadBlock(block: nat): Sector
      requires ValidDisk(disk) && block < |disk.durable|
      reads this`disk
    {
      Visible(disk)[block]
    }

    method WriteBlock(block: nat, data: Sector)
      requires ValidDisk(disk) && block < |disk.durable|
      modifies this`disk, this`trace
      ensures ValidDisk(disk) && disk == Put(old(disk), block, data)
      ensures Visible(disk) == old(Visible(disk))[block := data]
      ensures trace == old(trace) + [disk]
    {
      PutVisible(disk, block, data);
      disk := Put(disk, block, data);
      trace := trace + [disk];
    }

    /** Claim a free block and write it. */
    method Store(data: Sector) returns (r: Result<U64>)
      requires Basics()
      modifies this`bitmap, this`disk, this`trace
      ensures Basics() && Extends(old(Now()), Now())
      ensures r.Ok? ==>
                && Usable(|disk.durable|, r.value)
                && r.value !in old(Marks(bitmap)) && Marks(bitmap) == old(Marks(bitmap)) + {r.value}
                && Visible(disk) == old(Visible(disk))[r.value := data]
      ensures r.Err? ==> r.error == Full && FullyMarked() && Now() == old(Now())
    {
      r := Allocate();
      if r.Ok? {
        WriteBlock(r.value, data);
      }
    }

    method StoreInode(inode: Inode) returns (r: Result<U64>)
      requires Basics() && ValidInode(inode)
      modifies this`bitmap, this`disk, this`trace
      ensures Basics() && Extends(old(Now()), Now())
      ensures r.Ok? ==>
                && Usable(|disk.durable|, r.value)
                && r.value !in old(Marks(bitmap)) && Marks(bitmap) == old(Marks(bitmap)) + {r.value}
                && HoldsInode(Visible(disk), r.value, inode)
      ensures r.Err? ==> r.error == Full && FullyMarked() && Now() == old(Now())
    {
      hide EncodeInode, DecodeInode, Extends;
      r := Store(EncodeInode(inode));
      InodeRoundTrip(inode);
    }

    /** File contents into fresh blocks, a zero-padded chunk apiece. */
    method StoreData(data: seq<Byte>) returns (r: Result<seq<U64>>)
      requires Basics()
      requires CeilDiv(|data|, BLOCK_SIZE) <= DIRECT_BLOCKS
      modifies this`bitmap, this`disk, this`trace
      ensures Basics() && Extends(old(Now()), Now())
      ensures r.Ok? ==>
                && |r.value| == CeilDiv(|data|, BLOCK_SIZE) && Distinct(r.value)
                && BlockSet(r.value) == Marks(bitmap) - old(Marks(bitmap))
                && HoldsData(Visible(disk), r.value, data)
      ensures r.Ok? ==> Claimed(old(Marks(bitmap)), Marks(bitmap)) == CeilDiv(|data|, BLOCK_SIZE)
      ensures r.Err? ==> r.error == Full && FullyMarked()
      ensures r.Err? ==> Claimed(old(Marks(bitmap)), Marks(bitmap)) < CeilDiv(|data|, BLOCK_SIZE)
    {
      hide Extends, Distinct, BlockSet, HoldsData, Marks, Usable, Reserved, ValidLayout, Pad, Chunk;
      ghost var start := Now();
      ExtendsRefl(start);
      NothingTaken(Visible(disk), data);
      var taken: seq<U64> := [];
      while |taken| < CeilDiv(|data|, BLOCK_SIZE)
        invariant |taken| <= CeilDiv(|data|, BLOCK_SIZE)
        invariant Basics() && Extends(start, Now())
        invariant start.marks <= Marks(bitmap) && |disk.durable| == |start.disk.durable|
        invariant Distinct(taken) && BlockSet(taken) == Marks(bitmap) - start.marks
        invariant InRange(Visible(disk), taken) && HoldsData(Visible(disk), taken, data)
      {
        ghost var before := Now();
        ghost var img := Visible(disk);
        var one := Store(Pad(Chunk(data, |taken|)));
        ExtendsTrans(start, before, Now());
        if one.Err? {
          BlockSetSize(taken);
          return Err(one.error);
        }
        TakeOne(img, taken, one.value, Pad(Chunk(data, |taken|)), start.marks, before.marks);
        DataStep(img, taken, one.value, data);
        taken := taken + [one.value];
      }
      BlockSetSize(taken);
      return Ok(taken);
    }

    /** The blocks taken since `start`, in the order they were taken. */
    ghost predicate Taken(start: Snap, taken: seq<U64>)
      reads this`disk, this`bitmap, this`trace
    {
      && ValidDisk(disk) && Extends(start, Now())
      && start.marks <= Marks(bitmap) && |disk.durable| == |start.disk.durable|
      && Distinct(taken) && BlockSet(taken) == Marks(bitmap) - start.marks && InRange(Visible(disk), taken)
    }

    /** One more block of entries. */
    method StoreChunk(taken: seq<U64>, chunk: seq<DirEntry>, ghost start: Snap) returns (r: Result<seq<U64>>)
      requires Basics() && Taken(start, taken) && |chunk| <= ENTRIES_PER_BLOCK
      requires forall e <- chunk :: e.inode != 0
      modifies this`bitmap, this`disk, this`trace
      ensures Basics()
      ensures r.Ok? ==>
                && |r.value| == |taken| + 1 && Taken(start, r.value)
                && DirEntries(Visible(disk), r.value) == old(DirEntries(Visible(disk), taken)) + chunk
      ensures r.Err? ==> r.error == Full && FullyMarked() && Taken(start, taken)
    {
      hide Extends, LiveEntries, EncodeDirBlock, Distinct, BlockSet, DirEntries, Marks, Usable, Reserved, ValidLayout;
      ghost var before := Now();
      ghost var img := Visible(disk);
      var one := Store(EncodeDirBlock(chunk));
      ExtendsTrans(start, before, Now());
      if one.Err? {
        return Err(one.error);
      }
      TakeOne(img, taken, one.value, EncodeDirBlock(chunk), start.marks, before.marks);
      EntriesStep(img, taken, one.value, chunk);
      r := Ok(taken + [one.value]);
    }

    /** Directory entries into fresh blocks, eight apiece; an empty directory still gets one. */
    method StoreEntries(entries: seq<DirEntry>) returns (r: Result<seq<U64>>)
      requires Basics()
      requires |entries| <= ENTRIES_PER_BLOCK * DIRECT_BLOCKS
      requires forall e <- entries :: e.inode != 0
      modifies this`bitmap, this`disk, this`trace
      ensures Basics() && Extends(old(Now()), Now())
      ensures r.Ok? ==>
                && |r.value| == DirBlocks(|entries|) && 1 <= |r.value| <= DIRECT_BLOCKS && Distinct(r.value)
                && BlockSet(r.value) == Marks(bitmap) - old(Marks(bitmap))
                && InRange(Visible(disk), r.value)
                && DirEntries(Visible(disk), r.value) == entries
      ensures r.Ok? ==> Claimed(old(Marks(bitmap)), Marks(bitmap)) == DirBlocks(|entries|)
      ensures r.Err? ==> r.error == Full && FullyMarked()
      ensures r.Err? ==> Claimed(old(Marks(bitmap)), Marks(bitmap)) < DirBlocks(|entries|)
    {
      hide Extends, Distinct, BlockSet, DirEntries, Marks, Usable, Reserved, ValidLayout, CeilDiv, DirBlocks,
           ValidDisk, Visible;
      ghost var start := Now();
      ExtendsRefl(start);
      NothingTaken(Visible(disk), []);
      NoBlocksYet(|entries|);
      var taken: seq<U64> := [];
      var done := 0;
      while done < |entries|
        invariant 0 <= done <= |entries| && (done < |entries| ==> done == ENTRIES_PER_BLOCK * |taken|)
        invariant |taken| == CeilDiv(done, ENTRIES_PER_BLOCK)
        invariant Basics() && Taken(start, taken) && DirEntries(Visible(disk), taken) == entries[..done]
      {
        var next := if done + ENTRIES_PER_BLOCK <= |entries| then done + ENTRIES_PER_BLOCK else |entries|;
        BlocksSoFar(done, next, |entries|, |taken|);
        BlockSetSize(taken);
        var more := StoreChunk(taken, entries[done..next], start);
        if more.Err? {
          return Err(more.error);
        }
        assert entries[..next] == entries[..done] + entries[done..next];
        taken, done := more.value, next;
      }
      assert entries[..done] == entries;
      if entries == [] {
        BlockSetSize(taken);
        var more := StoreChunk(taken, [], start);
        if more.Err? {
          return Err(more.error);
        }
        taken := more.value;
      }
      BlockSetSize(taken);
      return Ok(taken);
    }

    // ---- reading directories ----

    /** The inode block a name leads to. */
    method FindEntry(blocks: seq<U64>, name: Name) returns (r: Option<U64>)
      requires ValidDisk(disk) && InRange(Visible(disk), blocks)
      requires forall i :: 0 <= i < |blocks| ==> blocks[i] != 0
      ensures r.Some? ==> exists e <- DirEntries(Visible(disk), blocks) :: NameOf(e) == name && e.inode == r.value
      ensures r.None? ==> forall e <- DirEntries(Visible(disk), blocks) :: NameOf(e) != name
    {
      hide DecodeEntry, NameOf, LiveEntries, DirEntries, Lacks, Visible;
      NothingTaken(Visible(disk), []);
      LacksNone(name);
      var slot := 0;
      while slot < |blocks|
        invariant 0 <= slot <= |blocks|
        invariant Lacks(DirEntries(Visible(disk), blocks[..slot]), name)
      {
        ghost var before := DirEntries(Visible(disk), blocks[..slot]);
        DirEntriesNext(Visible(disk), blocks, slot);
        var block := blocks[slot];
        if block != 0 {
          var data := ReadBlock(block);
          var index := 0;
          while index < ENTRIES_PER_BLOCK
            invariant 0 <= index <= ENTRIES_PER_BLOCK
            invariant Lacks(before + LiveEntries(data, index), name)
          {
            var entry := DecodeEntry(SlotOf(data, index));
            if entry.inode != 0 && NameOf(entry) == name {
              LiveEntryIn(data, index);
              DirEntryIn(Visible(disk), blocks, slot, entry);
              return Some(entry.inode);
            }
            LacksStep(before, data, index, name);
            index := index + 1;
          }
        }
        slot := slot + 1;
      }
      assert blocks[..slot] == blocks;
      LacksAll(DirEntries(Visible(disk), blocks), name);
      return None;
    }

    /** Every entry of a directory but the one called `name`. */
    method OtherEntries(blocks: seq<U64>, name: Name) returns (entries: seq<DirEntry>)
      requires ValidDisk(disk) && InRange(Visible(disk), blocks)
      ensures entries == Others(DirEntries(Visible(disk), blocks), name)
    {
      hide DecodeEntry, NameOf, Others, LiveEntries, DirEntries;
      NothingTaken(Visible(disk), []);
      OthersConcat([], [], name);
      entries := [];
      var slot := 0;
      while slot < |blocks|
        invariant 0 <= slot <= |blocks|
        invariant entries == Others(DirEntries(Visible(disk), blocks[..slot]), name)
      {
        ghost var before := DirEntries(Visible(disk), blocks[..slot]);
        DirEntriesNext(Visible(disk), blocks, slot);
        var data := ReadBlock(blocks[slot]);
        var index := 0;
        while index < ENTRIES_PER_BLOCK
          invariant 0 <= index <= ENTRIES_PER_BLOCK
          invariant entries == Others(before + LiveEntries(data, index), name)
        {
          var entry := DecodeEntry(SlotOf(data, index));
          OthersStep(before, data, index, name);
          if entry.inode != 0 && NameOf(entry) != name {
            entries := entries + [entry];
          }
          index := index + 1;
        }
        slot := slot + 1;
      }
      assert blocks[..slot] == blocks;
    }

    // ---- actions ----

    method ReadInode(block: nat, ghost n: Node) returns (inode: Inode)
      requires ValidDisk(disk) && Rep(Visible(disk), n) && n.block == block
      ensures inode == InodeOf(n)
    {
      hide DecodeInode;
      inode := DecodeInode(ReadBlock(block)).value;
    }

    method Retire(blocks: seq<U64>, block: U64)
      modifies this`retired
      ensures 0 !in blocks ==> retired == old(retired) + blocks + [block]
    {
      var slot := 0;
      while slot < |blocks|
        invariant 0 <= slot <= |blocks|
        invariant 0 !in blocks ==> retired == old(retired) + blocks[..slot]
      {
        if blocks[slot] != 0 {
          retired := retired + [blocks[slot]];
        }
        slot := slot + 1;
      }
      assert blocks[..slot] == blocks;
      retired := retired + [block];
    }

    method CreateNode(a: Action, existing: Option<U64>, ghost target: Option<Node>)
      returns (r: Result<Option<U64>>, ghost made: Option<Node>)
      requires Basics() && a.Create? && Stored(Visible(disk), Marks(bitmap), existing, target)
      modifies this`bitmap, this`disk, this`trace
      ensures Basics() && Extends(old(Now()), Now())
      ensures r.Ok? ==> Refusal(a, target) == None && Claimed(old(Marks(bitmap)), Marks(bitmap)) == NodeNeed(a)
      ensures r.Ok? ==> Done(Visible(disk), a, target, made, r.value, {}, Marks(bitmap) - old(Marks(bitmap)))
      ensures r.Err? ==>
                || (r.error == Full && FullyMarked() && Refusal(a, target) == None
                    && Claimed(old(Marks(bitmap)), Marks(bitmap)) < NodeNeed(a))
                || (Refusal(a, target) == Some(r.error) && Now() == old(Now()))
    {
      hide Extends, Marks, Visible, EncodeDirBlock, LiveEntries, Done, DecodeInode, BlockSet, Claimed, Rep, Shape, Footprint,
           DirEntries, Reserved, ValidLayout, Usable;
      made := None;
      ghost var start := Now();
      ExtendsRefl(start);
      if existing.Some? {
        return Err(Exists), None;
      }
      var blocks: seq<U64> := [];
      NothingTaken(Visible(disk), []);
      if a.isDirectory {
        EmptyDirBlock();
        var one := Store(Zeros(BLOCK_SIZE));
        ClaimedOne(start.marks, if one.Ok? then one.value else 0);
        if one.Err? {
          return Err(one.error), None;
        }
        TakeOne(Visible(start.disk), [], one.value, EncodeDirBlock([]), start.marks, start.marks);
        EntriesStep(Visible(start.disk), [], one.value, []);
        blocks := [] + [one.value];
      }
      ghost var mid := Now();
      ClaimedOne(start.marks, 0);
      var block := StoreInode(Inode(a.isDirectory, a.owner, DEFAULT_MODE, 0, blocks));
      ClaimedOne(mid.marks, if block.Ok? then block.value else 0);
      ExtendsMarks(start, mid);
      ClaimedTwice(start.marks, mid.marks, Marks(bitmap));
      ExtendsTrans(start, mid, Now());
      if block.Err? {
        return Err(block.error), None;
      }
      ExtendsAgree(mid, Now());
      DirEntriesFrame(Visible(mid.disk), Visible(disk), blocks);
      CreateDone(Visible(disk), a, block.value, blocks);
      assert {block.value} + BlockSet(blocks) == Marks(bitmap) - start.marks;
      made := Some(Created(a, block.value, blocks));
      r := Ok(Some(block.value));
    }

    method ReplaceContents(a: Action, existing: Option<U64>, ghost target: Option<Node>)
      returns (r: Result<Option<U64>>, ghost made: Option<Node>)
      requires Basics() && a.Replace? && ValidAction(a) && Stored(Visible(disk), Marks(bitmap), existing, target)
      modifies this`bitmap, this`disk, this`trace, this`retired
      ensures Basics() && Extends(old(Now()), Now()) && old(retired) <= retired
      ensures r.Ok? ==> Refusal(a, target) == None && Claimed(old(Marks(bitmap)), Marks(bitmap)) == NodeNeed(a)
      ensures r.Ok? ==> Done(Visible(disk), a, target, made, r.value, BlockSet(retired[|old(retired)|..]),
                             Marks(bitmap) - old(Marks(bitmap)))
      ensures r.Err? ==>
                || (r.error == Full && FullyMarked() && Refusal(a, target) == None
                    && Claimed(old(Marks(bitmap)), Marks(bitmap)) < NodeNeed(a))
                || (Refusal(a, target) == Some(r.error) && Now() == old(Now()) && retired == old(retired))
    {
      hide Extends, Marks, Visible, Done, DecodeInode, BlockSet, HoldsData, Rep, Shape, Footprint, Claimed, Reserved,
           ValidLayout, Usable;
      made := None;
      ghost var start := Now();
      ExtendsRefl(start);
      if existing.None? {
        return Err(NotFound), None;
      }
      var inode := ReadInode(existing.value, target.value);
      if inode.isDirectory {
        return Err(WrongType), None;
      }
      if !Permits(inode.owner, inode.mode, a.user, true) {
        return Err(Denied), None;
      }
      var blocks := StoreData(a.data);
      if blocks.Err? {
        return Err(blocks.error), None;
      }
      ghost var mid := Now();
      OwnBlocksFacts(target.value);
      Retire(inode.direct, existing.value);
      RetiredSuffix(old(retired), inode.direct, existing.value, retired);
      InodeBounds(Visible(start.disk), target.value);
      var block := StoreInode(inode.(direct := blocks.value, size := |a.data|));
      ClaimedOne(mid.marks, if block.Ok? then block.value else 0);
      ExtendsMarks(start, mid);
      ClaimedTwice(start.marks, mid.marks, Marks(bitmap));
      ExtendsTrans(start, mid, Now());
      if block.Err? {
        return Err(block.error), None;
      }
      ExtendsAgree(mid, Now());
      HoldsDataFrame(Visible(mid.disk), Visible(disk), blocks.value, a.data);
      ReplaceDone(Visible(disk), a, target.value, block.value, blocks.value);
      assert {block.value} + BlockSet(blocks.value) == Marks(bitmap) - start.marks;
      made := Some(target.value.(block := block.value, blocks := blocks.value, data := a.data));
      r := Ok(Some(block.value));
    }

    method RemoveNode(existing: Option<U64>, ghost target: Option<Node>)
      returns (r: Result<Option<U64>>, ghost made: Option<Node>)
      requires Basics() && Stored(Visible(disk), Marks(bitmap), existing, target)
      modifies this`retired
      ensures old(retired) <= retired
      ensures r.Ok? ==> Refusal(Remove, target) == None
      ensures r.Ok? ==> Done(Visible(disk), Remove, target, made, r.value, BlockSet(retired[|old(retired)|..]), {})
      ensures r.Err? ==> Refusal(Remove, target) == Some(r.error) && retired == old(retired)
    {
      hide Marks, Visible, Done, DecodeInode, BlockSet, Rep, Shape, Footprint;
      made := None;
      if existing.None? {
        return Err(NotFound), None;
      }
      var inode := ReadInode(existing.value, target.value);
      if inode.isDirectory && inode.size > 0 {
        return Err(NotEmpty), None;
      }
      OwnBlocksFacts(target.value);
      Retire(inode.direct, existing.value);
      RetiredSuffix(old(retired), inode.direct, existing.value, retired);
      RemoveDone(Visible(disk), target.value);
      r := Ok(None);
    }

    method ChangeMode(a: Action, existing: Option<U64>, ghost target: Option<Node>)
      returns (r: Result<Option<U64>>, ghost made: Option<Node>)
      requires Basics() && a.SetMode? && ValidAction(a) && Stored(Visible(disk), Marks(bitmap), existing, target)
      modifies this`bitmap, this`disk, this`trace, this`retired
      ensures Basics() && Extends(old(Now()), Now()) && old(retired) <= retired
      ensures r.Ok? ==> Refusal(a, target) == None && Claimed(old(Marks(bitmap)), Marks(bitmap)) == NodeNeed(a)
      ensures r.Ok? ==> Done(Visible(disk), a, target, made, r.value, BlockSet(retired[|old(retired)|..]),
                             Marks(bitmap) - old(Marks(bitmap)))
      ensures r.Err? ==>
                || (r.error == Full && FullyMarked() && Refusal(a, target) == None
                    && Claimed(old(Marks(bitmap)), Marks(bitmap)) < NodeNeed(a))
                || (Refusal(a, target) == Some(r.error) && Now() == old(Now()) && retired == old(retired))
    {
      hide Extends, Marks, Visible, Done, DecodeInode, BlockSet, Rep, Footprint;
      made := None;
      ghost var start := Now();
      ExtendsRefl(start);
      if existing.None? {
        return Err(NotFound), None;
      }
      var inode := ReadInode(existing.value, target.value);
      if a.user.Some? && a.user.value != inode.owner {
        return Err(Denied), None;
      }
      inode := inode.(mode := a.mode);
      NothingTaken(Visible(disk), []);
      Retire([], existing.value);
      RetiredSuffix(old(retired), [], existing.value, retired);
      InodeBounds(Visible(disk), target.value);
      var block := StoreInode(inode);
      ClaimedOne(start.marks, if block.Ok? then block.value else 0);
      if block.Err? {
        return Err(block.error), None;
      }
      ExtendsRep(start, Now(), target.value);
      SetModeDone(Visible(disk), a, target.value, block.value);
      assert {block.value} == Marks(bitmap) - start.marks;
      assert BlockSet(retired[|old(retired)|..]) == {target.value.block};
      made := Some(target.value.(block := block.value, mode := a.mode));
      r := Ok(Some(block.value));
    }

    /** Carry out an action on the component a transaction targets. */
    method Act(a: Action, existing: Option<U64>, ghost target: Option<Node>)
      returns (r: Result<Option<U64>>, ghost made: Option<Node>)
      requires Basics() && ValidAction(a) && Stored(Visible(disk), Marks(bitmap), existing, target)
      modifies this`bitmap, this`disk, this`trace, this`retired
      ensures Basics() && Extends(old(Now()), Now()) && old(retired) <= retired
      ensures r.Ok? ==> Refusal(a, target) == None && Claimed(old(Marks(bitmap)), Marks(bitmap)) == NodeNeed(a)
      ensures r.Ok? && a.Create? ==> retired == old(retired)
      ensures r.Ok? ==> Done(Visible(disk), a, target, made, r.value, BlockSet(retired[|old(retired)|..]),
                             Marks(bitmap) - old(Marks(bitmap)))
      ensures r.Err? ==>
                || (r.error == Full && FullyMarked() && Refusal(a, target) == None
                    && Claimed(old(Marks(bitmap)), Marks(bitmap)) < NodeNeed(a))
                || (Refusal(a, target) == Some(r.error) && Now() == old(Now()) && retired == old(retired))
    {
      hide Extends, Marks, Visible, Done, Stored, Refusal, Basics;
      ExtendsRefl(Now());
      match a {
        case Create(_, _) =>
          r, made := CreateNode(a, existing, target);
          assert BlockSet(retired[|old(retired)|..]) == {};
        case Replace(_, _) =>
          r, made := ReplaceContents(a, existing, target);
        case Remove =>
          r, made := RemoveNode(existing, target);
          ClaimedOne(Marks(bitmap), 0);
          assert Marks(bitmap) - old(Marks(bitmap)) == {};
        case SetMode(_, _) =>
          r, made := ChangeMode(a, existing, target);
      }
    }

    // ---- copy-on-write ----

    /** The entries of a directory with one name replaced, added or dropped. */
    method GatherEntries(directory: Inode, name: Name, replacement: Option<U64>, ghost n: Node, ghost made: Option<Node>)
      returns (entries: seq<DirEntry>)
      requires ValidDisk(disk) && n.DirNode? && directory == InodeOf(n)
      requires Stored(Visible(disk), Marks(bitmap), Some(n.block), Some(n))
      requires LinksTo(replacement, made)
      requires Linkable(Visible(disk), Marks(bitmap), n, name, made)
      ensures EntriesOf(NewItems(n.items, name, made)) == entries
      ensures forall e <- entries :: e.inode != 0
    {
      hide Marks, Visible, DecodeInode, Rep, Shape, Footprint, NewItems, Others, Find, DirEntries, EntriesOf;
      ShapeParts(Visible(disk), n);
      NewEntries(n.items, name, made);
      if made.Some? { OwnBlocksFacts(made.value); }
      entries := OtherEntries(directory.direct, name);
      if replacement.Some? {
        entries := entries + [MakeEntry(name, replacement.value)];
      }
    }

    /** A directory's entries into fresh blocks, then its inode. */
    method StoreDirectory(directory: Inode, entries: seq<DirEntry>) returns (r: Result<U64>, blocks: seq<U64>)
      requires Basics() && |entries| <= ENTRIES_PER_BLOCK * DIRECT_BLOCKS
      requires ValidInode(directory.(direct := [], size := |entries|))
      requires forall e <- entries :: e.inode != 0
      modifies this`bitmap, this`disk, this`trace
      ensures Basics() && Extends(old(Now()), Now())
      ensures r.Ok? ==>
                && HoldsInode(Visible(disk), r.value, directory.(direct := blocks, size := |entries|))
                && InRange(Visible(disk), blocks) && DirEntries(Visible(disk), blocks) == entries
                && Distinct(blocks) && |blocks| <= DIRECT_BLOCKS && r.value !in BlockSet(blocks)
                && {r.value as nat} + BlockSet(blocks) == Marks(bitmap) - old(Marks(bitmap))
                && Claimed(old(Marks(bitmap)), Marks(bitmap)) == DirBlocks(|entries|) + 1
      ensures r.Err? ==>
                && r.error == Full && FullyMarked()
                && Claimed(old(Marks(bitmap)), Marks(bitmap)) < DirBlocks(|entries|) + 1
    {
      hide Extends, Marks, Visible, DecodeInode, BlockSet, Distinct, DirEntries, InRange, DirBlocks,
           Reserved, ValidLayout, ValidDisk, Usable;
      blocks := [];
      ghost var start := Now();
      var stored := StoreEntries(entries);
      if stored.Err? {
        return Err(stored.error), [];
      }
      blocks := stored.value;
      ghost var mid := Now();
      r := StoreInode(directory.(direct := blocks, size := |entries|));
      ExtendsMarks(start, mid);
      ClaimedOne(mid.marks, if r.Ok? then r.value else 0);
      ClaimedTwice(start.marks, mid.marks, Marks(bitmap));
      ExtendsTrans(start, mid, Now());
      ExtendsAgree(mid, Now());
      AgreeSubset(Visible(mid.disk), Visible(disk), BlockSet(blocks), mid.marks);
      DirEntriesFrame(Visible(mid.disk), Visible(disk), blocks);
    }

    /** Write a directory afresh with one name replaced, added or dropped. */
    method Relink(directory: Inode, name: Name, replacement: Option<U64>, ghost n: Node, ghost made: Option<Node>)
      returns (r: Result<U64>, ghost n': Node)
      requires Basics()
      requires n.DirNode? && directory == InodeOf(n)
      requires Stored(Visible(disk), Marks(bitmap), Some(n.block), Some(n))
      requires LinksTo(replacement, made)
      requires Linkable(Visible(disk), Marks(bitmap), n, name, made)
      modifies this`bitmap, this`disk, this`trace
      ensures Basics() && Extends(old(Now()), Now())
      ensures r.Ok? ==>
                && n' == Relinked(n, name, made, r.value, n'.blocks)
                && Shape(n') && Rep(Visible(disk), n') && Rep(Visible(disk), n)
                && OwnBlocks(n') == Marks(bitmap) - old(Marks(bitmap))
                && Footprint(n') == (Footprint(n) - OwnBlocks(n) - FootprintOpt(Find(n.items, name)))
                                    + FootprintOpt(made) + OwnBlocks(n')
      ensures var names := |NewItems(n.items, name, made)|;
              && (r.Ok? ==> names <= ENTRIES_PER_BLOCK * DIRECT_BLOCKS
                            && Claimed(old(Marks(bitmap)), Marks(bitmap)) == DirBlocks(names) + 1)
              && (r.Err? ==>
                    || (r.error == Full && FullyMarked() && names <= ENTRIES_PER_BLOCK * DIRECT_BLOCKS
                        && Claimed(old(Marks(bitmap)), Marks(bitmap)) < DirBlocks(names) + 1)
                    || (r.error == TooLarge && Now() == old(Now()) && names > ENTRIES_PER_BLOCK * DIRECT_BLOCKS))
    {
      hide Extends, Marks, Visible, DecodeInode, BlockSet, Rep, Shape, Footprint, NewItems, Find,
           Distinct, DirEntries, CeilDiv, InRange, Reserved, ValidLayout, ValidDisk;
      n' := n;
      ghost var start := Now();
      ExtendsRefl(start);
      ShapeParts(Visible(disk), n);
      var entries := GatherEntries(directory, name, replacement, n, made);
      assert |entries| == |EntriesOf(NewItems(n.items, name, made))|;
      var needed := if |entries| <= ENTRIES_PER_BLOCK then 1 else CeilDiv(|entries|, ENTRIES_PER_BLOCK);
      CeilBound(|entries|, ENTRIES_PER_BLOCK, DIRECT_BLOCKS);
      if needed > DIRECT_BLOCKS {
        return Err(TooLarge), n;
      }
      var block, blocks := StoreDirectory(directory, entries);
      if block.Err? {
        return Err(block.error), n;
      }
      LinkableLater(start, Now(), n, name, made);
      RelinkDone(Visible(disk), Marks(bitmap), n, name, made, block.value, blocks);
      n' := Relinked(n, name, made, block.value, blocks);
      r := Ok(block.value);
    }

    /** The child's side of a rewrite: the change itself at the last component, or a rewrite of the
        directory below. */
    method ReplaceChild(existing: Option<U64>, components: seq<Name>, access: Access, a: Action, ghost n: Node)
      returns (r: Result<Option<U64>>, garbage: seq<U64>, ghost made: Option<Node>)
      requires Basics() && ValidAction(a) && components != [] && n.DirNode?
      requires a.Create? ==> ValidName(components[|components| - 1])
      requires Permits(n.owner, n.mode, access.user, false)
      requires |components| == 1 && access.changesParent ==> Permits(n.owner, n.mode, access.user, true)
      requires Stored(Visible(disk), Marks(bitmap), Some(n.block), Some(n))
      requires Stored(Visible(disk), Marks(bitmap), existing, Find(n.items, components[0]))
      modifies this`bitmap, this`disk, this`trace, this`retired
      ensures Basics() && Extends(old(Now()), Now()) && old(retired) <= retired
      ensures r.Ok? ==> Obstacle(n, components, access, a) == None && LinksTo(r.value, made)
      ensures r.Ok? ==> (made.Some? <==> !(|components| == 1 && a.Remove?))
      ensures r.Ok? && |components| == 1 && a.Create? ==> retired == old(retired)
      ensures r.Ok? ==> Claimed(old(Marks(bitmap)), Marks(bitmap)) == NeedBelow(n, components, a)
      ensures r.Ok? && |components| > 1 ==> !NoRoom(n, components, a)
      ensures r.Ok? ==> ChildDone(Visible(disk), n, components, Effect(a, Walk(n, components)), made,
                                  BlockSet(garbage) + BlockSet(retired[|old(retired)|..]),
                                  Marks(bitmap) - old(Marks(bitmap)))
      ensures r.Err? ==> Failed(r.error, n, components, access, a, old(retired))
      decreases |components|, 0
    {
      hide Extends, Marks, Visible, DecodeInode, BlockSet, Rep, Shape, Footprint, Find, Effect,
           DirEntries, InRange, Reserved, ValidLayout, ValidDisk, Rewrote, Done, ChildDone, OwnBlocks, Claimed,
           NeedBelow, Need, NoRoom, Demand, NodeNeed, NamesAfter, DirBlocks;
      garbage, made := [], None;
      ghost var start := Now();
      ExtendsRefl(start);
      NothingTaken(Visible(disk), []);
      ghost var child := Find(n.items, components[0]);
      DemandAbove(n, components, a);
      if |components| == 1 {
        r, made := Act(a, existing, child);
        if r.Ok? {
          MadeUnlessRemoved(Visible(disk), a, child, made, r.value, BlockSet(retired[|old(retired)|..]),
                            Marks(bitmap) - start.marks);
          ExtendsMarks(start, Now());
          FindInItems(Visible(start.disk), n, components[0]);
          ActChild(Visible(disk), n, components, a, made, r.value, BlockSet(retired[|old(retired)|..]),
                   Marks(bitmap) - start.marks);
          assert BlockSet(garbage) + BlockSet(retired[|old(retired)|..]) == BlockSet(retired[|old(retired)|..]);
        }
      } else if existing.None? {
        r := Err(NotFound);
      } else {
        var below; ghost var child';
        below, garbage, child' := Rewrite(existing.value, components[1..], access, a, child.value);
        if below.Err? {
          return Err(below.error), [], None;
        }
        r, made := Ok(Some(below.value)), Some(child');
        RewriteChild(Visible(start.disk), Visible(disk), n, components, a, child', below.value,
                     BlockSet(garbage) + BlockSet(retired[|old(retired)|..]), Marks(bitmap) - start.marks);
      }
    }

    /** One directory of the path: the change below it, then the directory again with the outcome linked in. */
    method RewriteLevel(directory: Inode, existing: Option<U64>, components: seq<Name>, access: Access, a: Action,
                        ghost n: Node)
      returns (r: Result<U64>, garbage: seq<U64>, ghost n': Node)
      requires Basics() && ValidAction(a) && components != [] && n.DirNode? && directory == InodeOf(n)
      requires a.Create? ==> ValidName(components[|components| - 1])
      requires Permits(n.owner, n.mode, access.user, false)
      requires |components| == 1 && access.changesParent ==> Permits(n.owner, n.mode, access.user, true)
      requires Stored(Visible(disk), Marks(bitmap), Some(n.block), Some(n))
      requires Stored(Visible(disk), Marks(bitmap), existing, Find(n.items, components[0]))
      modifies this`bitmap, this`disk, this`trace, this`retired
      ensures Basics() && Extends(old(Now()), Now()) && old(retired) <= retired
      ensures r.Ok? ==>
                && Obstacle(n, components, access, a) == None && !NoRoom(n, components, a)
                && Claimed(old(Marks(bitmap)), Marks(bitmap)) == Need(n, components, a)
                && n'.DirNode? && |n'.items| == NamesAfter(n, components, a)
      ensures r.Ok? ==> Rewrote(Visible(disk), n, n', components, Effect(a, Walk(n, components)), r.value,
                                (BlockSet(garbage) + OwnBlocks(n)) + BlockSet(retired[|old(retired)|..]),
                                Marks(bitmap) - old(Marks(bitmap)))
      ensures r.Err? ==> Failed(r.error, n, components, access, a, old(retired))
      decreases |components|, 1
    {
      hide Extends, Marks, Visible, DecodeInode, BlockSet, Rep, Shape, Footprint, Find, Effect, Refusal, DirBlocks,
           DirEntries, InRange, Reserved, ValidLayout, ValidDisk, Rewrote, Done, Linkable, ChildDone, OwnBlocks,
           NewItems, NamesAfter, NoRoom, Need, NeedBelow, NodeNeed, Demand, Claimed, LinksTo, Obstacle, Walk;
      n' := n;
      ghost var start := Now();
      ghost var info := Effect(a, Walk(n, components));
      ShapeParts(Visible(disk), n);
      ZeroReserved(|disk.durable|, superblock);
      var replacement; ghost var made;
      replacement, garbage, made := ReplaceChild(existing, components, access, a, n);
      if replacement.Err? {
        return Err(replacement.error), [], n;
      }
      ghost var gone := BlockSet(garbage) + BlockSet(retired[|old(retired)|..]);
      ghost var mid := Now();
      ExtendsRep(start, mid, n);
      ExtendsMarks(start, mid);
      ChildLinkable(Visible(disk), start.marks, Marks(bitmap), n, components, info, made, gone);
      NamesCount(Visible(disk), n, components, access, a, made);
      DemandHere(n, components, a, |NewItems(n.items, components[0], made)|);
      var linked;
      linked, n' := Relink(directory, components[0], replacement.value, n, made);
      ExtendsMarks(mid, Now());
      ClaimedTwice(start.marks, mid.marks, Marks(bitmap));
      ExtendsTrans(start, mid, Now());
      if linked.Err? {
        return Err(linked.error), [], n;
      }
      LevelDone(Visible(disk), Visible(mid.disk), n, components, info, made, gone, mid.marks - start.marks,
                linked.value, n'.blocks);
      assert (BlockSet(garbage) + OwnBlocks(n)) + BlockSet(retired[|old(retired)|..]) == gone + OwnBlocks(n);
      assert Marks(bitmap) - start.marks == (mid.marks - start.marks) + OwnBlocks(n');
      r := Ok(linked.value);
    }

    /** The tree below a directory, with a change made at a path: stored anew along the path, shared elsewhere. */
    method Rewrite(directoryBlock: U64, components: seq<Name>, access: Access, a: Action, ghost n: Node)
      returns (r: Result<U64>, garbage: seq<U64>, ghost n': Node)
      requires Basics() && ValidAction(a)
      requires a.Create? && components != [] ==> ValidName(components[|components| - 1])
      requires Stored(Visible(disk), Marks(bitmap), Some(directoryBlock), Some(n))
      modifies this`bitmap, this`disk, this`trace, this`retired
      ensures Basics() && Extends(old(Now()), Now()) && old(retired) <= retired
      ensures r.Ok? ==> components != [] && Obstacle(n, components, access, a) == None
      ensures r.Ok? ==>
                && !NoRoom(n, components, a) && Claimed(old(Marks(bitmap)), Marks(bitmap)) == Need(n, components, a)
                && n.DirNode? && n'.DirNode? && |n'.items| == NamesAfter(n, components, a)
                && OwnBlocks(n) !! Footprint(n')
      ensures r.Ok? ==> Rewrote(Visible(disk), n, n', components, Effect(a, Walk(n, components)), r.value,
                                BlockSet(garbage) + BlockSet(retired[|old(retired)|..]),
                                Marks(bitmap) - old(Marks(bitmap)))
      ensures r.Err? ==> Failed(r.error, n, components, access, a, old(retired))
      decreases |components|, 2
    {
      hide Extends, Marks, Visible, DecodeInode, BlockSet, Rep, Shape, Footprint, Find, Effect, Refusal, Walk,
           DirEntries, InRange, Reserved, ValidLayout, ValidDisk, Rewrote,
           NamesAfter, NoRoom, Need, NodeNeed, Demand, Claimed;
      n' := n;
      garbage := [];
      ExtendsRefl(Now());
      var directory := ReadInode(directoryBlock, n);
      if !directory.isDirectory {
        return Err(WrongType), [], n;
      }
      if !Permits(directory.owner, directory.mode, access.user, false) {
        return Err(Denied), [], n;
      }
      if components == [] {
        return Err(BadName), [], n;
      }
      ShapeParts(Visible(disk), n);
      OwnBlocksFacts(n);
      var existing := FindEntry(directory.direct, components[0]);
      ChildStored(Visible(disk), Marks(bitmap), n, components[0], existing);
      // A name that comes or goes needs write permission here; a change inside a child does not.
      if |components| == 1 && access.changesParent && !Permits(directory.owner, directory.mode, access.user, true) {
        return Err(Denied), [], n;
      }
      r, garbage, n' := RewriteLevel(directory, existing, components, access, a, n);
      if r.Err? {
        return r, [], n;
      }
      GarbageSet(garbage, directory.direct, directoryBlock);
      assert BlockSet(garbage + directory.direct + [directoryBlock]) == BlockSet(garbage) + OwnBlocks(n);
      garbage := garbage + directory.direct + [directoryBlock];
      GivenUp(Visible(disk), n, n', components, Effect(a, Walk(n, components)), r.value,
              BlockSet(garbage) + BlockSet(retired[|old(retired)|..]), Marks(bitmap) - old(Marks(bitmap)),
              old(Marks(bitmap)));
    }

    // ---- committing ----

    method FlushDevice()
      requires ValidDisk(disk)
      modifies this`disk, this`trace
      ensures ValidDisk(disk) && disk == Flush(old(disk)) && Visible(disk) == disk.durable == old(Visible(disk))
      ensures trace == old(trace) + [disk]
    {
      disk := Flush(disk);
      trace := trace + [disk];
    }

    method WriteBitmap(ghost keep: set<nat>)
      requires Basics() && keep <= Marks(bitmap) && AllHarmless(disk, keep)
      modifies this`disk, this`trace
      ensures Basics() && disk.durable == old(disk.durable) && AllHarmless(disk, keep)
      ensures BitmapWritten(old(Visible(disk)), Visible(disk), bitmap)
      ensures old(trace) <= trace
      ensures forall k :: |old(trace)| <= k < |trace| ==>
                trace[k].durable == disk.durable && AllHarmless(trace[k], keep)
    {
      hide Marks, Harmless, BitmapSector, Visible, Reserved;
      LayoutFacts(|disk.durable|);
      ghost var img := Visible(disk);
      var j := 0;
      while j < superblock.bitmapBlocks
        invariant 0 <= j <= superblock.bitmapBlocks
        invariant Basics() && disk.durable == old(disk.durable) && AllHarmless(disk, keep)
        invariant forall i :: 0 <= i < j ==> Visible(disk)[2 + i] == BitmapSector(bitmap, i)
        invariant forall s :: 0 <= s < |img| && !(2 <= s < 2 + j) ==> Visible(disk)[s] == img[s]
        invariant old(trace) <= trace
        invariant forall k :: |old(trace)| <= k < |trace| ==>
                    trace[k].durable == disk.durable && AllHarmless(trace[k], keep)
      {
        BitmapWriteHarmless(bitmap, j, |disk.durable|, keep);
        ghost var pending := disk.pending;
        WriteBlock(2 + j, BitmapSector(bitmap, j));
        assert disk.pending == pending + [Write(2 + j, BitmapSector(bitmap, j))];
        j := j + 1;
      }
    }

    /** Bitmap, flush, the other superblock, flush. A power cut after any of these device
        operations leaves the old tree or the new one. */
    method Commit(ghost sb: SuperBlock, ghost t: Node, ghost t': Node)
      requires Basics() && superblock.(rootInode := sb.rootInode) == sb
      requires superblock.generation + 1 < 0x1_0000_0000_0000_0000
      requires Committed(disk.durable, sb, liveSlot, t)
      requires AllHarmless(disk, Reserved(|disk.durable|) + Footprint(t))
      requires TreeOn(Visible(disk), superblock, t')
      requires Reserved(|disk.durable|) + Footprint(t) + Footprint(t') <= Marks(bitmap)
      modifies this`disk, this`trace, this`superblock, this`liveSlot
      ensures Basics() && superblock == old(superblock).(generation := old(superblock).generation + 1)
      ensures |disk.durable| == |old(disk.durable)| && disk.pending == []
      ensures Committed(disk.durable, superblock, liveSlot, t')
      ensures ImageBitmap(disk.durable, BitmapBlocks(|disk.durable|)) == bitmap
      ensures old(trace) <= trace && trace != [] && trace[|trace| - 1] == disk
      ensures forall k :: |old(trace)| <= k < |trace| ==> CrashSafe(trace[k], t, t', superblock.generation)
    {
      hide Marks, Harmless, Visible, Reserved, Committed, TreeOn, EncodeSuper, DecodeSuper, BitmapWritten, CrashSafe,
           Footprint;
      ghost var keep := Reserved(|disk.durable|) + Footprint(t);
      ghost var durable, visible := disk.durable, Visible(disk);
      HarmlessVisible(disk, sb, liveSlot, t);
      WriteBitmap(keep);
      forall k | |old(trace)| <= k < |trace|
        ensures CrashSafe(trace[k], t, t', superblock.generation + 1)
      {
        HarmlessSafe(trace[k], sb, liveSlot, t, t', superblock.generation + 1);
      }
      FlushDevice();
      ghost var flushed := disk.durable;
      ImageBitmapWritten(visible, flushed, bitmap);
      var nextSlot := 1 - liveSlot;
      superblock := superblock.(generation := superblock.generation + 1);
      var encoded := EncodeSuper(superblock);
      SuperRoundTrip(superblock);
      SameRoot(visible, old(superblock), superblock, t');
      CommitStep(durable, visible, flushed, bitmap, sb, liveSlot, t, superblock, t', encoded);
      HarmlessSafe(disk, sb, liveSlot, t, t', superblock.generation);
      WriteBlock(nextSlot, encoded);
      assert disk == Disk(flushed, [Write(nextSlot, encoded)]);
      SuperSafe(flushed, sb, liveSlot, t, encoded, superblock, t');
      FlushDevice();
      HarmlessSafe(disk, superblock, nextSlot, t', t, superblock.generation);
      LayoutFacts(|disk.durable|);
      ImageBitmapFrame(flushed, disk.durable, BitmapBlocks(|disk.durable|));
      liveSlot := nextSlot;
    }

    // ---- transactions ----

    /** Between transactions: the device's live superblock names `t`, `t` is stored and protected by
        both bitmaps, and what is still unflushed lies outside it. */
    ghost predicate Valid(t: Node)
      reads this
    {
      && Basics()
      && Committed(disk.durable, superblock, liveSlot, t)
      && Footprint(t) <= Marks(bitmap)
      && Stray(disk, Footprint(t))
      && (retired == [] || FullyMarked())
      && trace != [] && trace[|trace| - 1] == disk
    }

    /** Marked blocks that are neither reserved nor in the tree. */
    ghost function Leaked(t: Node): set<nat>
      reads this
    {
      Marks(bitmap) - (Reserved(|disk.durable|) + Footprint(t))
    }

    /** What mounting the flushed device would mark: the blocks a commit replaced are released in
        memory only, so the copy on disk still holds them. */
    ghost function OnDisk(): set<nat>
      requires 2 + BitmapBlocks(|disk.durable|) <= |disk.durable|
      reads this`disk
    {
      Marks(ImageBitmap(disk.durable, BitmapBlocks(|disk.durable|)))
    }

    method Release(blocks: seq<U64>)
      requires Basics() && forall b :: b in BlockSet(blocks) ==> b < |disk.durable|
      modifies this`bitmap
      ensures Basics()
      ensures Marks(bitmap) == old(Marks(bitmap)) - (BlockSet(blocks) - Reserved(|disk.durable|))
    {
      hide BlockSet, Marks, Reserved;
      LayoutFacts(|disk.durable|);
      NothingTaken(disk.durable, []);
      var i := 0;
      while i < |blocks|
        invariant 0 <= i <= |blocks|
        invariant Basics()
        invariant Marks(bitmap) == old(Marks(bitmap)) - (BlockSet(blocks[..i]) - Reserved(|disk.durable|))
      {
        BlockSetAppend(blocks[..i], blocks[i]);
        BlockSetAt(blocks, i);
        assert blocks[..i + 1] == blocks[..i] + [blocks[i]];
        ReservedBit(|disk.durable|, superblock, bitmap, blocks[i]);
        Mark(blocks[i], false);
        i := i + 1;
      }
      assert blocks[..i] == blocks;
    }

    /** Commit the rewritten tree, then release what it gave up. */
    method Land(newRoot: U64, garbage: seq<U64>, ghost t: Node, ghost t': Node, ghost before: set<nat>)
      requires Basics() && superblock.generation + 1 < 0x1_0000_0000_0000_0000
      requires Committed(disk.durable, superblock, liveSlot, t)
      requires AllHarmless(disk, Reserved(|disk.durable|) + Footprint(t))
      requires TreeOn(Visible(disk), superblock.(rootInode := newRoot), t')
      requires Reserved(|disk.durable|) + Footprint(t) <= before <= Marks(bitmap)
      requires BlockSet(garbage) + BlockSet(retired) <= Footprint(t)
      requires forall b :: b in BlockSet(garbage) + BlockSet(retired) ==> b < |disk.durable|
      requires Footprint(t') == (Footprint(t) - (BlockSet(garbage) + BlockSet(retired))) + (Marks(bitmap) - before)
      modifies this
      ensures Valid(t') && |disk.durable| == |old(disk.durable)|
      ensures superblock.generation == old(superblock.generation) + 1
      ensures old(trace) <= trace
      ensures forall k :: |old(trace)| <= k < |trace| ==> CrashSafe(trace[k], t, t', superblock.generation)
      ensures Leaked(t') == before - (Reserved(|disk.durable|) + Footprint(t))
      ensures OnDisk() == Marks(bitmap) + (Footprint(t) - Footprint(t') - Reserved(|disk.durable|))
      ensures Reserved(|disk.durable|) + Footprint(t') <= Marks(bitmap) <= old(Marks(bitmap))
    {
      hide Marks, Reserved, Visible, Committed, TreeOn, CrashSafe, Footprint, Stray, BlockSet, ValidLayout;
      ghost var gone := BlockSet(garbage) + BlockSet(retired);
      ghost var claimed := Marks(bitmap) - before;
      ghost var sb := superblock;
      superblock := superblock.(rootInode := newRoot);
      RootLayout(|disk.durable|, sb, superblock);
      Commit(sb, t, t');
      GarbageSet2(garbage, retired);
      var released := garbage + retired;
      retired := [];
      Release(released);
      Accounts(Reserved(|disk.durable|), before, t, t', gone, claimed);
      NothingStray(disk, Footprint(t'));
    }

    /** The rewrite of a transaction, before it is committed: the new tree is stored beside the old one, which every
        device state on the way still holds. */
    method Prepare(components: seq<Name>, access: Access, a: Action, ghost t: Node)
      returns (r: Result<U64>, garbage: seq<U64>, ghost n': Node)
      requires Valid(t) && ValidAction(a) && components != []
      requires a.Create? ==> ValidName(components[|components| - 1])
      modifies this`bitmap, this`disk, this`trace, this`retired
      ensures Basics() && disk.durable == old(disk.durable) && old(trace) <= trace
      ensures Committed(disk.durable, superblock, liveSlot, t)
      ensures Reserved(|disk.durable|) + Footprint(t) <= old(Marks(bitmap)) <= Marks(bitmap)
      ensures AllHarmless(disk, Reserved(|disk.durable|) + Footprint(t))
      ensures forall k :: |old(trace)| <= k < |trace| ==>
                CrashSafe(trace[k], t, t, superblock.generation) && CrashSafe(trace[k], t, n', superblock.generation + 1)
      ensures (if r.Ok? then Ok(()) else Err(r.error)) == Told(Verdict(old(Spare()), t, components, access, a))
      ensures r.Ok? ==>
                && Obstacle(t, components, access, a) == None && t.DirNode?
                && UpdatedAt(t, n', components, Effect(a, Walk(t, components)))
                && n'.DirNode? && |n'.items| == NamesAfter(t, components, a) && OwnBlocks(t) !! Footprint(n')
                && old(Spare()) == Spare() + Need(t, components, a)
                && TreeOn(Visible(disk), superblock.(rootInode := r.value), n')
      ensures r.Ok? ==>
                var gone := BlockSet(garbage) + BlockSet(retired);
                && gone <= Footprint(t) && (forall b :: b in gone ==> b < |disk.durable|)
                && Footprint(n') == (Footprint(t) - gone) + (Marks(bitmap) - old(Marks(bitmap)))
      ensures r.Err? ==> Valid(t) && Failed(r.error, t, components, access, a, old(retired))
      ensures r.Err? ==> old(Spare()) == Spare() + Claimed(old(Marks(bitmap)), Marks(bitmap))
      ensures r.Err? ==>
                Spare() == if r.error == Full then 0
                           else if r.error == TooLarge then old(Spare()) - NodeNeed(a) else old(Spare())
      ensures old(FullyMarked()) ==> r.Err? && FullyMarked()
    {
      hide Marks, Reserved, Visible, Committed, TreeOn, CrashSafe, Footprint, Rewrote,
           Effect, Obstacle, Stray, BlockSet, Shape, Rep, ValidLayout, Extends, Usable, UpdatedAt,
           NoRoom, Need, NodeNeed, NamesAfter, SpareSet, Walk, Claimed;
      ghost var start := Now();
      ValidStored(disk, Marks(bitmap), superblock, liveSlot, t);
      r, garbage, n' := Rewrite(superblock.rootInode, components, access, a, t);
      ExtendsMarks(start, Now());
      ExtendsHarmless(start, Now(), t);
      ExtendsFull(start, Now());
      SpareAfter(start, Now());
      NoneSpare(|disk.durable|, Marks(bitmap));
      ObstacleKinds(t, components, access, a);
      forall k | |start.trace| <= k < |trace|
        ensures CrashSafe(trace[k], t, t, superblock.generation) && CrashSafe(trace[k], t, n', superblock.generation + 1)
      {
        TraceHarmless(start, Now(), t, k);
        HarmlessSafe(trace[k], superblock, liveSlot, t, n', superblock.generation + 1);
        HarmlessSafe(trace[k], superblock, liveSlot, t, t, superblock.generation);
      }
      if r.Ok? {
        ghost var gone := BlockSet(garbage) + BlockSet(retired[|old(retired)|..]);
        RewroteTree(start, Now(), superblock, liveSlot, t, n', components, Effect(a, Walk(t, components)), r.value, gone);
        assert old(retired) == [];
        assert retired[|old(retired)|..] == retired;
      }
    }

    /** One change to the tree: refused by the exact verdict, or committed whole. */
    method Transact(components: seq<Name>, access: Access, a: Action, ghost t: Node)
      returns (r: Result<()>, ghost t': Node)
      requires Valid(t) && ValidAction(a)
      requires a.Create? && components != [] ==> ValidName(components[|components| - 1])
      requires superblock.generation + 1 < 0x1_0000_0000_0000_0000
      modifies this
      ensures Valid(t') && |disk.durable| == |old(disk.durable)|
      ensures old(trace) <= trace
      ensures forall k :: |old(trace)| <= k < |trace| ==> CrashSafe(trace[k], t, t', superblock.generation)
      ensures r.Ok? ==>
                && components != [] && Obstacle(t, components, access, a) == None
                && UpdatedAt(t, t', components, Effect(a, Walk(t, components)))
                && superblock.generation == old(superblock.generation) + 1
                && Leaked(t') == old(Leaked(t))
                && OnDisk() == Marks(bitmap) + (Footprint(t) - Footprint(t') - Reserved(|disk.durable|))
      ensures r.Ok? ==>
                && t.DirNode? && t'.DirNode? && |t'.items| == NamesAfter(t, components, a)
                && OwnBlocks(t) !! Footprint(t')
                && old(Spare()) <= Spare() + Need(t, components, a)
                && Spare() + Held(|disk.durable|, t') == old(Spare()) + Held(|disk.durable|, t)
      ensures r.Err? ==>
                && t' == t && superblock == old(superblock)
                && Leaked(t) == old(Leaked(t)) + (Marks(bitmap) - old(Marks(bitmap)))
                && old(Spare()) == Spare() + Claimed(old(Marks(bitmap)), Marks(bitmap))
      ensures components == [] ==> r == Err(BadName) && Now() == old(Now()) && retired == old(retired)
      ensures components != [] ==> r == Told(Verdict(old(Spare()), t, components, access, a))
      ensures r.Err? && components != [] ==> Failed(r.error, t, components, access, a, old(retired))
      ensures r.Err? && r.error != Full && r.error != TooLarge ==> Now() == old(Now())
      ensures r.Err? && r.error == Full ==> FullyMarked()
      ensures r.Err? ==>
                Spare() == if r.error == Full then 0
                           else if r.error == TooLarge then old(Spare()) - NodeNeed(a) else old(Spare())
      ensures old(FullyMarked()) ==> r.Err? && FullyMarked()
    {
      hide Marks, Reserved, Visible, Committed, TreeOn, CrashSafe, Footprint, Effect, Obstacle, Stray, BlockSet,
           ValidLayout, Usable, UpdatedAt, NoRoom, Need, NodeNeed, NamesAfter, SpareSet, Walk, Claimed, Verdict,
           FullyMarked, Held, Basics, Valid, OnDisk, AllHarmless;
      t' := t;
      if components == [] {
        assert Leaked(t) == old(Leaked(t)) + (Marks(bitmap) - old(Marks(bitmap)));
        ClaimedOne(Marks(bitmap), 0);
        return Err(BadName), t;
      }
      ghost var before := Marks(bitmap);
      var newRoot, garbage; ghost var n';
      newRoot, garbage, n' := Prepare(components, access, a, t);
      if newRoot.Err? {
        ObstacleKinds(t, components, access, a);
        LeakedMore(Reserved(|disk.durable|) + Footprint(t), before, Marks(bitmap));
        return Err(newRoot.error), t;
      }
      ghost var prepared := Marks(bitmap);
      Land(newRoot.value, garbage, t, n', before);
      SpareShrinks(|disk.durable|, Marks(bitmap), prepared);
      SpareBalance(|disk.durable|, before, t, Marks(bitmap), n');
      t' := n';
      r := Ok(());
    }

    // ---- mounting ----

    constructor FromMounted(img: Image, m: Mounted)
      ensures disk == Disk(img, []) && superblock == m.superblock && liveSlot == m.slot && bitmap == m.bitmap
      ensures retired == [] && trace == [disk]
    {
      disk := Disk(img, []);
      superblock := m.superblock;
      liveSlot := m.slot;
      bitmap := m.bitmap;
      retired := [];
      trace := [Disk(img, [])];
    }

    /** A file system valid for every tree the image holds, or the reason it holds none. */
    static method Mount(img: Image) returns (r: Result<FileSystem>)
      requires |img| >= 2
      ensures r.Ok? ==>
                && fresh(r.value) && r.value.disk == Disk(img, []) && r.value.trace == [Disk(img, [])]
                && MountImage(img) == Ok(Mounted(r.value.superblock, r.value.liveSlot, r.value.bitmap))
      ensures r.Err? ==> MountImage(img) == Err(r.error)
      ensures forall t :: MountsTo(img, t) ==> r.Ok? && r.value.Valid(t)
    {
      hide Rep, Shape, Footprint, DecodeSuper, Marks, Reserved, MarkedOnDisk;
      var mounted := MountImage(img);
      if mounted.Err? {
        return Err(mounted.error);
      }
      var m := mounted.value;
      var fs := new FileSystem.FromMounted(img, m);
      r := Ok(fs);
      forall t | MountsTo(img, t)
        ensures fs.Valid(t)
      {
        CommittedMounts(img, m.superblock, m.slot, t);
        NothingStray(fs.disk, Footprint(t));
      }
    }

    // ---- reading ----

    /** Walk a path from the root. */
    method Resolve(components: seq<Name>, user: Option<U32>, ghost t: Node)
      returns (r: Result<U64>, ghost n: Node)
      requires Valid(t)
      ensures r.Err? ==> ReadObstacle(t, components, user) == Some(r.error)
      ensures r.Ok? ==>
                && ReadObstacle(t, components, user) == None && Walk(t, components) == Some(n)
                && Stored(Visible(disk), Marks(bitmap), Some(r.value), Some(n))
    {
      hide Marks, Visible, DecodeInode, BlockSet, Rep, Shape, Footprint, Find, DirEntries, InRange, Reserved,
           ValidLayout, ValidDisk, Committed, Stray, OwnBlocks;
      ValidStored(disk, Marks(bitmap), superblock, liveSlot, t);
      var current := superblock.rootInode;
      n := t;
      var i := 0;
      RootBlock(disk.durable, superblock, liveSlot, t);
      while i < |components|
        invariant 0 <= i <= |components|
        invariant Stored(Visible(disk), Marks(bitmap), Some(current), Some(n))
        invariant ReadObstacle(t, components, user) == ReadObstacle(n, components[i..], user)
        invariant Walk(t, components) == Walk(n, components[i..])
      {
        var inode := ReadInode(current, n);
        if !inode.isDirectory {
          return Err(WrongType), n;
        }
        if !Permits(inode.owner, inode.mode, user, false) {
          return Err(Denied), n;
        }
        ShapeParts(Visible(disk), n);
        OwnBlocksFacts(n);
        var found := FindEntry(inode.direct, components[i]);
        ChildStored(Visible(disk), Marks(bitmap), n, components[i], found);
        if found.None? {
          return Err(NotFound), n;
        }
        assert components[i..][1..] == components[i + 1..];
        n := Find(n.items, components[i]).value;
        current := found.value;
        i := i + 1;
      }
      return Ok(current), n;
    }

    /** Read a whole file, for a user who may. */
    method ReadFile(path: seq<Byte>, user: Option<U32>, ghost t: Node) returns (r: Result<seq<Byte>>)
      requires Valid(t)
      ensures r == ReadResult(t, Components(path), user)
    {
      hide Marks, Visible, DecodeInode, BlockSet, Rep, Shape, Footprint, Find, DirEntries, Reserved,
           ValidLayout, ValidDisk, Committed, Stray, OwnBlocks, Pad, Chunk, Walk, ReadObstacle, Components;
      var block; ghost var n;
      block, n := Resolve(Components(path), user, t);
      if block.Err? {
        return Err(block.error);
      }
      var inode := ReadInode(block.value, n);
      if inode.isDirectory {
        return Err(WrongType);
      }
      if !Permits(inode.owner, inode.mode, user, false) {
        return Err(Denied);
      }
      FileParts(Visible(disk), n);
      var out: seq<Byte> := [];
      var left := inode.size;
      var slot := 0;
      while slot < |inode.direct|
        invariant 0 <= slot <= |inode.direct|
        invariant left == if BLOCK_SIZE * slot <= |n.data| then |n.data| - BLOCK_SIZE * slot else 0
        invariant out == n.data[..|n.data| - left]
      {
        var data := ReadBlock(inode.direct[slot]);
        var take := if left <= BLOCK_SIZE then left else BLOCK_SIZE;
        ChunkRead(n.data, slot, left);
        out := out + data[..take];
        left := left - take;
        slot := slot + 1;
      }
      assert left == 0 by { CeilBound(|n.data|, BLOCK_SIZE, |inode.direct|); }
      assert n.data[..|n.data| - 0] == n.data;
      r := Ok(out);
    }

    // ---- the operations ----

    /** Every device state passed through mounts as one of the two trees if power is cut there. */
    twostate predicate Atomic(t: Node, t': Node)
      reads this
    {
      && old(trace) <= trace
      && forall k :: |old(trace)| <= k < |trace| ==> CrashSafe(trace[k], t, t', superblock.generation)
    }

    /** One operation: it either makes its change at its own path and nowhere else, or changes
        nothing; either way atomically, and with no block lost on success. */
    method Do(op: Op, ghost t: Node) returns (r: Result<()>, ghost t': Node)
      requires Valid(t)
      requires superblock.generation + 1 < 0x1_0000_0000_0000_0000
      modifies this
      ensures Valid(t') && |disk.durable| == |old(disk.durable)| && Atomic(t, t')
      ensures Outcome(|disk.durable|, old(Spare()), Spare(), op, t, t', r)
      ensures old(superblock.generation) <= superblock.generation <= old(superblock.generation) + 1
      ensures r.Ok? ==> Leaked(t') == old(Leaked(t))
      ensures r.Ok? ==> OnDisk() == Marks(bitmap) + (Footprint(t) - Footprint(t') - Reserved(|disk.durable|))
      ensures r.Ok? ==>
                var path := Components(op.path);
                && t.DirNode? && t'.DirNode? && |t'.items| == NamesAfter(t, path, ActionOf(op))
                && OwnBlocks(t) !! Footprint(t')
                && old(Spare()) <= Spare() + Need(t, path, ActionOf(op))
      ensures r.Err? ==>
                && Leaked(t) == old(Leaked(t)) + (Marks(bitmap) - old(Marks(bitmap)))
                && old(Spare()) == Spare() + Claimed(old(Marks(bitmap)), Marks(bitmap))
      ensures r.Err? && r.error != Full && !Stranded(old(Spare()), op, t) ==> Now() == old(Now())
      ensures r.Err? && r.error == Full ==> FullyMarked()
      ensures old(FullyMarked()) ==> r.Err? && FullyMarked()
    {
      hide Valid, Marks, Visible, Obstacle, Effect, Walk, UpdatedAt, CrashSafe, Components, Verdict, NodeNeed,
           AfterLast, Basics, FullyMarked, Lookup, Need, NamesAfter, Held, Spare, Reserved, Footprint, Leaked, OnDisk,
           Failed, Claimed;
      t' := t;
      ObstacleKinds(t, Components(op.path), AccessOf(op), ActionOf(op));
      assert Leaked(t) == old(Leaked(t)) + (Marks(bitmap) - old(Marks(bitmap)));
      ClaimedOne(Marks(bitmap), 0);
      var early := EarlyError(op);
      if early.Some? {
        return Err(early.value), t;
      }
      FinalNameIsLastComponent(op.path);
      r, t' := Transact(Components(op.path), AccessOf(op), ActionOf(op), t);
    }

    /** What has been committed stays: power cut between operations leaves exactly the current tree. */
    lemma Durable(t: Node)
      requires Valid(t)
      ensures CrashSafe(disk, t, t, superblock.generation)
    {
      hide CrashSafe, AllHarmless, Committed, Stray;
      StrayHarmless(disk, t);
      HarmlessSafe(disk, superblock, liveSlot, t, t, superblock.generation);
    }

    /** Any run of operations. Every result is the verdict on the tree and the unmarked blocks of the moment. The device
        states are cut up by operation: a power cut in one leaves the tree before or the tree after it, and
        between two exactly the tree of the moment. */
    method Run(ops: seq<Op>, ghost t: Node)
      returns (results: seq<Result<()>>, ghost trees: seq<Node>, ghost spares: seq<nat>, ghost starts: seq<nat>)
      requires Valid(t) && superblock.generation + |ops| < 0x1_0000_0000_0000_0000
      modifies this
      ensures |results| == |ops| && |trees| == |ops| + 1 && trees[0] == t && Valid(trees[|ops|])
      ensures |spares| == |ops| + 1 && spares[0] == old(Spare()) && spares[|ops|] == Spare()
      ensures |disk.durable| == |old(disk.durable)|
      ensures forall i :: 0 <= i < |ops| ==>
                Outcome(|disk.durable|, spares[i], spares[i + 1], ops[i], trees[i], trees[i + 1], results[i])
      ensures old(trace) <= trace && superblock.generation <= old(superblock.generation) + |ops|
      ensures |starts| == |ops| + 1 && starts[0] == |old(trace)| && starts[|ops|] == |trace|
      ensures CutUp(trace, starts, trees, superblock.generation)
    {
      hide Valid, Outcome, CrashSafe, FullyMarked, Leaked, Spare, CutUp, OnDisk, Need, NamesAfter, Stranded, Components,
           Marks, Reserved, Footprint, Claimed, Now;
      results, trees, spares, starts := [], [t], [Spare()], [|trace|];
      LastState(t);
      Durable(t);
      NothingCutUp(trace, t, superblock.generation);
      var i := 0;
      while i < |ops|
        invariant 0 <= i <= |ops|
        invariant |results| == i && |trees| == i + 1 && trees[0] == t && Valid(trees[i])
        invariant |spares| == i + 1 && spares[0] == old(Spare()) && spares[i] == Spare()
        invariant superblock.generation <= old(superblock.generation) + i
        invariant |disk.durable| == |old(disk.durable)|
        invariant forall j :: 0 <= j < i ==>
                    Outcome(|disk.durable|, spares[j], spares[j + 1], ops[j], trees[j], trees[j + 1], results[j])
        invariant old(trace) <= trace && |starts| == i + 1 && starts[0] == |old(trace)| && starts[i] == |trace|
        invariant CutUp(trace, starts, trees, superblock.generation)
      {
        ghost var before, generation := trace, superblock.generation;
        var one; ghost var t';
        one, t' := Do(ops[i], trees[i]);
        LastState(t');
        Durable(t');
        CutUpMore(before, starts, trees, generation, trace, t', superblock.generation);
        results, trees, spares, starts := results + [one], trees + [t'], spares + [Spare()], starts + [|trace|];
        i := i + 1;
      }
    }

    lemma LastState(t: Node)
      requires Valid(t)
      ensures trace != [] && trace[|trace| - 1] == disk
    {
    }

    /** An image that holds a tree, mounted and worked on. */
    static method MountAndRun(img: Image, ops: seq<Op>, ghost t: Node)
      returns (fs: FileSystem, results: seq<Result<()>>, ghost s: Session)
      requires MountsTo(img, t) && Generation(img) + |ops| < 0x1_0000_0000_0000_0000
      ensures fresh(fs) && s.img == img && s.ops == ops && s.results == results && s.trace == fs.trace
      ensures Survives(s) && Sound(s) && s.trees[0] == t
      ensures fs.Valid(s.trees[|ops|]) && fs.Spare() == s.spares[|ops|]
    {
      hide MountsTo, CrashImage, Outcome, CutUp, FileSystem.Valid, DecodeSuper, SpareSet, ChooseSuper, ImageBitmap, Marks;
      ImageSize(img, t);
      var mounted := Mount(img);
      fs := mounted.value;
      ghost var first := fs.superblock.generation;
      ghost var trees, spares, starts;
      results, trees, spares, starts := fs.Run(ops, t);
      CutUpLater(fs.trace, starts, trees, fs.superblock.generation, first + |ops|);
      s := Session(img, ops, results, trees, spares, fs.trace, starts);
    }

    /** What mounting finds after a change that succeeded: the new tree, and as leaked the blocks the change gave up
        besides, because they are released in memory only. The old root's own blocks are among them; there are
        none exactly when the old root was the empty one that formatting leaves in the metadata area. */
    method DoAndRemount(op: Op, ghost t: Node) returns (r: Result<()>, again: Result<FileSystem>, ghost t': Node)
      requires Valid(t) && superblock.generation + 1 < 0x1_0000_0000_0000_0000
      modifies this
      ensures Valid(t') && |disk.durable| == |old(disk.durable)|
      ensures Outcome(|disk.durable|, old(Spare()), Spare(), op, t, t', r)
      ensures r.Ok? ==> Leaked(t') == old(Leaked(t))
      ensures r.Ok? ==>
                && again.Ok? && fresh(again.value) && again.value.Valid(t')
                && again.value.Leaked(t') == Leaked(t') + (Footprint(t) - Footprint(t') - Reserved(|disk.durable|))
      ensures r.Ok? ==>
                && OwnBlocks(t) - Reserved(|disk.durable|) <= again.value.Leaked(t') - Leaked(t')
                && (again.value.Leaked(t') == Leaked(t') <==> t.block < FirstData(|disk.durable|) && t.blocks == [])
    {
      hide MountsTo, Outcome, CrashSafe, Footprint, Reserved, Marks, FullyMarked, Stray, TreeOn, MarkedOnDisk, DecodeSuper,
           ImageBitmap, Spare, Need, NamesAfter, Components, OwnBlocks;
      ghost var was, sb := disk.durable, superblock;
      r, t' := Do(op, t);
      CommittedMounts(disk.durable, superblock, liveSlot, t');
      again := Mount(disk.durable);
      if r.Ok? {
        GivenUpBlocks(was, sb, t, Footprint(t'));
        LeakedApart(Footprint(t), Reserved(|was|), old(Marks(bitmap)), Footprint(t) - Footprint(t') - Reserved(|was|));
      }
    }

    /** What a successful write stored is what the kernel then reads. */
    method WriteThenRead(path: seq<Byte>, data: seq<Byte>, ghost t: Node)
      returns (w: Result<()>, back: Result<seq<Byte>>, ghost t': Node)
      requires Valid(t) && superblock.generation + 1 < 0x1_0000_0000_0000_0000
      modifies this
      ensures w.Ok? ==> back == Ok(data)
    {
      hide Valid, CrashSafe, Components, FullyMarked, Leaked, ReadResult, ReadObstacle, Walk, Obstacle;
      w, t' := Do(WriteOp(path, data, None), t);
      back := ReadFile(path, None, t');
      if w.Ok? {
        WrittenInfo(|disk.durable|, old(Spare()), Spare(), t, t', path, data, w);
        ReadAfter(t', Components(path), data);
      }
    }
  }
}
