/** The two ways a change with nothing in its way still fails, met by runs that start from an empty device. */
module FsLimits {
  import opened FsCodec
  import opened FsTree
  import opened FsDisk
  import opened FsPath
  import opened FsSpec
  import opened FileSystems
  import opened FsFormat

  lemma {:induction false} SplitPlain(path: seq<Byte>, part: seq<Byte>)
    requires SLASH !in path && SLASH !in part
    ensures Split(path, part) == if part + path == [] then [] else [part + path]
    decreases path
  {
    if path != [] {
      SplitPlain(path[1..], part + [path[0]]);
      assert part + [path[0]] + path[1..] == part + path;
    } else {
      assert part + path == part;
    }
  }

  /** A path without separators is one component, and the name a creation checks. */
  lemma PlainPath(name: Name)
    requires GoodName(name)
    ensures Components(name) == [name] && FinalName(name) == Ok(name)
  {
    SplitPlain(name, []);
    assert [] + name == name;
    FinalNameIsLastComponent(name);
  }

  /** Creating a file in the root, as the kernel. */
  function CreateIn(name: Name): Op {
    CreateOp(name, false, None, SYSTEM)
  }

  lemma NamedChild(t: Node, name: Name)
    requires t.DirNode?
    ensures Walk(t, [name]) == Find(t.items, name)
  {
    assert [name][1..] == [];
  }

  /** The root an empty filesystem starts with lies outside the data area. */
  lemma RootNotHeld(total: nat)
    requires FirstData(total) < 0x1_0000_0000_0000_0000
    ensures Held(total, EmptyRoot(FirstData(total) - 1)) == 0
  {
    var t := EmptyRoot(FirstData(total) - 1);
    assert Footprint(t) == {FirstData(total) - 1};
    assert Footprint(t) * SpareSet(total, {}) == {};
  }

  /** What it takes to create a file in the root. */
  lemma CreateVerdict(spare: nat, t: Node, name: Name)
    requires t.DirNode? && GoodName(name) && Lookup(t, [name]) == None
    ensures Components(name) == [name]
    ensures Need(t, [name], ActionOf(CreateIn(name))) == DirBlocks(|t.items| + 1) + 2
    ensures NamesAfter(t, [name], ActionOf(CreateIn(name))) == |t.items| + 1
    ensures EarlyError(CreateIn(name)) == None
    ensures OpVerdict(spare, CreateIn(name), t) ==
            if |t.items| >= ENTRIES_PER_BLOCK * DIRECT_BLOCKS then (if spare < 1 then Some(Full) else Some(TooLarge))
            else if spare < DirBlocks(|t.items| + 1) + 2 then Some(Full) else None
  {
    hide DirBlocks, Components, FinalName;
    PlainPath(name);
    var path := [name];
    assert path[1..] == [];
    NamedChild(t, name);
    var a := Create(false, SYSTEM);
    assert Need(t, path, a) == NeedBelow(t, path, a) + DirBlocks(NamesAfter(t, path, a)) + 1;
  }

  /** A device of 16 blocks has 12 for data. A file takes three of them; its 13 blocks of contents, their inode and
      a new root would take 16. */
  method DeviceFills(device: Image) returns (fs: FileSystem, made: Result<()>, written: Result<()>, ghost t: Node)
    requires |device| == 16
    ensures made == Ok(()) && written == Err(Full)
    ensures fresh(fs) && fs.Valid(t) && fs.FullyMarked()
    ensures Lookup(t, [[65]]) == Some(FileInfo(SYSTEM, DEFAULT_MODE, []))
  {
    hide Components, Lookup, FileSystem.Valid, FileSystem.Spare, FileSystem.FullyMarked, FileSystem.Leaked, Footprint,
         Reserved, CrashSafe;
    var formatted, t0 := Format(device);
    fs := formatted.value;
    RootNotHeld(|device|);
    var name: Name := [65];
    CreateVerdict(fs.Spare(), t0, name);
    ghost var t1;
    made, t1 := fs.Do(CreateIn(name), t0);
    var data := Zeros(13 * BLOCK_SIZE);
    WriteVerdict(fs.Spare(), t1, name, data);
    written, t := fs.Do(WriteOp(name, data, None), t1);
  }

  /** What it takes to write a file in the root. */
  lemma WriteVerdict(spare: nat, t: Node, name: Name, data: seq<Byte>)
    requires t.DirNode? && GoodName(name) && CeilDiv(|data|, BLOCK_SIZE) <= DIRECT_BLOCKS
    requires Lookup(t, [name]).Some? && Lookup(t, [name]).value.FileInfo?
    ensures OpVerdict(spare, WriteOp(name, data, None), t) ==
            if spare < CeilDiv(|data|, BLOCK_SIZE) + DirBlocks(|t.items|) + 2 then Some(Full) else None
  {
    hide DirBlocks, Components, FinalName, CeilDiv;
    PlainPath(name);
    var path := [name];
    assert path[1..] == [];
    NamedChild(t, name);
    var a := Replace(data, None);
    assert Need(t, path, a) == NeedBelow(t, path, a) + DirBlocks(NamesAfter(t, path, a)) + 1;
  }

  lemma ItemsNeedBlocks(fs: FileSystem, t: Node)
    requires fs.Valid(t) && t.items != []
    ensures t.blocks != []
  {
    hide Rep, Shape, Footprint, DirEntries, DecodeSuper, MarkedOnDisk;
    ShapeParts(fs.disk.durable, t);
    NothingTaken(fs.disk.durable, []);
  }

  /** Two files created and the device mounted again: the directory block and the inode of the root that held the
      first are marked, and nothing refers to them. The file system that was running had leaked nothing. */
  method RemountLeaks(device: Image) returns (fs: FileSystem, again: FileSystem, ghost t: Node)
    requires |device| == 16
    ensures fresh(fs) && fs.Valid(t) && fs.Leaked(t) == {}
    ensures fresh(again) && again.Valid(t) && again.Leaked(t) != {}
    ensures Lookup(t, [[65]]).Some? && Lookup(t, [[66]]).Some?
  {
    hide Components, Lookup, FileSystem.Valid, FileSystem.Spare, FileSystem.FullyMarked, FileSystem.Leaked, Footprint,
         Reserved, CrashSafe, OwnBlocks, Held, FileSystem.OnDisk, Marks, Claimed;
    var formatted, t0 := Format(device);
    fs := formatted.value;
    CreateVerdict(fs.Spare(), t0, [65]);
    var first, t1 := fs.Do(CreateIn([65]), t0);
    assert [[66]][0] != [[65]][0];
    CreateVerdict(fs.Spare(), t1, [66]);
    ItemsNeedBlocks(fs, t1);
    var second, mounted;
    second, mounted, t := fs.DoAndRemount(CreateIn([66]), t1);
    again := mounted.value;
  }

  /** Two letters: 676 different names. */
  function Letters(i: nat): (r: Name)
    requires i < 676
    ensures GoodName(r)
  {
    [65 + i / 26, 65 + i % 26]
  }

  lemma LettersDiffer(i: nat, j: nat)
    requires i < j < 676
    ensures Letters(i) != Letters(j)
  {
  }

  /** None of the names from `i` on is in the root. */
  ghost predicate Unused(t: Node, i: nat) {
    forall j: nat :: i <= j < 676 ==> Lookup(t, [Letters(j)]) == None
  }

  lemma UsedUpTo(t: Node, t': Node, i: nat, info: Option<Info>)
    requires i < 676 && Unused(t, i) && UpdatedAt(t, t', [Letters(i)], info)
    ensures Unused(t', i + 1)
  {
    hide Lookup, Letters;
    forall j: nat | i + 1 <= j < 676
      ensures Lookup(t', [Letters(j)]) == None
    {
      LettersDiffer(i, j);
      assert [Letters(i)][0] != [Letters(j)][0];
    }
  }

  lemma DirBlocksBound(names: nat)
    requires names <= ENTRIES_PER_BLOCK * DIRECT_BLOCKS
    ensures 1 <= DirBlocks(names) <= DIRECT_BLOCKS
  {
  }

  /** 480 files in the root of an empty device. */
  method FillRoot(device: Image) returns (fs: FileSystem, ghost t: Node)
    requires |device| == 40000
    ensures fresh(fs) && fs.Valid(t) && fs.superblock.generation <= 481 && fs.Spare() >= 10000 && fs.Leaked(t) == {}
    ensures t.DirNode? && |t.items| == ENTRIES_PER_BLOCK * DIRECT_BLOCKS && Unused(t, 480)
  {
    hide Components, Lookup, FileSystem.Valid, FileSystem.Spare, FileSystem.FullyMarked, FileSystem.Leaked, Footprint,
         Reserved, CrashSafe, DirBlocks, Letters, Unused, UpdatedAt, Need, NamesAfter, Marks, Held, OpVerdict, Effect;
    var formatted, t0 := Format(device);
    fs := formatted.value;
    t := t0;
    EmptyUnused(t);
    var i := 0;
    while i < 480
      invariant 0 <= i <= 480 && fresh(fs) && fs.Valid(t) && t.DirNode? && |t.items| == i
      invariant Unused(t, i) && fs.Leaked(t) == {}
      invariant fs.Spare() + 62 * i >= 39987 && fs.superblock.generation <= 1 + i
    {
      var name := Letters(i);
      UnusedName(t, i);
      CreateVerdict(fs.Spare(), t, name);
      DirBlocksBound(i + 1);
      ghost var was := t;
      var made;
      made, t := fs.Do(CreateIn(name), t);
      UsedUpTo(was, t, i, Effect(ActionOf(CreateIn(name)), Walk(was, [name])));
      i := i + 1;
    }
  }

  /** A full root takes no other file: the name is free, nothing is in the way and there are blocks to spare, and
      the creation fails all the same. The inode it stored first stays marked though nothing refers to it. */
  method DirectoryFills(device: Image) returns (fs: FileSystem, r: Result<()>, ghost t: Node)
    requires |device| == 40000
    ensures r == Err(TooLarge) && fresh(fs) && fs.Valid(t) && !fs.FullyMarked()
    ensures t.DirNode? && |t.items| == ENTRIES_PER_BLOCK * DIRECT_BLOCKS && Lookup(t, [Letters(480)]) == None
    ensures |fs.Leaked(t)| == 1
  {
    hide Components, Lookup, FileSystem.Valid, FileSystem.Leaked, Footprint,
         Reserved, CrashSafe, DirBlocks, Letters, Unused, UpdatedAt, Need, NamesAfter, Marks, Held, OpVerdict, SpareSet;
    fs, t := FillRoot(device);
    UnusedName(t, 480);
    CreateVerdict(fs.Spare(), t, Letters(480));
    ghost var marks := Marks(fs.bitmap);
    r, t := fs.Do(CreateIn(Letters(480)), t);
    assert fs.Leaked(t) == Marks(fs.bitmap) - marks;
    NoneSpare(|fs.disk.durable|, Marks(fs.bitmap));
  }

  lemma EmptyUnused(t: Node)
    requires forall q: seq<Name> :: q != [] ==> Lookup(t, q) == None
    ensures Unused(t, 0)
  {
  }

  lemma UnusedName(t: Node, i: nat)
    requires i < 676 && Unused(t, i)
    ensures Lookup(t, [Letters(i)]) == None
  {
  }
}
