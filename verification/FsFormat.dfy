/** The first tree: a root with nothing in it, and a bitmap that agrees. Every run starts here. */
module FsFormat {
  import opened FsCodec
  import opened FsTree
  import opened FsDisk
  import opened FsSpec
  import opened FsPath
  import opened FileSystems

  const SYSTEM: U32 := 0

  lemma ZeroMarks(n: nat)
    ensures Marks(Zeros(n)) == {}
  {
    forall k: nat ensures !BitSet(0, k) { ZeroBit(k); }
  }

  lemma {:induction false} ZeroBit(k: nat)
    ensures !BitSet(0, k)
  {
    if k > 0 { ZeroBit(k - 1); }
  }

  /** Metadata, and bits past the end of the device, are marked before anything is allocated. */
  method FormatBitmap(total: nat) returns (bitmap: seq<Byte>)
    requires 0 < total && FirstData(total) < total
    ensures |bitmap| == BLOCK_SIZE * BitmapBlocks(total) && Marks(bitmap) == Reserved(total)
  {
    LayoutFacts(total);
    var bytes := BLOCK_SIZE * BitmapBlocks(total);
    bitmap := Zeros(bytes);
    ZeroMarks(bytes);
    var block := 0;
    while block < FirstData(total)
      invariant 0 <= block <= FirstData(total) && |bitmap| == bytes
      invariant forall b: nat :: b in Marks(bitmap) <==> b < block
    {
      MarkBitMarks(bitmap, block, true);
      bitmap := MarkBit(bitmap, block, true);
      block := block + 1;
    }
    block := total;
    while block < 8 * bytes
      invariant total <= block <= 8 * bytes && |bitmap| == bytes
      invariant forall b: nat :: b in Marks(bitmap) <==> b < block && !Usable(total, b)
    {
      MarkBitMarks(bitmap, block, true);
      bitmap := MarkBit(bitmap, block, true);
      block := block + 1;
    }
  }

  /** The device with the bitmap's sectors written. */
  method PutBitmap(d: Disk, bitmap: seq<Byte>) returns (d': Disk)
    requires ValidDisk(d) && |bitmap| == BLOCK_SIZE * BitmapBlocks(|d.durable|) && FirstData(|d.durable|) < |d.durable|
    ensures ValidDisk(d') && |d'.durable| == |d.durable| && BitmapWritten(Visible(d), Visible(d'), bitmap)
  {
    hide Visible, BitmapSector;
    d' := d;
    var j := 0;
    while j < BitmapBlocks(|d.durable|)
      invariant 0 <= j <= BitmapBlocks(|d.durable|) && ValidDisk(d') && |d'.durable| == |d.durable|
      invariant forall i :: 0 <= i < j ==> Visible(d')[2 + i] == BitmapSector(bitmap, i)
      invariant forall s :: 0 <= s < |d.durable| && !(2 <= s < 2 + j) ==> Visible(d')[s] == Visible(d)[s]
    {
      PutVisible(d', 2 + j, BitmapSector(bitmap, j));
      d' := Put(d', 2 + j, BitmapSector(bitmap, j));
      j := j + 1;
    }
  }

  function EmptyRoot(block: U64): Node {
    DirNode(MakeEntry([], 0), block, SYSTEM, DEFAULT_MODE, [], [])
  }

  lemma EmptyRootStored(img: Image, block: U64)
    requires HoldsInode(img, block, Inode(true, SYSTEM, DEFAULT_MODE, 0, []))
    ensures Shape(EmptyRoot(block)) && Rep(img, EmptyRoot(block)) && Footprint(EmptyRoot(block)) == {block}
    ensures forall q: seq<Name> ::
              Lookup(EmptyRoot(block), q) == if q == [] then Some(DirInfo(SYSTEM, DEFAULT_MODE)) else None
  {
    hide DecodeInode;
    var n := EmptyRoot(block);
    assert EntriesOf([]) == [];
    DirParts(img, n);
    forall q: seq<Name> | q != []
      ensures Lookup(n, q) == None
    {
    }
  }

  /** Both superblocks written over a flushed bitmap and root: generation 1 wins. */
  lemma FormattedCommitted(before: Image, flushed: Image, bitmap: seq<Byte>, sb: SuperBlock, a: Sector, b: Sector, img: Image)
    requires ValidLayout(|flushed|, sb) && sb.generation == 1 && sb.rootInode == FirstData(|flushed|) - 1
    requires BitmapWritten(before, flushed, bitmap) && Marks(bitmap) == Reserved(|flushed|)
    requires HoldsInode(flushed, sb.rootInode, Inode(true, SYSTEM, DEFAULT_MODE, 0, []))
    requires DecodeSuper(a) == Some(sb) && DecodeSuper(b) == Some(sb.(generation := 0))
    requires img == flushed[0 := a][1 := b]
    ensures Committed(img, sb, 0, EmptyRoot(sb.rootInode))
    ensures ImageBitmap(img, BitmapBlocks(|img|)) == bitmap
  {
    hide DecodeSuper, DecodeInode, Rep, Shape, Footprint, ImageBitmap;
    var root := sb.rootInode;
    EmptyRootStored(img, root);
    LayoutFacts(|img|);
    ImageBitmapWritten(before, flushed, bitmap);
    ImageBitmapFrame(flushed, img, BitmapBlocks(|img|));
    BitmapWrittenMarks(before, flushed, bitmap, Reserved(|img|));
    assert root in Reserved(|img|);
    forall x | x in Reserved(|img|) + {root}
      ensures 2 + x / 4096 < |img| && BitOnDisk(img, x)
    {
      assert BitOnDisk(flushed, x);
    }
  }

  /** A valid file system with the empty root, made out of any image large enough. */
  method Format(device: Image) returns (r: Result<FileSystem>, ghost t: Node)
    requires |device| < 0x1_0000_0000_0000_0000
    ensures r.Err? <==> |device| < 16 || FirstData(|device|) >= |device|
    ensures r.Err? ==> r.error == Full
    ensures r.Ok? ==> fresh(r.value) && r.value.Valid(t) && r.value.Leaked(t) == {}
    ensures r.Ok? ==>
              && t == EmptyRoot(FirstData(|device|) - 1) && r.value.superblock.generation == 1
              && |r.value.disk.durable| == |device| && r.value.Spare() == |device| - FirstData(|device|)
    ensures r.Ok? ==> forall q: seq<Name> ::
              Lookup(t, q) == if q == [] then Some(DirInfo(SYSTEM, DEFAULT_MODE)) else None
  {
    hide Visible, DecodeSuper, EncodeSuper, DecodeInode, EncodeInode, Rep, Shape, Footprint, Committed, MountsTo,
         ImageBitmap, Marks, Reserved, Lookup;
    t := EmptyRoot(0);
    var total := |device|;
    if total < 16 {
      return Err(Full), t;
    }
    var rootInode := 2 + BitmapBlocks(total);
    if rootInode + 1 >= total {
      return Err(Full), t;
    }
    var bitmap := FormatBitmap(total);
    var d := PutBitmap(Disk(device, []), bitmap);
    ghost var img0 := Visible(Disk(device, []));
    ghost var img1 := Visible(d);
    var root := Inode(true, SYSTEM, DEFAULT_MODE, 0, []);
    InodeRoundTrip(root);
    PutVisible(d, rootInode, EncodeInode(root));
    d := Flush(Put(d, rootInode, EncodeInode(root)));
    ghost var flushed := d.durable;
    assert BitmapWritten(img0[rootInode := EncodeInode(root)], flushed, bitmap);

    var sb := SuperBlock(VERSION, 1, total, 2, BitmapBlocks(total), rootInode, rootInode + 1);
    SuperRoundTrip(sb);
    SuperRoundTrip(sb.(generation := 0));
    var first, second := EncodeSuper(sb), EncodeSuper(sb.(generation := 0));
    assert Visible(d) == flushed by { FlushedVisible(flushed); }
    PutVisible(d, 0, first);
    d := Put(d, 0, first);
    PutVisible(d, 1, second);
    d := Flush(Put(d, 1, second));
    FormattedCommitted(img0[rootInode := EncodeInode(root)], flushed, bitmap, sb, first, second, d.durable);
    t := EmptyRoot(rootInode);
    CommittedMounts(d.durable, sb, 0, t);
    EmptyRootStored(flushed, rootInode);
    r := FileSystem.Mount(d.durable);
    ReservedRoot(total);
    AllSpare(total);
  }

  lemma FlushedVisible(img: Image)
    ensures Visible(Disk(img, [])) == img
  {
  }

  lemma {:induction false} RangeSize(lo: nat, hi: nat, bs: set<nat>)
    requires lo <= hi && forall b: nat :: b in bs <==> lo <= b < hi
    ensures |bs| == hi - lo
    decreases hi
  {
    if lo < hi {
      RangeSize(lo, hi - 1, bs - {hi - 1});
    } else {
      assert bs == {};
    }
  }

  /** With nothing but metadata marked, the whole data area is spare. */
  lemma AllSpare(total: nat)
    requires FirstData(total) <= total
    ensures |SpareSet(total, Reserved(total))| == total - FirstData(total)
  {
    RangeSize(FirstData(total), total, SpareSet(total, Reserved(total)));
  }

  lemma ReservedRoot(total: nat)
    requires 0 < total
    ensures FirstData(total) - 1 in Reserved(total)
  {
    LayoutFacts(total);
  }
}
