/** The block device, the allocation bitmap on it, mounting, and what a power cut leaves.

    A device is its durable sectors plus the writes it has accepted and not yet flushed. */
module FsDisk {
  import opened FsCodec
  import opened FsTree

  // ---- bits of the bitmap ----

  function Pow2(n: nat): (p: nat)
    ensures p >= 1
  {
    if n == 0 then 1 else 2 * Pow2(n - 1)
  }

  predicate BitSet(b: nat, k: nat) {
    if k == 0 then b % 2 == 1 else BitSet(b / 2, k - 1)
  }

  /** `b` with bit `k` set or cleared, the others as they were. */
  function WithBit(b: nat, k: nat, on: bool): nat {
    if k == 0 then 2 * (b / 2) + (if on then 1 else 0) else 2 * WithBit(b / 2, k - 1, on) + b % 2
  }

  lemma {:induction false} WithBitBits(b: nat, k: nat, on: bool, j: nat)
    ensures BitSet(WithBit(b, k, on), j) <==> if j == k then on else BitSet(b, j)
  {
    if k > 0 && j > 0 { WithBitBits(b / 2, k - 1, on, j - 1); }
  }

  lemma {:induction false} WithBitBound(b: nat, k: nat, on: bool, n: nat)
    requires b < Pow2(n) && k < n
    ensures WithBit(b, k, on) < Pow2(n)
  {
    var half := Pow2(n - 1);
    Halves(b, half, if k > 0 then WithBit(b / 2, k - 1, on) else 0);
    if k > 0 {
      WithBitBound(b / 2, k - 1, on, n - 1);
    }
  }

  lemma Halves(b: nat, half: nat, h: nat)
    requires b < 2 * half
    ensures b / 2 < half && 2 * (b / 2) + 1 < 2 * half && (h < half ==> 2 * h + b % 2 < 2 * half)
  {
  }

  function MarkByte(b: Byte, k: nat, on: bool): (r: Byte)
    requires k < 8
  {
    WithBitBound(b, k, on, 8); WithBit(b, k, on)
  }

  predicate Allocated(bitmap: seq<Byte>, block: nat) {
    block / 8 < |bitmap| && BitSet(bitmap[block / 8], block % 8)
  }

  ghost function Marks(bitmap: seq<Byte>): set<nat> {
    set b: nat | b < 8 * |bitmap| && Allocated(bitmap, b)
  }

  function MarkBit(bitmap: seq<Byte>, block: nat, used: bool): (r: seq<Byte>)
    requires block / 8 < |bitmap|
    ensures |r| == |bitmap|
  {
    bitmap[block / 8 := MarkByte(bitmap[block / 8], block % 8, used)]
  }

  lemma MarkBitMarks(bitmap: seq<Byte>, block: nat, used: bool)
    requires block / 8 < |bitmap|
    ensures Marks(MarkBit(bitmap, block, used)) == if used then Marks(bitmap) + {block} else Marks(bitmap) - {block}
  {
    var after := MarkBit(bitmap, block, used);
    forall b: nat | b < 8 * |bitmap|
      ensures Allocated(after, b) <==> if b == block then used else Allocated(bitmap, b)
    {
      WithBitBits(bitmap[block / 8], block % 8, used, b % 8);
    }
  }

  // ---- layout ----

  function BitmapBlocks(total: nat): nat {
    CeilDiv(CeilDiv(total, 8), BLOCK_SIZE)
  }

  function FirstData(total: nat): nat {
    3 + BitmapBlocks(total)
  }

  predicate ValidLayout(total: nat, sb: SuperBlock) {
    && sb.version == VERSION
    && sb.totalBlocks == total
    && sb.bitmapStart == 2
    && sb.bitmapBlocks == BitmapBlocks(total)
    && sb.firstDataBlock == FirstData(total) < total
  }

  predicate Usable(total: nat, b: nat) {
    FirstData(total) <= b < total
  }

  /** Blocks the allocator must never hand out: metadata, and bits past the device's end. */
  ghost function Reserved(total: nat): set<nat> {
    set b: nat | b < 4096 * BitmapBlocks(total) && !Usable(total, b)
  }

  /** Where tree blocks may lie: the data area and the block the root was formatted in. */
  ghost predicate InDataArea(total: nat, bs: set<nat>) {
    forall b :: b in bs ==> FirstData(total) - 1 <= b < total
  }

  lemma LayoutFacts(total: nat)
    ensures total <= 4096 * BitmapBlocks(total)
    ensures total > 0 ==> BitmapBlocks(total) >= 1
  {
  }

  // ---- the bitmap as sectors ----

  /** The bitmap as mounting reads it: `n` sectors from sector 2. */
  function ImageBitmap(img: Image, n: nat): (s: seq<Byte>)
    requires 2 + n <= |img|
    ensures |s| == BLOCK_SIZE * n
  {
    if n == 0 then [] else ImageBitmap(img, n - 1) + img[1 + n]
  }

  lemma {:induction false} ImageBitmapAt(img: Image, n: nat, i: nat)
    requires 2 + n <= |img| && i < BLOCK_SIZE * n
    ensures ImageBitmap(img, n)[i] == img[2 + i / BLOCK_SIZE][i % BLOCK_SIZE]
  {
    if i < BLOCK_SIZE * (n - 1) { ImageBitmapAt(img, n - 1, i); }
  }

  predicate BitOnDisk(img: Image, b: nat)
    requires 2 + b / 4096 < |img|
  {
    BitSet(img[2 + b / 4096][(b % 4096) / 8], b % 8)
  }

  ghost predicate MarkedOnDisk(img: Image, bs: set<nat>) {
    forall b :: b in bs ==> 2 + b / 4096 < |img| && BitOnDisk(img, b)
  }

  lemma ImageBitmapMarks(img: Image, n: nat, b: nat)
    requires 2 + n <= |img| && b < 4096 * n
    ensures Allocated(ImageBitmap(img, n), b) <==> BitOnDisk(img, b)
  {
    ImageBitmapAt(img, n, b / 8);
    assert (b / 8) / 512 == b / 4096 && (b / 8) % 512 == (b % 4096) / 8;
  }

  function BitmapSector(bitmap: seq<Byte>, j: nat): Sector
    requires BLOCK_SIZE * (j + 1) <= |bitmap|
  {
    bitmap[BLOCK_SIZE * j..BLOCK_SIZE * (j + 1)]
  }

  lemma BitmapSectorBit(bitmap: seq<Byte>, b: nat)
    requires b < 8 * |bitmap| && |bitmap| % BLOCK_SIZE == 0
    ensures BLOCK_SIZE * (b / 4096 + 1) <= |bitmap|
    ensures Allocated(bitmap, b) <==> BitSet(BitmapSector(bitmap, b / 4096)[(b % 4096) / 8], b % 8)
  {
    assert b / 8 == 512 * (b / 4096) + (b % 4096) / 8;
  }

  // ---- the device ----

  datatype Write = Write(sector: nat, data: Sector)
  datatype Disk = Disk(durable: Image, pending: seq<Write>)

  predicate ValidDisk(d: Disk) {
    forall i :: 0 <= i < |d.pending| ==> d.pending[i].sector < |d.durable|
  }

  function ApplyAll(img: Image, ws: seq<Write>): (r: Image)
    requires forall i :: 0 <= i < |ws| ==> ws[i].sector < |img|
    ensures |r| == |img|
  {
    if ws == [] then img
    else ApplyAll(img, ws[..|ws| - 1])[ws[|ws| - 1].sector := ws[|ws| - 1].data]
  }

  /** What a read returns. */
  function Visible(d: Disk): (img: Image)
    requires ValidDisk(d)
    ensures |img| == |d.durable|
  {
    ApplyAll(d.durable, d.pending)
  }

  function Put(d: Disk, sector: nat, data: Sector): Disk {
    d.(pending := d.pending + [Write(sector, data)])
  }

  function Flush(d: Disk): Disk
    requires ValidDisk(d)
  {
    Disk(Visible(d), [])
  }

  lemma PutVisible(d: Disk, sector: nat, data: Sector)
    requires ValidDisk(d) && sector < |d.durable|
    ensures ValidDisk(Put(d, sector, data))
    ensures Visible(Put(d, sector, data)) == Visible(d)[sector := data]
  {
    assert Put(d, sector, data).pending[..|d.pending|] == d.pending;
  }

  ghost predicate InFlight(d: Disk, s: nat) {
    exists i :: 0 <= i < |d.pending| && d.pending[i].sector == s
  }

  ghost predicate Accepted(d: Disk, s: nat, data: Sector) {
    exists i :: 0 <= i < |d.pending| && d.pending[i] == Write(s, data)
  }

  lemma {:induction false} NotInFlight(d: Disk, s: nat)
    requires ValidDisk(d) && s < |d.durable| && !InFlight(d, s)
    ensures Visible(d)[s] == d.durable[s]
    decreases |d.pending|
  {
    if d.pending != [] {
      var e := Disk(d.durable, d.pending[..|d.pending| - 1]);
      assert forall i :: 0 <= i < |e.pending| ==> e.pending[i] == d.pending[i];
      NotInFlight(e, s);
    }
  }

  // ---- mounting ----

  datatype Mounted = Mounted(superblock: SuperBlock, slot: nat, bitmap: seq<Byte>)

  function ChooseSuper(img: Image): Option<(SuperBlock, nat)>
    requires |img| >= 2
  {
    match (DecodeSuper(img[0]), DecodeSuper(img[1]))
    case (Some(a), Some(b)) => if a.generation >= b.generation then Some((a, 0)) else Some((b, 1))
    case (Some(a), None) => Some((a, 0))
    case (None, Some(b)) => Some((b, 1))
    case (None, None) => None
  }

  function MountImage(img: Image): Result<Mounted>
    requires |img| >= 2
  {
    match ChooseSuper(img)
    case None => Err(NotFormatted)
    case Some((sb, slot)) =>
      if sb.version != VERSION then Err(WrongVersion)
      else if sb.bitmapStart != 2 || 2 + sb.bitmapBlocks > |img| then Err(Corrupt)
      else Ok(Mounted(sb, slot, ImageBitmap(img, sb.bitmapBlocks)))
  }

  // ---- a committed tree ----

  predicate Older(block: Sector, sb: SuperBlock) {
    match DecodeSuper(block)
    case None => true
    case Some(other) => other.generation < sb.generation
  }

  /** Slot `slot` of the image holds the winning superblock, it names tree `t`, and the
      bitmap on the same image marks every block of `t`. */
  ghost predicate Committed(img: Image, sb: SuperBlock, slot: nat, t: Node) {
    && slot < 2 <= |img|
    && ValidLayout(|img|, sb)
    && DecodeSuper(img[slot]) == Some(sb)
    && Older(img[1 - slot], sb)
    && TreeOn(img, sb, t)
    && MarkedOnDisk(img, Reserved(|img|) + Footprint(t))
  }

  ghost predicate TreeOn(img: Image, sb: SuperBlock, t: Node) {
    && t.DirNode? && t.block == sb.rootInode
    && Shape(t) && Rep(img, t)
    && InDataArea(|img|, Footprint(t))
  }

  /** Mounting this image succeeds and yields tree `t`, with a bitmap that protects it. */
  ghost predicate MountsTo(img: Image, t: Node) {
    && |img| >= 2
    && MountImage(img).Ok?
    && var m := MountImage(img).value;
       && Committed(img, m.superblock, m.slot, t)
       && Reserved(|img|) + Footprint(t) <= Marks(m.bitmap)
  }

  lemma WinnerMounts(img: Image, sb: SuperBlock, slot: nat)
    requires slot < 2 <= |img| && DecodeSuper(img[slot]) == Some(sb) && Older(img[1 - slot], sb)
    ensures ChooseSuper(img) == Some((sb, slot))
  {
    hide DecodeSuper;
  }

  lemma BitmapProtects(img: Image, n: nat, keep: set<nat>)
    requires 2 + n <= |img| && MarkedOnDisk(img, keep)
    requires forall b :: b in keep ==> b < 4096 * n
    ensures keep <= Marks(ImageBitmap(img, n))
  {
    forall b | b in keep
      ensures b in Marks(ImageBitmap(img, n))
    {
      ImageBitmapMarks(img, n, b);
    }
  }

  lemma CommittedMounts(img: Image, sb: SuperBlock, slot: nat, t: Node)
    requires Committed(img, sb, slot, t)
    ensures MountsTo(img, t)
    ensures MountImage(img) == Ok(Mounted(sb, slot, ImageBitmap(img, BitmapBlocks(|img|))))
  {
    hide DecodeSuper, Rep, Shape, Footprint;
    var n := BitmapBlocks(|img|);
    LayoutFacts(|img|);
    WinnerMounts(img, sb, slot);
    assert forall b :: b in Footprint(t) ==> b < |img|;
    BitmapProtects(img, n, Reserved(|img|) + Footprint(t));
  }

  // ---- power cuts ----

  /** What the device may hold after power is cut. A sector with no write in flight keeps its
      contents. A superblock in flight holds the old or an accepted value, or is torn and fails
      its checksum. A bitmap sector in flight holds the old or an accepted value. A data block
      in flight may hold anything at all. */
  ghost predicate CrashImage(d: Disk, img: Image) {
    && |img| == |d.durable|
    && forall s :: 0 <= s < |img| ==> CrashSector(d, s, img[s])
  }

  ghost predicate CrashSector(d: Disk, s: nat, now: Sector)
    requires s < |d.durable|
  {
    || now == d.durable[s]
    || (InFlight(d, s) &&
        (|| Accepted(d, s, now)
         || (s < 2 && DecodeSuper(now) == None)
         || FirstData(|d.durable|) <= s))
  }

  /** The image mounts as a tree, committed so many times at most. */
  ghost predicate MountsWithin(img: Image, t: Node, limit: nat) {
    MountsTo(img, t) && MountImage(img).value.superblock.generation <= limit
  }

  /** Every power cut at this state leaves a disk that mounts as one of the two trees. */
  ghost predicate CrashSafe(d: Disk, t0: Node, t1: Node, limit: nat) {
    forall img: Image :: CrashImage(d, img) ==> MountsWithin(img, t0, limit) || MountsWithin(img, t1, limit)
  }

  lemma SafeLater(d: Disk, t0: Node, t1: Node, limit: nat, later: nat)
    requires CrashSafe(d, t0, t1, limit) && limit <= later
    ensures CrashSafe(d, t0, t1, later)
  {
    hide CrashImage, MountsTo, MountImage;
  }

  /** A write in flight before the superblock's: to a data block outside the tree, or to a
      bitmap sector that keeps every block of the tree marked. */
  ghost predicate Harmless(w: Write, total: nat, keep: set<nat>) {
    && w.sector < total
    && (|| (FirstData(total) <= w.sector && w.sector !in keep)
        || (2 <= w.sector < FirstData(total) - 1 &&
            forall b :: b in keep && 2 + b / 4096 == w.sector ==> BitSet(w.data[(b % 4096) / 8], b % 8)))
  }

  ghost predicate AllHarmless(d: Disk, keep: set<nat>) {
    forall i :: 0 <= i < |d.pending| ==> Harmless(d.pending[i], |d.durable|, keep)
  }

  /** Cutting power while only harmless writes are in flight leaves the tree as it was. */
  lemma CrashBeforeSuper(d: Disk, sb: SuperBlock, slot: nat, t: Node, img: Image)
    requires Committed(d.durable, sb, slot, t)
    requires AllHarmless(d, Reserved(|d.durable|) + Footprint(t))
    requires CrashImage(d, img)
    ensures Committed(img, sb, slot, t)
  {
    hide DecodeSuper, Rep, Shape, Footprint;
    var total := |img|;
    var keep := Reserved(total) + Footprint(t);
    forall s: nat | s < 2
      ensures img[s] == d.durable[s]
    {
      assert CrashSector(d, s, img[s]);
    }
    forall b | b in Footprint(t)
      ensures img[b] == d.durable[b]
    {
      assert CrashSector(d, b, img[b]);
    }
    assert Agree(d.durable, img, Footprint(t));
    RepFrame(d.durable, img, t);
    forall b | b in keep
      ensures 2 + b / 4096 < |img| && BitOnDisk(img, b)
    {
      assert BitOnDisk(d.durable, b);
      assert CrashSector(d, 2 + b / 4096, img[2 + b / 4096]);
      LayoutFacts(total);
    }
  }

  /** Whatever happens to the other slot, the tree stays committed while that slot loses. */
  lemma OtherSlotLoses(img0: Image, sb: SuperBlock, slot: nat, t: Node, img: Image)
    requires Committed(img0, sb, slot, t)
    requires |img| == |img0| && forall s :: 0 <= s < |img| && s != 1 - slot ==> img[s] == img0[s]
    requires Older(img[1 - slot], sb)
    ensures Committed(img, sb, slot, t)
  {
    hide DecodeSuper, Rep, Shape, Footprint;
    assert Agree(img0, img, Footprint(t));
    RepFrame(img0, img, t);
    forall b | b in Reserved(|img|) + Footprint(t)
      ensures 2 + b / 4096 < |img| && BitOnDisk(img, b)
    {
      assert BitOnDisk(img0, b);
    }
  }

  lemma SuperInFlight(img0: Image, slot: nat, next: Sector, img: Image)
    requires slot < 2 <= |img0|
    requires CrashImage(Disk(img0, [Write(slot, next)]), img)
    ensures forall s :: 0 <= s < |img| && s != slot ==> img[s] == img0[s]
    ensures img[slot] == img0[slot] || img[slot] == next || DecodeSuper(img[slot]) == None
  {
    var d := Disk(img0, [Write(slot, next)]);
    forall s | 0 <= s < |img| && s != slot
      ensures img[s] == img0[s]
    {
      assert CrashSector(d, s, img[s]);
    }
    assert CrashSector(d, slot, img[slot]);
  }

  /** Cutting power while the new superblock is in flight leaves the old tree or the new one. */
  lemma CrashDuringSuper(
    img0: Image, sb: SuperBlock, slot: nat, t: Node, next: Sector, sb': SuperBlock, t': Node, img: Image)
    requires Committed(img0, sb, slot, t)
    requires Committed(img0[1 - slot := next], sb', 1 - slot, t')
    requires CrashImage(Disk(img0, [Write(1 - slot, next)]), img)
    ensures MountsWithin(img, t, sb'.generation) || MountsWithin(img, t', sb'.generation)
  {
    hide DecodeSuper, Rep, Shape, Footprint, MarkedOnDisk, MountImage;
    SuperInFlight(img0, 1 - slot, next, img);
    if img[1 - slot] == next {
      assert img == img0[1 - slot := next];
      CommittedMounts(img, sb', 1 - slot, t');
    } else {
      OtherSlotLoses(img0, sb, slot, t, img);
      CommittedMounts(img, sb, slot, t);
    }
  }

  // ---- the states a commit passes through ----

  lemma HarmlessSafe(d: Disk, sb: SuperBlock, slot: nat, t: Node, other: Node, limit: nat)
    requires Committed(d.durable, sb, slot, t) && sb.generation <= limit
    requires AllHarmless(d, Reserved(|d.durable|) + Footprint(t))
    ensures CrashSafe(d, t, other, limit) && CrashSafe(d, other, t, limit)
  {
    hide Committed, AllHarmless, CrashImage, MountsTo;
    forall img: Image | CrashImage(d, img)
      ensures MountsWithin(img, t, limit)
    {
      CrashBeforeSuper(d, sb, slot, t, img);
      CommittedMounts(img, sb, slot, t);
    }
  }

  lemma SuperSafe(
    img0: Image, sb: SuperBlock, slot: nat, t: Node, next: Sector, sb': SuperBlock, t': Node)
    requires Committed(img0, sb, slot, t)
    requires Committed(img0[1 - slot := next], sb', 1 - slot, t')
    ensures CrashSafe(Disk(img0, [Write(1 - slot, next)]), t, t', sb'.generation)
  {
    hide CrashImage, MountsTo, TreeOn, DecodeSuper, MarkedOnDisk;
    forall img: Image | CrashImage(Disk(img0, [Write(1 - slot, next)]), img)
      ensures MountsWithin(img, t, sb'.generation) || MountsWithin(img, t', sb'.generation)
    {
      CrashDuringSuper(img0, sb, slot, t, next, sb', t', img);
    }
  }

  /** The image a commit flushes: the new bitmap everywhere it belongs, the superblocks as they were. */
  ghost predicate BitmapWritten(before: Image, after: Image, bitmap: seq<Byte>) {
    var n := BitmapBlocks(|before|);
    && |after| == |before| && 2 + n <= |after| && |bitmap| == BLOCK_SIZE * n
    && (forall j :: 0 <= j < n ==> after[2 + j] == BitmapSector(bitmap, j))
    && (forall s :: 0 <= s < |after| && !(2 <= s < 2 + n) ==> after[s] == before[s])
  }

  lemma BitmapWrittenMarks(before: Image, after: Image, bitmap: seq<Byte>, bs: set<nat>)
    requires BitmapWritten(before, after, bitmap) && bs <= Marks(bitmap)
    ensures MarkedOnDisk(after, bs)
  {
    forall b | b in bs
      ensures 2 + b / 4096 < |after| && BitOnDisk(after, b)
    {
      BitmapSectorBit(bitmap, b);
    }
  }

  lemma TreeKept(before: Image, after: Image, sb: SuperBlock, t: Node)
    requires ValidLayout(|before|, sb) && TreeOn(before, sb, t)
    requires |after| == |before| && forall s :: 0 <= s < |after| && s >= FirstData(|before|) - 1 ==> after[s] == before[s]
    ensures TreeOn(after, sb, t)
  {
    hide Rep, Shape, Footprint;
    RepFrame(before, after, t);
  }

  /** After the first flush the old tree is still committed, and writing the new superblock
      commits the new one. */
  lemma CommitStep(
    durable: Image, visible: Image, flushed: Image, bitmap: seq<Byte>, sb: SuperBlock, slot: nat, t: Node,
    sb': SuperBlock, t': Node, next: Sector)
    requires Committed(durable, sb, slot, t)
    requires |visible| == |durable| && visible[0] == durable[0] && visible[1] == durable[1]
    requires TreeOn(visible, sb, t) && TreeOn(visible, sb', t')
    requires BitmapWritten(visible, flushed, bitmap)
    requires Reserved(|durable|) + Footprint(t) + Footprint(t') <= Marks(bitmap)
    requires ValidLayout(|durable|, sb') && sb'.generation == sb.generation + 1
    requires DecodeSuper(next) == Some(sb')
    ensures Committed(flushed, sb, slot, t)
    ensures Committed(flushed[1 - slot := next], sb', 1 - slot, t')
  {
    hide DecodeSuper, TreeOn, Footprint;
    TreeKept(visible, flushed, sb, t);
    BitmapWrittenMarks(visible, flushed, bitmap, Reserved(|durable|) + Footprint(t));
    var after := flushed[1 - slot := next];
    TreeKept(visible, after, sb', t');
    BitmapWrittenMarks(visible, flushed, bitmap, Reserved(|durable|) + Footprint(t'));
    forall b | b in Reserved(|durable|) + Footprint(t')
      ensures 2 + b / 4096 < |after| && BitOnDisk(after, b)
    {
      assert BitOnDisk(flushed, b);
    }
  }

  /** Harmless writes leave the superblocks and the tree readable as they were. */
  lemma HarmlessVisible(d: Disk, sb: SuperBlock, slot: nat, t: Node)
    requires Committed(d.durable, sb, slot, t) && ValidDisk(d)
    requires AllHarmless(d, Reserved(|d.durable|) + Footprint(t))
    ensures Visible(d)[0] == d.durable[0] && Visible(d)[1] == d.durable[1]
    ensures TreeOn(Visible(d), sb, t)
  {
    hide DecodeSuper, Rep, Shape, Footprint, Visible;
    forall b | b in Footprint(t) || b == 0 || b == 1
      ensures Visible(d)[b] == d.durable[b]
    {
      assert forall i :: 0 <= i < |d.pending| ==>
                Harmless(d.pending[i], |d.durable|, Reserved(|d.durable|) + Footprint(t));
      NotInFlight(d, b);
    }
    RepFrame(d.durable, Visible(d), t);
  }

  lemma BitmapWriteHarmless(bitmap: seq<Byte>, j: nat, total: nat, keep: set<nat>)
    requires |bitmap| == BLOCK_SIZE * BitmapBlocks(total) && j < BitmapBlocks(total) && FirstData(total) < total
    requires keep <= Marks(bitmap)
    ensures Harmless(Write(2 + j, BitmapSector(bitmap, j)), total, keep)
  {
    forall b | b in keep && 2 + b / 4096 == 2 + j
      ensures BitSet(BitmapSector(bitmap, j)[(b % 4096) / 8], b % 8)
    {
      BitmapSectorBit(bitmap, b);
    }
  }

  lemma SameRoot(img: Image, sb: SuperBlock, sb': SuperBlock, t: Node)
    requires TreeOn(img, sb, t) && sb.rootInode == sb'.rootInode
    ensures TreeOn(img, sb', t)
  {
  }

  /** Mounting reads back the bitmap that was written. */
  lemma ImageBitmapWritten(before: Image, after: Image, bitmap: seq<Byte>)
    requires BitmapWritten(before, after, bitmap)
    ensures ImageBitmap(after, BitmapBlocks(|after|)) == bitmap
  {
    var n := BitmapBlocks(|after|);
    forall i | 0 <= i < |bitmap|
      ensures ImageBitmap(after, n)[i] == bitmap[i]
    {
      ImageBitmapAt(after, n, i);
      assert bitmap[i] == BitmapSector(bitmap, i / BLOCK_SIZE)[i % BLOCK_SIZE];
    }
  }

  lemma {:induction false} ImageBitmapFrame(a: Image, b: Image, n: nat)
    requires |a| == |b| && 2 + n <= |a| && forall s :: 2 <= s < 2 + n ==> a[s] == b[s]
    ensures ImageBitmap(a, n) == ImageBitmap(b, n)
  {
    if n > 0 { ImageBitmapFrame(a, b, n - 1); }
  }
}
