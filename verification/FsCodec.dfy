/** The on-disk format: little-endian fields, the checksummed superblock, inodes and
    directory entries, each with the lemma that decoding what was encoded gives it back. */
module FsCodec {

  type Byte = b: int | 0 <= b < 256
  type U16 = x: int | 0 <= x < 0x1_0000
  type U32 = x: int | 0 <= x < 0x1_0000_0000
  type U64 = x: int | 0 <= x < 0x1_0000_0000_0000_0000

  const BLOCK_SIZE: nat := 512
  const MAGIC: U64 := 0x5061_6E64_6146_5301
  const VERSION: U32 := 2
  const DIRECT_BLOCKS: nat := 60
  const MAX_NAME: nat := 55
  const ENTRY_BYTES: nat := 64
  const ENTRIES_PER_BLOCK: nat := 8
  const OWNER_READ: nat := 1
  const OWNER_WRITE: nat := 2
  const OTHERS_READ: nat := 4
  const OTHERS_WRITE: nat := 8
  const ALL_PERMISSIONS: nat := 15
  const DEFAULT_MODE: nat := 7

  datatype Option<+T> = None | Some(value: T)

  datatype FsError =
    | NotFormatted | WrongVersion | NotFound | Exists | BadName | TooLarge
    | Full | WrongType | NotEmpty | Denied | Corrupt

  datatype Result<+T> = Ok(value: T) | Err(error: FsError)

  type Sector = s: seq<Byte> | |s| == 512 witness seq(512, _ => 0)

  // ---- little-endian integers ----

  function Pow256(n: nat): (p: nat)
    ensures p >= 1
  {
    if n == 0 then 1 else 256 * Pow256(n - 1)
  }

  function LeBytes(x: nat, n: nat): (s: seq<Byte>)
    ensures |s| == n
  {
    if n == 0 then [] else [x % 256] + LeBytes(x / 256, n - 1)
  }

  function LeValue(s: seq<Byte>): nat {
    if s == [] then 0 else s[0] + 256 * LeValue(s[1..])
  }

  lemma {:induction false} LeRoundTrip(x: nat, n: nat)
    requires x < Pow256(n)
    ensures LeValue(LeBytes(x, n)) == x
  {
    if n > 0 {
      LeRoundTrip(x / 256, n - 1);
      assert LeBytes(x, n)[1..] == LeBytes(x / 256, n - 1);
    }
  }

  lemma {:induction false} LeBound(s: seq<Byte>)
    ensures LeValue(s) < Pow256(|s|)
  {
    if s != [] { LeBound(s[1..]); }
  }

  lemma Pow256Values()
    ensures Pow256(2) == 0x1_0000
    ensures Pow256(4) == 0x1_0000_0000
    ensures Pow256(8) == 0x1_0000_0000_0000_0000
  {
    assert Pow256(3) == 256 * Pow256(2);
    assert Pow256(4) == 256 * Pow256(3);
    assert Pow256(6) == 256 * Pow256(5);
    assert Pow256(8) == 256 * Pow256(7);
  }

  function Read16(s: seq<Byte>): (x: U16)
    requires |s| == 2
  {
    LeBound(s); Pow256Values(); LeValue(s)
  }

  function Read32(s: seq<Byte>): (x: U32)
    requires |s| == 4
  {
    LeBound(s); Pow256Values(); LeValue(s)
  }

  function Read64(s: seq<Byte>): (x: U64)
    requires |s| == 8
  {
    LeBound(s); Pow256Values(); LeValue(s)
  }

  lemma Reads(x: nat)
    ensures x < 0x1_0000 ==> Read16(LeBytes(x, 2)) == x
    ensures x < 0x1_0000_0000 ==> Read32(LeBytes(x, 4)) == x
    ensures x < 0x1_0000_0000_0000_0000 ==> Read64(LeBytes(x, 8)) == x
  {
    Pow256Values();
    if x < 0x1_0000 { LeRoundTrip(x, 2); }
    if x < 0x1_0000_0000 { LeRoundTrip(x, 4); }
    if x < 0x1_0000_0000_0000_0000 { LeRoundTrip(x, 8); }
  }

  function Zeros(n: nat): (s: seq<Byte>)
    ensures |s| == n
  {
    seq(n, _ => 0)
  }

  // ---- superblock ----

  datatype SuperBlock = SuperBlock(
    version: U32, generation: U64, totalBlocks: U64, bitmapStart: U64,
    bitmapBlocks: U64, rootInode: U64, firstDataBlock: U64)

  function CrcBits(crc: bv32, n: nat): bv32
    decreases n
  {
    if n == 0 then crc
    else CrcBits((crc >> 1) ^ (if crc & 1 == 1 then 0xEDB8_8320 else 0), n - 1)
  }

  function CrcState(bytes: seq<Byte>): bv32 {
    if bytes == [] then 0xFFFF_FFFF
    else CrcBits(CrcState(bytes[..|bytes| - 1]) ^ (bytes[|bytes| - 1] as bv32), 8)
  }

  /** CRC-32 with the reflected polynomial. */
  function Crc32(bytes: seq<Byte>): (crc: U32) {
    (!CrcState(bytes)) as int
  }

  function SuperFields(sb: SuperBlock): (s: seq<Byte>)
    ensures |s| == 64
  {
    LeBytes(MAGIC, 8) + LeBytes(sb.version, 4) + Zeros(4) + LeBytes(sb.generation, 8)
    + LeBytes(sb.totalBlocks, 8) + LeBytes(sb.bitmapStart, 8) + LeBytes(sb.bitmapBlocks, 8)
    + LeBytes(sb.rootInode, 8) + LeBytes(sb.firstDataBlock, 8)
  }

  function EncodeSuper(sb: SuperBlock): Sector {
    var fields := SuperFields(sb);
    fields + LeBytes(Crc32(fields), 4) + Zeros(444)
  }

  function DecodeSuper(block: Sector): Option<SuperBlock> {
    if Read64(block[0..8]) != MAGIC then None
    else if Crc32(block[0..64]) != Read32(block[64..68]) then None
    else Some(SuperBlock(
      Read32(block[8..12]), Read64(block[16..24]), Read64(block[24..32]), Read64(block[32..40]),
      Read64(block[40..48]), Read64(block[48..56]), Read64(block[56..64])))
  }

  lemma SuperRoundTrip(sb: SuperBlock)
    ensures DecodeSuper(EncodeSuper(sb)) == Some(sb)
  {
    hide EncodeSuper, LeBytes, LeValue, Crc32;
    SuperChecksum(sb);
    SuperSlices(sb);
    Reads(MAGIC); Reads(sb.version); Reads(sb.generation); Reads(sb.totalBlocks);
    Reads(sb.bitmapStart); Reads(sb.bitmapBlocks); Reads(sb.rootInode); Reads(sb.firstDataBlock);
  }

  lemma SuperChecksum(sb: SuperBlock)
    ensures Crc32(EncodeSuper(sb)[0..64]) == Read32(EncodeSuper(sb)[64..68])
  {
    var f := SuperFields(sb);
    var b := EncodeSuper(sb);
    assert b[0..64] == f;
    assert b[64..68] == LeBytes(Crc32(f), 4);
    Reads(Crc32(f));
  }

  lemma SuperSlices(sb: SuperBlock)
    ensures var f := EncodeSuper(sb);
            && f[0..8] == LeBytes(MAGIC, 8) && f[8..12] == LeBytes(sb.version, 4)
            && f[16..24] == LeBytes(sb.generation, 8) && f[24..32] == LeBytes(sb.totalBlocks, 8)
            && f[32..40] == LeBytes(sb.bitmapStart, 8) && f[40..48] == LeBytes(sb.bitmapBlocks, 8)
            && f[48..56] == LeBytes(sb.rootInode, 8) && f[56..64] == LeBytes(sb.firstDataBlock, 8)
  {
    hide LeBytes, Crc32;
  }

  // ---- inode ----

  /** `direct` holds only the slots in use: `blocks_used` is its length, and the on-disk
      array is zero past it. */
  datatype Inode = Inode(isDirectory: bool, owner: U32, mode: nat, size: nat, direct: seq<U64>)

  predicate ValidInode(i: Inode) {
    i.mode <= ALL_PERMISSIONS && |i.direct| <= DIRECT_BLOCKS && i.size < 0x1_0000_0000_0000_0000
  }

  function PointerAt(direct: seq<U64>, k: nat): U64 {
    if k < |direct| then direct[k] else 0
  }

  function EncodePointers(direct: seq<U64>): (s: seq<Byte>)
    ensures |s| == 8 * DIRECT_BLOCKS
  {
    seq(8 * DIRECT_BLOCKS, j requires 0 <= j < 8 * DIRECT_BLOCKS => LeBytes(PointerAt(direct, j / 8), 8)[j % 8])
  }

  function EncodeInode(i: Inode): Sector
    requires ValidInode(i)
  {
    LeBytes(if i.isDirectory then 1 else 0, 4) + LeBytes(i.owner, 4) + LeBytes(i.size, 8)
    + LeBytes(|i.direct|, 4) + LeBytes(i.mode, 2) + Zeros(2)
    + EncodePointers(i.direct) + Zeros(8)
  }

  function DecodePointers(block: Sector, n: nat): (d: seq<U64>)
    requires n <= DIRECT_BLOCKS
    ensures |d| == n
  {
    seq(n, k requires 0 <= k < n => Read64(block[24 + 8 * k..32 + 8 * k]))
  }

  /** A `blocks_used` past the pointer array makes the kernel index out of bounds and panic when it goes through
      the inode's blocks. No inode the kernel writes has one; here it is taken for corrupt. */
  function DecodeInode(block: Sector): Result<Inode> {
    var kind := Read32(block[0..4]);
    var used := Read32(block[16..20]);
    if kind > 1 || used > DIRECT_BLOCKS then Err(Corrupt)
    else Ok(Inode(kind == 1, Read32(block[4..8]), Read16(block[20..22]) % 16, Read64(block[8..16]),
                  DecodePointers(block, used)))
  }

  lemma InodeSlices(i: Inode)
    requires ValidInode(i)
    ensures var b := EncodeInode(i);
            && b[0..4] == LeBytes(if i.isDirectory then 1 else 0, 4) && b[4..8] == LeBytes(i.owner, 4)
            && b[8..16] == LeBytes(i.size, 8) && b[16..20] == LeBytes(|i.direct|, 4)
            && b[20..22] == LeBytes(i.mode, 2) && b[24..504] == EncodePointers(i.direct)
  {
    hide LeBytes, EncodePointers;
  }

  lemma SliceOfSlice<T>(s: seq<T>, a: nat, b: nat, c: nat, d: nat)
    requires a <= b <= |s| && c <= d <= b - a
    ensures s[a..b][c..d] == s[a + c..a + d]
  {
    var left, right := s[a..b][c..d], s[a + c..a + d];
    assert |left| == |right|;
    forall i | 0 <= i < |left|
      ensures left[i] == right[i]
    {
      assert s[a..b][c + i] == s[a + c + i];
    }
  }

  lemma PointerRoundTrip(b: Sector, direct: seq<U64>, k: nat)
    requires k < |direct| <= DIRECT_BLOCKS
    requires b[24..504] == EncodePointers(direct)
    ensures Read64(b[24 + 8 * k..32 + 8 * k]) == direct[k]
  {
    SliceOfSlice(b, 24, 504, 8 * k, 8 * k + 8);
    var slot, want := b[24..504][8 * k..8 * k + 8], LeBytes(direct[k], 8);
    forall i | 0 <= i < 8
      ensures slot[i] == want[i]
    {
      assert (8 * k + i) / 8 == k && (8 * k + i) % 8 == i;
    }
    assert slot == want;
    Reads(direct[k]);
  }

  lemma PointersRoundTrip(b: Sector, direct: seq<U64>)
    requires |direct| <= DIRECT_BLOCKS
    requires b[24..504] == EncodePointers(direct)
    ensures DecodePointers(b, |direct|) == direct
  {
    forall k | 0 <= k < |direct|
      ensures DecodePointers(b, |direct|)[k] == direct[k]
    {
      PointerRoundTrip(b, direct, k);
    }
  }

  lemma InodeRoundTrip(i: Inode)
    requires ValidInode(i)
    ensures DecodeInode(EncodeInode(i)) == Ok(i)
  {
    hide EncodeInode, LeBytes, LeValue, DecodePointers;
    InodeSlices(i);
    Reads(if i.isDirectory then 1 else 0); Reads(i.owner); Reads(i.size); Reads(|i.direct|); Reads(i.mode);
    PointersRoundTrip(EncodeInode(i), i.direct);
  }

  function Permits(owner: U32, mode: nat, user: Option<U32>, write: bool): bool {
    match user
    case None => true
    case Some(u) =>
      var bit := if u == owner then (if write then OWNER_WRITE else OWNER_READ)
                 else (if write then OTHERS_WRITE else OTHERS_READ);
      (mode / bit) % 2 == 1
  }

  // ---- directory entries ----

  type NameField = s: seq<Byte> | |s| == 55 witness seq(55, _ => 0)

  datatype DirEntry = DirEntry(inode: U64, nameLength: Byte, name: NameField)

  function NameOf(e: DirEntry): seq<Byte> {
    e.name[..if e.nameLength <= MAX_NAME then e.nameLength else MAX_NAME]
  }

  function MakeEntry(name: seq<Byte>, inode: U64): (e: DirEntry)
    requires |name| <= MAX_NAME
    ensures NameOf(e) == name && e.inode == inode
  {
    DirEntry(inode, |name|, name + Zeros(MAX_NAME - |name|))
  }

  function EncodeEntry(e: DirEntry): (s: seq<Byte>)
    ensures |s| == ENTRY_BYTES
  {
    LeBytes(e.inode, 8) + [e.nameLength] + e.name
  }

  function DecodeEntry(s: seq<Byte>): (e: DirEntry)
    requires |s| == ENTRY_BYTES
  {
    DirEntry(Read64(s[0..8]), s[8], s[9..64])
  }

  lemma EntryRoundTrip(e: DirEntry)
    ensures DecodeEntry(EncodeEntry(e)) == e
  {
    var s := EncodeEntry(e);
    assert s[0..8] == LeBytes(e.inode, 8) && s[9..64] == e.name;
    Reads(e.inode);
  }

  /** The live entries among the first `n` slots of a directory block, in slot order. */
  function LiveEntries(block: Sector, n: nat): (es: seq<DirEntry>)
    requires n <= ENTRIES_PER_BLOCK
    ensures forall e <- es :: e.inode != 0
  {
    if n == 0 then []
    else
      var e := DecodeEntry(SlotOf(block, n - 1));
      if e.inode == 0 then LiveEntries(block, n - 1) else LiveEntries(block, n - 1) + [e]
  }

  function EncodeEntries(es: seq<DirEntry>): (s: seq<Byte>)
    ensures |s| == ENTRY_BYTES * |es|
  {
    if es == [] then [] else EncodeEntries(es[..|es| - 1]) + EncodeEntry(es[|es| - 1])
  }

  function EncodeDirBlock(es: seq<DirEntry>): Sector
    requires |es| <= ENTRIES_PER_BLOCK
  {
    EncodeEntries(es) + Zeros(BLOCK_SIZE - ENTRY_BYTES * |es|)
  }

  lemma {:induction false} EntrySlice(es: seq<DirEntry>, k: nat)
    requires k < |es|
    ensures EncodeEntries(es)[ENTRY_BYTES * k..ENTRY_BYTES * (k + 1)] == EncodeEntry(es[k])
    decreases |es|
  {
    if k < |es| - 1 {
      var init := es[..|es| - 1];
      EntrySlice(init, k);
      assert EncodeEntries(es)[ENTRY_BYTES * k..ENTRY_BYTES * (k + 1)]
          == EncodeEntries(init)[ENTRY_BYTES * k..ENTRY_BYTES * (k + 1)];
    }
  }

  function SlotOf(block: Sector, k: nat): seq<Byte>
    requires k < ENTRIES_PER_BLOCK
  {
    block[ENTRY_BYTES * k..ENTRY_BYTES * (k + 1)]
  }

  lemma SlotRoundTrip(es: seq<DirEntry>, k: nat)
    requires k < ENTRIES_PER_BLOCK && |es| <= ENTRIES_PER_BLOCK
    requires forall e <- es :: e.inode != 0
    ensures k < |es| ==> DecodeEntry(SlotOf(EncodeDirBlock(es), k)) == es[k]
    ensures k >= |es| ==> DecodeEntry(SlotOf(EncodeDirBlock(es), k)).inode == 0
  {
    var slot := SlotOf(EncodeDirBlock(es), k);
    if k < |es| {
      EntrySlice(es, k);
      assert slot == EncodeEntries(es)[ENTRY_BYTES * k..ENTRY_BYTES * (k + 1)];
      EntryRoundTrip(es[k]);
    } else {
      ZeroBytes(8);
      assert slot[0..8] == Zeros(8);
      Reads(0);
    }
  }

  lemma {:induction false} LiveEntriesUpTo(es: seq<DirEntry>, n: nat)
    requires n <= ENTRIES_PER_BLOCK && |es| <= ENTRIES_PER_BLOCK
    requires forall e <- es :: e.inode != 0
    ensures LiveEntries(EncodeDirBlock(es), n) == es[..if n < |es| then n else |es|]
  {
    hide EncodeDirBlock, DecodeEntry, SlotOf;
    if n > 0 {
      LiveEntriesUpTo(es, n - 1);
      SlotRoundTrip(es, n - 1);
      if n <= |es| {
        assert es[..n] == es[..n - 1] + [es[n - 1]];
      }
    }
  }

  lemma {:induction false} ZeroBytes(n: nat)
    ensures LeBytes(0, n) == Zeros(n)
  {
    if n > 0 { ZeroBytes(n - 1); }
  }

  /** A directory block gives back exactly the entries written into it. */
  lemma DirBlockRoundTrip(es: seq<DirEntry>)
    requires |es| <= ENTRIES_PER_BLOCK
    requires forall e <- es :: e.inode != 0
    ensures LiveEntries(EncodeDirBlock(es), ENTRIES_PER_BLOCK) == es
  {
    LiveEntriesUpTo(es, ENTRIES_PER_BLOCK);
  }
}
