/** The tree of files and directories, as it lies on the disk.

    A `Node` is a ghost picture of a subtree that remembers which blocks hold it. `Rep` ties
    the picture to the bytes of the blocks, `Footprint` is the set of blocks it occupies,
    `Shape` says no block is used twice, and `Lookup` forgets the blocks and leaves the
    meaning: what each path names. */
module FsTree {
  import opened FsCodec

  type Name = seq<Byte>
  type Image = seq<Sector>

  /** `entry` is the directory entry naming the node; the root's is never looked at. */
  datatype Node =
    | FileNode(entry: DirEntry, block: U64, owner: U32, mode: nat, blocks: seq<U64>, data: seq<Byte>)
    | DirNode(entry: DirEntry, block: U64, owner: U32, mode: nat, blocks: seq<U64>, items: seq<Node>)

  // ---- what a path names ----

  datatype Info = FileInfo(owner: U32, mode: nat, data: seq<Byte>) | DirInfo(owner: U32, mode: nat)

  function InfoOf(n: Node): Info {
    match n
    case FileNode(_, _, owner, mode, _, data) => FileInfo(owner, mode, data)
    case DirNode(_, _, owner, mode, _, _) => DirInfo(owner, mode)
  }

  ghost function Find(items: seq<Node>, name: Name): (r: Option<Node>)
  {
    if items == [] then None
    else
      var last := items[|items| - 1];
      if NameOf(last.entry) == name then Some(last) else Find(items[..|items| - 1], name)
  }

  /** The node a path leads to, ignoring permissions. */
  ghost function Walk(n: Node, path: seq<Name>): Option<Node>
    decreases path
  {
    if path == [] then Some(n)
    else if n.DirNode? then
      match Find(n.items, path[0])
      case None => None
      case Some(child) => Walk(child, path[1..])
    else None
  }

  ghost function Lookup(n: Node, path: seq<Name>): Option<Info> {
    match Walk(n, path)
    case None => None
    case Some(m) => Some(InfoOf(m))
  }

  /** `t'` differs from `t` at `path` and nowhere else. */
  ghost predicate UpdatedAt(t: Node, t': Node, path: seq<Name>, info: Option<Info>) {
    forall q: seq<Name> :: Lookup(t', q) == if q == path then info else Lookup(t, q)
  }

  // ---- which blocks hold it ----

  ghost function BlockSet(bs: seq<U64>): set<nat> {
    set i | 0 <= i < |bs| :: bs[i]
  }

  ghost function OwnBlocks(n: Node): set<nat> {
    {n.block} + BlockSet(n.blocks)
  }

  ghost function Footprint(n: Node): set<nat>
    decreases n, 1
  {
    OwnBlocks(n) + if n.DirNode? then ItemsFootprint(n.items) else {}
  }

  ghost function ItemsFootprint(items: seq<Node>): set<nat>
    decreases items, 0
  {
    if items == [] then {}
    else ItemsFootprint(items[..|items| - 1]) + Footprint(items[|items| - 1])
  }

  ghost predicate Distinct(bs: seq<U64>) {
    forall i, j :: 0 <= i < j < |bs| ==> bs[i] != bs[j]
  }

  ghost predicate ValidName(name: Name) {
    1 <= |name| <= MAX_NAME
  }

  ghost predicate DistinctNames(items: seq<Node>)
  {
    forall i, j :: 0 <= i < j < |items| ==> NameOf(items[i].entry) != NameOf(items[j].entry)
  }

  function CeilDiv(a: nat, b: nat): nat
    requires b > 0
  {
    (a + b - 1) / b
  }

  /** Well-formed, with every block used exactly once. */
  ghost predicate Shape(n: Node)
    decreases n, 1
  {
    && n.mode <= ALL_PERMISSIONS
    && |n.blocks| <= DIRECT_BLOCKS
    && Distinct(n.blocks)
    && n.block !in BlockSet(n.blocks)
    && (n.FileNode? ==> |n.blocks| == CeilDiv(|n.data|, BLOCK_SIZE))
    && (n.DirNode? ==>
          && ItemsShape(n.items)
          && DistinctNames(n.items)
          && OwnBlocks(n) !! ItemsFootprint(n.items))
  }

  ghost predicate ItemsShape(items: seq<Node>)
    decreases items, 0
  {
    if items == [] then true
    else
      var init, last := items[..|items| - 1], items[|items| - 1];
      && ItemsShape(init)
      && Shape(last)
      && ValidName(NameOf(last.entry))
      && last.entry.inode == last.block && last.block != 0
      && ItemsFootprint(init) !! Footprint(last)
  }

  // ---- what the blocks hold ----

  function Pad(s: seq<Byte>): Sector
    requires |s| <= BLOCK_SIZE
  {
    s + Zeros(BLOCK_SIZE - |s|)
  }

  function Chunk(data: seq<Byte>, k: nat): (c: seq<Byte>)
    ensures |c| <= BLOCK_SIZE
  {
    if BLOCK_SIZE * k >= |data| then []
    else if BLOCK_SIZE * (k + 1) <= |data| then data[BLOCK_SIZE * k..BLOCK_SIZE * (k + 1)]
    else data[BLOCK_SIZE * k..]
  }

  ghost predicate InRange(img: Image, bs: seq<U64>) {
    forall i :: 0 <= i < |bs| ==> bs[i] < |img|
  }

  /** The first `n` blocks hold the first `n` chunks of `data`, zero-padded. */
  ghost predicate HoldsData(img: Image, bs: seq<U64>, data: seq<Byte>) {
    InRange(img, bs) &&
    forall k :: 0 <= k < |bs| ==> img[bs[k]] == Pad(Chunk(data, k))
  }

  /** Every live entry of a directory's blocks, in order. */
  function DirEntries(img: Image, bs: seq<U64>): (es: seq<DirEntry>)
    requires forall i :: 0 <= i < |bs| ==> bs[i] < |img|
    ensures forall e <- es :: e.inode != 0
  {
    if bs == [] then []
    else DirEntries(img, bs[..|bs| - 1]) + LiveEntries(img[bs[|bs| - 1]], ENTRIES_PER_BLOCK)
  }

  function EntriesOf(items: seq<Node>): seq<DirEntry> {
    seq(|items|, i requires 0 <= i < |items| => items[i].entry)
  }

  ghost predicate HoldsInode(img: Image, block: nat, inode: Inode) {
    block < |img| && DecodeInode(img[block]) == Ok(inode)
  }

  function InodeOf(n: Node): Inode {
    Inode(n.DirNode?, n.owner, n.mode, if n.FileNode? then |n.data| else |n.items|, n.blocks)
  }

  ghost predicate Rep(img: Image, n: Node)
    decreases n, 1
  {
    && HoldsInode(img, n.block, InodeOf(n))
    && InRange(img, n.blocks)
    && (n.FileNode? ==> HoldsData(img, n.blocks, n.data))
    && (n.DirNode? ==> DirEntries(img, n.blocks) == EntriesOf(n.items) && ItemsRep(img, n.items))
  }

  ghost predicate ItemsRep(img: Image, items: seq<Node>)
    decreases items, 0
  {
    items == [] || (ItemsRep(img, items[..|items| - 1]) && Rep(img, items[|items| - 1]))
  }

  /** Two images agree on a set of blocks. */
  ghost predicate Agree(a: Image, b: Image, bs: set<nat>) {
    |a| == |b| && forall k :: k in bs && k < |a| ==> a[k] == b[k]
  }

  // ---- frame: a subtree is untouched by writes outside its footprint ----

  lemma {:induction false} DirEntriesFrame(a: Image, b: Image, bs: seq<U64>)
    requires InRange(a, bs) && Agree(a, b, BlockSet(bs))
    ensures InRange(b, bs) && DirEntries(a, bs) == DirEntries(b, bs)
  {
    if bs != [] {
      var init := bs[..|bs| - 1];
      assert BlockSet(init) <= BlockSet(bs);
      assert bs[|bs| - 1] in BlockSet(bs);
      DirEntriesFrame(a, b, init);
    }
  }

  lemma {:induction false} RepFrame(a: Image, b: Image, n: Node)
    requires Rep(a, n) && Agree(a, b, Footprint(n))
    ensures Rep(b, n)
    decreases n, 1
  {
    assert n.block in Footprint(n);
    assert forall k :: 0 <= k < |n.blocks| ==> n.blocks[k] in BlockSet(n.blocks);
    if n.DirNode? {
      DirEntriesFrame(a, b, n.blocks);
      ItemsRepFrame(a, b, n.items);
    }
  }

  lemma {:induction false} ItemsRepFrame(a: Image, b: Image, items: seq<Node>)
    requires ItemsRep(a, items) && Agree(a, b, ItemsFootprint(items))
    ensures ItemsRep(b, items)
    decreases items, 0
  {
    if items != [] {
      ItemsRepFrame(a, b, items[..|items| - 1]);
      RepFrame(a, b, items[|items| - 1]);
    }
  }

  lemma {:induction false} FootprintInRange(img: Image, n: Node)
    requires Rep(img, n)
    ensures forall b :: b in Footprint(n) ==> b < |img|
    decreases n, 1
  {
    if n.DirNode? { ItemsFootprintInRange(img, n.items); }
  }

  lemma {:induction false} ItemsFootprintInRange(img: Image, items: seq<Node>)
    requires ItemsRep(img, items)
    ensures forall b :: b in ItemsFootprint(items) ==> b < |img|
    decreases items, 0
  {
    if items != [] {
      ItemsFootprintInRange(img, items[..|items| - 1]);
      FootprintInRange(img, items[|items| - 1]);
    }
  }

  // ---- one item of a directory ----

  lemma {:induction false} ItemFacts(img: Image, items: seq<Node>, i: nat)
    requires ItemsShape(items) && ItemsRep(img, items) && i < |items|
    ensures Shape(items[i]) && Rep(img, items[i])
    ensures Footprint(items[i]) <= ItemsFootprint(items)
    ensures ValidName(NameOf(items[i].entry))
    ensures items[i].entry.inode == items[i].block != 0
    decreases items
  {
    if i < |items| - 1 { ItemFacts(img, items[..|items| - 1], i); }
  }

  lemma {:induction false} FindByIndex(items: seq<Node>, i: nat)
    requires DistinctNames(items) && i < |items|
    ensures Find(items, NameOf(items[i].entry)) == Some(items[i])
    decreases items
  {
    if i < |items| - 1 { FindByIndex(items[..|items| - 1], i); }
  }

  lemma {:induction false} FindNone(items: seq<Node>, name: Name)
    requires forall i :: 0 <= i < |items| ==> NameOf(items[i].entry) != name
    ensures Find(items, name) == None
    decreases items
  {
    if items != [] { FindNone(items[..|items| - 1], name); }
  }

  // ---- dropping one name from a directory ----

  ghost function Without(items: seq<Node>, name: Name): seq<Node> {
    if items == [] then []
    else
      var init, last := items[..|items| - 1], items[|items| - 1];
      if NameOf(last.entry) == name then Without(init, name) else Without(init, name) + [last]
  }

  lemma FindAdded(items: seq<Node>, it: Node, name: Name)
    ensures Find(items + [it], name) == if name == NameOf(it.entry) then Some(it) else Find(items, name)
  {
    var a := items + [it];
    assert a[..|a| - 1] == items;
  }

  lemma {:induction false} FindWithout(items: seq<Node>, name: Name, other: Name)
    ensures Find(Without(items, name), other) == if other == name then None else Find(items, other)
    decreases items
  {
    if items != [] {
      var init, last := items[..|items| - 1], items[|items| - 1];
      FindWithout(init, name, other);
      if NameOf(last.entry) != name {
        FindAdded(Without(init, name), last, other);
      }
    }
  }

  /** What is left are other names, each from the original list. */
  lemma {:induction false} WithoutNames(items: seq<Node>, name: Name)
    requires DistinctNames(items)
    ensures DistinctNames(Without(items, name))
    ensures forall x <- Without(items, name) :: x in items && NameOf(x.entry) != name
    decreases items
  {
    if items != [] {
      var init, last := items[..|items| - 1], items[|items| - 1];
      WithoutNames(init, name);
      assert forall x <- init :: NameOf(x.entry) != NameOf(last.entry);
      var w := Without(init, name);
      forall i, j | 0 <= i < j < |Without(items, name)|
        ensures NameOf(Without(items, name)[i].entry) != NameOf(Without(items, name)[j].entry)
      {
        if j == |w| { assert w[i] in init; }
      }
    }
  }

  /** Dropping a name keeps the other children, and gives up exactly its own footprint. */
  lemma {:induction false} WithoutFacts(img: Image, items: seq<Node>, name: Name)
    requires ItemsShape(items) && ItemsRep(img, items) && DistinctNames(items)
    ensures ItemsShape(Without(items, name)) && ItemsRep(img, Without(items, name))
    ensures |Without(items, name)| == |items| - (if Find(items, name).Some? then 1 else 0)
    ensures match Find(items, name)
            case None => ItemsFootprint(Without(items, name)) == ItemsFootprint(items)
            case Some(c) =>
              && Footprint(c) <= ItemsFootprint(items)
              && ItemsFootprint(Without(items, name)) == ItemsFootprint(items) - Footprint(c)
    decreases items
  {
    hide Shape, Rep, Footprint;
    if items != [] {
      var init, last := items[..|items| - 1], items[|items| - 1];
      WithoutFacts(img, init, name);
      if NameOf(last.entry) == name {
        FindNone(init, name);
      } else {
        AppendFacts(img, Without(init, name), last);
      }
    }
  }

  lemma AppendFacts(img: Image, items: seq<Node>, it: Node)
    requires ItemsShape(items) && ItemsRep(img, items)
    requires ValidName(NameOf(it.entry)) && it.entry.inode == it.block != 0
    requires Shape(it) && Rep(img, it)
    requires Footprint(it) !! ItemsFootprint(items)
    ensures ItemsShape(items + [it]) && ItemsRep(img, items + [it])
    ensures ItemsFootprint(items + [it]) == ItemsFootprint(items) + Footprint(it)
  {
    hide Shape, Rep, Footprint;
    assert (items + [it])[..|items + [it]| - 1] == items;
  }
}
