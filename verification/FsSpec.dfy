/** What each operation is meant to do to the tree, and how the device and bitmap may move
    while it is being done. */
module FsSpec {
  import opened FsCodec
  import opened FsTree
  import opened FsDisk
  import opened FsPath

  // ---- operations ----

  datatype Access = Access(user: Option<U32>, changesParent: bool)

  /** The four changes a path can be asked to undergo. */
  datatype Action =
    | Create(isDirectory: bool, owner: U32)
    | Replace(data: seq<Byte>, user: Option<U32>)
    | Remove
    | SetMode(mode: nat, user: Option<U32>)

  predicate ValidAction(a: Action) {
    && (a.Replace? ==> CeilDiv(|a.data|, BLOCK_SIZE) <= DIRECT_BLOCKS)
    && (a.SetMode? ==> a.mode <= ALL_PERMISSIONS)
  }

  /** Why an action refuses its target, if it does. */
  ghost function Refusal(a: Action, target: Option<Node>): Option<FsError> {
    match a
    case Create(_, _) => if target.Some? then Some(Exists) else None
    case Replace(_, user) =>
      if target.None? then Some(NotFound)
      else if target.value.DirNode? then Some(WrongType)
      else if !Permits(target.value.owner, target.value.mode, user, true) then Some(Denied)
      else None
    case Remove =>
      if target.None? then Some(NotFound)
      else if target.value.DirNode? && |target.value.items| > 0 then Some(NotEmpty)
      else None
    case SetMode(_, user) =>
      if target.None? then Some(NotFound)
      else if user.Some? && user.value != target.value.owner then Some(Denied)
      else None
  }

  /** What the path names afterwards. */
  ghost function Effect(a: Action, target: Option<Node>): Option<Info> {
    match a
    case Create(isDirectory, owner) =>
      Some(if isDirectory then DirInfo(owner, DEFAULT_MODE) else FileInfo(owner, DEFAULT_MODE, []))
    case Replace(data, _) =>
      if target.Some? then Some(FileInfo(target.value.owner, target.value.mode, data)) else None
    case Remove => None
    case SetMode(mode, _) =>
      match target
      case None => None
      case Some(FileNode(_, _, owner, _, _, data)) => Some(FileInfo(owner, mode, data))
      case Some(DirNode(_, _, owner, _, _, _)) => Some(DirInfo(owner, mode))
  }

  /** Why a transaction refuses, if it does: the first obstacle on the way down. */
  ghost function Obstacle(n: Node, path: seq<Name>, access: Access, a: Action): Option<FsError>
    decreases path
  {
    if n.FileNode? then Some(WrongType)
    else if !Permits(n.owner, n.mode, access.user, false) then Some(Denied)
    else if path == [] then Some(BadName)
    else
      var child := Find(n.items, path[0]);
      if |path| == 1 then
        if access.changesParent && !Permits(n.owner, n.mode, access.user, true) then Some(Denied)
        else Refusal(a, child)
      else if child.None? then Some(NotFound)
      else Obstacle(child.value, path[1..], access, a)
  }

  lemma {:induction false} ObstacleKinds(n: Node, path: seq<Name>, access: Access, a: Action)
    ensures Obstacle(n, path, access, a) != Some(Full) && Obstacle(n, path, access, a) != Some(TooLarge)
    decreases path
  {
    if n.DirNode? && |path| > 1 && Find(n.items, path[0]).Some? {
      ObstacleKinds(Find(n.items, path[0]).value, path[1..], access, a);
    }
  }

  // ---- the blocks a change needs ----

  /** The blocks a directory's names fill; an empty one still has a block. */
  function DirBlocks(names: nat): nat {
    if names == 0 then 1 else CeilDiv(names, ENTRIES_PER_BLOCK)
  }

  /** One block more for each eight names, or for what is left of them. */
  lemma BlocksSoFar(done: nat, next: nat, names: nat, taken: nat)
    requires done < names && done == ENTRIES_PER_BLOCK * taken
    requires next == if done + ENTRIES_PER_BLOCK <= names then done + ENTRIES_PER_BLOCK else names
    ensures CeilDiv(next, ENTRIES_PER_BLOCK) == taken + 1 && taken < DirBlocks(names)
    ensures next < names ==> next == ENTRIES_PER_BLOCK * (taken + 1)
  {
  }

  lemma NoBlocksYet(names: nat)
    ensures CeilDiv(0, ENTRIES_PER_BLOCK) == 0 && (names > 0 ==> DirBlocks(names) == CeilDiv(names, ENTRIES_PER_BLOCK))
    ensures names == 0 ==> DirBlocks(names) == 1
    ensures names <= ENTRIES_PER_BLOCK * DIRECT_BLOCKS ==> 1 <= DirBlocks(names) <= DIRECT_BLOCKS
  {
  }

  /** The blocks stored at the target itself. */
  function NodeNeed(a: Action): nat {
    match a
    case Create(isDirectory, _) => if isDirectory then 2 else 1
    case Replace(data, _) => CeilDiv(|data|, BLOCK_SIZE) + 1
    case Remove => 0
    case SetMode(_, _) => 1
  }

  /** How many names a directory on the path holds afterwards. */
  function NamesAfter(n: Node, path: seq<Name>, a: Action): nat
    requires n.DirNode?
  {
    if |path| == 1 && a.Create? then |n.items| + 1
    else if |path| == 1 && a.Remove? && n.items != [] then |n.items| - 1
    else |n.items|
  }

  /** The blocks stored below a directory on the path, and those with the directory itself: its names' blocks
      and its inode. */
  ghost function NeedBelow(n: Node, path: seq<Name>, a: Action): nat
    requires n.DirNode? && path != []
    decreases path, 0
  {
    if |path| == 1 then NodeNeed(a)
    else
      match Find(n.items, path[0])
      case None => 0
      case Some(child) => Need(child, path[1..], a)
  }

  ghost function Need(n: Node, path: seq<Name>, a: Action): nat
    decreases path, 1
  {
    if n.FileNode? || path == [] then 0
    else NeedBelow(n, path, a) + DirBlocks(NamesAfter(n, path, a)) + 1
  }

  /** The name would be one more than its directory can hold. */
  ghost predicate NoRoom(n: Node, path: seq<Name>, a: Action)
    decreases path
  {
    && n.DirNode? && path != [] && a.Create?
    && if |path| == 1 then |n.items| >= ENTRIES_PER_BLOCK * DIRECT_BLOCKS
       else Find(n.items, path[0]).Some? && NoRoom(Find(n.items, path[0]).value, path[1..], a)
  }

  /** What has to be stored before a change succeeds or finds its directory full. */
  ghost function Demand(n: Node, path: seq<Name>, a: Action): nat {
    if NoRoom(n, path, a) then NodeNeed(a) else Need(n, path, a)
  }

  /** A directory above wants no less, and has no more room. */
  lemma DemandAbove(n: Node, path: seq<Name>, a: Action)
    requires n.DirNode? && path != []
    ensures |path| == 1 ==> NodeNeed(a) <= Demand(n, path, a) && NeedBelow(n, path, a) == NodeNeed(a)
    ensures |path| > 1 && Find(n.items, path[0]).Some? ==>
              var child := Find(n.items, path[0]).value;
              && NeedBelow(n, path, a) == Need(child, path[1..], a)
              && Demand(child, path[1..], a) <= Demand(n, path, a)
              && (NoRoom(child, path[1..], a) <==> NoRoom(n, path, a))
  {
    assert Need(n, path, a) == NeedBelow(n, path, a) + DirBlocks(NamesAfter(n, path, a)) + 1;
  }

  /** What one directory of the path adds to the demand, and when it is the one with no room. */
  lemma DemandHere(n: Node, path: seq<Name>, a: Action, names: nat)
    requires n.DirNode? && path != [] && names == NamesAfter(n, path, a)
    requires |n.items| <= ENTRIES_PER_BLOCK * DIRECT_BLOCKS && (|path| > 1 ==> !NoRoom(n, path, a))
    ensures Need(n, path, a) == NeedBelow(n, path, a) + DirBlocks(names) + 1
    ensures names <= ENTRIES_PER_BLOCK * DIRECT_BLOCKS ==>
              !NoRoom(n, path, a) && Demand(n, path, a) == Need(n, path, a)
    ensures names > ENTRIES_PER_BLOCK * DIRECT_BLOCKS ==>
              NoRoom(n, path, a) && NeedBelow(n, path, a) == NodeNeed(a) && |path| == 1 && a.Create?
  {
  }

  /** What becomes of a change, with so many blocks unmarked: an obstacle on the way down, no blocks for what must
      be stored, no room for the name once the node is stored, or nothing amiss. */
  ghost function Verdict(spare: nat, n: Node, path: seq<Name>, access: Access, a: Action): Option<FsError> {
    if Obstacle(n, path, access, a).Some? then Obstacle(n, path, access, a)
    else if spare < Demand(n, path, a) then Some(Full)
    else if NoRoom(n, path, a) then Some(TooLarge)
    else None
  }

  /** The verdict as the result an operation returns. */
  ghost function Told(verdict: Option<FsError>): Result<()> {
    match verdict
    case None => Ok(())
    case Some(e) => Err(e)
  }

  /** The blocks an allocation could still take. */
  ghost function SpareSet(total: nat, marks: set<nat>): set<nat> {
    set b: nat | b < total && Usable(total, b) && b !in marks
  }

  ghost function Claimed(before: set<nat>, after: set<nat>): nat {
    |after - before|
  }

  lemma ClaimedTwice(a: set<nat>, b: set<nat>, c: set<nat>)
    requires a <= b <= c
    ensures Claimed(a, c) == Claimed(a, b) + Claimed(b, c)
  {
    assert c - a == (b - a) + (c - b);
  }

  lemma ClaimedOne(a: set<nat>, x: nat)
    ensures Claimed(a, a) == 0 && (x !in a ==> Claimed(a, a + {x}) == 1)
  {
    assert a - a == {};
    assert x !in a ==> (a + {x}) - a == {x};
  }

  lemma {:induction false} BlockSetSize(bs: seq<U64>)
    requires Distinct(bs)
    ensures |BlockSet(bs)| == |bs|
  {
    if bs != [] {
      var init, last := bs[..|bs| - 1], bs[|bs| - 1];
      BlockSetSize(init);
      BlockSetAppend(init, last);
      assert bs == init + [last];
      assert last !in BlockSet(init);
    } else {
      assert BlockSet(bs) == {};
    }
  }

  /** Blocks are claimed out of the spare ones alone. */
  lemma SpareAfter(a: Snap, b: Snap)
    requires Extends(a, b)
    ensures var total := |a.disk.durable|;
      |SpareSet(total, a.marks)| == |SpareSet(total, b.marks)| + Claimed(a.marks, b.marks)
  {
    var total := |a.disk.durable|;
    var before, after := SpareSet(total, a.marks), SpareSet(total, b.marks);
    assert before == after + (b.marks - a.marks);
  }

  /** The blocks of a tree that an allocation could have given it. */
  ghost function Held(total: nat, t: Node): nat {
    |Footprint(t) * SpareSet(total, {})|
  }

  /** With the same blocks unaccounted for, what one tree holds less than another is spare. */
  lemma SpareBalance(total: nat, marks: set<nat>, t: Node, marks': set<nat>, t': Node)
    requires Reserved(total) + Footprint(t) <= marks && Reserved(total) + Footprint(t') <= marks'
    requires marks - (Reserved(total) + Footprint(t)) == marks' - (Reserved(total) + Footprint(t'))
    ensures |SpareSet(total, marks)| + Held(total, t) == |SpareSet(total, marks')| + Held(total, t')
  {
    hide Footprint, Reserved;
    var usable, loose := SpareSet(total, {}), marks - (Reserved(total) + Footprint(t));
    UsableUnreserved(total);
    SpareSplit(total, marks, Footprint(t), usable, loose);
    SpareSplit(total, marks', Footprint(t'), usable, loose);
  }

  lemma UsableUnreserved(total: nat)
    ensures SpareSet(total, {}) !! Reserved(total)
  {
  }

  lemma SpareSplit(total: nat, marks: set<nat>, tree: set<nat>, usable: set<nat>, loose: set<nat>)
    requires usable == SpareSet(total, {}) && usable !! Reserved(total)
    requires marks == Reserved(total) + tree + loose && loose !! (Reserved(total) + tree)
    ensures |SpareSet(total, marks)| + |tree * usable| + |loose * usable| == |usable|
  {
    hide Reserved;
    var spare := SpareSet(total, marks);
    assert usable == spare + (tree * usable) + (loose * usable);
    assert spare !! (tree * usable);
    assert (spare + (tree * usable)) !! (loose * usable);
  }

  lemma NoneSpare(total: nat, marks: set<nat>)
    ensures |SpareSet(total, marks)| == 0 <==> forall b :: Usable(total, b) ==> b in marks
  {
    if forall b :: Usable(total, b) ==> b in marks {
      assert SpareSet(total, marks) == {};
    } else {
      var b :| Usable(total, b) && b !in marks;
      assert b in SpareSet(total, marks);
    }
  }

  /** What was claimed and not used is left over. */
  lemma LeakedMore(used: set<nat>, before: set<nat>, after: set<nat>)
    requires used <= before <= after
    ensures after - used == (before - used) + (after - before)
  {
  }

  lemma SpareShrinks(total: nat, few: set<nat>, many: set<nat>)
    requires few <= many
    ensures |SpareSet(total, many)| <= |SpareSet(total, few)|
  {
    SetsGrow(SpareSet(total, many), SpareSet(total, few));
  }

  lemma SetsGrow(x: set<nat>, y: set<nat>)
    requires x <= y
    ensures |x| <= |y|
  {
    assert y == x + (y - x);
  }

  // ---- reading, and other views of a tree ----

  /** What a reader walking down a path meets. */
  ghost function ReadObstacle(n: Node, path: seq<Name>, user: Option<U32>): Option<FsError>
    decreases path
  {
    if path == [] then None
    else if n.FileNode? then Some(WrongType)
    else if !Permits(n.owner, n.mode, user, false) then Some(Denied)
    else
      match Find(n.items, path[0])
      case None => Some(NotFound)
      case Some(child) => ReadObstacle(child, path[1..], user)
  }

  ghost function LookupOpt(n: Option<Node>, path: seq<Name>): Option<Info> {
    match n
    case None => None
    case Some(m) => Lookup(m, path)
  }

  ghost function FootprintOpt(n: Option<Node>): set<nat> {
    match n
    case None => {}
    case Some(m) => Footprint(m)
  }

  /** At its own root the new subtree is `info`; below it, what the old one was. */
  ghost predicate ReplacedBy(before: Option<Node>, after: Option<Node>, info: Option<Info>) {
    forall q: seq<Name> :: LookupOpt(after, q) == if q == [] then info else LookupOpt(before, q)
  }

  /** What an action leaves behind: the subtree `made` stored in `img`, which gave up the blocks
      `gone` of the old one and claimed the blocks `claimed`, with the effect asked for. */
  ghost predicate Done(
    img: Image, a: Action, target: Option<Node>, made: Option<Node>, block: Option<U64>,
    gone: set<nat>, claimed: set<nat>)
  {
    && (block.Some? <==> made.Some?)
    && (made.Some? ==> made.value.block == block.value && Shape(made.value) && Rep(img, made.value))
    && gone <= FootprintOpt(target)
    && FootprintOpt(made) == (FootprintOpt(target) - gone) + claimed
    && ReplacedBy(target, made, Effect(a, target))
  }

  /** `target` is stored in `img` in claimed blocks, at `existing`. */
  ghost predicate Stored(img: Image, marks: set<nat>, existing: Option<U64>, target: Option<Node>) {
    && (existing.Some? <==> target.Some?)
    && (target.Some? ==>
          && target.value.block == existing.value
          && Shape(target.value) && Rep(img, target.value)
          && Footprint(target.value) <= marks && 0 !in Footprint(target.value))
  }

  // ---- moving the device and bitmap forward ----

  datatype Snap = Snap(disk: Disk, marks: set<nat>, trace: seq<Disk>)

  /** From `a` to `b` blocks were only claimed, never released, and only blocks claimed since
      `a` were written; nothing was flushed. */
  ghost predicate Extends(a: Snap, b: Snap) {
    && a.disk.durable == b.disk.durable
    && a.disk.pending <= b.disk.pending
    && a.marks <= b.marks
    && (forall x :: x in b.marks - a.marks ==> Usable(|a.disk.durable|, x))
    && (forall i :: |a.disk.pending| <= i < |b.disk.pending| ==> b.disk.pending[i].sector in b.marks - a.marks)
    && a.trace <= b.trace
    && (|| (a.disk == b.disk && a.trace == b.trace)
        || (|a.trace| < |b.trace| && b.trace[|b.trace| - 1] == b.disk))
    && (forall k :: |a.trace| <= k < |b.trace| ==>
          b.trace[k].durable == b.disk.durable && b.trace[k].pending <= b.disk.pending)
  }

  lemma ExtendsRefl(a: Snap)
    ensures Extends(a, a)
  {
  }

  lemma ExtendsTrans(a: Snap, b: Snap, c: Snap)
    requires Extends(a, b) && Extends(b, c)
    ensures Extends(a, c)
    ensures a.marks <= b.marks <= c.marks
  {
  }

  lemma {:induction false} ApplyAgree(img: Image, xs: seq<Write>, ys: seq<Write>, s: nat)
    requires xs <= ys && s < |img|
    requires forall i :: 0 <= i < |ys| ==> ys[i].sector < |img|
    requires forall i :: |xs| <= i < |ys| ==> ys[i].sector != s
    ensures ApplyAll(img, xs)[s] == ApplyAll(img, ys)[s]
    decreases |ys|
  {
    if xs == ys {
    } else {
      assert xs <= ys[..|ys| - 1];
      ApplyAgree(img, xs, ys[..|ys| - 1], s);
    }
  }

  /** Blocks claimed before keep their contents. */
  lemma ExtendsAgree(a: Snap, b: Snap)
    requires Extends(a, b) && ValidDisk(a.disk)
    ensures ValidDisk(b.disk)
    ensures Agree(Visible(a.disk), Visible(b.disk), a.marks)
  {
    forall i | 0 <= i < |b.disk.pending|
      ensures b.disk.pending[i].sector < |b.disk.durable|
    {
      if i < |a.disk.pending| { assert b.disk.pending[i] == a.disk.pending[i]; }
    }
    forall s | s in a.marks && s < |a.disk.durable|
      ensures Visible(a.disk)[s] == Visible(b.disk)[s]
    {
      ApplyAgree(a.disk.durable, a.disk.pending, b.disk.pending, s);
    }
  }

  /** A subtree whose blocks were claimed before is still there. */
  lemma ExtendsRep(a: Snap, b: Snap, n: Node)
    requires Extends(a, b) && ValidDisk(a.disk)
    requires Rep(Visible(a.disk), n) && Footprint(n) <= a.marks
    ensures ValidDisk(b.disk) && Rep(Visible(b.disk), n)
  {
    ExtendsAgree(a, b);
    RepFrame(Visible(a.disk), Visible(b.disk), n);
  }

  // ---- directories as lists of entries ----

  function Others(es: seq<DirEntry>, name: Name): (r: seq<DirEntry>)
    ensures |r| <= |es|
    ensures (forall e <- es :: e.inode != 0) ==> forall e <- r :: e.inode != 0
  {
    if es == [] then []
    else
      var init, last := es[..|es| - 1], es[|es| - 1];
      if NameOf(last) == name then Others(init, name) else Others(init, name) + [last]
  }

  lemma {:induction false} OthersConcat(a: seq<DirEntry>, b: seq<DirEntry>, name: Name)
    ensures Others(a + b, name) == Others(a, name) + Others(b, name)
    decreases |b|
  {
    if b == [] {
      assert a + b == a;
    } else {
      var init, last := b[..|b| - 1], b[|b| - 1];
      assert (a + b)[..|a + b| - 1] == a + init;
      OthersConcat(a, init, name);
    }
  }

  lemma {:induction false} OthersWithout(items: seq<Node>, name: Name)
    ensures Others(EntriesOf(items), name) == EntriesOf(Without(items, name))
    decreases items
  {
    if items != [] {
      var init := items[..|items| - 1];
      assert EntriesOf(items)[..|items| - 1] == EntriesOf(init);
      OthersWithout(init, name);
    }
  }

  lemma {:induction false} LiveEntriesLength(block: Sector, n: nat)
    requires n <= ENTRIES_PER_BLOCK
    ensures |LiveEntries(block, n)| <= n
  {
    hide DecodeEntry;
    if n > 0 { LiveEntriesLength(block, n - 1); }
  }

  lemma {:induction false} DirEntriesLength(img: Image, bs: seq<U64>)
    requires InRange(img, bs)
    ensures |DirEntries(img, bs)| <= ENTRIES_PER_BLOCK * |bs|
  {
    if bs != [] {
      DirEntriesLength(img, bs[..|bs| - 1]);
      LiveEntriesLength(img[bs[|bs| - 1]], ENTRIES_PER_BLOCK);
    }
  }

  lemma EmptyDirBlock()
    ensures EncodeDirBlock([]) == Zeros(BLOCK_SIZE)
  {
    assert EncodeEntries([]) == [];
  }

  lemma BlockSetAppend(bs: seq<U64>, b: U64)
    ensures BlockSet(bs + [b]) == BlockSet(bs) + {b}
  {
    assert forall i :: 0 <= i < |bs| ==> (bs + [b])[i] == bs[i];
    assert (bs + [b])[|bs|] == b;
  }

  lemma NothingTaken(img: Image, data: seq<Byte>)
    ensures Distinct([]) && BlockSet([]) == {} && HoldsData(img, [], data) && DirEntries(img, []) == []
  {
  }

  lemma DirEntriesNext(img: Image, bs: seq<U64>, slot: nat)
    requires InRange(img, bs) && slot < |bs|
    ensures DirEntries(img, bs[..slot + 1]) == DirEntries(img, bs[..slot]) + LiveEntries(img[bs[slot]], ENTRIES_PER_BLOCK)
    ensures DirEntries(img, bs[..slot]) == DirEntries(img, bs[..slot]) + LiveEntries(img[bs[slot]], 0)
  {
    assert bs[..slot + 1][..slot] == bs[..slot];
  }

  function OthersOf(e: DirEntry, name: Name): seq<DirEntry> {
    if e.inode == 0 || NameOf(e) == name then [] else [e]
  }

  /** One more slot of a directory block, read past. */
  ghost predicate Lacks(es: seq<DirEntry>, name: Name) {
    forall e <- es :: NameOf(e) != name
  }

  lemma LacksNone(name: Name)
    ensures Lacks([], name)
  {
  }

  lemma LacksAll(es: seq<DirEntry>, name: Name)
    requires Lacks(es, name)
    ensures forall e <- es :: NameOf(e) != name
  {
  }

  lemma LacksStep(before: seq<DirEntry>, data: Sector, index: nat, name: Name)
    requires index < ENTRIES_PER_BLOCK && Lacks(before + LiveEntries(data, index), name)
    requires var e := DecodeEntry(SlotOf(data, index)); e.inode == 0 || NameOf(e) != name
    ensures Lacks(before + LiveEntries(data, index + 1), name)
  {
    hide DecodeEntry, NameOf;
    var e := DecodeEntry(SlotOf(data, index));
    var now, next := LiveEntries(data, index), LiveEntries(data, index + 1);
    assert next == now || next == now + [e];
    assert before + (now + [e]) == (before + now) + [e];
  }

  lemma OthersStep(before: seq<DirEntry>, data: Sector, index: nat, name: Name)
    requires index < ENTRIES_PER_BLOCK
    ensures Others(before + LiveEntries(data, index + 1), name)
         == Others(before + LiveEntries(data, index), name) + OthersOf(DecodeEntry(SlotOf(data, index)), name)
  {
    hide DecodeEntry, NameOf;
    var e := DecodeEntry(SlotOf(data, index));
    var all := before + LiveEntries(data, index);
    if e.inode != 0 {
      assert before + LiveEntries(data, index + 1) == all + [e];
      assert (all + [e])[..|all|] == all;
    }
  }

  /** One more claimed block, written. */
  lemma TakeOne(img: Image, taken: seq<U64>, b: U64, data: Sector, start: set<nat>, marks: set<nat>)
    requires Distinct(taken) && InRange(img, taken) && b < |img|
    requires start <= marks && BlockSet(taken) == marks - start && b !in marks
    ensures Distinct(taken + [b]) && InRange(img[b := data], taken + [b])
    ensures BlockSet(taken + [b]) == (marks + {b}) - start
    ensures Agree(img, img[b := data], BlockSet(taken))
  {
    BlockSetAppend(taken, b);
    assert forall k :: 0 <= k < |taken| ==> taken[k] in BlockSet(taken);
  }

  lemma DataStep(img: Image, taken: seq<U64>, b: U64, data: seq<Byte>)
    requires HoldsData(img, taken, data) && b < |img| && b !in BlockSet(taken)
    ensures HoldsData(img[b := Pad(Chunk(data, |taken|))], taken + [b], data)
  {
    hide Pad, Chunk;
    assert forall k :: 0 <= k < |taken| ==> taken[k] in BlockSet(taken);
  }

  lemma EntriesStep(img: Image, taken: seq<U64>, b: U64, chunk: seq<DirEntry>)
    requires InRange(img, taken) && b < |img| && b !in BlockSet(taken)
    requires |chunk| <= ENTRIES_PER_BLOCK && forall e <- chunk :: e.inode != 0
    ensures InRange(img[b := EncodeDirBlock(chunk)], taken + [b])
    ensures DirEntries(img[b := EncodeDirBlock(chunk)], taken + [b]) == DirEntries(img, taken) + chunk
  {
    hide EncodeDirBlock, LiveEntries;
    var img' := img[b := EncodeDirBlock(chunk)];
    assert (taken + [b])[..|taken|] == taken;
    DirEntriesFrame(img, img', taken);
    DirBlockRoundTrip(chunk);
  }

  lemma {:induction false} LiveEntryIn(data: Sector, k: nat)
    requires k < ENTRIES_PER_BLOCK
    requires DecodeEntry(SlotOf(data, k)).inode != 0
    ensures DecodeEntry(SlotOf(data, k)) in LiveEntries(data, ENTRIES_PER_BLOCK)
  {
    LiveEntryUpTo(data, k, ENTRIES_PER_BLOCK);
  }

  lemma {:induction false} LiveEntryUpTo(data: Sector, k: nat, n: nat)
    requires k < n <= ENTRIES_PER_BLOCK
    requires DecodeEntry(SlotOf(data, k)).inode != 0
    ensures DecodeEntry(SlotOf(data, k)) in LiveEntries(data, n)
  {
    hide DecodeEntry;
    if k < n - 1 { LiveEntryUpTo(data, k, n - 1); }
  }

  lemma {:induction false} DirEntryIn(img: Image, bs: seq<U64>, slot: nat, e: DirEntry)
    requires InRange(img, bs) && slot < |bs|
    requires e in LiveEntries(img[bs[slot]], ENTRIES_PER_BLOCK)
    ensures e in DirEntries(img, bs)
  {
    if slot < |bs| - 1 { DirEntryIn(img, bs[..|bs| - 1], slot, e); }
  }

  // ---- replacing one child ----

  function Linked(n: Node, name: Name): Node
    requires |name| <= MAX_NAME
  {
    n.(entry := MakeEntry(name, n.block))
  }

  ghost function NewItems(items: seq<Node>, name: Name, made: Option<Node>): seq<Node>
    requires made.Some? ==> |name| <= MAX_NAME
  {
    if made.None? then Without(items, name) else Without(items, name) + [Linked(made.value, name)]
  }

  lemma LinkedSame(n: Node, name: Name, img: Image)
    requires |name| <= MAX_NAME
    ensures var m := Linked(n, name);
            Footprint(m) == Footprint(n) && (Shape(m) <==> Shape(n)) && (Rep(img, m) <==> Rep(img, n))
    ensures forall q: seq<Name> :: Lookup(Linked(n, name), q) == Lookup(n, q)
  {
    forall q: seq<Name>
      ensures Lookup(Linked(n, name), q) == Lookup(n, q)
    {
    }
  }

  lemma NewItemsFacts(img: Image, items: seq<Node>, name: Name, made: Option<Node>)
    requires ItemsShape(items) && ItemsRep(img, items) && DistinctNames(items)
    requires made.Some? ==>
               && ValidName(name) && made.value.block != 0
               && Shape(made.value) && Rep(img, made.value)
               && Footprint(made.value) !! (ItemsFootprint(items) - FootprintOpt(Find(items, name)))
    ensures var r := NewItems(items, name, made);
            && ItemsShape(r) && ItemsRep(img, r) && DistinctNames(r)
            && ItemsFootprint(r) ==
               (ItemsFootprint(items) - FootprintOpt(Find(items, name))) + FootprintOpt(made)
  {
    hide Shape, Rep, Footprint, ItemsShape, ItemsRep, ItemsFootprint;
    var w := Without(items, name);
    WithoutFacts(img, items, name);
    WithoutNames(items, name);
    if made.Some? {
      var m := Linked(made.value, name);
      LinkedSame(made.value, name, img);
      AppendFacts(img, w, m);
      assert forall i :: 0 <= i < |w| ==> w[i] in w;
    }
  }

  lemma NewItemsFind(items: seq<Node>, name: Name, made: Option<Node>, other: Name)
    requires made.Some? ==> |name| <= MAX_NAME
    ensures Find(NewItems(items, name, made), other)
         == if other != name then Find(items, other)
            else if made.Some? then Some(Linked(made.value, name)) else None
  {
    FindWithout(items, name, other);
    if made.Some? { FindAdded(Without(items, name), Linked(made.value, name), other); }
  }

  /** Replacing the child called `path[0]`, where the child changed only at `path[1..]`, changes
      the directory only at `path`: every other path names what it did. */
  lemma ChildUpdate(n: Node, n': Node, path: seq<Name>, made: Option<Node>, info: Option<Info>)
    requires n.DirNode? && n'.DirNode? && path != []
    requires InfoOf(n) == InfoOf(n')
    requires made.Some? ==> |path[0]| <= MAX_NAME
    requires n'.items == NewItems(n.items, path[0], made)
    requires forall q: seq<Name> ::
               LookupOpt(made, q) == if q == path[1..] then info else LookupOpt(Find(n.items, path[0]), q)
    ensures UpdatedAt(n, n', path, info)
  {
    forall q: seq<Name>
      ensures Lookup(n', q) == if q == path then info else Lookup(n, q)
    {
      if q != [] {
        ChildLookup(n, n', path, made, q);
        assert q[0] == path[0] ==> q == [q[0]] + q[1..] && path == [path[0]] + path[1..];
      }
    }
  }

  /** A path under the changed name goes on in the new child, and any other path as before. */
  lemma ChildLookup(n: Node, n': Node, path: seq<Name>, made: Option<Node>, q: seq<Name>)
    requires n.DirNode? && n'.DirNode? && path != [] && q != []
    requires made.Some? ==> |path[0]| <= MAX_NAME
    requires n'.items == NewItems(n.items, path[0], made)
    ensures q[0] != path[0] ==> Lookup(n', q) == Lookup(n, q)
    ensures q[0] == path[0] ==>
      Lookup(n', q) == LookupOpt(made, q[1..]) && Lookup(n, q) == LookupOpt(Find(n.items, path[0]), q[1..])
  {
    hide NewItems;
    NewItemsFind(n.items, path[0], made, q[0]);
    if q[0] == path[0] && made.Some? {
      LinkedSame(made.value, path[0], []);
      assert Lookup(n', q) == Lookup(Linked(made.value, path[0]), q[1..]);
    }
  }

  // ---- what each action makes ----

  function Created(a: Action, block: U64, blocks: seq<U64>): Node
    requires a.Create?
  {
    if a.isDirectory then DirNode(MakeEntry([], 0), block, a.owner, DEFAULT_MODE, blocks, [])
    else FileNode(MakeEntry([], 0), block, a.owner, DEFAULT_MODE, blocks, [])
  }

  lemma CreateDone(img: Image, a: Action, block: U64, blocks: seq<U64>)
    requires a.Create? && |blocks| == (if a.isDirectory then 1 else 0)
    requires HoldsInode(img, block, Inode(a.isDirectory, a.owner, DEFAULT_MODE, 0, blocks))
    requires InRange(img, blocks) && DirEntries(img, blocks) == [] && block !in BlockSet(blocks)
    ensures Done(img, a, None, Some(Created(a, block, blocks)), Some(block), {}, {block} + BlockSet(blocks))
  {
    hide DecodeInode;
    var n := Created(a, block, blocks);
    assert EntriesOf([]) == [] && Chunk([], 0) == [];
    if a.isDirectory { DirParts(img, n); }
    assert Shape(n) && Rep(img, n);
    forall q: seq<Name> | q != []
      ensures Lookup(n, q) == None
    {
    }
  }

  lemma ReplaceDone(img: Image, a: Action, n: Node, block: U64, blocks: seq<U64>)
    requires a.Replace? && n.FileNode? && Shape(n) && ValidAction(a)
    requires HoldsInode(img, block, Inode(false, n.owner, n.mode, |a.data|, blocks))
    requires HoldsData(img, blocks, a.data) && block !in BlockSet(blocks)
    requires |blocks| == CeilDiv(|a.data|, BLOCK_SIZE) && Distinct(blocks)
    ensures Done(img, a, Some(n), Some(n.(block := block, blocks := blocks, data := a.data)), Some(block),
                 OwnBlocks(n), {block} + BlockSet(blocks))
  {
    hide DecodeInode;
    var m := n.(block := block, blocks := blocks, data := a.data);
    assert Shape(m) && Rep(img, m);
    forall q: seq<Name> | q != []
      ensures Lookup(m, q) == Lookup(n, q)
    {
    }
  }

  lemma RemoveDone(img: Image, n: Node)
    requires n.DirNode? ==> n.items == []
    ensures Done(img, Remove, Some(n), None, None, OwnBlocks(n), {})
  {
    assert Footprint(n) == OwnBlocks(n);
    forall q: seq<Name> | q != []
      ensures Lookup(n, q) == None
    {
    }
  }

  lemma SetModeDone(img: Image, a: Action, n: Node, block: U64)
    requires a.SetMode? && ValidAction(a) && Shape(n) && Rep(img, n)
    requires HoldsInode(img, block, InodeOf(n.(mode := a.mode))) && block !in Footprint(n)
    ensures Done(img, a, Some(n), Some(n.(block := block, mode := a.mode)), Some(block), {n.block}, {block})
  {
    hide DecodeInode;
    var m := n.(block := block, mode := a.mode);
    assert Shape(m) && Rep(img, m);
    forall q: seq<Name> | q != []
      ensures Lookup(m, q) == Lookup(n, q)
    {
    }
  }

  lemma OwnBlocksFacts(n: Node)
    ensures OwnBlocks(n) == {n.block as nat} + BlockSet(n.blocks)
    ensures OwnBlocks(n) <= Footprint(n)
    ensures 0 !in Footprint(n) ==> 0 !in n.blocks
  {
    assert forall i :: 0 <= i < |n.blocks| ==> n.blocks[i] in BlockSet(n.blocks);
  }

  lemma RetiredSuffix(before: seq<U64>, blocks: seq<U64>, block: U64, after: seq<U64>)
    requires after == before + blocks + [block]
    ensures before <= after
    ensures BlockSet(after[|before|..]) == {block as nat} + BlockSet(blocks)
  {
    assert after[|before|..] == blocks + [block];
    BlockSetAppend(blocks, block);
  }

  lemma HoldsDataFrame(a: Image, b: Image, bs: seq<U64>, data: seq<Byte>)
    requires HoldsData(a, bs, data) && Agree(a, b, BlockSet(bs))
    ensures HoldsData(b, bs, data)
  {
    assert forall k :: 0 <= k < |bs| ==> bs[k] in BlockSet(bs);
  }

  lemma CeilBound(a: nat, b: nat, c: nat)
    requires b > 0
    ensures CeilDiv(a, b) <= c <==> a <= b * c
  {
    var q := CeilDiv(a, b);
    assert b * q >= a && (q == 0 || b * (q - 1) < a) by {
      assert a + b - 1 == b * q + (a + b - 1) % b;
    }
    if q <= c { assert b * q <= b * c; } else { assert b * c <= b * (q - 1); }
  }

  lemma AgreeSubset(a: Image, b: Image, xs: set<nat>, ys: set<nat>)
    requires Agree(a, b, ys) && xs <= ys
    ensures Agree(a, b, xs)
  {
  }

  /** A stored node's inode fits its on-disk fields. */
  lemma InodeBounds(img: Image, n: Node)
    requires Shape(n) && Rep(img, n)
    ensures ValidInode(InodeOf(n))
  {
    hide DecodePointers, LeValue, ItemsShape, ItemsRep, DirEntries;
  }

  // ---- rewriting one directory ----

  ghost predicate LinksTo(block: Option<U64>, made: Option<Node>) {
    (block.Some? <==> made.Some?) && (made.Some? ==> made.value.block == block.value)
  }

  /** A subtree ready to be linked into `n` under `name`, in place of what was there. */
  ghost predicate Linkable(img: Image, marks: set<nat>, n: Node, name: Name, made: Option<Node>)
    requires n.DirNode?
  {
    made.Some? ==>
      && ValidName(name)
      && Shape(made.value) && Rep(img, made.value)
      && Footprint(made.value) <= marks && 0 !in Footprint(made.value)
      && Footprint(made.value) !! (Footprint(n) - FootprintOpt(Find(n.items, name)))
  }

  /** Claiming more blocks takes none away from what is ready to be linked. */
  lemma LinkableLater(a: Snap, b: Snap, n: Node, name: Name, made: Option<Node>)
    requires Extends(a, b) && ValidDisk(a.disk) && n.DirNode?
    requires Stored(Visible(a.disk), a.marks, Some(n.block), Some(n))
    requires Linkable(Visible(a.disk), a.marks, n, name, made)
    ensures Stored(Visible(b.disk), b.marks, Some(n.block), Some(n))
    ensures Linkable(Visible(b.disk), b.marks, n, name, made)
    ensures (b.marks - a.marks) !! (Footprint(n) + FootprintOpt(made))
  {
    hide Extends, Visible, Rep, Shape, Footprint, Find, ValidDisk;
    ExtendsMarks(a, b);
    ExtendsRep(a, b, n);
    if made.Some? { ExtendsRep(a, b, made.value); }
  }

  ghost function Relinked(n: Node, name: Name, made: Option<Node>, block: U64, blocks: seq<U64>): Node
    requires n.DirNode? && (made.Some? ==> |name| <= MAX_NAME)
  {
    n.(block := block, blocks := blocks, items := NewItems(n.items, name, made))
  }

  lemma FindInItems(img: Image, n: Node, name: Name)
    requires n.DirNode? && Shape(n) && Rep(img, n)
    ensures Find(n.items, name).Some? ==>
              var c := Find(n.items, name).value;
              Shape(c) && Rep(img, c) && Footprint(c) <= ItemsFootprint(n.items) && ValidName(name)
  {
    hide Shape, Rep, Footprint, ItemsFootprint, ItemsShape, ItemsRep, Find;
    ShapeParts(img, n);
    if i :| 0 <= i < |n.items| && NameOf(n.items[i].entry) == name {
      ItemFacts(img, n.items, i);
      FindByIndex(n.items, i);
    } else {
      FindNone(n.items, name);
    }
  }

  lemma ShapeParts(img: Image, n: Node)
    requires n.DirNode? && Shape(n) && Rep(img, n)
    ensures ItemsShape(n.items) && ItemsRep(img, n.items) && DistinctNames(n.items)
    ensures OwnBlocks(n) !! ItemsFootprint(n.items) && Footprint(n) == OwnBlocks(n) + ItemsFootprint(n.items)
    ensures InRange(img, n.blocks) && DirEntries(img, n.blocks) == EntriesOf(n.items)
    ensures |n.items| <= ENTRIES_PER_BLOCK * DIRECT_BLOCKS && n.mode <= ALL_PERMISSIONS
  {
    DirEntriesLength(img, n.blocks);
  }

  /** What looking a name up among the entries says about the children. */
  lemma ChildStored(img: Image, marks: set<nat>, n: Node, name: Name, existing: Option<U64>)
    requires n.DirNode? && Stored(img, marks, Some(n.block), Some(n)) && InRange(img, n.blocks)
    requires existing.Some? ==> exists e <- DirEntries(img, n.blocks) :: NameOf(e) == name && e.inode == existing.value
    requires existing.None? ==> forall e <- DirEntries(img, n.blocks) :: NameOf(e) != name
    ensures Stored(img, marks, existing, Find(n.items, name))
  {
    hide Shape, Rep, Footprint, ItemsFootprint, ItemsShape, ItemsRep, Find, DirEntries;
    ShapeParts(img, n);
    FindInItems(img, n, name);
    var es := EntriesOf(n.items);
    assert forall i :: 0 <= i < |n.items| ==> es[i] == n.items[i].entry && es[i] in es;
    match existing {
      case Some(b) =>
        var e :| e in es && NameOf(e) == name && e.inode == b;
        var i :| 0 <= i < |es| && es[i] == e;
        FindByIndex(n.items, i);
        ItemFacts(img, n.items, i);
      case None =>
        FindNone(n.items, name);
    }
  }

  /** The entries written for a rewritten directory are those of its new children. */
  lemma NewEntries(items: seq<Node>, name: Name, made: Option<Node>)
    requires made.Some? ==> |name| <= MAX_NAME
    ensures EntriesOf(NewItems(items, name, made))
         == Others(EntriesOf(items), name) + if made.Some? then [MakeEntry(name, made.value.block)] else []
  {
    OthersWithout(items, name);
    hide Others, Without, MakeEntry;
    if made.Some? {
      EntriesMore(Without(items, name), Linked(made.value, name));
    }
  }

  lemma EntriesMore(items: seq<Node>, n: Node)
    ensures EntriesOf(items + [n]) == EntriesOf(items) + [n.entry]
  {
  }

  lemma NewItemsLength(img: Image, n: Node, name: Name, made: Option<Node>)
    requires n.DirNode? && Shape(n) && Rep(img, n) && (made.Some? ==> |name| <= MAX_NAME)
    ensures var len := |NewItems(n.items, name, made)|;
            len == |n.items| - (if Find(n.items, name).Some? then 1 else 0) + (if made.Some? then 1 else 0)
  {
    hide Shape, Rep;
    ShapeParts(img, n);
    WithoutFacts(img, n.items, name);
  }

  /** A change touches its directory's list of names only by adding or dropping its own. */
  lemma NamesCount(img: Image, n: Node, path: seq<Name>, access: Access, a: Action, made: Option<Node>)
    requires n.DirNode? && Shape(n) && Rep(img, n) && path != [] && Obstacle(n, path, access, a) == None
    requires made.Some? ==> |path[0]| <= MAX_NAME
    requires made.Some? <==> !(|path| == 1 && a.Remove?)
    ensures |NewItems(n.items, path[0], made)| == NamesAfter(n, path, a)
  {
    hide Shape, Rep, NewItems;
    NewItemsLength(img, n, path[0], made);
  }

  lemma RelinkDone(
    img: Image, marks: set<nat>, n: Node, name: Name, made: Option<Node>, block: U64, blocks: seq<U64>)
    requires n.DirNode? && Shape(n) && Rep(img, n) && Linkable(img, marks, n, name, made)
    requires HoldsInode(img, block, Inode(true, n.owner, n.mode, |NewItems(n.items, name, made)|, blocks))
    requires InRange(img, blocks) && DirEntries(img, blocks) == EntriesOf(NewItems(n.items, name, made))
    requires Distinct(blocks) && |blocks| <= DIRECT_BLOCKS && block !in BlockSet(blocks)
    requires ({block as nat} + BlockSet(blocks)) !! (Footprint(n) + FootprintOpt(made))
    ensures var n' := Relinked(n, name, made, block, blocks);
            && Shape(n') && Rep(img, n') && OwnBlocks(n') == {block as nat} + BlockSet(blocks)
            && Footprint(n') == (Footprint(n) - OwnBlocks(n) - FootprintOpt(Find(n.items, name)))
                                + FootprintOpt(made) + OwnBlocks(n')
  {
    hide Shape, Rep, DecodeInode, Footprint, ItemsFootprint, ItemsShape, ItemsRep, Find, DirEntries, NewItems;
    ShapeParts(img, n);
    RelinkItems(img, marks, n, name, made);
    DirParts(img, Relinked(n, name, made, block, blocks));
  }

  /** `ShapeParts`, the other way. */
  lemma DirParts(img: Image, n: Node)
    requires n.DirNode? && HoldsInode(img, n.block, InodeOf(n))
    requires InRange(img, n.blocks) && DirEntries(img, n.blocks) == EntriesOf(n.items) && ItemsRep(img, n.items)
    ensures Rep(img, n)
    ensures Footprint(n) == OwnBlocks(n) + ItemsFootprint(n.items)
    ensures (&& n.mode <= ALL_PERMISSIONS && |n.blocks| <= DIRECT_BLOCKS && Distinct(n.blocks)
             && n.block !in BlockSet(n.blocks) && ItemsShape(n.items) && DistinctNames(n.items)
             && OwnBlocks(n) !! ItemsFootprint(n.items)) ==> Shape(n)
  {
    hide DecodeInode, ItemsFootprint, ItemsShape, ItemsRep, DirEntries;
  }

  lemma RelinkItems(img: Image, marks: set<nat>, n: Node, name: Name, made: Option<Node>)
    requires n.DirNode? && Shape(n) && Rep(img, n) && Linkable(img, marks, n, name, made)
    ensures var items := NewItems(n.items, name, made);
            && ItemsShape(items) && ItemsRep(img, items) && DistinctNames(items)
            && ItemsFootprint(items) ==
               (Footprint(n) - OwnBlocks(n) - FootprintOpt(Find(n.items, name))) + FootprintOpt(made)
  {
    hide Shape, Rep, ItemsFootprint, ItemsShape, ItemsRep, Find;
    ShapeParts(img, n);
    FindInItems(img, n, name);
    if made.Some? { assert made.value.block in Footprint(made.value); }
    NewItemsFacts(img, n.items, name, made);
  }

  // ---- a rewritten path ----

  /** `n'` in `img` is `n` changed at `path` alone; it gave up `gone` and claimed `claimed`. */
  ghost predicate Rewrote(
    img: Image, n: Node, n': Node, path: seq<Name>, info: Option<Info>, block: U64,
    gone: set<nat>, claimed: set<nat>)
  {
    && n'.DirNode? && n'.block == block && Shape(n') && Rep(img, n')
    && UpdatedAt(n, n', path, info)
    && gone <= Footprint(n) && block in claimed
    && Footprint(n') == (Footprint(n) - gone) + claimed
  }

  /** The child's part of a rewrite: `made` replaces the child called `path[0]`. */
  ghost predicate ChildDone(
    img: Image, n: Node, path: seq<Name>, info: Option<Info>, made: Option<Node>, gone: set<nat>, claimed: set<nat>)
    requires n.DirNode? && path != []
  {
    var child := Find(n.items, path[0]);
    && (made.Some? ==> Shape(made.value) && Rep(img, made.value) && ValidName(path[0]))
    && gone <= FootprintOpt(child)
    && FootprintOpt(made) == (FootprintOpt(child) - gone) + claimed
    && forall q: seq<Name> :: LookupOpt(made, q) == if q == path[1..] then info else LookupOpt(child, q)
  }

  lemma ChildLinkable(
    img: Image, before: set<nat>, marks: set<nat>, n: Node, path: seq<Name>, info: Option<Info>,
    made: Option<Node>, gone: set<nat>)
    requires n.DirNode? && path != [] && Shape(n) && Rep(img, n)
    requires before <= marks && Footprint(n) <= before && 0 !in Footprint(n) && 0 in before
    requires ChildDone(img, n, path, info, made, gone, marks - before)
    ensures Linkable(img, marks, n, path[0], made) && (made.Some? ==> |path[0]| <= MAX_NAME)
  {
    hide Shape, Rep, Find, UpdatedAt;
    ShapeParts(img, n);
    FindInItems(img, n, path[0]);
  }

  lemma LevelDone(
    img: Image, img1: Image, n: Node, path: seq<Name>, info: Option<Info>, made: Option<Node>,
    gone: set<nat>, claimed: set<nat>, block: U64, blocks: seq<U64>)
    requires n.DirNode? && path != [] && Shape(n) && Rep(img, n)
    requires ChildDone(img1, n, path, info, made, gone, claimed)
    requires var n' := Relinked(n, path[0], made, block, blocks);
             && Shape(n') && Rep(img, n')
             && Footprint(n') == (Footprint(n) - OwnBlocks(n) - FootprintOpt(Find(n.items, path[0])))
                                 + FootprintOpt(made) + OwnBlocks(n')
    ensures var n' := Relinked(n, path[0], made, block, blocks);
            Rewrote(img, n, n', path, info, block, gone + OwnBlocks(n), claimed + OwnBlocks(n'))
  {
    hide Shape, Rep, Find, UpdatedAt, Footprint, NewItems;
    ShapeParts(img, n);
    FindInItems(img, n, path[0]);
    ChildUpdate(n, Relinked(n, path[0], made, block, blocks), path, made, info);
  }

  lemma ExtendsMarks(a: Snap, b: Snap)
    requires Extends(a, b)
    ensures a.marks <= b.marks
  {
  }

  lemma ZeroReserved(total: nat, sb: SuperBlock)
    requires ValidLayout(total, sb)
    ensures 0 in Reserved(total)
  {
  }

  lemma GarbageSet(garbage: seq<U64>, blocks: seq<U64>, block: U64)
    ensures BlockSet(garbage + blocks + [block]) == BlockSet(garbage) + BlockSet(blocks) + {block as nat}
  {
    BlockSetConcat(garbage, blocks);
    BlockSetAppend(garbage + blocks, block);
  }

  lemma BlockSetAt(bs: seq<U64>, i: nat)
    requires i < |bs|
    ensures bs[i] in BlockSet(bs)
  {
  }

  lemma BlockSetConcat(a: seq<U64>, b: seq<U64>)
    ensures BlockSet(a + b) == BlockSet(a) + BlockSet(b)
  {
    assert forall i :: 0 <= i < |a| ==> (a + b)[i] == a[i];
    assert forall i :: 0 <= i < |b| ==> (a + b)[|a| + i] == b[i];
  }

  lemma ActChild(
    img: Image, n: Node, path: seq<Name>, a: Action, made: Option<Node>, block: Option<U64>,
    gone: set<nat>, claimed: set<nat>)
    requires n.DirNode? && |path| == 1
    requires Done(img, a, Find(n.items, path[0]), made, block, gone, claimed)
    requires made.Some? ==> ValidName(path[0])
    ensures ChildDone(img, n, path, Effect(a, Walk(n, path)), made, gone, claimed)
    ensures LinksTo(block, made)
  {
    hide Shape, Rep, Footprint, Find, Effect;
    assert path[1..] == [];
    assert Walk(n, path) == Find(n.items, path[0]);
  }

  lemma MadeUnlessRemoved(
    img: Image, a: Action, target: Option<Node>, made: Option<Node>, block: Option<U64>,
    gone: set<nat>, claimed: set<nat>)
    requires Done(img, a, target, made, block, gone, claimed) && Refusal(a, target) == None
    ensures made.Some? <==> !a.Remove?
  {
    hide Shape, Rep, Footprint;
    assert LookupOpt(made, []) == Effect(a, target);
  }

  /** What a rewritten directory was stored in before, the new tree is not stored in. */
  lemma GivenUp(
    img: Image, n: Node, n': Node, path: seq<Name>, info: Option<Info>, block: U64,
    gone: set<nat>, claimed: set<nat>, marks: set<nat>)
    requires Rewrote(img, n, n', path, info, block, gone, claimed)
    requires OwnBlocks(n) <= gone && Footprint(n) <= marks && claimed !! marks
    ensures OwnBlocks(n) !! Footprint(n')
  {
    hide Shape, Rep, Footprint, UpdatedAt, OwnBlocks;
  }

  lemma RewriteChild(
    img: Image, img1: Image, n: Node, path: seq<Name>, a: Action, child': Node, block: U64,
    gone: set<nat>, claimed: set<nat>)
    requires n.DirNode? && |path| > 1 && Shape(n) && Rep(img, n) && Find(n.items, path[0]).Some?
    requires var child := Find(n.items, path[0]).value;
             Rewrote(img1, child, child', path[1..], Effect(a, Walk(child, path[1..])), block, gone, claimed)
    ensures ChildDone(img1, n, path, Effect(a, Walk(n, path)), Some(child'), gone, claimed)
    ensures LinksTo(Some(block), Some(child'))
  {
    hide Shape, Rep, Footprint, Find, Effect;
    FindInItems(img, n, path[0]);
  }

  // ---- transactions ----

  /** Unflushed writes left by transactions that failed: to data blocks outside the tree. */
  ghost predicate Stray(d: Disk, tree: set<nat>) {
    forall i :: 0 <= i < |d.pending| ==>
      Usable(|d.durable|, d.pending[i].sector) && d.pending[i].sector !in tree
  }

  lemma NothingStray(d: Disk, tree: set<nat>)
    requires d.pending == []
    ensures Stray(d, tree)
  {
  }

  lemma StrayHarmless(d: Disk, t: Node)
    requires Stray(d, Footprint(t))
    ensures AllHarmless(d, Reserved(|d.durable|) + Footprint(t))
  {
  }

  lemma ValidStored(d: Disk, marks: set<nat>, sb: SuperBlock, slot: nat, t: Node)
    requires ValidDisk(d) && Committed(d.durable, sb, slot, t) && Stray(d, Footprint(t)) && Footprint(t) <= marks
    ensures Stored(Visible(d), marks, Some(sb.rootInode), Some(t))
  {
    hide Visible, Rep, Shape, DecodeSuper, Footprint;
    StrayHarmless(d, t);
    HarmlessVisible(d, sb, slot, t);
  }

  lemma ExtendsHarmless(a: Snap, b: Snap, t: Node)
    requires Extends(a, b) && Stray(a.disk, Footprint(t)) && Footprint(t) <= a.marks
    ensures Stray(b.disk, Footprint(t)) && AllHarmless(b.disk, Reserved(|b.disk.durable|) + Footprint(t))
    ensures a.disk.durable == b.disk.durable && a.trace <= b.trace
    ensures a.trace != [] && a.trace[|a.trace| - 1] == a.disk ==> b.trace != [] && b.trace[|b.trace| - 1] == b.disk
  {
    forall i | 0 <= i < |b.disk.pending|
      ensures Usable(|b.disk.durable|, b.disk.pending[i].sector) && b.disk.pending[i].sector !in Footprint(t)
    {
      if i < |a.disk.pending| { assert b.disk.pending[i] == a.disk.pending[i]; }
    }
    StrayHarmless(b.disk, t);
  }

  lemma TraceHarmless(a: Snap, b: Snap, t: Node, k: nat)
    requires Extends(a, b) && AllHarmless(b.disk, Reserved(|b.disk.durable|) + Footprint(t))
    requires |a.trace| <= k < |b.trace|
    ensures b.trace[k].durable == b.disk.durable
    ensures AllHarmless(b.trace[k], Reserved(|b.disk.durable|) + Footprint(t))
  {
    hide Harmless;
    assert forall i :: 0 <= i < |b.trace[k].pending| ==> b.trace[k].pending[i] == b.disk.pending[i];
  }

  /** With every block claimed there is none left to claim. */
  lemma ExtendsFull(a: Snap, b: Snap)
    requires Extends(a, b)
    ensures (forall x :: Usable(|a.disk.durable|, x) ==> x in a.marks) ==> a.marks == b.marks
  {
  }

  lemma RewroteTree(
    a: Snap, b: Snap, sb: SuperBlock, slot: nat, t: Node, t': Node, path: seq<Name>, info: Option<Info>,
    block: U64, gone: set<nat>)
    requires Extends(a, b) && ValidDisk(b.disk) && Committed(a.disk.durable, sb, slot, t) && Footprint(t) <= a.marks
    requires Rewrote(Visible(b.disk), t, t', path, info, block, gone, b.marks - a.marks)
    ensures TreeOn(Visible(b.disk), sb.(rootInode := block), t')
    ensures Footprint(t') <= b.marks && UpdatedAt(t, t', path, info) && block in b.marks - a.marks
    ensures Footprint(t') == (Footprint(t) - gone) + (b.marks - a.marks) && gone <= Footprint(t)
    ensures forall x :: x in gone ==> x < |a.disk.durable|
  {
    hide Visible, Rep, Shape, DecodeSuper, Footprint, UpdatedAt;
  }

  lemma RootLayout(total: nat, sb: SuperBlock, sb': SuperBlock)
    requires ValidLayout(total, sb) && sb' == sb.(rootInode := sb'.rootInode)
    ensures ValidLayout(total, sb')
  {
  }

  lemma GarbageSet2(garbage: seq<U64>, retired: seq<U64>)
    ensures BlockSet(garbage + retired) == BlockSet(garbage) + BlockSet(retired)
  {
    BlockSetConcat(garbage, retired);
  }

  /** Releasing what the new tree gave up leaves exactly as many unaccounted blocks as before. */
  lemma Accounts(reserved: set<nat>, marks: set<nat>, t: Node, t': Node, gone: set<nat>, claimed: set<nat>)
    requires reserved + Footprint(t) <= marks && claimed !! marks && gone <= Footprint(t)
    requires Footprint(t') == (Footprint(t) - gone) + claimed
    ensures var after := (marks + claimed) - (gone - reserved);
            && Footprint(t') <= after
            && after - (reserved + Footprint(t')) == marks - (reserved + Footprint(t))
  {
    hide Footprint;
  }

  lemma ReservedBit(total: nat, sb: SuperBlock, bitmap: seq<Byte>, b: nat)
    requires ValidLayout(total, sb) && |bitmap| == BLOCK_SIZE * BitmapBlocks(total)
    ensures b < 8 * |bitmap| && b < sb.firstDataBlock ==> b in Reserved(total)
    ensures b in Marks(bitmap) ==> b < 8 * |bitmap|
    ensures b in Reserved(total) && b >= sb.firstDataBlock ==> b >= total
  {
  }

  lemma RootBlock(img: Image, sb: SuperBlock, slot: nat, t: Node)
    requires Committed(img, sb, slot, t)
    ensures t.block == sb.rootInode && t.DirNode?
  {
  }

  // ---- reading files ----

  lemma FileParts(img: Image, n: Node)
    requires n.FileNode? && Shape(n) && Rep(img, n)
    ensures HoldsData(img, n.blocks, n.data) && |n.blocks| == CeilDiv(|n.data|, BLOCK_SIZE)
  {
  }

  lemma ChunkRead(data: seq<Byte>, slot: nat, left: nat)
    requires left == if BLOCK_SIZE * slot <= |data| then |data| - BLOCK_SIZE * slot else 0
    ensures var take := if left <= BLOCK_SIZE then left else BLOCK_SIZE;
            && data[..|data| - left] + Pad(Chunk(data, slot))[..take] == data[..|data| - left + take]
            && left - take == if BLOCK_SIZE * (slot + 1) <= |data| then |data| - BLOCK_SIZE * (slot + 1) else 0
  {
  }

  /** What reading a path gives. */
  ghost function ReadResult(t: Node, path: seq<Name>, user: Option<U32>): Result<seq<Byte>> {
    match (ReadObstacle(t, path, user), Walk(t, path))
    case (Some(e), _) => Err(e)
    case (None, None) => Err(NotFound)
    case (None, Some(n)) =>
      if n.DirNode? then Err(WrongType)
      else if !Permits(n.owner, n.mode, user, false) then Err(Denied)
      else Ok(n.data)
  }

  /** The kernel's own reads depend on nothing but what the path names. */
  lemma {:induction false} KernelReads(t: Node, path: seq<Name>)
    ensures Lookup(t, path).Some? ==> ReadObstacle(t, path, None) == None
    ensures ReadResult(t, path, None).Ok? <==> Lookup(t, path).Some? && Lookup(t, path).value.FileInfo?
    ensures ReadResult(t, path, None).Ok? ==> ReadResult(t, path, None).value == Lookup(t, path).value.data
    decreases path
  {
    if path != [] && t.DirNode? && Find(t.items, path[0]).Some? {
      KernelReads(Find(t.items, path[0]).value, path[1..]);
    }
  }

  lemma ReadAfter(t: Node, path: seq<Name>, data: seq<Byte>)
    requires Lookup(t, path).Some? && Lookup(t, path).value.FileInfo? && Lookup(t, path).value.data == data
    ensures ReadResult(t, path, None) == Ok(data)
  {
    KernelReads(t, path);
  }

  // ---- operations by path ----

  datatype Op =
    | CreateOp(path: seq<Byte>, isDirectory: bool, user: Option<U32>, owner: U32)
    | WriteOp(path: seq<Byte>, data: seq<Byte>, user: Option<U32>)
    | RemoveOp(path: seq<Byte>, user: Option<U32>)
    | SetModeOp(path: seq<Byte>, mode: U16, user: Option<U32>)

  function ActionOf(op: Op): Action {
    match op
    case CreateOp(_, isDirectory, _, owner) => Create(isDirectory, owner)
    case WriteOp(_, data, user) => Replace(data, user)
    case RemoveOp(_, _) => Remove
    case SetModeOp(_, mode, user) => SetMode(mode, user)
  }

  function AccessOf(op: Op): Access {
    Access(op.user, op.CreateOp? || op.RemoveOp?)
  }

  /** What is refused before the filesystem is looked at. */
  function EarlyError(op: Op): Option<FsError> {
    match op
    case CreateOp(path, _, _, _) =>
      (match FinalName(path) case Err(e) => Some(e) case Ok(name) => CheckName(name))
    case RemoveOp(path, _) =>
      (match FinalName(path) case Err(e) => Some(e) case Ok(name) => CheckName(name))
    case WriteOp(_, data, _) => if CeilDiv(|data|, BLOCK_SIZE) > DIRECT_BLOCKS then Some(TooLarge) else None
    case SetModeOp(_, mode, _) => if mode > ALL_PERMISSIONS then Some(BadName) else None
  }

  /** What becomes of an operation, with so many blocks unmarked. */
  ghost function OpVerdict(spare: nat, op: Op, t: Node): Option<FsError> {
    if EarlyError(op).Some? then EarlyError(op)
    else if Components(op.path) == [] then Some(BadName)
    else Verdict(spare, t, Components(op.path), AccessOf(op), ActionOf(op))
  }

  /** The operation got as far as storing its node and found no room for the name. */
  ghost predicate Stranded(spare: nat, op: Op, t: Node) {
    EarlyError(op) == None && OpVerdict(spare, op, t) == Some(TooLarge)
  }

  /** The result is the verdict. Success changes the tree at the operation's path alone, and the unmarked blocks
      move by what the tree gained or gave up. Failure leaves the tree; running out of blocks leaves none
      unmarked, a full directory leaves the new node's blocks marked, and any other refusal marks nothing. */
  ghost predicate Outcome(total: nat, spare: nat, spare': nat, op: Op, t: Node, t': Node, r: Result<()>) {
    var path := Components(op.path);
    && r == Told(OpVerdict(spare, op, t))
    && (r.Ok? ==>
          && UpdatedAt(t, t', path, Effect(ActionOf(op), Walk(t, path)))
          && spare' + Held(total, t') == spare + Held(total, t))
    && (r.Err? ==>
          && t' == t
          && spare' == if r.error == Full then 0
                       else if Stranded(spare, op, t) then spare - NodeNeed(ActionOf(op)) else spare)
  }

  lemma WrittenInfo(
    total: nat, spare: nat, spare': nat, t: Node, t': Node, path: seq<Byte>, data: seq<Byte>, r: Result<()>)
    requires Outcome(total, spare, spare', WriteOp(path, data, None), t, t', r) && r.Ok?
    ensures var info := Lookup(t', Components(path)); info.Some? && info.value.FileInfo? && info.value.data == data
  {
    hide Components, Lookup;
    var p := Components(path);
    assert Lookup(t', p) == Effect(Replace(data, None), Walk(t, p));
    WriteTarget(t, p, Access(None, false), Replace(data, None));
  }

  /** A write that met no obstacle had something to write to. */
  lemma {:induction false} WriteTarget(n: Node, path: seq<Name>, access: Access, a: Action)
    requires path != [] && !a.Create? && Obstacle(n, path, access, a) == None
    ensures Walk(n, path).Some? && Refusal(a, Walk(n, path)) == None
    decreases path
  {
    var child := Find(n.items, path[0]);
    if |path| > 1 {
      WriteTarget(child.value, path[1..], access, a);
    } else {
      assert path[1..] == [];
    }
  }

  // ---- what a remount leaks ----

  /** The blocks a change gave up, of those that mounting before the next commit finds marked. They are none exactly
      when the old tree was the empty root that formatting leaves in the metadata area. */
  lemma GivenUpBlocks(img: Image, sb: SuperBlock, t: Node, tree': set<nat>)
    requires TreeOn(img, sb, t) && OwnBlocks(t) !! tree' && 0 < |img| && FirstData(|img|) <= |img|
    ensures var given := Footprint(t) - tree' - Reserved(|img|);
            && OwnBlocks(t) - Reserved(|img|) <= given
            && (given == {} <==> t.block < FirstData(|img|) && t.blocks == [])
  {
    hide Rep, Shape, Footprint, DirEntries;
    var given := Footprint(t) - tree' - Reserved(|img|);
    LayoutFacts(|img|);
    OwnBlocksFacts(t);
    ShapeParts(img, t);
    OwnDistinct(t);
    if t.blocks == [] {
      NothingTaken(img, []);
      assert BlockSet(t.blocks) == {};
      NoItems(t.items);
    } else {
      assert t.blocks[0] in OwnBlocks(t);
      assert t.block < FirstData(|img|) ==> t.blocks[0] as nat in given;
    }
    assert t.block >= FirstData(|img|) ==> t.block as nat in given;
  }

  lemma LeakedApart(tree: set<nat>, reserved: set<nat>, marks: set<nat>, given: set<nat>)
    requires given <= tree
    ensures var leaked := marks - (reserved + tree);
            given !! leaked && (leaked + given) - leaked == given && (leaked + given == leaked <==> given == {})
  {
  }

  lemma OwnDistinct(t: Node)
    requires Shape(t)
    ensures t.block !in BlockSet(t.blocks) && (t.blocks != [] ==> t.blocks[0] as nat in BlockSet(t.blocks))
    ensures t.blocks != [] ==> t.blocks[0] != t.block
  {
  }

  lemma NoItems(items: seq<Node>)
    requires EntriesOf(items) == []
    ensures items == [] && ItemsFootprint(items) == {}
  {
  }

  // ---- runs and power cuts ----

  /** The device states of a run, cut up by operation: those from `starts[i]` up to `starts[i + 1]` belong to the
      `i`-th. Power cut in one of them leaves the tree before it or the tree after it; and in the last state before
      it starts, which is the last the operation before it left behind, exactly the tree before it. */
  ghost predicate CutUp(trace: seq<Disk>, starts: seq<nat>, trees: seq<Node>, limit: nat) {
    && |starts| == |trees| > 0 && starts[|starts| - 1] == |trace|
    && (forall i :: 0 <= i < |starts| - 1 ==> starts[i] <= starts[i + 1])
    && (forall i :: 0 <= i < |starts| ==> 0 < starts[i] <= |trace|)
    && (forall i, k :: 0 <= i < |starts| - 1 && starts[i] <= k < starts[i + 1] ==>
          CrashSafe(trace[k], trees[i], trees[i + 1], limit))
    && (forall i :: 0 <= i < |starts| ==> CrashSafe(trace[starts[i] - 1], trees[i], trees[i], limit))
  }

  lemma NothingCutUp(trace: seq<Disk>, t: Node, limit: nat)
    requires trace != [] && CrashSafe(trace[|trace| - 1], t, t, limit)
    ensures CutUp(trace, [|trace|], [t], limit)
  {
    hide CrashSafe;
  }

  /** One more operation. */
  lemma CutUpMore(
    trace: seq<Disk>, starts: seq<nat>, trees: seq<Node>, limit: nat, trace': seq<Disk>, t': Node, limit': nat)
    requires CutUp(trace, starts, trees, limit) && trace <= trace' && limit <= limit'
    requires forall k :: |trace| <= k < |trace'| ==> CrashSafe(trace'[k], trees[|trees| - 1], t', limit')
    requires CrashSafe(trace'[|trace'| - 1], t', t', limit')
    ensures CutUp(trace', starts + [|trace'|], trees + [t'], limit')
  {
    hide CrashSafe;
    var starts', trees' := starts + [|trace'|], trees + [t'];
    forall i, k | 0 <= i < |starts'| - 1 && starts'[i] <= k < starts'[i + 1]
      ensures CrashSafe(trace'[k], trees'[i], trees'[i + 1], limit')
    {
      if i < |starts| - 1 {
        assert CrashSafe(trace[k], trees[i], trees[i + 1], limit);
        SafeLater(trace[k], trees[i], trees[i + 1], limit, limit');
      }
    }
    forall i | 0 <= i < |starts'|
      ensures CrashSafe(trace'[starts'[i] - 1], trees'[i], trees'[i], limit')
    {
      if i < |starts| {
        SafeLater(trace[starts[i] - 1], trees[i], trees[i], limit, limit');
      }
    }
  }

  lemma CutUpLater(trace: seq<Disk>, starts: seq<nat>, trees: seq<Node>, limit: nat, limit': nat)
    requires CutUp(trace, starts, trees, limit) && limit <= limit'
    ensures CutUp(trace, starts, trees, limit')
  {
    hide CrashSafe;
    forall i, k | 0 <= i < |starts| - 1 && starts[i] <= k < starts[i + 1]
      ensures CrashSafe(trace[k], trees[i], trees[i + 1], limit')
    {
      SafeLater(trace[k], trees[i], trees[i + 1], limit, limit');
    }
    forall i | 0 <= i < |starts|
      ensures CrashSafe(trace[starts[i] - 1], trees[i], trees[i], limit')
    {
      SafeLater(trace[starts[i] - 1], trees[i], trees[i], limit, limit');
    }
  }

  // ---- sessions ----

  ghost function Generation(img: Image): nat {
    if |img| >= 2 && MountImage(img).Ok? then MountImage(img).value.superblock.generation else 0
  }

  /** The blocks left to allocate once an image is mounted. */
  ghost function SpareOn(img: Image): nat {
    if |img| >= 2 && MountImage(img).Ok? then |SpareSet(|img|, Marks(MountImage(img).value.bitmap))| else 0
  }

  /** A session that began on an image: its operations and their results, the trees and the spare blocks before and
      after each, and the device states it passed through, with where each operation starts. */
  datatype Session = Session(
    img: Image, ops: seq<Op>, results: seq<Result<()>>, trees: seq<Node>, spares: seq<nat>,
    trace: seq<Disk>, starts: seq<nat>)

  ghost predicate Shaped(s: Session) {
    && |s.results| == |s.ops| && |s.trees| == |s.spares| == |s.starts| == |s.ops| + 1
    && s.trace != [] && s.trace[0] == Disk(s.img, []) && s.starts[0] == 1
  }

  /** Every operation did what it should to the tree, and the device states are cut up by operation. */
  ghost predicate Survives(s: Session) {
    && Shaped(s) && s.spares[0] == SpareOn(s.img)
    && (forall i :: 0 <= i < |s.ops| ==>
          Outcome(|s.img|, s.spares[i], s.spares[i + 1], s.ops[i], s.trees[i], s.trees[i + 1], s.results[i]))
    && CutUp(s.trace, s.starts, s.trees, Generation(s.img) + |s.ops|)
  }

  /** A session as mounting and then running operations makes it. */
  ghost predicate Sound(s: Session) {
    && Shaped(s)
    && (MountsTo(s.img, s.trees[0]) && Generation(s.img) + |s.ops| < 0x1_0000_0000_0000_0000 ==> Survives(s))
  }

  /** Every path names the same in both. */
  ghost predicate Alike(t0: Node, t1: Node) {
    forall q: seq<Name> :: Lookup(t0, q) == Lookup(t1, q)
  }

  /** The next session begins on what a power cut at device state `k` of this one left, and with a tree that image
      holds, if it holds any. */
  ghost predicate Follows(s: Session, k: nat, next: Session) {
    && k < |s.trace| && CrashImage(s.trace[k], next.img)
    && next.trees != [] && ((exists t :: MountsTo(next.img, t)) ==> MountsTo(next.img, next.trees[0]))
  }

  /** What a power cut at device state `k` comes to: between operations, the tree of the moment; within one, the tree
      before it or the tree after it. */
  ghost predicate Finds(s: Session, k: nat, t: Node)
    requires Shaped(s)
  {
    && (k + 1 == s.starts[0] || exists i :: 0 <= i < |s.ops| && s.starts[i] <= k < s.starts[i + 1])
    && (forall i :: 0 <= i <= |s.ops| && k + 1 == s.starts[i] ==> Alike(s.trees[i], t))
    && (forall i :: 0 <= i < |s.ops| && s.starts[i] <= k < s.starts[i + 1] ==>
          Alike(s.trees[i], t) || Alike(s.trees[i + 1], t))
  }

  lemma {:induction false} SomeOperation(starts: seq<nat>, k: nat, n: nat) returns (i: nat)
    requires 0 < n < |starts| && starts[0] <= k < starts[n]
    ensures i < n && starts[i] <= k < starts[i + 1]
  {
    if k < starts[n - 1] {
      i := SomeOperation(starts, k, n - 1);
    } else {
      i := n - 1;
    }
  }

  /** The operation a device state belongs to. */
  lemma OperationAt(trace: seq<Disk>, starts: seq<nat>, trees: seq<Node>, limit: nat, k: nat) returns (i: nat)
    requires CutUp(trace, starts, trees, limit) && starts[0] <= k < |trace|
    ensures i < |starts| - 1 && |trees| == |starts| && starts[i] <= k < starts[i + 1]
    ensures CrashSafe(trace[k], trees[i], trees[i + 1], limit)
  {
    hide CrashSafe;
    i := SomeOperation(starts, k, |starts| - 1);
  }

  lemma SafeBetween(trace: seq<Disk>, starts: seq<nat>, trees: seq<Node>, limit: nat, i: nat)
    requires CutUp(trace, starts, trees, limit) && i < |starts|
    ensures 0 < starts[i] <= |trace| && |trees| == |starts| && CrashSafe(trace[starts[i] - 1], trees[i], trees[i], limit)
  {
    hide CrashSafe;
  }

  lemma MountedAlike(img: Image, t0: Node, t1: Node)
    requires MountsTo(img, t0) && MountsTo(img, t1)
    ensures Alike(t0, t1)
  {
    hide MountsTo, Lookup;
    forall q: seq<Name>
      ensures Lookup(t0, q) == Lookup(t1, q)
    {
      MountedTreeUnique(img, t0, t1, q);
    }
  }

  lemma SafeMounts(d: Disk, t0: Node, t1: Node, limit: nat, img: Image)
    requires CrashSafe(d, t0, t1, limit) && CrashImage(d, img)
    ensures exists t :: MountsTo(img, t)
    ensures Generation(img) <= limit
  {
    hide MountsTo, MountImage, CrashImage, MountsWithin, Generation;
    GenerationWithin(img, t0, limit);
    GenerationWithin(img, t1, limit);
  }

  /** A power cut leaves an image that mounts. */
  lemma CutMounts(s: Session, k: nat, img: Image)
    requires Survives(s) && k < |s.trace| && CrashImage(s.trace[k], img)
    ensures exists t :: MountsTo(img, t)
    ensures Generation(img) <= Generation(s.img) + |s.ops|
    ensures k + 1 == s.starts[0] || exists i :: 0 <= i < |s.ops| && s.starts[i] <= k < s.starts[i + 1]
  {
    hide MountsTo, CrashImage, Outcome, CrashSafe, SpareOn, Generation, CutUp;
    var limit := Generation(s.img) + |s.ops|;
    if k + 1 != s.starts[0] {
      var i := OperationAt(s.trace, s.starts, s.trees, limit, k);
      SafeMounts(s.trace[k], s.trees[i], s.trees[i + 1], limit, img);
    } else {
      SafeBetween(s.trace, s.starts, s.trees, limit, 0);
      SafeMounts(s.trace[k], s.trees[0], s.trees[0], limit, img);
    }
  }

  /** Between operations, it holds the tree of the moment... */
  lemma CutBetween(s: Session, i: nat, img: Image, t: Node)
    requires Survives(s) && i <= |s.ops| && CrashImage(s.trace[s.starts[i] - 1], img) && MountsTo(img, t)
    ensures Alike(s.trees[i], t)
  {
    hide MountsTo, MountImage, CrashImage, Outcome, MountsWithin, SpareOn, Generation, Alike;
    var limit := Generation(s.img) + |s.ops|;
    assert CrashSafe(s.trace[s.starts[i] - 1], s.trees[i], s.trees[i], limit);
    GenerationWithin(img, s.trees[i], limit);
    MountedAlike(img, s.trees[i], t);
  }

  /** ...and within one, the tree before or the tree after it. */
  lemma CutWithin(s: Session, i: nat, k: nat, img: Image, t: Node)
    requires Survives(s) && i < |s.ops| && s.starts[i] <= k < s.starts[i + 1]
    requires k < |s.trace| && CrashImage(s.trace[k], img) && MountsTo(img, t)
    ensures Alike(s.trees[i], t) || Alike(s.trees[i + 1], t)
  {
    hide MountsTo, MountImage, CrashImage, Outcome, MountsWithin, SpareOn, Generation, Alike;
    var limit := Generation(s.img) + |s.ops|;
    assert CrashSafe(s.trace[k], s.trees[i], s.trees[i + 1], limit);
    GenerationWithin(img, s.trees[i], limit);
    GenerationWithin(img, s.trees[i + 1], limit);
    if MountsTo(img, s.trees[i]) {
      MountedAlike(img, s.trees[i], t);
    } else {
      MountedAlike(img, s.trees[i + 1], t);
    }
  }

  /** One power cut. */
  lemma CutFinds(s: Session, k: nat, next: Session)
    requires Survives(s) && Follows(s, k, next)
    ensures MountsTo(next.img, next.trees[0]) && Finds(s, k, next.trees[0])
    ensures Generation(next.img) <= Generation(s.img) + |s.ops|
  {
    hide MountsTo, MountImage, CrashImage, Outcome, Alike, CrashSafe, SpareOn, Generation;
    CutMounts(s, k, next.img);
    forall i | 0 <= i <= |s.ops| && k + 1 == s.starts[i]
      ensures Alike(s.trees[i], next.trees[0])
    {
      CutBetween(s, i, next.img, next.trees[0]);
    }
    forall i | 0 <= i < |s.ops| && s.starts[i] <= k < s.starts[i + 1]
      ensures Alike(s.trees[i], next.trees[0]) || Alike(s.trees[i + 1], next.trees[0])
    {
      CutWithin(s, i, k, next.img, next.trees[0]);
    }
  }

  /** A session that wrote nothing changed nothing. */
  lemma NoChangeUnwritten(s: Session, i: nat)
    requires Survives(s) && |s.trace| == 1 && i <= |s.ops|
    ensures Alike(s.trees[0], s.trees[i])
  {
    hide MountsTo, MountImage, CrashImage, Outcome, MountsWithin, SpareOn, Generation, Alike;
    var limit := Generation(s.img) + |s.ops|;
    Uncut(s.img);
    assert s.starts[0] == s.starts[i] == 1;
    assert CrashSafe(s.trace[s.starts[i] - 1], s.trees[i], s.trees[i], limit);
    GenerationWithin(s.img, s.trees[i], limit);
    CutBetween(s, 0, s.img, s.trees[i]);
  }

  lemma Uncut(img: Image)
    ensures CrashImage(Disk(img, []), img)
  {
  }

  lemma GenerationWithin(img: Image, t: Node, limit: nat)
    ensures MountsWithin(img, t, limit) ==> MountsTo(img, t) && Generation(img) <= limit
  {
    hide DecodeSuper, Committed;
  }

  ghost function OpsIn(life: seq<Session>): nat {
    if life == [] then 0 else OpsIn(life[..|life| - 1]) + |life[|life| - 1].ops|
  }

  /** Sessions, and the device state in which the power cut that ended each came. */
  ghost predicate Lived(life: seq<Session>, cuts: seq<nat>)
    requires |cuts| == |life| - 1
  {
    && (forall j :: 0 <= j < |life| ==> Sound(life[j]))
    && (forall j :: 0 <= j < |life| - 1 ==> Follows(life[j], cuts[j], life[j + 1]))
  }

  /** Any number of sessions, each ended by a power cut: every one of them mounts, does what it should, and begins
      where the power cut caught the one before: with the tree before or after the operation then in progress. */
  lemma {:induction false} EveryMountFindsATree(life: seq<Session>, cuts: seq<nat>, i: nat)
    requires i < |life| && |cuts| == |life| - 1
    requires Lived(life, cuts) && Sound(life[0]) && MountsTo(life[0].img, life[0].trees[0])
    requires Generation(life[0].img) + OpsIn(life) < 0x1_0000_0000_0000_0000
    ensures Survives(life[i]) && MountsTo(life[i].img, life[i].trees[0])
    ensures Generation(life[i].img) <= Generation(life[0].img) + OpsIn(life[..i])
    ensures i > 0 ==> Survives(life[i - 1]) && Finds(life[i - 1], cuts[i - 1], life[i].trees[0])
  {
    hide MountsTo, Follows, Survives, Finds, Generation, Shaped;
    if i > 0 {
      EveryMountFindsATree(life, cuts, i - 1);
      OpsUpTo(life, i);
      assert Follows(life[i - 1], cuts[i - 1], life[i - 1 + 1]);
      CutFinds(life[i - 1], cuts[i - 1], life[i]);
    }
    OpsUpTo(life, i + 1);
    assert Sound(life[i]);
  }

  lemma {:induction false} OpsUpTo(life: seq<Session>, i: nat)
    requires 0 < i <= |life|
    ensures OpsIn(life[..i]) == OpsIn(life[..i - 1]) + |life[i - 1].ops| <= OpsIn(life)
    decreases |life| - i
  {
    assert life[..i][..i - 1] == life[..i - 1];
    if i < |life| {
      OpsUpTo(life, i + 1);
    } else {
      assert life[..i] == life;
    }
  }

  lemma ImageSize(img: Image, t: Node)
    requires MountsTo(img, t)
    ensures |img| >= 2 && MountImage(img).Ok?
  {
  }

  // ---- the bytes determine the tree ----

  lemma SameData(img: Image, bs: seq<U64>, d0: seq<Byte>, d1: seq<Byte>)
    requires HoldsData(img, bs, d0) && HoldsData(img, bs, d1) && |d0| == |d1|
    requires |bs| == CeilDiv(|d0|, BLOCK_SIZE)
    ensures d0 == d1
  {
    hide CeilDiv;
    forall i | 0 <= i < |d0|
      ensures d0[i] == d1[i]
    {
      var k := i / BLOCK_SIZE;
      CeilBound(|d0|, BLOCK_SIZE, k);
      assert Pad(Chunk(d0, k)) == Pad(Chunk(d1, k));
      assert d0[i] == Pad(Chunk(d0, k))[i % BLOCK_SIZE] && d1[i] == Pad(Chunk(d1, k))[i % BLOCK_SIZE];
    }
  }

  /** Two pictures of the same block of the same image name the same things. */
  lemma {:induction false} SameMeaning(img: Image, a: Node, b: Node, path: seq<Name>)
    requires Shape(a) && Rep(img, a) && Shape(b) && Rep(img, b) && a.block == b.block
    ensures Lookup(a, path) == Lookup(b, path)
    decreases path
  {
    hide DecodeInode, Shape, Rep, DirEntries, Find, HoldsData;
    InodesAgree(img, a, b);
    if a.FileNode? {
      FileParts(img, a); FileParts(img, b);
      SameData(img, a.blocks, a.data, b.data);
    } else if path != [] {
      SameChild(img, a, b, path[0]);
      if Find(a.items, path[0]).Some? {
        SameMeaning(img, Find(a.items, path[0]).value, Find(b.items, path[0]).value, path[1..]);
      }
    }
  }

  ghost predicate SameStored(img: Image, a: Option<Node>, b: Option<Node>) {
    && (a.Some? <==> b.Some?)
    && (a.Some? ==> && Shape(a.value) && Rep(img, a.value) && Shape(b.value) && Rep(img, b.value)
                    && a.value.block == b.value.block)
  }

  lemma SameChild(img: Image, a: Node, b: Node, name: Name)
    requires Shape(a) && Rep(img, a) && Shape(b) && Rep(img, b) && a.block == b.block && a.DirNode? && b.DirNode?
    ensures SameStored(img, Find(a.items, name), Find(b.items, name))
  {
    hide DecodeInode, Shape, Rep, DirEntries, Find, ItemsShape, ItemsRep, ItemsFootprint, Footprint, OwnBlocks, NameOf;
    InodesAgree(img, a, b);
    ShapeParts(img, a); ShapeParts(img, b);
    var es := EntriesOf(a.items);
    assert |a.items| == |es| == |b.items|;
    assert forall i :: 0 <= i < |es| ==> es[i] == a.items[i].entry == b.items[i].entry;
    if i :| 0 <= i < |es| && NameOf(es[i]) == name {
      FindByIndex(a.items, i); FindByIndex(b.items, i);
      ItemFacts(img, a.items, i); ItemFacts(img, b.items, i);
    } else {
      FindNone(a.items, name); FindNone(b.items, name);
    }
  }

  lemma InodesAgree(img: Image, a: Node, b: Node)
    requires Rep(img, a) && Rep(img, b) && a.block == b.block
    ensures InodeOf(a) == InodeOf(b)
  {
    hide DecodeInode, ItemsRep, DirEntries;
  }

  /** What a disk mounts as is one tree, not several. */
  lemma MountedTreeUnique(img: Image, t0: Node, t1: Node, path: seq<Name>)
    requires MountsTo(img, t0) && MountsTo(img, t1)
    ensures Lookup(t0, path) == Lookup(t1, path)
  {
    hide Shape, Rep, DecodeSuper, MarkedOnDisk;
    SameMeaning(img, t0, t1, path);
  }
}
