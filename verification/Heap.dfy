/** The kernel heap: an address-sorted free list with coalescing. Addresses are byte offsets from zero; the
    node header a free block begins with is 16 bytes, aligned to 8. */
module Heaps {
  import opened Arithmetic

  const NODE: nat := 16
  const NODE_ALIGN: nat := 8
  const ADDRESS_LIMIT: nat := 0x1_0000_0000_0000_0000

  datatype Option<+T> = None | Some(value: T)

  datatype Block = Block(start: nat, size: nat) {
    function End(): nat {
      start + size
    }

    predicate Has(a: nat) {
      start <= a < End()
    }

    predicate Sound() {
      start % NODE_ALIGN == 0 && size % NODE_ALIGN == 0 && size >= NODE
    }
  }

  // ---- free lists ----

  /** Sorted by address, with no two blocks touching. */
  ghost predicate Sorted(free: seq<Block>) {
    && (forall i :: 0 <= i < |free| ==> free[i].Sound())
    && (forall i, j :: 0 <= i < j < |free| ==> free[i].End() < free[j].start)
  }

  ghost predicate In(free: seq<Block>, a: nat) {
    exists i :: 0 <= i < |free| && free[i].Has(a)
  }

  function Total(free: seq<Block>): nat {
    if free == [] then 0 else free[0].size + Total(free[1..])
  }

  lemma {:induction false} TotalConcat(x: seq<Block>, y: seq<Block>)
    ensures Total(x + y) == Total(x) + Total(y)
  {
    if x == [] {
      assert x + y == y;
    } else {
      TotalConcat(x[1..], y);
      assert (x + y)[1..] == x[1..] + y;
    }
  }

  lemma InConcat(x: seq<Block>, y: seq<Block>)
    ensures forall a :: In(x + y, a) <==> In(x, a) || In(y, a)
  {
    forall a ensures In(x + y, a) <==> In(x, a) || In(y, a) {
      assert forall i :: 0 <= i < |x| ==> (x + y)[i] == x[i];
      assert forall i :: 0 <= i < |y| ==> (x + y)[|x| + i] == y[i];
    }
  }

  lemma InOne(b: Block)
    ensures forall a :: In([b], a) <==> b.Has(a)
    ensures Total([b]) == b.size
  {
    assert [b][0] == b;
  }

  /** A sorted list is determined by the bytes it covers. */
  lemma {:induction false} SameCover(x: seq<Block>, y: seq<Block>)
    requires Sorted(x) && Sorted(y) && forall a :: In(x, a) <==> In(y, a)
    ensures x == y
  {
    FirstIn(x);
    FirstIn(y);
    if x == [] {
      assert !In(x, 0) && forall a :: !In(x, a);
    } else {
      EdgeIn(x, y);
      EdgeIn(y, x);
      TailCover(x);
      TailCover(y);
      SameCover(x[1..], y[1..]);
    }
  }

  lemma FirstIn(x: seq<Block>)
    requires Sorted(x)
    ensures x != [] ==> In(x, x[0].start) && forall a :: In(x, a) ==> x[0].start <= a
  {
    if x != [] {
      assert x[0].Has(x[0].start);
    }
  }

  /** The first block of one ends no later than the first of the other. */
  lemma EdgeIn(x: seq<Block>, y: seq<Block>)
    requires Sorted(x) && Sorted(y) && x != [] && y != [] && x[0].start == y[0].start
    requires forall a :: In(x, a) ==> In(y, a)
    ensures x[0].End() <= y[0].End()
  {
    if y[0].End() < x[0].End() {
      assert x[0].Has(y[0].End());
      assert In(x, y[0].End());
    }
  }

  lemma TailCover(x: seq<Block>)
    requires Sorted(x) && x != []
    ensures forall a :: In(x[1..], a) <==> In(x, a) && !x[0].Has(a)
  {
    forall a ensures In(x[1..], a) <==> In(x, a) && !x[0].Has(a) {
      assert forall i :: 0 < i < |x| ==> x[1..][i - 1] == x[i];
    }
  }

  // ---- layouts ----

  predicate PowerOfTwo(n: nat) {
    n == 1 || (n > 1 && n % 2 == 0 && PowerOfTwo(n / 2))
  }

  datatype Layout = Layout(size: nat, align: nat)

  function RoundUp(n: nat, align: nat): (r: nat)
    requires align > 0
    ensures r % align == 0 && n <= r < n + align
  {
    RoundedUp(n, align);
    (n + align - 1) / align * align
  }

  lemma RoundedUp(n: nat, align: nat)
    requires align > 0
    ensures var r := (n + align - 1) / align * align; r % align == 0 && n <= r < n + align
  {
    var q := (n + align - 1) / align;
    ModShift(0, align, q);
    assert n + align - 1 == align * q + (n + align - 1) % align;
  }

  function Pow2(n: nat): (p: nat)
    ensures p >= 1
  {
    if n == 0 then 1 else 2 * Pow2(n - 1)
  }

  /** Bit by bit, as the machine does it. */
  function BitAnd(x: nat, y: nat): nat {
    if x == 0 || y == 0 then 0
    else (if x % 2 == 1 && y % 2 == 1 then 1 else 0) + 2 * BitAnd(x / 2, y / 2)
  }

  /** The address rounded up the way the allocator does: the sum, with the bits below the alignment cleared. */
  function AlignUp(n: nat, align: nat): nat
    requires 0 < align <= ADDRESS_LIMIT
  {
    BitAnd(n + align - 1, ADDRESS_LIMIT - align)
  }

  lemma AndEven(x: nat, y: nat)
    ensures BitAnd(x, 2 * y) == 2 * BitAnd(x / 2, y)
  {
    assert 2 * y / 2 == y;
  }

  lemma AndOdd(x: nat, y: nat)
    ensures BitAnd(x, 2 * y + 1) == x % 2 + 2 * BitAnd(x / 2, y)
  {
    assert (2 * y + 1) / 2 == y;
  }

  lemma {:induction false} AndOnes(x: nat, n: nat)
    requires x < Pow2(n)
    ensures BitAnd(x, Pow2(n) - 1) == x
  {
    hide BitAnd;
    if n > 0 {
      var half := Pow2(n - 1);
      assert Pow2(n) - 1 == 2 * (half - 1) + 1;
      AndOdd(x, half - 1);
      AndOnes(x / 2, n - 1);
    } else {
      AndNone(x);
    }
  }

  lemma AndNone(x: nat)
    ensures BitAnd(x, 0) == 0
  {
  }

  /** Clearing the low `k` bits takes the remainder off. */
  lemma {:induction false} AndMask(x: nat, k: nat, n: nat)
    requires k <= n && x < Pow2(n)
    ensures Pow2(k) <= Pow2(n) && BitAnd(x, Pow2(n) - Pow2(k)) == x - x % Pow2(k)
  {
    hide BitAnd;
    if k == 0 {
      AndOnes(x, n);
    } else {
      var p, q := Pow2(k - 1), Pow2(n - 1);
      AndMask(x / 2, k - 1, n - 1);
      HalfRemainder(x, p);
      assert Pow2(n) - Pow2(k) == 2 * (q - p);
      AndEven(x, q - p);
    }
  }

  lemma HalfRemainder(x: nat, p: nat)
    requires p > 0
    ensures x % (2 * p) == x % 2 + 2 * (x / 2 % p)
  {
    var q, r := x / 2 / p, x / 2 % p;
    assert x / 2 == p * q + r;
    RemainderIs(x, 2 * p, q, x % 2 + 2 * r, p * q);
  }

  lemma RemainderIs(x: nat, d: nat, q: nat, r: nat, half: nat)
    requires 0 < d && r < d && x == 2 * half + r && 2 * half == d * q
    ensures x % d == r
  {
    NoMultipleBetween(d, x / d - q);
  }

  lemma {:induction false} PowerSum(j: nat, k: nat)
    ensures Pow2(j + k) == Pow2(j) * Pow2(k)
  {
    if k > 0 {
      PowerSum(j, k - 1);
      assert j + k - 1 == j + (k - 1);
    }
  }

  lemma WordSize(word: nat)
    requires word == 64
    ensures Pow2(word) == ADDRESS_LIMIT
  {
    hide Pow2;
    ByteSize();
    PowerSum(8, 8);
    PowerSum(16, 16);
    PowerSum(32, 32);
  }

  lemma ByteSize()
    ensures Pow2(8) == 256
  {
  }

  lemma {:induction false} PowerIs(n: nat) returns (k: nat)
    requires PowerOfTwo(n)
    ensures n == Pow2(k)
  {
    if n == 1 {
      k := 0;
    } else {
      k := PowerIs(n / 2);
      k := k + 1;
    }
  }

  lemma {:induction false} PowerOrder(j: nat, k: nat)
    requires j < k
    ensures Pow2(j) < Pow2(k)
  {
    if j < k - 1 {
      PowerOrder(j, k - 1);
    }
  }

  /** The masked sum is the least multiple not below the address, for every power of two. */
  lemma MaskRoundsUp(n: nat, align: nat)
    requires PowerOfTwo(align) && n + align <= ADDRESS_LIMIT
    ensures AlignUp(n, align) == RoundUp(n, align)
  {
    hide Pow2, BitAnd, PowerOfTwo;
    var word := 64;
    var k := PowerIs(align);
    WordSize(word);
    if k > word { PowerOrder(word, k); }
    AndMask(n + align - 1, k, word);
    var x := n + align - 1;
    assert x == align * (x / align) + x % align;
  }

  /** `adjust_layout`: large and aligned enough to be a free-list node once returned. */
  function Adjusted(layout: Layout): (r: Layout)
    requires PowerOfTwo(layout.align)
    ensures r.size >= NODE && r.size >= layout.size && r.size % NODE_ALIGN == 0
    ensures r.align % layout.align == 0 && r.align % NODE_ALIGN == 0 && r.align > 0
    ensures r.size == NODE || (r.size % r.align == 0 && r.size < layout.size + r.align)
    ensures r.align == layout.align || (layout.align < NODE_ALIGN && r.align == NODE_ALIGN)
  {
    PowerMultiple(layout.align);
    var align := if layout.align < NODE_ALIGN then NODE_ALIGN else layout.align;
    var padded := RoundUp(layout.size, align);
    MultipleOfMultiple(padded, align, NODE_ALIGN);
    Layout(if padded < NODE then NODE else padded, align)
  }

  lemma PowerMultiple(n: nat)
    requires PowerOfTwo(n)
    ensures n >= NODE_ALIGN ==> n % NODE_ALIGN == 0
    ensures n < NODE_ALIGN ==> NODE_ALIGN % n == 0
    ensures n % n == 0
  {
    if n >= NODE_ALIGN {
      assert PowerOfTwo(n / 2) && PowerOfTwo(n / 2 / 2) && PowerOfTwo(n / 2 / 2 / 2);
      Eighth(n, n / 2, n / 2 / 2, n / 2 / 2 / 2);
    }
  }

  lemma Eighth(n: nat, half: nat, quarter: nat, eighth: nat)
    requires n == half + half && half == quarter + quarter && quarter == eighth + eighth
    ensures n % 8 == 0
  {
    assert n == 8 * eighth;
  }

  lemma MultipleOfMultiple(a: nat, m: nat, n: nat)
    requires m > 0 && n > 0 && a % m == 0 && m % n == 0
    ensures a % n == 0
  {
    var k, j := a / m, m / n;
    assert a == m * k && m == n * j;
    assert a == 0 + n * (j * k);
    ModShift(0, n, j * k);
  }

  // ---- carving ----

  /** Where an allocation would start in a free block, or nothing if it does not fit usefully. */
  function TryCarve(region: Block, size: nat, align: nat): Option<nat>
    requires align > 0
  {
    var start := RoundUp(region.start, align);
    var end := start + size;
    if end >= ADDRESS_LIMIT || end > region.End() then None
    else
      var excess := region.End() - end;
      if 0 < excess < NODE then None else Some(start)
  }

  /** A block can be carved exactly at its first aligned address, when the request fits behind it and leaves
      nothing, or a node, at the end. */
  lemma CarvesExactly(region: Block, size: nat, align: nat, p: nat)
    requires align > 0 && region.End() < ADDRESS_LIMIT
    ensures TryCarve(region, size, align) == Some(p) <==>
      && p % align == 0 && region.start <= p < region.start + align
      && (p + size == region.End() || p + size + NODE <= region.End())
  {
    if p % align == 0 && region.start <= p < region.start + align {
      OneMultiple(RoundUp(region.start, align), p, align);
    }
  }

  lemma OneMultiple(a: nat, b: nat, n: nat)
    requires n > 0 && a % n == 0 && b % n == 0 && a < b + n && b < a + n
    ensures a == b
  {
    NoMultipleBetween(n, a / n - b / n);
  }

  class Heap {
    var free: seq<Block>
    var size: nat
    var inUse: nat
    var peak: nat
    var allocations: nat
    ghost var base: nat
    ghost var live: seq<Block>
    /** Alignment padding too small to be a block, in front of what was carved behind it. */
    ghost var dropped: seq<Block>

    /** The heap's bytes are each in exactly one free block, live block or dropped piece. */
    ghost predicate Valid()
      reads this
    {
      && Block(base, size).Sound() && base + size < ADDRESS_LIMIT
      && Sorted(free) && Pieces(live) && Pieces(dropped)
      && AllSound(live)
      && Scraps(dropped)
      && Partition(base, size, free, live, dropped)
      && Total(free) + Total(live) + Total(dropped) == size
      && inUse == Total(live) <= peak && allocations == |live|
    }

    constructor (start: nat, length: nat)
      requires Block(start, length).Sound() && start + length < ADDRESS_LIMIT
      ensures Valid() && base == start && size == length && free == [Block(start, length)] && live == dropped == []
    {
      free, size, inUse, peak, allocations := [], length, 0, 0, 0;
      base, live, dropped := start, [], [];
      new;
      AddFreeRegion(start, length);
      InOne(Block(start, length));
      SameCover(free, [Block(start, length)]);
    }

    /** The list covers the range as well, and is still sorted with no two blocks touching. */
    method AddFreeRegion(start: nat, length: nat)
      requires Sorted(free) && Block(start, length).Sound()
      requires forall a :: Block(start, length).Has(a) ==> !In(free, a)
      modifies this`free
      ensures Sorted(free)
      ensures forall a :: In(free, a) <==> old(In(free, a)) || Block(start, length).Has(a)
      ensures Total(free) == old(Total(free)) + length
    {
      hide Total, In, Sorted;
      var at := 0;
      while at < |free| && free[at].start < start
        invariant 0 <= at <= |free|
        invariant forall i :: 0 <= i < at ==> free[i].start < start
      {
        at := at + 1;
      }
      Apart(free, at, start, length);
      SplitAt(free, at);
      var newSize, following := length, free[at..];
      if at < |free| && start + newSize == free[at].start {
        newSize, following := newSize + free[at].size, free[at + 1..];
      }
      MergedForward(Block(start, length), free[at..], Block(start, newSize), following);
      if at > 0 && free[at - 1].End() == start {
        MergedBackward(free[..at], Block(start, newSize));
        assert free[..at][..at - 1] == free[..at - 1];
        ghost var kept, merged := free[..at - 1], Block(free[at - 1].start, free[at - 1].size + newSize);
        Placed(kept, merged, following);
        free := free[..at - 1] + [Block(free[at - 1].start, free[at - 1].size + newSize)] + following;
      } else {
        Placed(free[..at], Block(start, newSize), following);
        free := free[..at] + [Block(start, newSize)] + following;
      }
    }
  
    /** Detach the first free block an allocation fits. */
    method FindRegion(r: Layout) returns (found: Option<Block>, at: nat, ghost index: nat)
      requires r.align > 0
      modifies this`free
      ensures found.None? ==> free == old(free) && NoneFits(free, r, |free|)
      ensures found.Some? ==>
        && index < |old(free)| && NoneFits(old(free), r, index) && found.value == old(free)[index]
        && TryCarve(found.value, r.size, r.align) == Some(at)
        && free == old(free)[..index] + old(free)[index + 1..]
    {
      hide RoundUp;
      var i := 0;
      while i < |free|
        invariant 0 <= i <= |free| && free == old(free) && NoneFits(free, r, i)
      {
        var carved := TryCarve(free[i], r.size, r.align);
        if carved.Some? {
          found, at, index := Some(free[i]), carved.value, i;
          free := free[..i] + free[i + 1..];
          return;
        }
        i := i + 1;
      }
      found, at, index := None, 0, 0;
    }

    /** What is left of a detached block around an allocation goes back on the list. */
    method GiveBack(region: Block, start: nat, length: nat)
      requires Sorted(free) && region.Sound() && start % NODE_ALIGN == 0 && length % NODE_ALIGN == 0 && length >= NODE
      requires region.start <= start && start + length <= region.End()
      requires region.End() == start + length || region.End() >= start + length + NODE
      requires forall a :: region.Has(a) ==> !In(free, a)
      modifies this`free
      ensures Sorted(free)
      ensures forall a :: In(free, a) <==>
        old(In(free, a)) || (region.Has(a) && !Block(start, length).Has(a) && !In(Lost(region.start, start), a))
      ensures Total(free) + length + Total(Lost(region.start, start)) == old(Total(free)) + region.size
    {
      CarvedPieces(region, length, start);
      LostIs(region.start, start);
      hide In, Sorted, Total, Lost;
      var front := start - region.start;
      if front >= NODE {
        AddFreeRegion(region.start, front);
      }
      var excess := region.End() - (start + length);
      if excess > 0 {
        AddFreeRegion(start + length, excess);
      }
    }

    /** First fit: nothing if no free block can hold the request, and otherwise the lowest that can, carved at
        its first aligned address. The rest of the block stays free, but for padding in front that is too small
        to be a block. */
    method Alloc(layout: Layout) returns (p: Option<nat>)
      requires Valid() && PowerOfTwo(layout.align) && base + size + Adjusted(layout).align <= ADDRESS_LIMIT
      modifies this
      ensures Valid() && base == old(base) && size == old(size)
      ensures p.None? <==> NoneFits(old(free), Adjusted(layout), |old(free)|)
      ensures p.None? ==> free == old(free) && live == old(live) && dropped == old(dropped)
      ensures peak == if inUse > old(peak) then inUse else old(peak)
      ensures p.Some? ==>
        exists i :: 0 <= i < |old(free)| &&
          Carved(old(free), i, Adjusted(layout), p.value, old(live), old(dropped), free, live, dropped)
    {
      hide In, Sorted, Pieces, Partition, AllSound, Scraps, Total, TryCarve, Adjusted, PowerOfTwo, Lost;
      var r := Adjusted(layout);
      var found, start, index := FindRegion(r);
      if found.None? {
        return None;
      }
      p := Some(start);
      var region := found.value;
      Removed(old(free), index);
      CarveStart(region, r, start);
      CarvedPieces(region, r.size, start);
      GiveBack(region, start, r.size);
      CarvedCover(old(free), index, old(free)[..index] + old(free)[index + 1..], Block(start, r.size), free);
      inUse := inUse + r.size;
      allocations := allocations + 1;
      peak := if inUse < peak then peak else inUse;
      live := live + [Block(start, r.size)];
      dropped := dropped + Lost(region.start, start);
      assert Carved(old(free), index, r, start, old(live), old(dropped), free, live, dropped);
      AllocPartition(old(free), index, r, start, old(live), old(dropped), free, live, dropped, base, size);
    }
  
    /** A live block returned: it is free again, and nothing else changes. */
    method Dealloc(p: nat, layout: Layout)
      requires Valid() && PowerOfTwo(layout.align) && Block(p, Adjusted(layout).size) in live
      modifies this
      ensures Valid() && base == old(base) && size == old(size) && dropped == old(dropped) && peak == old(peak)
      ensures var block := Block(p, Adjusted(layout).size);
        && (exists i :: 0 <= i < |old(live)| && old(live)[i] == block && live == old(live)[..i] + old(live)[i + 1..])
        && forall a :: In(free, a) <==> old(In(free, a)) || block.Has(a)
    {
      hide In, Sorted, Pieces, Partition, AllSound, Scraps, Total, Adjusted, PowerOfTwo;
      var length := Adjusted(layout).size;
      ghost var block := Block(p, length);
      ghost var i :| 0 <= i < |live| && live[i] == block;
      LiveBlock(base, size, free, live, dropped, i);
      AddFreeRegion(p, length);
      inUse := inUse - length;
      allocations := allocations - 1;
      live := live[..i] + live[i + 1..];
      Freed(base, size, old(free), free, old(live), dropped, i);
    }

    /** An allocation and its return: the free list is as it was exactly when the block the request fits first
        begins at an aligned address, or far enough before one, and padding that was dropped is not recovered. */
    method ThereAndBack(layout: Layout) returns (ghost lost: seq<Block>)
      requires Valid() && PowerOfTwo(layout.align) && base + size + Adjusted(layout).align <= ADDRESS_LIMIT
      modifies this
      ensures Valid() && live == old(live) && dropped == old(dropped) + lost
      ensures free == old(free) <==> lost == []
      ensures lost == [] <==> !Pads(old(free), Adjusted(layout))
      ensures forall a :: In(free, a) <==> old(In(free, a)) && !In(lost, a)
    {
      hide Pads, Pieces, Partition, AllSound, Scraps, Total, TryCarve, Adjusted, PowerOfTwo, NoneFits, Sorted, Lost, In;
      var p := Alloc(layout);
      lost := [];
      if p.Some? {
        ghost var i :| 0 <= i < |old(free)| &&
          Carved(old(free), i, Adjusted(layout), p.value, old(live), old(dropped), free, live, dropped);
        lost := Lost(old(free)[i].start, p.value);
        PadsHere(old(free), i, Adjusted(layout), p.value);
        ghost var block := Block(p.value, Adjusted(layout).size);
        ghost var held := live;
        Alone(held, |held| - 1);
        Dealloc(p.value, layout);
        LostWas(old(free), i, block, lost);
        SameIff(old(free), free, lost);
      } else {
        NotIn();
        NothingPads(old(free), Adjusted(layout));
      }
    }

    /** Freeing everything leaves one block of the whole heap exactly when no allocation ever dropped padding. */
    lemma WholeAgain()
      requires Valid() && live == []
      ensures free == [Block(base, size)] <==> dropped == []
    {
      Emptied(base, size, free, dropped);
    }
  }

  /** Two allocations and their returns, of 24 bytes and of 16 bytes aligned to 16: both are back, and the eight bytes
      between them are gone. */
  method NotWholeAgain() returns (heap: Heap)
    ensures fresh(heap) && heap.Valid() && heap.live == [] && heap.dropped == [Block(24, 8)]
    ensures heap.free != [Block(heap.base, heap.size)]
  {
    hide In, Sorted, Pieces, Partition, AllSound, Scraps, Total, NoneFits, PowerOfTwo, Carved, TryCarve, Adjusted;
    heap := new Heap(0, 1024);
    SmallPowers();
    SmallLayout(24, 8);
    SmallLayout(16, 16);
    assert Lost(0, 0) == [] && Lost(24, 32) == [Block(24, 8)];
    FirstFits(Block(0, 1024), Layout(24, 8), 0);
    var first := heap.Alloc(Layout(24, 8));
    OnlyFit(Block(0, 1024), Layout(24, 8), 0, first.value, [], [], heap.free, heap.live, heap.dropped);
    OneBlockLeft(heap.free, 0, 24, 1000);
    assert heap.free == [Block(24, 1000)] && heap.live == [Block(0, 24)] && heap.dropped == [];
    FirstFits(Block(24, 1000), Layout(16, 16), 32);
    var second := heap.Alloc(Layout(16, 16));
    OnlyFit(Block(24, 1000), Layout(16, 16), 32, second.value, [Block(0, 24)], [], heap.free, heap.live, heap.dropped);
    assert heap.live == [Block(0, 24), Block(32, 16)] && heap.dropped == [Block(24, 8)];
    heap.Dealloc(first.value, Layout(24, 8));
    heap.Dealloc(second.value, Layout(16, 16));
    heap.WholeAgain();
  }

  lemma SmallPowers()
    ensures PowerOfTwo(8) && PowerOfTwo(16)
  {
    assert PowerOfTwo(1) && PowerOfTwo(2) && PowerOfTwo(4);
  }

  lemma SmallLayout(size: nat, align: nat)
    requires PowerOfTwo(align) && NODE_ALIGN <= align && NODE <= size && size % align == 0
    ensures Adjusted(Layout(size, align)) == Layout(size, align)
  {
    hide PowerOfTwo;
    OneMultiple(RoundUp(size, align), size, align);
  }

  lemma FirstFits(block: Block, r: Layout, p: nat)
    requires r.align > 0 && block.End() < ADDRESS_LIMIT
    requires p % r.align == 0 && block.start <= p < block.start + r.align && p + r.size + NODE <= block.End()
    ensures TryCarve(block, r.size, r.align) == Some(p) && !NoneFits([block], r, 1)
  {
    CarvesExactly(block, r.size, r.align, p);
    assert [block][0] == block;
  }

  /** With one block to carve, what was carved from it. */
  lemma OnlyFit(block: Block, r: Layout, at: nat, p: nat, live: seq<Block>, dropped: seq<Block>,
                free': seq<Block>, live': seq<Block>, dropped': seq<Block>)
    requires r.align > 0 && TryCarve(block, r.size, r.align) == Some(at)
    requires exists i :: 0 <= i < 1 && Carved([block], i, r, p, live, dropped, free', live', dropped')
    ensures p == at && live' == live + [Block(p, r.size)] && dropped' == dropped + Lost(block.start, p)
    ensures forall a :: In(free', a) <==> In([block], a) && !Block(p, r.size).Has(a) && !In(Lost(block.start, p), a)
  {
    hide TryCarve, Lost, In;
  }

  /** What is left of a block carved at its start. */
  lemma OneBlockLeft(free: seq<Block>, start: nat, length: nat, rest: nat)
    requires Sorted(free) && Block(start + length, rest).Sound()
    requires forall a :: In(free, a) <==>
      In([Block(start, length + rest)], a) && !Block(start, length).Has(a) && !In(Lost(start, start), a)
    ensures free == [Block(start + length, rest)]
  {
    InOne(Block(start, length + rest));
    InOne(Block(start + length, rest));
    NotIn();
    SameCover(free, [Block(start + length, rest)]);
  }

  lemma NotIn()
    ensures forall a :: !In([], a)
  {
  }

  lemma Alone(blocks: seq<Block>, i: nat)
    requires Pieces(blocks) && i < |blocks|
    ensures forall j :: 0 <= j < |blocks| && blocks[j] == blocks[i] ==> j == i
  {
    assert forall j :: 0 <= j < |blocks| ==> blocks[j].Has(blocks[j].start);
  }

  lemma LostWas(free: seq<Block>, i: nat, block: Block, lost: seq<Block>)
    requires i < |free| && lost == Lost(free[i].start, block.start)
    requires forall a :: block.Has(a) ==> free[i].Has(a)
    requires block.size > 0
    ensures forall a :: block.Has(a) ==> In(free, a) && !In(lost, a)
    ensures forall a :: In(lost, a) ==> In(free, a)
    ensures lost != [] ==> exists a :: In(lost, a)
  {
    assert block.Has(block.start);
    LostIs(free[i].start, block.start);
    assert lost != [] ==> In(lost, free[i].start);
    assert forall a :: free[i].Has(a) ==> In(free, a);
  }

  lemma SameIff(free: seq<Block>, free': seq<Block>, lost: seq<Block>)
    requires Sorted(free) && Sorted(free') && forall a :: In(free', a) <==> In(free, a) && !In(lost, a)
    requires forall a :: In(lost, a) ==> In(free, a)
    requires lost != [] ==> exists a :: In(lost, a)
    ensures free' == free <==> lost == []
  {
    if lost == [] {
      SameCover(free, free');
    }
  }

  lemma LiveBlock(base: nat, size: nat, free: seq<Block>, live: seq<Block>, dropped: seq<Block>, i: nat)
    requires i < |live| && AllSound(live) && Partition(base, size, free, live, dropped)
    ensures live[i].Sound() && forall a :: live[i].Has(a) ==> !In(free, a)
    ensures Total(live) >= live[i].size
  {
    assert forall a :: live[i].Has(a) ==> In(live, a);
    assert live == live[..i] + [live[i]] + live[i + 1..];
    TotalConcat(live[..i], [live[i]]);
    TotalConcat(live[..i] + [live[i]], live[i + 1..]);
    InOne(live[i]);
  }

  lemma Freed(base: nat, size: nat, free: seq<Block>, free': seq<Block>, live: seq<Block>, dropped: seq<Block>, i: nat)
    requires i < |live| && AllSound(live) && Pieces(live) && Partition(base, size, free, live, dropped)
    requires forall a :: In(free', a) <==> In(free, a) || live[i].Has(a)
    ensures var live' := live[..i] + live[i + 1..];
      && AllSound(live') && Pieces(live') && Partition(base, size, free', live', dropped)
      && Total(live') + live[i].size == Total(live)
  {
    var x, b, y := live[..i], live[i], live[i + 1..];
    assert live == x + [b] + y;
    InConcat(x, y);
    InConcat(x, [b]);
    InConcat(x + [b], y);
    InOne(b);
    TotalConcat(x, y);
    TotalConcat(x, [b]);
    TotalConcat(x + [b], y);
    OthersApart(live, i);
    hide Total;
  }

  lemma OthersApart(live: seq<Block>, i: nat)
    requires i < |live| && Pieces(live)
    ensures Pieces(live[..i] + live[i + 1..])
    ensures forall a :: live[i].Has(a) ==> !In(live[..i], a) && !In(live[i + 1..], a)
  {
    var x, y := live[..i], live[i + 1..];
    assert forall j :: 0 <= j < |x| ==> x[j] == live[j];
    assert forall j :: 0 <= j < |y| ==> y[j] == live[i + 1 + j];
  }

  /** None of the first `n` free blocks can hold a request. */
  ghost predicate NoneFits(free: seq<Block>, r: Layout, n: nat)
    requires r.align > 0 && n <= |free|
  {
    forall i :: 0 <= i < n ==> TryCarve(free[i], r.size, r.align).None?
  }

  /** The first block that can hold a request begins before an aligned address, and less than a node before it. */
  ghost predicate Pads(free: seq<Block>, r: Layout)
    requires r.align > 0
  {
    exists i :: 0 <= i < |free| && NoneFits(free, r, i) && TryCarve(free[i], r.size, r.align).Some?
                && 0 < RoundUp(free[i].start, r.align) - free[i].start < NODE
  }

  lemma NothingPads(free: seq<Block>, r: Layout)
    requires r.align > 0 && NoneFits(free, r, |free|)
    ensures !Pads(free, r)
  {
    hide RoundUp;
  }

  /** There is only one first block. */
  lemma PadsHere(free: seq<Block>, i: nat, r: Layout, p: nat)
    requires r.align > 0 && i < |free| && NoneFits(free, r, i) && TryCarve(free[i], r.size, r.align) == Some(p)
    ensures Pads(free, r) <==> Lost(free[i].start, p) != []
  {
    hide RoundUp;
    forall j | 0 <= j < |free| && NoneFits(free, r, j) && TryCarve(free[j], r.size, r.align).Some? ensures j == i {
    }
  }

  /** A request aligned to no more than a node never drops anything, wherever it goes. */
  lemma SmallAlignment(free: seq<Block>, layout: Layout)
    requires Sorted(free) && PowerOfTwo(layout.align) && layout.align <= NODE_ALIGN
    ensures !Pads(free, Adjusted(layout))
  {
    forall i | 0 <= i < |free| ensures RoundUp(free[i].start, NODE_ALIGN) == free[i].start {
      OneMultiple(RoundUp(free[i].start, NODE_ALIGN), free[i].start, NODE_ALIGN);
    }
  }

  /** Padding lost in front of an allocation. */
  function Lost(start: nat, p: nat): seq<Block> {
    if start < p < start + NODE then [Block(start, p - start)] else []
  }

  lemma LostIs(start: nat, p: nat)
    requires start <= p
    ensures forall a: nat :: In(Lost(start, p), a) <==> p < start + NODE && start <= a < p
    ensures Total(Lost(start, p)) == if p < start + NODE then p - start else 0
  {
    if start < p < start + NODE {
      InOne(Block(start, p - start));
    }
  }

  /** An allocation at `p` out of free block `i`, the first that fits. */
  ghost predicate Carved(free: seq<Block>, i: nat, r: Layout, p: nat, live: seq<Block>, dropped: seq<Block>,
                         free': seq<Block>, live': seq<Block>, dropped': seq<Block>)
    requires i < |free| && r.align > 0
  {
    var block, lost := Block(p, r.size), Lost(free[i].start, p);
    && NoneFits(free, r, i) && TryCarve(free[i], r.size, r.align) == Some(p)
    && p % r.align == 0 && (forall a :: block.Has(a) ==> free[i].Has(a))
    && live' == live + [block] && dropped' == dropped + lost
    && forall a :: In(free', a) <==> In(free, a) && !block.Has(a) && !In(lost, a)
  }

  /** Blocks that do not overlap, none empty. */
  ghost predicate Pieces(blocks: seq<Block>) {
    && (forall i :: 0 <= i < |blocks| ==> blocks[i].size > 0)
    && (forall i, j, a :: 0 <= i < j < |blocks| && blocks[i].Has(a) ==> !blocks[j].Has(a))
  }

  ghost predicate AllSound(blocks: seq<Block>) {
    forall i :: 0 <= i < |blocks| ==> blocks[i].Sound()
  }

  ghost predicate Scraps(blocks: seq<Block>) {
    forall i :: 0 <= i < |blocks| ==> blocks[i].size < NODE
  }

  ghost predicate Partition(base: nat, size: nat, free: seq<Block>, live: seq<Block>, dropped: seq<Block>) {
    && (forall a: nat :: base <= a < base + size <==> In(free, a) || In(live, a) || In(dropped, a))
    && (forall a :: !(In(free, a) && In(live, a)) && !(In(free, a) && In(dropped, a)) && !(In(live, a) && In(dropped, a)))
  }

  /** Where a block free of the list falls in it. */
  lemma Apart(free: seq<Block>, at: nat, start: nat, length: nat)
    requires Sorted(free) && Block(start, length).Sound() && at <= |free|
    requires forall a :: Block(start, length).Has(a) ==> !In(free, a)
    requires forall i :: 0 <= i < at ==> free[i].start < start
    requires at < |free| ==> start <= free[at].start
    ensures at > 0 ==> free[at - 1].End() <= start
    ensures at < |free| ==> start + length <= free[at].start
  {
    assert Block(start, length).Has(start);
    assert at > 0 ==> (free[at - 1].Has(start) ==> In(free, start));
    assert at < |free| ==> free[at].Has(free[at].start) && In(free, free[at].start);
  }

  /** A list with one more block between two others. */
  lemma Placed(x: seq<Block>, b: Block, y: seq<Block>)
    requires Sorted(x) && Sorted(y) && b.Sound()
    requires x != [] ==> x[|x| - 1].End() < b.start
    requires y != [] ==> b.End() < y[0].start
    ensures Sorted(x + [b] + y)
    ensures forall a :: In(x + [b] + y, a) <==> In(x, a) || b.Has(a) || In(y, a)
    ensures Total(x + [b] + y) == Total(x) + b.size + Total(y)
  {
    InConcat(x, [b]);
    InConcat(x + [b], y);
    InOne(b);
    TotalConcat(x, [b]);
    TotalConcat(x + [b], y);
    hide In, Total;
  }

  lemma SplitAt(x: seq<Block>, at: nat)
    requires Sorted(x) && at <= |x|
    ensures Sorted(x[..at]) && Sorted(x[at..])
    ensures forall a :: In(x, a) <==> In(x[..at], a) || In(x[at..], a)
    ensures Total(x) == Total(x[..at]) + Total(x[at..])
  {
    assert x == x[..at] + x[at..];
    InConcat(x[..at], x[at..]);
    TotalConcat(x[..at], x[at..]);
  }

  /** A block and the list after it, before and after the block absorbs what it touches. */
  lemma MergedForward(b: Block, y: seq<Block>, b': Block, y': seq<Block>)
    requires Sorted(y) && b.Sound() && (y != [] ==> b.End() <= y[0].start)
    requires if y != [] && b.End() == y[0].start then b' == Block(b.start, b.size + y[0].size) && y' == y[1..]
             else b' == b && y' == y
    ensures Sorted(y') && b'.Sound() && b'.start == b.start && (y' != [] ==> b'.End() < y'[0].start)
    ensures forall a :: b'.Has(a) || In(y', a) <==> b.Has(a) || In(y, a)
    ensures b'.size + Total(y') == b.size + Total(y)
  {
    hide In, Total;
    if y != [] {
      SplitAt(y, 1);
      InOne(y[0]);
      assert y[..1] == [y[0]];
    }
  }

  lemma MergedBackward(x: seq<Block>, b: Block)
    requires Sorted(x) && b.Sound() && x != [] && x[|x| - 1].End() == b.start
    ensures var last := x[|x| - 1]; var b', x' := Block(last.start, last.size + b.size), x[..|x| - 1];
      && Sorted(x') && b'.Sound() && b'.End() == b.End() && (x' != [] ==> x'[|x'| - 1].End() < b'.start)
      && (forall a :: In(x', a) || b'.Has(a) <==> In(x, a) || b.Has(a))
      && Total(x') + b'.size == Total(x) + b.size
  {
    hide In, Total;
    var last := x[|x| - 1];
    SplitAt(x, |x| - 1);
    InOne(last);
    assert x[|x| - 1..] == [last];
  }

  /** A list without one of its blocks. */
  lemma Removed(free: seq<Block>, index: nat)
    requires Sorted(free) && index < |free|
    ensures var rest := free[..index] + free[index + 1..];
      && Sorted(rest) && Total(rest) + free[index].size == Total(free)
      && forall a :: In(rest, a) <==> In(free, a) && !free[index].Has(a)
    ensures free[index].Sound()
  {
    var x, y := free[..index], free[index + 1..];
    assert free == x + [free[index]] + y;
    RemovedBetween(x, free[index], y);
  }

  lemma RemovedBetween(x: seq<Block>, b: Block, y: seq<Block>)
    requires Sorted(x + [b] + y)
    ensures Sorted(x + y) && Total(x + y) + b.size == Total(x + [b] + y) && b.Sound()
    ensures forall a :: In(x + y, a) <==> In(x + [b] + y, a) && !b.Has(a)
  {
    Neighbours(x, b, y);
    hide Sorted, Total, In;
    Placed(x, b, y);
    InConcat(x, y);
    TotalConcat(x, y);
    InBelow(x, b.start);
    InAbove(y, b.End());
    SortedJoin(x, y);
  }

  lemma Neighbours(x: seq<Block>, b: Block, y: seq<Block>)
    requires Sorted(x + [b] + y)
    ensures Sorted(x) && Sorted(y) && b.Sound()
    ensures forall i :: 0 <= i < |x| ==> x[i].End() < b.start
    ensures forall i :: 0 <= i < |y| ==> b.End() < y[i].start
  {
    var all := x + [b] + y;
    assert all[|x|] == b;
    forall i | 0 <= i < |x| ensures x[i].Sound() && x[i].End() < b.start {
      assert all[i] == x[i];
    }
    forall i | 0 <= i < |y| ensures y[i].Sound() && b.End() < y[i].start {
      assert all[|x| + 1 + i] == y[i];
    }
    assert all[..|x|] == x && all[|x| + 1..] == y;
  }

  lemma SortedJoin(x: seq<Block>, y: seq<Block>)
    requires Sorted(x) && Sorted(y) && (x != [] && y != [] ==> x[|x| - 1].End() < y[0].start)
    ensures Sorted(x + y)
  {
  }

  lemma InBelow(x: seq<Block>, limit: nat)
    requires forall i :: 0 <= i < |x| ==> x[i].End() <= limit
    ensures forall a: nat :: In(x, a) ==> a < limit
  {
  }

  lemma InAbove(y: seq<Block>, limit: nat)
    requires forall i :: 0 <= i < |y| ==> limit <= y[i].start
    ensures forall a: nat :: In(y, a) ==> limit <= a
  {
  }

  /** The three parts of a carved block are each in line with the nodes. */
  lemma CarvedPieces(region: Block, length: nat, p: nat)
    requires region.Sound() && p % NODE_ALIGN == 0 && length % NODE_ALIGN == 0 && length >= NODE
    requires region.start <= p && p + length <= region.End()
    requires region.End() == p + length || region.End() >= p + length + NODE
    ensures Block(p, length).Sound()
    ensures p - region.start >= NODE ==> Block(region.start, p - region.start).Sound()
    ensures region.End() > p + length ==> Block(p + length, region.End() - (p + length)).Sound()
  {
    PieceSound(region.start, p);
    PieceSound(p + length, region.End());
  }

  lemma CarveStart(region: Block, r: Layout, p: nat)
    requires r.align > 0 && r.align % NODE_ALIGN == 0 && TryCarve(region, r.size, r.align) == Some(p)
    ensures p % r.align == 0 && p % NODE_ALIGN == 0 && region.start <= p && p + r.size <= region.End()
    ensures region.End() == p + r.size || region.End() >= p + r.size + NODE
  {
    hide RoundUp;
    MultipleOfMultiple(p, r.align, NODE_ALIGN);
  }

  lemma PieceSound(start: nat, end: nat)
    requires start % NODE_ALIGN == 0 && end % NODE_ALIGN == 0
    ensures end - start >= NODE ==> Block(start, end - start).Sound()
  {
  }

  lemma CarvedCover(free: seq<Block>, i: nat, rest: seq<Block>, block: Block, free': seq<Block>)
    requires i < |free| && free[i].start <= block.start && block.End() <= free[i].End()
    requires forall a :: In(rest, a) <==> In(free, a) && !free[i].Has(a)
    requires forall a :: In(free', a) <==>
      In(rest, a) || (free[i].Has(a) && !block.Has(a) && !In(Lost(free[i].start, block.start), a))
    ensures forall a :: In(free', a) <==> In(free, a) && !block.Has(a) && !In(Lost(free[i].start, block.start), a)
  {
    LostIs(free[i].start, block.start);
    assert forall a :: free[i].Has(a) ==> In(free, a);
    hide In, Lost;
  }

  lemma AllocPartition(free: seq<Block>, i: nat, r: Layout, p: nat, live: seq<Block>, dropped: seq<Block>,
                       free': seq<Block>, live': seq<Block>, dropped': seq<Block>, base: nat, size: nat)
    requires i < |free| && r.align > 0 && r.size > 0
    requires Carved(free, i, r, p, live, dropped, free', live', dropped') && free[i].start <= p
    requires Pieces(live) && Pieces(dropped) && Partition(base, size, free, live, dropped)
    requires AllSound(live) && Scraps(dropped) && Block(p, r.size).Sound()
    ensures AllSound(live') && Scraps(dropped')
    ensures Pieces(live') && Pieces(dropped') && Partition(base, size, free', live', dropped')
    ensures Total(live') == Total(live) + r.size && Total(dropped') == Total(dropped) + Total(Lost(free[i].start, p))
  {
    var block, lost := Block(p, r.size), Lost(free[i].start, p);
    InBlock(free, i);
    LostIs(free[i].start, p);
    hide In, Total, Pieces, TryCarve, NoneFits;
    InOne(block);
    InConcat(live, [block]);
    InConcat(dropped, lost);
    TotalConcat(live, [block]);
    TotalConcat(dropped, lost);
    assert forall a :: In(lost, a) ==> free[i].Has(a) && !block.Has(a);
    PiecesMore(live, block);
    if lost != [] {
      InOne(lost[0]);
      PiecesMore(dropped, lost[0]);
    }
  }

  lemma InBlock(free: seq<Block>, i: nat)
    requires i < |free|
    ensures forall a :: free[i].Has(a) ==> In(free, a)
  {
  }

  lemma PiecesMore(blocks: seq<Block>, b: Block)
    requires Pieces(blocks) && b.size > 0 && forall a :: b.Has(a) ==> !In(blocks, a)
    ensures Pieces(blocks + [b])
  {
    forall i, j, a | 0 <= i < j < |blocks + [b]| && (blocks + [b])[i].Has(a) ensures !(blocks + [b])[j].Has(a) {
      assert i < |blocks| ==> In(blocks, a);
    }
  }

  /** Nothing live: one block of the whole heap if and only if no padding was ever dropped. */
  lemma Emptied(base: nat, size: nat, free: seq<Block>, dropped: seq<Block>)
    requires Block(base, size).Sound() && Sorted(free) && Pieces(dropped)
    requires Partition(base, size, free, [], dropped)
    ensures free == [Block(base, size)] <==> dropped == []
  {
    var whole := Block(base, size);
    InOne(whole);
    if dropped == [] {
      SameCover(free, [whole]);
    } else {
      assert dropped[0].Has(dropped[0].start);
      assert In(dropped, dropped[0].start);
    }
  }
}
