/** The compositor: damage tracking, back-to-front composition off screen, and a flush of whole pixels. */
module Compositors {
  import opened Arithmetic
  import opened DamageGrid
  import opened Scene

  type Word = bv32

  function FromBytes(a: Byte, b: Byte, c: Byte, d: Byte): Word {
    a | (b << 8) | (c << 16) | (d << 24)
  }

  /** The byte of a word at an address `at` past its own. */
  function ByteOf(w: Word, at: nat): Byte
    requires at < 4
  {
    if at == 0 then (w & 0xFF)
    else if at == 1 then ((w >> 8) & 0xFF)
    else if at == 2 then ((w >> 16) & 0xFF)
    else ((w >> 24) & 0xFF)
  }

  /** A pixel stored with the byte after it kept... */
  lemma KeepsAfter(a: Byte, b: Byte, c: Byte, p: Byte, q: Byte, r: Byte, s: Byte)
    ensures var w := FromBytes(a, b, c, 0) | (FromBytes(p, q, r, s) & 0xFF00_0000);
      ByteOf(w, 0) == a && ByteOf(w, 1) == b && ByteOf(w, 2) == c && ByteOf(w, 3) == s
  {
  }

  /** ...and with the byte before it kept. */
  lemma KeepsBefore(a: Byte, b: Byte, c: Byte, p: Byte, q: Byte, r: Byte, s: Byte)
    ensures var w := (FromBytes(a, b, c, 0) << 8) | (FromBytes(p, q, r, s) & 0xFF);
      ByteOf(w, 0) == p && ByteOf(w, 1) == a && ByteOf(w, 2) == b && ByteOf(w, 3) == c
  {
  }

  method Fill(a: array<Byte>, start: nat, value: Byte, count: nat)
    requires start + count <= a.Length
    modifies a
    ensures forall k :: 0 <= k < a.Length ==> a[k] == if start <= k < start + count then value else old(a[k])
  {
    forall k | start <= k < start + count {
      a[k] := value;
    }
  }

  method CopyIn(a: array<Byte>, start: nat, source: seq<Byte>, from: nat, count: nat)
    requires start + count <= a.Length && from + count <= |source|
    modifies a
    ensures forall k :: 0 <= k < a.Length ==>
      a[k] == if start <= k < start + count then source[from + (k - start)] else old(a[k])
  {
    forall k | start <= k < start + count {
      a[k] := source[from + (k - start)];
    }
  }

  method ReadWord(a: array<Byte>, at: nat) returns (w: Word)
    requires at + 4 <= a.Length
    ensures w == FromBytes(a[at], a[at + 1], a[at + 2], a[at + 3])
  {
    w := FromBytes(a[at], a[at + 1], a[at + 2], a[at + 3]);
  }

  method WriteWord(a: array<Byte>, at: nat, w: Word)
    requires at + 4 <= a.Length
    modifies a
    ensures a[at] == ByteOf(w, 0) && a[at + 1] == ByteOf(w, 1) && a[at + 2] == ByteOf(w, 2) && a[at + 3] == ByteOf(w, 3)
    ensures forall k :: 0 <= k < a.Length && !(at <= k < at + 4) ==> a[k] == old(a[k])
  {
    a[at], a[at + 1], a[at + 2], a[at + 3] := ByteOf(w, 0), ByteOf(w, 1), ByteOf(w, 2), ByteOf(w, 3);
  }

  class Compositor {
    const screen: Screen
    const back: array<Byte>
    const display: array<Byte>
    const damage: Damage
    var surfaces: seq<Surface>
    var pointer: Pointer
    var buttons: bv64
    var focus: Focus
    ghost var ever: seq<Bits>
    ghost const original: seq<Byte>

    ghost predicate Geometry() {
      && screen.Ok() && back != display
      && back.Length == display.Length == |original| == screen.Size()
      && (screen.depth == 3 ==> screen.Size() >= 4)
      && damage.tile > 0
      && forall x: nat, y: nat :: x < screen.width && y < screen.height ==> damage.OnGrid(x, y)
    }

    constructor (screen: Screen, back: array<Byte>, display: array<Byte>)
      requires screen.Ok() && back != display && back.Length == display.Length == screen.Size()
      requires screen.depth == 3 ==> screen.Size() >= 4
      ensures Valid() && this.screen == screen && this.back == back && this.display == display
      ensures fresh(damage) && original == display[..] && damage.rows == ever == DamageGrid.Clear()
      ensures surfaces == seq(MAX_SURFACES, _ => EMPTY) && !pointer.visible
    {
      this.screen, this.back, this.display := screen, back, display;
      damage := new Damage(screen.width, screen.height);
      surfaces := seq(MAX_SURFACES, _ => EMPTY);
      pointer := Pointer(screen.width / 2, screen.height / 2, false);
      buttons := 0;
      focus := Nobody;
      ever := DamageGrid.Clear();
      original := display[..];
      new;
      NothingDamaged(screen, damage.tile, surfaces, pointer);
    }

    ghost predicate Valid()
      reads this, damage, display
    {
      && Geometry() && damage.Valid() && |surfaces| == MAX_SURFACES && AllSound(surfaces, screen.depth)
      && pointer.x < screen.width && pointer.y < screen.height && |ever| == ROWS
      && Current(screen, damage.tile, damage.rows, ever, original, display[..], surfaces, pointer)
    }

    /** One pixel to the display, as a single store; at three bytes a pixel, a store of four. */
    method StorePixel(offset: nat)
      requires Geometry() && offset + screen.depth <= screen.Size()
      modifies display
      ensures forall k :: 0 <= k < display.Length ==>
        display[k] == if offset <= k < offset + screen.depth then back[k] else old(display[k])
    {
      hide FromBytes, ByteOf, Screen.Size;
      if screen.depth != 3 {
        CopyIn(display, offset, back[..], offset, screen.depth);
        return;
      }
      var pixel := FromBytes(back[offset], back[offset + 1], back[offset + 2], 0);
      if offset + 4 <= screen.Size() {
        StoreKeepingAfter(offset, pixel);
      } else {
        StoreKeepingBefore(offset, pixel);
      }
    }

    method StoreKeepingAfter(offset: nat, pixel: Word)
      requires Geometry() && offset + 4 <= screen.Size()
      requires pixel == FromBytes(back[offset], back[offset + 1], back[offset + 2], 0)
      modifies display
      ensures forall k :: 0 <= k < display.Length ==>
        display[k] == if offset <= k < offset + 3 then back[k] else old(display[k])
    {
      hide FromBytes, ByteOf, Screen.Size;
      KeepsAfter(back[offset], back[offset + 1], back[offset + 2],
                 display[offset], display[offset + 1], display[offset + 2], display[offset + 3]);
      var word := ReadWord(display, offset);
      WriteWord(display, offset, pixel | (word & 0xFF00_0000));
    }

    method StoreKeepingBefore(offset: nat, pixel: Word)
      requires Geometry() && 1 <= offset && offset + 3 <= screen.Size()
      requires pixel == FromBytes(back[offset], back[offset + 1], back[offset + 2], 0)
      modifies display
      ensures forall k :: 0 <= k < display.Length ==>
        display[k] == if offset <= k < offset + 3 then back[k] else old(display[k])
    {
      hide FromBytes, ByteOf, Screen.Size;
      KeepsBefore(back[offset], back[offset + 1], back[offset + 2],
                  display[offset - 1], display[offset], display[offset + 1], display[offset + 2]);
      var word := ReadWord(display, offset - 1);
      WriteWord(display, offset - 1, (pixel << 8) | (word & 0xFF));
    }

    /** A region inside the screen with something in it. */
    ghost predicate Clipped(area: Rect) {
      !area.Empty() && area.right <= screen.width && area.bottom <= screen.height
    }

    /** The region reaches the display, and nothing else on it changes. */
    method Flush(area: Rect)
      requires Geometry() && Clipped(area)
      modifies display
      ensures forall k :: 0 <= k < display.Length ==>
        display[k] == if screen.In(area, k) then back[k] else old(display[k])
    {
      hide Screen.X, Screen.Y, Screen.Stride, Screen.Size, OffsetOf, RunBytes, SourceOf;
      for row := area.top to area.bottom
        invariant forall k :: 0 <= k < display.Length ==>
          display[k] == if screen.In(area.(bottom := row), k) then back[k] else old(display[k])
      {
        Joined(screen, area.(bottom := row), Rect(area.left, row, area.right, row + 1), area.(bottom := row + 1));
        FlushRow(row, area.left, area.right);
      }
    }

    method FlushRow(row: nat, left: nat, right: nat)
      requires Geometry() && Clipped(Rect(left, row, right, row + 1))
      modifies display
      ensures forall k :: 0 <= k < display.Length ==>
        display[k] == if screen.In(Rect(left, row, right, row + 1), k) then back[k] else old(display[k])
    {
      hide Screen.X, Screen.Y, Screen.Stride, Screen.Size, OffsetOf, RunBytes, SourceOf;
      for x := left to right
        invariant forall k :: 0 <= k < display.Length ==>
          display[k] == if screen.In(Rect(left, row, x, row + 1), k) then back[k] else old(display[k])
      {
        var offset := OffsetOf(screen, x, row);
        ghost var cell := Rect(x, row, x + 1, row + 1);
        CellRun(screen, x, row, cell, offset);
        Joined(screen, Rect(left, row, x, row + 1), cell, Rect(left, row, x + 1, row + 1));
        StorePixel(offset);
      }
    }
  
    method Clear(area: Rect)
      requires Geometry() && Clipped(area)
      modifies back
      ensures forall k :: 0 <= k < back.Length ==> back[k] == if screen.In(area, k) then 0 else old(back[k])
    {
      hide Screen.X, Screen.Y, Screen.Stride, Screen.Size, OffsetOf, RunBytes, SourceOf;
      for row := area.top to area.bottom
        invariant forall k :: 0 <= k < back.Length ==>
          back[k] == if screen.In(area.(bottom := row), k) then 0 else old(back[k])
      {
        var start := OffsetOf(screen, area.left, row);
        var width := RunBytes(screen, area.right - area.left);
        ghost var run := Rect(area.left, row, area.right, row + 1);
        RowBlock(screen, row, area.left, area.right, run, start, width);
        Joined(screen, area.(bottom := row), run, area.(bottom := row + 1));
        Fill(back, start, 0, width);
      }
    }

    /** The part of a surface that falls inside a region, into the back buffer. */
    method Blit(s: Surface, area: Rect)
      requires Geometry() && Clipped(area) && s.buffer != 0 && Sound(s, screen.depth)
      modifies back
      ensures forall k :: 0 <= k < back.Length ==>
        back[k] == if screen.In(area, k) && Covers(s, screen.X(k), screen.Y(k)) then ByteAt(s, screen, k)
                   else old(back[k])
    {
      hide Screen.X, Screen.Y, Screen.Stride, Screen.Size, OffsetOf, RunBytes, SourceOf, ByteAt, Sound;
      var visible := BoundsOf(s).Intersect(area);
      if visible.Empty() {
        return;
      }
      for row := visible.top to visible.bottom
        invariant forall k :: 0 <= k < back.Length ==>
          back[k] == if screen.In(visible.(bottom := row), k) then ByteAt(s, screen, k) else old(back[k])
      {
        Joined(screen, visible.(bottom := row), Rect(visible.left, row, visible.right, row + 1),
               visible.(bottom := row + 1));
        BlitRow(s, row, visible.left, visible.right);
      }
    }

    method BlitRow(s: Surface, row: nat, left: nat, right: nat)
      requires Geometry() && row < screen.height && right <= screen.width
      requires s.buffer != 0 && Sound(s, screen.depth)
      requires s.x <= left < right <= s.x + s.width && s.y <= row < s.y + s.height
      modifies back
      ensures forall k :: 0 <= k < back.Length ==>
        back[k] == if screen.In(Rect(left, row, right, row + 1), k) then ByteAt(s, screen, k) else old(back[k])
    {
      hide Screen.X, Screen.Y, Screen.Stride, Screen.Size, OffsetOf, RunBytes, SourceOf, ByteAt, Sound;
      var width := RunBytes(screen, right - left);
      var source := SourceOf(s, screen, left - s.x, row - s.y);
      var destination := OffsetOf(screen, left, row);
      SourceRow(s, screen, row, left, right, Rect(left, row, right, row + 1), source, destination, width);
      CopyIn(back, destination, s.pixels, source, width);
    }
  
    method DrawCursor(area: Rect)
      requires Geometry() && Clipped(area)
      modifies back
      ensures forall k :: 0 <= k < back.Length ==>
        back[k] == if screen.In(area, k) then Inked(pointer.InkAt(screen.X(k), screen.Y(k)), old(back[k]))
                   else old(back[k])
    {
      hide Screen.X, Screen.Y, Screen.Stride, Screen.Size, OffsetOf, RunBytes, SourceOf, CursorShape, InkOf;
      if !pointer.visible {
        return;
      }
      var visible := pointer.Bounds().Intersect(area);
      var y := visible.top;
      while y < visible.bottom
        invariant y >= visible.top && (y <= visible.bottom || y == visible.top)
        invariant forall k :: 0 <= k < back.Length ==>
          back[k] == if screen.In(visible.(bottom := y), k)
                     then Inked(pointer.InkAt(screen.X(k), screen.Y(k)), old(back[k])) else old(back[k])
      {
        if visible.left < visible.right {
          Joined(screen, visible.(bottom := y), Rect(visible.left, y, visible.right, y + 1), visible.(bottom := y + 1));
          CursorRow(y, visible.left, visible.right);
        }
        y := y + 1;
      }
    }

    method CursorRow(y: nat, left: nat, right: nat)
      requires Geometry() && Clipped(Rect(left, y, right, y + 1)) && pointer.visible
      requires pointer.x <= left && right <= pointer.x + CURSOR_WIDTH
      requires pointer.y <= y < pointer.y + CURSOR_HEIGHT
      modifies back
      ensures forall k :: 0 <= k < back.Length ==>
        back[k] == if screen.In(Rect(left, y, right, y + 1), k)
                   then Inked(pointer.InkAt(screen.X(k), screen.Y(k)), old(back[k])) else old(back[k])
    {
      hide Screen.X, Screen.Y, Screen.Stride, Screen.Size, OffsetOf, RunBytes, SourceOf, CursorShape, InkOf;
      for x := left to right
        invariant forall k :: 0 <= k < back.Length ==>
          back[k] == if screen.In(Rect(left, y, x, y + 1), k)
                     then Inked(pointer.InkAt(screen.X(k), screen.Y(k)), old(back[k])) else old(back[k])
      {
        ghost var cell := Rect(x, y, x + 1, y + 1);
        Joined(screen, Rect(left, y, x, y + 1), cell, Rect(left, y, x + 1, y + 1));
        DrawMark(x, y, cell);
      }
    }

    method DrawMark(x: nat, y: nat, ghost cell: Rect)
      requires Geometry() && x < screen.width && y < screen.height && cell == Rect(x, y, x + 1, y + 1)
      requires pointer.visible && pointer.Bounds().Has(x, y)
      modifies back
      ensures forall k :: 0 <= k < back.Length ==>
        back[k] == if screen.In(cell, k)
                   then Inked(pointer.InkAt(screen.X(k), screen.Y(k)), old(back[k])) else old(back[k])
    {
      hide Screen.X, Screen.Y, Screen.Stride, Screen.Size, OffsetOf, RunBytes, SourceOf, CursorShape, InkOf, Pointer.InkAt;
      var pixel := OffsetOf(screen, x, y);
      CellRun(screen, x, y, cell, pixel);
      var ink := InkOf(CursorShape()[y - pointer.y][x - pointer.x]);
      InkHere(pointer, x, y);
      CellInk(screen, pointer, x, y, cell, ink);
      if ink.Paint? {
        Fill(back, pixel, ink.value, screen.depth);
      }
    }

    /** The live surfaces by depth, by insertion into the caller's table. */
    method SortedByDepth(order: array<nat>) returns (count: nat)
      requires |surfaces| == order.Length
      modifies order
      ensures count <= order.Length && BackToFront(surfaces, order[..count])
    {
      count := 0;
      for index := 0 to |surfaces|
        invariant count <= index && BackToFront(surfaces[..index], order[..count])
      {
        if surfaces[index].buffer == 0 {
          SkipEmpty(surfaces, index, order[..count]);
        } else {
          Insert(order, count, index);
          count := count + 1;
        }
      }
      assert surfaces[..|surfaces|] == surfaces;
    }

    /** The order with one more surface, shifted in behind those that are lower or as low. */
    method Insert(order: array<nat>, count: nat, index: nat)
      requires count <= index < |surfaces| == order.Length && surfaces[index].buffer != 0
      requires BackToFront(surfaces[..index], order[..count])
      modifies order
      ensures BackToFront(surfaces[..index + 1], order[..count + 1])
    {
      hide BackToFront, Shifted, AllAbove;
      ghost var before := order[..count];
      LiveBelow(surfaces, index, before);
      var position := OpenGap(order, count, index, before);
      ghost var a := order[..];
      PutIn(a, before, position, index);
      order[position] := index;
      assert order[..] == a[position := index];
      assert order[..][..count + 1] == order[..count + 1];
      InsertedOnce(surfaces, index, before, position, order[..count + 1]);
    }

    method OpenGap(order: array<nat>, count: nat, index: nat, ghost before: seq<nat>) returns (position: nat)
      requires count <= index < |surfaces| == order.Length && before == order[..count]
      requires forall k :: 0 <= k < count ==> before[k] < index
      modifies order
      ensures position <= count && Shifted(order[..], before, position) && AllAbove(surfaces, index, before[position..])
      ensures position > 0 ==> surfaces[before[position - 1]].z <= surfaces[index].z
    {
      hide Shifted, AllAbove;
      NothingShifted(surfaces, index, order[..], before);
      position := count;
      while position > 0 && surfaces[order[position - 1]].z > surfaces[index].z
        invariant position <= count && Shifted(order[..], before, position)
        invariant AllAbove(surfaces, index, before[position..])
        invariant forall k :: 0 <= k < position ==> order[k] == before[k]
      {
        ghost var a := order[..];
        ShiftOne(surfaces, index, a, before, position);
        order[position] := order[position - 1];
        assert order[..] == a[position := a[position - 1]];
        position := position - 1;
      }
    }

    /** One region: composed off screen, back to front with the pointer last, and copied to the display. */
    method Recompose(area: Rect, order: seq<nat>)
      requires Geometry() && Clipped(area) && AllSound(surfaces, screen.depth) && BackToFront(surfaces, order)
      modifies back, display
      ensures forall k :: 0 <= k < display.Length ==>
        if screen.In(area, k) then Shows(surfaces, pointer, screen, k, display[k]) else display[k] == old(display[k])
    {
      hide Screen.X, Screen.Y, Screen.Stride, Screen.Size, OffsetOf, RunBytes, SourceOf, ByteAt, Pointer.InkAt, Composed, Painted, BackToFront, Sound;
      OrderLive(surfaces, order);
      Clear(area);
      PaintedNothing(surfaces, screen);
      for i := 0 to |order|
        invariant forall k :: 0 <= k < back.Length && screen.In(area, k) ==>
          back[k] == Painted(surfaces, order[..i], screen, k)
        invariant display[..] == old(display[..])
      {
        Blit(surfaces[order[i]], area);
        PaintedMore(surfaces, order, i, screen);
      }
      assert order[..|order|] == order;
      forall k: nat ensures Composed(surfaces, screen, k, Painted(surfaces, order, screen, k)) {
        PaintedIsTop(surfaces, order, |order|, screen, k);
      }
      DrawCursor(area);
      Flush(area);
    }
  
    /** Every damaged pixel is brought up to date and no other changes. */
    method Compose()
      requires Valid()
      modifies damage, back, display
      ensures Valid() && damage.rows == DamageGrid.Clear()
      ensures forall k :: 0 <= k < display.Length && !Hit(old(damage.rows), damage.tile, screen, k) ==>
        display[k] == old(display[k])
    {
      hide Screen.X, Screen.Y, Screen.Size, Shows, AllSound, BackToFront, Tile, DamageGrid.Clear;
      if damage.rows == DamageGrid.Clear() {
        return;
      }
      ghost var rows := damage.rows;
      var order := new nat[MAX_SURFACES];
      var count := SortedByDepth(order);
      var sorted := order[..count];
      var regions := damage.Drain();
      for n := 0 to |regions|
        invariant damage.rows == DamageGrid.Clear()
        invariant forall k :: 0 <= k < display.Length ==>
          if Shown(regions[..n], screen.X(k), screen.Y(k)) then Shows(surfaces, pointer, screen, k, display[k])
          else display[k] == old(display[k])
      {
        ghost var region := regions[n];
        var area := regions[n].Intersect(screen.Bounds());
        ShownMore(regions, n);
        forall k: nat | k < display.Length ensures screen.In(area, k) <==> region.Has(screen.X(k), screen.Y(k)) {
          OnScreen(screen, k);
        }
        if !area.Empty() {
          Recompose(area, sorted);
        } else {
          assert forall k: nat :: !screen.In(area, k);
        }
      }
      assert regions[..|regions|] == regions;
      forall k: nat | k < display.Length
        ensures Shown(regions, screen.X(k), screen.Y(k)) <==> Hit(rows, damage.tile, screen, k)
      {
        OnScreen(screen, k);
        assert damage.OnGrid(screen.X(k), screen.Y(k));
      }
      Recomposed(screen, damage.tile, rows, ever, original, old(display[..]), display[..], surfaces, pointer);
    }
  
    /** Damage an area, and note that it has been. */
    method AddDamage(area: Rect)
      requires Geometry() && damage.Valid() && |ever| == ROWS
      modifies damage, this`ever
      ensures damage.Valid() && |ever| == ROWS
      ensures AtLeast(screen, damage.tile, old(damage.rows), damage.rows)
      ensures Noted(screen, damage.tile, old(ever), damage.rows, ever)
      ensures forall k :: 0 <= k < screen.Size() && screen.In(area, k) ==> Hit(damage.rows, damage.tile, screen, k)
    {
      hide Screen.X, Screen.Y, Screen.Size, Tile;
      damage.Add(area);
      ever := Union(ever, damage.rows);
      forall k: nat | k < screen.Size() && screen.In(area, k) ensures Hit(damage.rows, damage.tile, screen, k) {
        OnScreen(screen, k);
        assert damage.OnGrid(screen.X(k), screen.Y(k));
        assert TouchedBy(area, Tile(screen.X(k), damage.tile), Tile(screen.Y(k), damage.tile), damage.tile);
      }
    }

    /** The table's slot for a surface: the one with its handle, or else the first empty one. */
    method FindSlot(buffer: nat) returns (slot: Option<nat>)
      requires buffer != 0
      ensures slot.Some? ==> SlotFor(surfaces, buffer, slot.value)
      ensures slot.None? ==> forall i :: 0 <= i < |surfaces| ==> surfaces[i].buffer != 0 && surfaces[i].buffer != buffer
    {
      slot := None;
      for index := 0 to |surfaces|
        invariant forall i :: 0 <= i < index ==> surfaces[i].buffer != buffer
        invariant slot.None? ==> forall i :: 0 <= i < index ==> surfaces[i].buffer != 0
        invariant slot.Some? ==> slot.value < index && surfaces[slot.value].buffer == 0
        invariant slot.Some? ==> forall i :: 0 <= i < slot.value ==> surfaces[i].buffer != 0
      {
        if surfaces[index].buffer == buffer {
          return Some(index);
        }
        if surfaces[index].buffer == 0 && slot.None? {
          slot := Some(index);
        }
      }
    }

    /** A surface recorded in its slot, old and new places damaged; nothing if the table is full. */
    method Track(surface: Surface)
      requires Valid() && surface.buffer != 0 && Sound(surface, screen.depth)
      modifies this, damage
      ensures Valid() && pointer == old(pointer) && focus == old(focus) && buttons == old(buttons)
      ensures forall i: nat :: SlotFor(old(surfaces), surface.buffer, i) ==> surfaces == old(surfaces)[i := surface]
      ensures (forall i: nat :: !SlotFor(old(surfaces), surface.buffer, i)) ==> surfaces == old(surfaces)
    {
      hide Screen.X, Screen.Y, Screen.Size, Current, Hit, Sound;
      var slot := FindSlot(surface.buffer);
      if slot.None? {
        return;
      }
      var previous := surfaces[slot.value];
      if previous.buffer != 0 {
        AddDamage(BoundsOf(previous));
      }
      AddDamage(BoundsOf(surface));
      surfaces := surfaces[slot.value := surface];
      Changed(screen, damage.tile, old(damage.rows), damage.rows, old(ever), ever, original, display[..],
              old(surfaces), surfaces, pointer, pointer);
    }

    /** A press at a point: `Raised` relates the stacking before and after, and who is focused. */
    method RaiseAt(x: nat, y: nat)
      requires Valid()
      modifies this, damage
      ensures Valid() && pointer == old(pointer) && buttons == old(buttons)
      ensures Raised(old(surfaces), surfaces, focus, x, y)
    {
      hide Geometry, Current, AllSound, BackToFront, IsTop, Covers;
      ghost var before := surfaces;
      var order := new nat[MAX_SURFACES];
      var count := SortedByDepth(order);
      var sorted := order[..count];
      var hit := LastCovering(sorted, x, y);
      if hit.None? {
        focus := Nobody;
        UncoveredNoTop(before, x, y);
        return;
      }
      OrderLive(surfaces, sorted);
      var index, top := hit.value, sorted[count - 1];
      if top != index {
        Lift(index, surfaces[top].z + 1);
      }
      focus := Owner(surfaces[index].owner);
      NowNearest(before, sorted, index, surfaces);
      TopCovers(before, x, y, index);
    }

    method Lift(index: nat, z: nat)
      requires Valid() && index < MAX_SURFACES
      modifies this, damage
      ensures Valid() && pointer == old(pointer) && focus == old(focus) && buttons == old(buttons)
      ensures surfaces == old(surfaces)[index := old(surfaces)[index].(z := z)]
    {
      hide Screen.X, Screen.Y, Screen.Size, Current, Hit;
      surfaces := surfaces[index := surfaces[index].(z := z)];
      AddDamage(BoundsOf(surfaces[index]));
      Changed(screen, damage.tile, old(damage.rows), damage.rows, old(ever), ever, original, display[..],
              old(surfaces), surfaces, pointer, pointer);
    }

    /** The last surface in the order that covers a point: the topmost one there. */
    method LastCovering(order: seq<nat>, x: nat, y: nat) returns (hit: Option<nat>)
      requires BackToFront(surfaces, order)
      ensures hit.None? ==> forall i :: 0 <= i < |surfaces| ==> !Covers(surfaces[i], x, y)
      ensures hit.Some? ==> hit.value in order && IsTop(surfaces, x, y, hit.value)
      ensures hit.Some? ==> forall i: nat :: IsTop(surfaces, x, y, i) ==> i == hit.value
    {
      var n := |order|;
      while n > 0
        invariant 0 <= n <= |order|
        invariant forall k :: n <= k < |order| ==> !Covers(surfaces[order[k]], x, y)
      {
        n := n - 1;
        if BoundsOf(surfaces[order[n]]).Has(x, y) {
          return Some(order[n]);
        }
      }
      return None;
    }
  
    method MovePointer(dx: int, dy: int)
      requires Valid()
      modifies this, damage
      ensures Valid() && surfaces == old(surfaces) && focus == old(focus) && buttons == old(buttons)
      ensures pointer == Pointer(Clamp(old(pointer).x + dx, screen.width), Clamp(old(pointer).y + dy, screen.height), true)
    {
      hide Screen.X, Screen.Y, Screen.Size, Current, Hit, AllSound, InkOf;
      if pointer.visible {
        AddDamage(pointer.Bounds());
      }
      pointer := Pointer(Clamp(pointer.x + dx, screen.width), Clamp(pointer.y + dy, screen.height), true);
      AddDamage(pointer.Bounds());
      Changed(screen, damage.tile, old(damage.rows), damage.rows, old(ever), ever, original, display[..],
              surfaces, surfaces, old(pointer), pointer);
    }

    /** The display is what it should be wherever damage has ever fallen, and untouched elsewhere; on a display
        that started black, it is what it should be everywhere. */
    ghost predicate Settled()
      requires Geometry() && |ever| == ROWS && AllSound(surfaces, screen.depth)
      reads this, display
    {
      && (forall k :: 0 <= k < display.Length ==>
            if Hit(ever, damage.tile, screen, k) then Shows(surfaces, pointer, screen, k, display[k])
            else display[k] == original[k])
      && ((forall k :: 0 <= k < display.Length ==> original[k] == 0) ==>
            forall k :: 0 <= k < display.Length ==> Shows(surfaces, pointer, screen, k, display[k]))
    }

    lemma NowSettled()
      requires Valid() && damage.rows == DamageGrid.Clear()
      ensures Settled()
    {
      hide Screen.X, Screen.Y, Screen.Size, Shows, AllSound, Tile;
      forall k | 0 <= k < display.Length
        ensures if Hit(ever, damage.tile, screen, k) then Shows(surfaces, pointer, screen, k, display[k])
                else display[k] == original[k] && Shows(surfaces, pointer, screen, k, 0)
      {
        assert CurrentAt(screen, damage.tile, damage.rows, ever, original[k], display[..][k], surfaces, pointer, k);
      }
    }

    /** A present message. */
    method Present(surface: Surface)
      requires Valid() && surface.buffer != 0 && Sound(surface, screen.depth)
      modifies this, damage, back, display
      ensures Valid() && Settled() && pointer == old(pointer) && focus == old(focus)
      ensures forall i: nat :: SlotFor(old(surfaces), surface.buffer, i) ==> surfaces == old(surfaces)[i := surface]
      ensures (forall i: nat :: !SlotFor(old(surfaces), surface.buffer, i)) ==> surfaces == old(surfaces)
    {
      hide Current, AllSound, Sound, SlotFor, Settled;
      Track(surface);
      Compose();
      NowSettled();
    }

    /** A pointer event: the pointer moves, clamped to the screen, and a left press raises what is under it. */
    method PointerEvent(dx: int, dy: int, pressed: bv64)
      requires Valid()
      modifies this, damage, back, display
      ensures Valid() && Settled()
      ensures pointer == Pointer(Clamp(old(pointer).x + dx, screen.width), Clamp(old(pointer).y + dy, screen.height), true)
      ensures buttons == pressed
      ensures pressed & !old(buttons) & 1 == 0 ==> surfaces == old(surfaces) && focus == old(focus)
      ensures pressed & !old(buttons) & 1 != 0 ==> Raised(old(surfaces), surfaces, focus, pointer.x, pointer.y)
    {
      hide Current, AllSound, Raised, Settled;
      MovePointer(dx, dy);
      var fresh' := pressed & !buttons;
      buttons := pressed;
      if fresh' & 1 != 0 {
        RaiseAt(pointer.x, pointer.y);
      }
      Compose();
      NowSettled();
    }
  }

  /** What a click does: the topmost surface under it, and no other, is lifted above every other live one. */
  ghost predicate Raised(surfaces: seq<Surface>, surfaces': seq<Surface>, focus: Focus, x: nat, y: nat) {
    && |surfaces'| == |surfaces|
    && ((forall i :: 0 <= i < |surfaces| ==> !Covers(surfaces[i], x, y)) ==> focus == Nobody && surfaces' == surfaces)
    && forall i: nat :: IsTop(surfaces, x, y, i) ==>
         && focus == Owner(surfaces[i].owner)
         && surfaces' == surfaces[i := surfaces[i].(z := surfaces'[i].z)]
         && forall j :: 0 <= j < |surfaces| && j != i && surfaces'[j].buffer != 0 ==> Nearer(surfaces', i, j)
  }

  function Clamp(v: int, limit: nat): (c: nat)
    requires limit > 0
    ensures c < limit && (0 <= v < limit ==> c == v)
  {
    if v < 0 then 0 else if v >= limit then limit - 1 else v
  }

  datatype Option<T> = None | Some(value: T)

  ghost predicate SlotFor(surfaces: seq<Surface>, buffer: nat, slot: nat) {
    && slot < |surfaces|
    && ((surfaces[slot].buffer == buffer && forall i :: 0 <= i < slot ==> surfaces[i].buffer != buffer)
        || (surfaces[slot].buffer == 0 && (forall i :: 0 <= i < slot ==> surfaces[i].buffer != 0)
            && forall i :: 0 <= i < |surfaces| ==> surfaces[i].buffer != buffer))
  }

  function Union(a: seq<Bits>, b: seq<Bits>): (u: seq<Bits>)
    requires |a| == |b| == ROWS
    ensures |u| == ROWS
  {
    seq(ROWS, r requires 0 <= r < ROWS => Or(a[r], b[r]))
  }

  ghost predicate Noted(screen: Screen, tile: nat, ever: seq<Bits>, rows: seq<Bits>, ever': seq<Bits>)
    requires screen.Ok() && tile > 0 && |ever| == |rows| == |ever'| == ROWS
  {
    forall k: nat :: Hit(ever', tile, screen, k) <==> Hit(ever, tile, screen, k) || Hit(rows, tile, screen, k)
  }

  /** A change of surfaces or pointer keeps the display current wherever no damage was added. */
  lemma Changed(screen: Screen, tile: nat, rows: seq<Bits>, rows': seq<Bits>, ever: seq<Bits>, ever': seq<Bits>,
                original: seq<Byte>, display: seq<Byte>, surfaces: seq<Surface>, surfaces': seq<Surface>,
                pointer: Pointer, pointer': Pointer)
    requires screen.Ok() && tile > 0 && |rows| == |rows'| == |ever| == |ever'| == ROWS
    requires AllSound(surfaces, screen.depth) && AllSound(surfaces', screen.depth) && |surfaces| == |surfaces'|
    requires |original| == |display| == screen.Size()
    requires Current(screen, tile, rows, ever, original, display, surfaces, pointer)
    requires AtLeast(screen, tile, rows, rows') && Noted(screen, tile, ever, rows', ever')
    requires forall k :: 0 <= k < |display| && !Hit(rows', tile, screen, k) ==>
      SameAt(surfaces, surfaces', pointer, pointer', screen.X(k), screen.Y(k))
    ensures Current(screen, tile, rows', ever', original, display, surfaces', pointer')
  {
    hide Screen.X, Screen.Y, Shows, Hit, Screen.Size, AllSound;
    forall k | 0 <= k < |display|
      ensures CurrentAt(screen, tile, rows', ever', original[k], display[k], surfaces', pointer', k)
    {
      assert CurrentAt(screen, tile, rows, ever, original[k], display[k], surfaces, pointer, k);
      if !Hit(rows', tile, screen, k) {
        Unaffected(surfaces, surfaces', pointer, pointer', screen, k, display[k]);
        Unaffected(surfaces, surfaces', pointer, pointer', screen, k, 0);
      }
    }
  }

  lemma UncoveredNoTop(surfaces: seq<Surface>, x: nat, y: nat)
    requires forall i :: 0 <= i < |surfaces| ==> !Covers(surfaces[i], x, y)
    ensures forall i: nat :: !IsTop(surfaces, x, y, i)
  {
  }

  lemma TopCovers(surfaces: seq<Surface>, x: nat, y: nat, index: nat)
    requires IsTop(surfaces, x, y, index)
    ensures index < |surfaces| && Covers(surfaces[index], x, y)
  {
  }

  /** Nothing that covers a pixel has changed there. */
  predicate SameAt(surfaces: seq<Surface>, surfaces': seq<Surface>, pointer: Pointer, pointer': Pointer, x: nat, y: nat)
    requires |surfaces| == |surfaces'|
  {
    && pointer'.InkAt(x, y) == pointer.InkAt(x, y)
    && forall i :: 0 <= i < |surfaces| ==>
         surfaces'[i] == surfaces[i] || (!Covers(surfaces[i], x, y) && !Covers(surfaces'[i], x, y))
  }

  /** Raised above the last in the order, or already last: nearer than every other live surface. */
  lemma NowNearest(surfaces: seq<Surface>, order: seq<nat>, index: nat, surfaces': seq<Surface>)
    requires BackToFront(surfaces, order) && index in order && |surfaces'| == |surfaces|
    requires var top := order[|order| - 1];
      surfaces' == if top == index then surfaces else surfaces[index := surfaces[index].(z := surfaces[top].z + 1)]
    ensures forall j :: 0 <= j < |surfaces| && j != index && surfaces'[j].buffer != 0 ==> Nearer(surfaces', index, j)
  {
    var last := |order| - 1;
    forall j | 0 <= j < |surfaces| && j != index && surfaces'[j].buffer != 0 ensures Nearer(surfaces', index, j) {
      assert j in order;
      var k :| 0 <= k < |order| && order[k] == j;
      assert k < last ==> Nearer(surfaces, order[last], order[k]);
    }
  }

  ghost predicate AtLeast(screen: Screen, tile: nat, rows: seq<Bits>, rows': seq<Bits>)
    requires screen.Ok() && tile > 0 && |rows| == |rows'| == ROWS
  {
    forall k: nat :: Hit(rows, tile, screen, k) ==> Hit(rows', tile, screen, k)
  }

  /** The tile of an offset's pixel is damaged. */
  ghost predicate Hit(rows: seq<Bits>, tile: nat, screen: Screen, offset: nat)
    requires screen.Ok() && tile > 0 && |rows| == ROWS
  {
    var c, r := Tile(screen.X(offset), tile), Tile(screen.Y(offset), tile);
    c < COLUMNS && r < ROWS && rows[r][c]
  }

  /** Where damage has ever fallen and none is outstanding, the display shows what it should. Where none ever
      has, it holds what it held at the start, and there is nothing to show. */
  ghost predicate CurrentAt(screen: Screen, tile: nat, rows: seq<Bits>, ever: seq<Bits>, was: Byte, shown: Byte,
                            surfaces: seq<Surface>, pointer: Pointer, k: nat)
    requires screen.Ok() && tile > 0 && |rows| == ROWS == |ever| && AllSound(surfaces, screen.depth)
  {
    && (Hit(rows, tile, screen, k) ==> Hit(ever, tile, screen, k))
    && (Hit(ever, tile, screen, k) && !Hit(rows, tile, screen, k) ==> Shows(surfaces, pointer, screen, k, shown))
    && (!Hit(ever, tile, screen, k) ==> shown == was && Shows(surfaces, pointer, screen, k, 0))
  }

  ghost predicate Current(screen: Screen, tile: nat, rows: seq<Bits>, ever: seq<Bits>, original: seq<Byte>,
                          display: seq<Byte>, surfaces: seq<Surface>, pointer: Pointer)
    requires screen.Ok() && tile > 0 && |rows| == ROWS == |ever| && AllSound(surfaces, screen.depth)
    requires |original| == |display|
  {
    forall k :: 0 <= k < |display| ==>
      CurrentAt(screen, tile, rows, ever, original[k], display[k], surfaces, pointer, k)
  }

  lemma NothingDamaged(screen: Screen, tile: nat, surfaces: seq<Surface>, pointer: Pointer)
    requires screen.Ok() && tile > 0 && AllSound(surfaces, screen.depth) && !pointer.visible
    requires forall i :: 0 <= i < |surfaces| ==> surfaces[i].buffer == 0
    ensures forall k: nat :: !Hit(DamageGrid.Clear(), tile, screen, k)
    ensures forall k: nat :: Shows(surfaces, pointer, screen, k, 0)
  {
    hide Screen.X, Screen.Y, Tile;
  }

  lemma ShownMore(regions: seq<Rect>, n: nat)
    requires n < |regions|
    ensures forall x, y :: Shown(regions[..n + 1], x, y) <==> Shown(regions[..n], x, y) || regions[n].Has(x, y)
  {
    forall x: nat, y: nat
      ensures Shown(regions[..n + 1], x, y) <==> Shown(regions[..n], x, y) || regions[n].Has(x, y)
    {
      assert forall i :: 0 <= i < n ==> regions[..n][i] == regions[..n + 1][i];
      assert regions[..n + 1][n] == regions[n];
    }
  }

  lemma Recomposed(screen: Screen, tile: nat, rows: seq<Bits>, ever: seq<Bits>, original: seq<Byte>,
                   before: seq<Byte>, after: seq<Byte>, surfaces: seq<Surface>, pointer: Pointer)
    requires screen.Ok() && tile > 0 && |rows| == ROWS == |ever| && AllSound(surfaces, screen.depth)
    requires |original| == |before| == |after|
    requires Current(screen, tile, rows, ever, original, before, surfaces, pointer)
    requires forall k :: 0 <= k < |after| ==>
      if Hit(rows, tile, screen, k) then Shows(surfaces, pointer, screen, k, after[k]) else after[k] == before[k]
    ensures Current(screen, tile, DamageGrid.Clear(), ever, original, after, surfaces, pointer)
  {
    hide Screen.X, Screen.Y, Shows, Tile;
    forall k | 0 <= k < |after|
      ensures CurrentAt(screen, tile, DamageGrid.Clear(), ever, original[k], after[k], surfaces, pointer, k)
    {
      assert CurrentAt(screen, tile, rows, ever, original[k], before[k], surfaces, pointer, k);
    }
  }

  lemma OrderLive(surfaces: seq<Surface>, order: seq<nat>)
    requires BackToFront(surfaces, order)
    ensures forall k :: 0 <= k < |order| ==> order[k] < |surfaces| && surfaces[order[k]].buffer != 0
  {
  }

  lemma PaintedNothing(surfaces: seq<Surface>, screen: Screen)
    requires screen.Ok() && AllSound(surfaces, screen.depth)
    ensures forall k: nat :: Painted(surfaces, [], screen, k) == 0
  {
  }

  lemma PaintedMore(surfaces: seq<Surface>, order: seq<nat>, i: nat, screen: Screen)
    requires screen.Ok() && AllSound(surfaces, screen.depth) && i < |order|
    requires forall k :: 0 <= k < |order| ==> order[k] < |surfaces|
    ensures forall k: nat ::
      Painted(surfaces, order[..i + 1], screen, k) ==
        (if Covers(surfaces[order[i]], screen.X(k), screen.Y(k)) then ByteAt(surfaces[order[i]], screen, k)
         else Painted(surfaces, order[..i], screen, k))
  {
    hide Screen.X, Screen.Y, ByteAt;
    assert order[..i + 1][..i] == order[..i];
  }

  /** A pixel's byte with the pointer's ink over it. */
  function Inked(ink: Ink, under: Byte): Byte {
    match ink
    case Paint(value) => value
    case Clear => under
  }

  lemma SkipEmpty(surfaces: seq<Surface>, index: nat, order: seq<nat>)
    requires index < |surfaces| && surfaces[index].buffer == 0 && BackToFront(surfaces[..index], order)
    ensures BackToFront(surfaces[..index + 1], order)
  {
    forall k, l | 0 <= k < l < |order| ensures Nearer(surfaces[..index + 1], order[l], order[k]) {
      assert Nearer(surfaces[..index], order[l], order[k]);
    }
  }

  ghost predicate AllAbove(surfaces: seq<Surface>, index: nat, order: seq<nat>)
    requires index < |surfaces|
  {
    forall k :: 0 <= k < |order| ==> order[k] < |surfaces| && surfaces[order[k]].z > surfaces[index].z
  }

  /** `index` put in before the first surface above it. */
  ghost predicate InsertedAt(surfaces: seq<Surface>, index: nat, before: seq<nat>, position: nat, after: seq<nat>)
    requires index < |surfaces| && forall k :: 0 <= k < |before| ==> before[k] < index
  {
    && position <= |before|
    && after == before[..position] + [index] + before[position..]
    && (position > 0 ==> surfaces[before[position - 1]].z <= surfaces[index].z)
    && AllAbove(surfaces, index, before[position..])
  }

  /** The entries from `position` on have moved up one, leaving a gap there. */
  ghost predicate Shifted(a: seq<nat>, before: seq<nat>, position: nat) {
    && position <= |before| < |a|
    && a[..position] == before[..position]
    && a[position + 1..|before| + 1] == before[position..]
  }

  lemma NothingShifted(surfaces: seq<Surface>, index: nat, a: seq<nat>, before: seq<nat>)
    requires index < |surfaces| && |before| < |a| && before == a[..|before|]
    ensures Shifted(a, before, |before|) && AllAbove(surfaces, index, before[|before|..])
  {
  }

  lemma ShiftOne(surfaces: seq<Surface>, index: nat, a: seq<nat>, before: seq<nat>, position: nat)
    requires index < |surfaces| && 0 < position && Shifted(a, before, position)
    requires AllAbove(surfaces, index, before[position..])
    requires before[position - 1] < |surfaces| && surfaces[before[position - 1]].z > surfaces[index].z
    ensures Shifted(a[position := a[position - 1]], before, position - 1)
    ensures AllAbove(surfaces, index, before[position - 1..])
  {
    var was := before[position - 1];
    assert a[position - 1] == a[..position][position - 1] == was;
    var a' := a[position := was];
    assert a'[position..|before| + 1] == [was] + a[position + 1..|before| + 1];
    assert before[position - 1..] == [was] + before[position..];
    assert a'[..position - 1] == a[..position][..position - 1] == before[..position - 1];
  }

  lemma PutIn(a: seq<nat>, before: seq<nat>, position: nat, index: nat)
    requires Shifted(a, before, position)
    ensures a[position := index][..|before| + 1] == before[..position] + [index] + before[position..]
  {
    var a' := a[position := index];
    assert a'[..|before| + 1] == a[..position] + [index] + a[position + 1..|before| + 1];
  }

  lemma LiveBelow(surfaces: seq<Surface>, index: nat, order: seq<nat>)
    requires index <= |surfaces| && BackToFront(surfaces[..index], order)
    ensures forall k :: 0 <= k < |order| ==> order[k] < index
  {
  }

  lemma InsertedOnce(surfaces: seq<Surface>, index: nat, before: seq<nat>, position: nat, after: seq<nat>)
    requires index < |surfaces| && surfaces[index].buffer != 0 && BackToFront(surfaces[..index], before)
    requires InsertedAt(surfaces, index, before, position, after)
    ensures BackToFront(surfaces[..index + 1], after)
  {
    InsertedDepths(surfaces, index, before, position, after);
    InsertedMembers(surfaces, index, before, position, after);
    forall k, l | 0 <= k < l < |after| ensures Nearer(surfaces[..index + 1], after[l], after[k]) {
      InsertedPair(surfaces, index, before, position, after, k, l);
    }
  }

  lemma InsertedDepths(surfaces: seq<Surface>, index: nat, before: seq<nat>, position: nat, after: seq<nat>)
    requires index < |surfaces| && BackToFront(surfaces[..index], before)
    requires InsertedAt(surfaces, index, before, position, after)
    ensures forall m :: position <= m < |before| ==> surfaces[before[m]].z > surfaces[index].z
    ensures forall m :: 0 <= m < position ==> surfaces[before[m]].z <= surfaces[index].z
  {
    forall k | position <= k < |before| ensures surfaces[before[k]].z > surfaces[index].z {
      assert before[position..][k - position] == before[k];
    }
    forall k | 0 <= k < position ensures surfaces[before[k]].z <= surfaces[index].z {
      assert k < position - 1 ==> Nearer(surfaces[..index], before[position - 1], before[k]);
    }
  }

  lemma InsertedMembers(surfaces: seq<Surface>, index: nat, before: seq<nat>, position: nat, after: seq<nat>)
    requires index < |surfaces| && surfaces[index].buffer != 0 && BackToFront(surfaces[..index], before)
    requires position <= |before| && after == before[..position] + [index] + before[position..]
    ensures forall k :: 0 <= k < |after| ==> after[k] <= index && surfaces[after[k]].buffer != 0
    ensures forall i :: 0 <= i <= index && surfaces[i].buffer != 0 ==> i in after
  {
    forall k | 0 <= k < |after| ensures after[k] <= index && surfaces[after[k]].buffer != 0 {
      assert after[k] == if k < position then before[k] else if k == position then index else before[k - 1];
    }
    forall i | 0 <= i <= index && surfaces[i].buffer != 0 ensures i in after {
      assert i < index ==> surfaces[..index][i].buffer != 0 && i in before;
      assert before == before[..position] + before[position..];
    }
  }

  lemma InsertedPair(surfaces: seq<Surface>, index: nat, before: seq<nat>, position: nat, after: seq<nat>, k: nat, l: nat)
    requires index < |surfaces| && BackToFront(surfaces[..index], before) && position <= |before|
    requires after == before[..position] + [index] + before[position..] && k < l < |after|
    requires forall m :: position <= m < |before| ==> surfaces[before[m]].z > surfaces[index].z
    requires forall m :: 0 <= m < position ==> surfaces[before[m]].z <= surfaces[index].z
    ensures Nearer(surfaces[..index + 1], after[l], after[k])
  {
    if k != position && l != position {
      var bk, bl := if k < position then k else k - 1, if l < position then l else l - 1;
      assert Nearer(surfaces[..index], before[bl], before[bk]);
      assert after[k] == before[bk] && after[l] == before[bl];
    }
  }

  /** A row of a surface's own bytes, against the screen's offsets they fall on. */
  lemma SourceRow(s: Surface, screen: Screen, row: nat, left: nat, right: nat, run: Rect,
                  source: nat, destination: nat, width: nat)
    requires screen.Ok() && row < screen.height && right <= screen.width && s.buffer != 0 && Sound(s, screen.depth)
    requires s.x <= left < right <= s.x + s.width && s.y <= row < s.y + s.height
    requires run == Rect(left, row, right, row + 1)
    requires width == RunBytes(screen, right - left) && source == SourceOf(s, screen, left - s.x, row - s.y)
    requires destination == OffsetOf(screen, left, row)
    ensures source + width <= |s.pixels| && destination + width <= screen.Size()
    ensures forall k: nat :: screen.In(run, k) <==> destination <= k < destination + width
    ensures forall k: nat :: screen.In(run, k) ==> s.pixels[source + (k - destination)] == ByteAt(s, screen, k)
  {
    var depth := screen.depth;
    RowRun(screen, row, left, right, run);
    assert width == right * depth - left * depth;
    InsideBuffer(s, depth, right - 1 - s.x, row - s.y, depth - 1);
    assert (right - 1 - s.x) * depth + depth == (left - s.x) * depth + (right - left) * depth;
    forall k: nat | screen.In(run, k) ensures s.pixels[source + (k - destination)] == ByteAt(s, screen, k) {
      SourceByte(s, screen, row, left, k);
    }
  }

  lemma SourceByte(s: Surface, screen: Screen, row: nat, left: nat, k: nat)
    requires screen.Ok() && s.buffer != 0 && Sound(s, screen.depth)
    requires s.x <= left <= screen.X(k) < s.x + s.width && s.y <= row == screen.Y(k) < s.y + s.height
    ensures var i := (row - s.y) * s.stride + (left - s.x) * screen.depth
                     + (k - (row * screen.Stride() + left * screen.depth));
      0 <= i < |s.pixels| && s.pixels[i] == ByteAt(s, screen, k)
  {
    hide Screen.X, Screen.Y, Screen.B, Screen.Stride, Sound;
    var depth, x, b := screen.depth, screen.X(k), screen.B(k);
    OffsetIs(screen, k);
    SameIndex((row - s.y) * s.stride, row * screen.Stride(), left, s.x, x, depth, b, k);
    InsideBuffer(s, depth, x - s.x, row - s.y, b);
  }

  lemma SameIndex(above: nat, start: nat, left: nat, origin: nat, x: nat, depth: nat, b: nat, k: nat)
    requires origin <= left <= x && k == start + x * depth + b
    ensures above + (left - origin) * depth + (k - (start + left * depth)) == above + (x - origin) * depth + b
  {
    Moved(left, origin, x, depth);
  }

  lemma OffsetIs(screen: Screen, k: nat)
    requires screen.Ok()
    ensures k == screen.Y(k) * screen.Stride() + screen.X(k) * screen.depth + screen.B(k)
  {
    var within := k % screen.Stride();
    assert k == screen.Y(k) * screen.Stride() + within;
    assert within == screen.X(k) * screen.depth + screen.B(k);
  }

  lemma Moved(left: nat, origin: nat, x: nat, depth: nat)
    requires origin <= left <= x
    ensures (x - origin) * depth == (left - origin) * depth + (x * depth - left * depth)
  {
  }

  /** Where a pixel begins, in the screen's memory and in a surface's own. */
  function OffsetOf(screen: Screen, x: nat, y: nat): nat {
    y * screen.Stride() + x * screen.depth
  }

  function SourceOf(s: Surface, screen: Screen, x: nat, y: nat): nat {
    y * s.stride + x * screen.depth
  }

  function RunBytes(screen: Screen, pixels: nat): nat {
    pixels * screen.depth
  }

  lemma RowBlock(screen: Screen, row: nat, left: nat, right: nat, area: Rect, start: nat, width: nat)
    requires screen.Ok() && row < screen.height && left <= right <= screen.width && area == Rect(left, row, right, row + 1)
    requires start == OffsetOf(screen, left, row) && width == RunBytes(screen, right - left)
    ensures start + width <= screen.Size() && forall k: nat :: screen.In(area, k) <==> start <= k < start + width
  {
    RowRun(screen, row, left, right, area);
    assert width == right * screen.depth - left * screen.depth;
  }

  /** The bytes of one pixel. */
  lemma CellRun(screen: Screen, x: nat, y: nat, cell: Rect, offset: nat)
    requires screen.Ok() && x < screen.width && y < screen.height && cell == Rect(x, y, x + 1, y + 1)
    requires offset == OffsetOf(screen, x, y)
    ensures offset + screen.depth <= screen.Size()
    ensures forall k: nat :: screen.In(cell, k) <==> offset <= k < offset + screen.depth
  {
    RowRun(screen, y, x, x + 1, cell);
    assert (x + 1) * screen.depth == x * screen.depth + screen.depth;
  }

  lemma InkHere(pointer: Pointer, x: nat, y: nat)
    requires pointer.visible && pointer.Bounds().Has(x, y)
    ensures pointer.InkAt(x, y) == InkOf(CursorShape()[y - pointer.y][x - pointer.x])
  {
    hide CursorShape, InkOf;
  }

  lemma CellInk(screen: Screen, pointer: Pointer, x: nat, y: nat, cell: Rect, ink: Ink)
    requires screen.Ok() && cell == Rect(x, y, x + 1, y + 1) && ink == pointer.InkAt(x, y)
    ensures forall k: nat :: screen.In(cell, k) ==> pointer.InkAt(screen.X(k), screen.Y(k)) == ink
  {
    hide Screen.X, Screen.Y, Pointer.InkAt;
    forall k: nat | screen.In(cell, k) ensures pointer.InkAt(screen.X(k), screen.Y(k)) == ink {
      assert screen.X(k) == x && screen.Y(k) == y;
    }
  }

  lemma Joined(screen: Screen, part: Rect, next: Rect, whole: Rect)
    requires screen.Ok()
    requires (part.left == next.left == whole.left && part.right == next.right == whole.right
              && part.top == whole.top <= part.bottom == next.top <= next.bottom == whole.bottom)
          || (part.top == next.top == whole.top && part.bottom == next.bottom == whole.bottom
              && part.left == whole.left <= part.right == next.left <= next.right == whole.right)
    ensures forall k: nat :: screen.In(whole, k) <==> screen.In(part, k) || screen.In(next, k)
  {
  }

  /** The bytes of part of a row: inside the screen, and exactly those of its pixels. */
  lemma RowRun(screen: Screen, row: nat, left: nat, right: nat, area: Rect)
    requires screen.Ok() && row < screen.height && right <= screen.width && area == Rect(left, row, right, row + 1)
    ensures row * screen.Stride() + right * screen.depth <= screen.Size()
    ensures forall k: nat :: screen.In(area, k) <==>
      row * screen.Stride() + left * screen.depth <= k < row * screen.Stride() + right * screen.depth
  {
    MulMono(right, screen.width, screen.depth);
    MulMono(row + 1, screen.height, screen.Stride());
    assert (row + 1) * screen.Stride() == row * screen.Stride() + screen.Stride();
    forall k: nat
      ensures screen.In(area, k) <==>
        row * screen.Stride() + left * screen.depth <= k < row * screen.Stride() + right * screen.depth
    {
      RowBytes(screen, row, left, right, k);
    }
  }

  datatype Focus = Nobody | Owner(thread: nat)
}
