/** What the screen should show: the topmost surface at each pixel, the pointer over everything, black
    elsewhere. Stated byte by byte, over the offsets of a display of `height` rows of `width` pixels. */
module Scene {
  import opened Arithmetic
  import opened DamageGrid

  /** A byte, in the low bits of the word it is moved in. */
  type Byte = b: bv32 | b <= 0xFF

  datatype Screen = Screen(width: nat, height: nat, depth: nat) {
    ghost predicate Ok() {
      width > 0 && height > 0 && depth > 0
    }

    function Stride(): nat {
      width * depth
    }

    function Size(): nat {
      height * Stride()
    }

    ghost function X(offset: nat): nat
      requires Ok()
    {
      offset % Stride() / depth
    }

    ghost function Y(offset: nat): nat
      requires Ok()
    {
      offset / Stride()
    }

    /** Which byte of its pixel. */
    ghost function B(offset: nat): (b: nat)
      requires Ok()
      ensures b < depth
    {
      offset % Stride() % depth
    }

    ghost predicate In(area: Rect, offset: nat)
      requires Ok()
    {
      area.Has(X(offset), Y(offset))
    }

    function Bounds(): Rect {
      Rect(0, 0, width, height)
    }
  }

  /** One row's pixels from `left` up to `right` are one run of bytes. */
  lemma RowBytes(screen: Screen, row: nat, left: nat, right: nat, offset: nat)
    requires screen.Ok() && right <= screen.width
    ensures row * screen.Stride() + left * screen.depth <= offset < row * screen.Stride() + right * screen.depth
            <==> screen.Y(offset) == row && left <= screen.X(offset) < right
  {
    var stride, depth := screen.Stride(), screen.depth;
    MulMono(right, screen.width, depth);
    TileRange(offset, stride, row, row + 1);
    var within := offset % stride;
    TileRange(within, depth, left, right);
    assert (row + 1) * stride == row * stride + stride;
    if screen.Y(offset) == row {
      assert offset == row * stride + within;
    }
  }

  /** The screen's bytes are its pixels'. */
  lemma OnScreen(screen: Screen, offset: nat)
    requires screen.Ok()
    ensures offset < screen.Size() <==> screen.Y(offset) < screen.height
    ensures screen.X(offset) < screen.width
    ensures offset < screen.Size() <==> screen.In(screen.Bounds(), offset)
  {
    TileRange(offset, screen.Stride(), 0, screen.height);
    TileRange(offset % screen.Stride(), screen.depth, 0, screen.width);
  }

  datatype Surface = Surface(
    buffer: nat, pixels: seq<Byte>, x: nat, y: nat, width: nat, height: nat, stride: nat, z: nat, owner: nat)

  const EMPTY := Surface(0, [], 0, 0, 0, 0, 0, 0, 0)
  const MAX_SURFACES: nat := 16

  function BoundsOf(s: Surface): Rect {
    Rect(s.x, s.y, s.x + s.width, s.y + s.height)
  }

  /** A client's buffer holds its rows. */
  predicate Sound(s: Surface, depth: nat) {
    s.width * depth <= s.stride && s.height * s.stride <= |s.pixels|
  }

  predicate Covers(s: Surface, x: nat, y: nat) {
    s.buffer != 0 && BoundsOf(s).Has(x, y)
  }

  /** Byte `b` of a surface's own pixel at `x`, `y`. */
  ghost function PixelByte(s: Surface, depth: nat, x: nat, y: nat, b: nat): Byte
    requires Sound(s, depth) && x < s.width && y < s.height && b < depth
  {
    InsideBuffer(s, depth, x, y, b);
    s.pixels[y * s.stride + x * depth + b]
  }

  lemma InsideBuffer(s: Surface, depth: nat, x: nat, y: nat, b: nat)
    requires Sound(s, depth) && x < s.width && y < s.height && b < depth
    ensures y * s.stride + x * depth + b < |s.pixels|
  {
    MulMono(x + 1, s.width, depth);
    MulMono(y + 1, s.height, s.stride);
    assert (x + 1) * depth == x * depth + depth;
    assert (y + 1) * s.stride == y * s.stride + s.stride;
  }

  /** The byte of a surface that falls on an offset of the screen. */
  ghost function ByteAt(s: Surface, screen: Screen, offset: nat): Byte
    requires screen.Ok() && Sound(s, screen.depth) && Covers(s, screen.X(offset), screen.Y(offset))
  {
    PixelByte(s, screen.depth, screen.X(offset) - s.x, screen.Y(offset) - s.y, screen.B(offset))
  }

  // ---- the pointer ----

  const CURSOR_WIDTH: nat := 11
  const CURSOR_HEIGHT: nat := 16

  /** Sixteen rows of eleven characters; `InkOf` says what each paints. */
  function CursorShape(): (rows: seq<string>)
    ensures |rows| == CURSOR_HEIGHT && forall i :: 0 <= i < CURSOR_HEIGHT ==> |rows[i]| == CURSOR_WIDTH
  {
    [ "X..........",
      "XX.........",
      "X#X........",
      "X##X.......",
      "X###X......",
      "X####X.....",
      "X#####X....",
      "X######X...",
      "X#######X..",
      "X########X.",
      "X#####XXXXX",
      "X##X##X....",
      "X#X.X##X...",
      "XX..X##X...",
      "X....X##X..",
      ".....XXXX.." ]
  }

  datatype Ink = Clear | Paint(value: Byte)

  function InkOf(mark: char): Ink {
    if mark == 'X' then Paint(0x00) else if mark == '#' then Paint(0xFF) else Clear
  }

  datatype Pointer = Pointer(x: nat, y: nat, visible: bool) {
    function Bounds(): Rect {
      Rect(x, y, x + CURSOR_WIDTH, y + CURSOR_HEIGHT)
    }

    /** What the pointer draws on a pixel. */
    function InkAt(px: nat, py: nat): Ink {
      if visible && Bounds().Has(px, py) then InkOf(CursorShape()[py - y][px - x]) else Clear
    }
  }

  // ---- composition ----

  /** Surface `i` is nearer the viewer than `j`: higher, or as high and later in the table. */
  predicate Nearer(surfaces: seq<Surface>, i: nat, j: nat)
    requires i < |surfaces| && j < |surfaces|
  {
    surfaces[i].z > surfaces[j].z || (surfaces[i].z == surfaces[j].z && i > j)
  }

  /** The one the viewer sees at a pixel, of those covering it. */
  ghost predicate IsTop(surfaces: seq<Surface>, x: nat, y: nat, i: nat) {
    && i < |surfaces| && Covers(surfaces[i], x, y)
    && forall j :: 0 <= j < |surfaces| && Covers(surfaces[j], x, y) && j != i ==> Nearer(surfaces, i, j)
  }

  ghost predicate AllSound(surfaces: seq<Surface>, depth: nat) {
    forall i :: 0 <= i < |surfaces| ==> Sound(surfaces[i], depth)
  }

  /** `v` is what belongs at an offset, before the pointer. */
  ghost predicate Composed(surfaces: seq<Surface>, screen: Screen, offset: nat, v: Byte)
    requires screen.Ok() && AllSound(surfaces, screen.depth)
  {
    var x, y := screen.X(offset), screen.Y(offset);
    && (forall i: nat :: IsTop(surfaces, x, y, i) ==> v == ByteAt(surfaces[i], screen, offset))
    && ((forall i :: 0 <= i < |surfaces| ==> !Covers(surfaces[i], x, y)) ==> v == 0)
  }

  /** `v` is what the screen should show at an offset. */
  ghost predicate Shows(surfaces: seq<Surface>, pointer: Pointer, screen: Screen, offset: nat, v: Byte)
    requires screen.Ok() && AllSound(surfaces, screen.depth)
  {
    match pointer.InkAt(screen.X(offset), screen.Y(offset))
    case Paint(ink) => v == ink
    case Clear => Composed(surfaces, screen, offset, v)
  }

  /** The live surfaces, furthest from the viewer first. */
  ghost predicate BackToFront(surfaces: seq<Surface>, order: seq<nat>) {
    && (forall k :: 0 <= k < |order| ==> order[k] < |surfaces| && surfaces[order[k]].buffer != 0)
    && (forall i :: 0 <= i < |surfaces| && surfaces[i].buffer != 0 ==> i in order)
    && (forall k, l :: 0 <= k < l < |order| ==> Nearer(surfaces, order[l], order[k]))
  }

  /** Painting surfaces one over another. */
  ghost function Painted(surfaces: seq<Surface>, order: seq<nat>, screen: Screen, offset: nat): Byte
    requires screen.Ok() && AllSound(surfaces, screen.depth)
    requires forall k :: 0 <= k < |order| ==> order[k] < |surfaces|
  {
    if |order| == 0 then 0
    else
      var s := surfaces[order[|order| - 1]];
      if Covers(s, screen.X(offset), screen.Y(offset)) then ByteAt(s, screen, offset)
      else Painted(surfaces, order[..|order| - 1], screen, offset)
  }

  /** Back to front leaves the topmost: the last painted over a pixel is the nearest that covers it. */
  lemma {:induction false} PaintedIsTop(surfaces: seq<Surface>, order: seq<nat>, n: nat, screen: Screen, offset: nat)
    requires screen.Ok() && AllSound(surfaces, screen.depth) && BackToFront(surfaces, order) && n <= |order|
    requires forall k :: n <= k < |order| ==> !Covers(surfaces[order[k]], screen.X(offset), screen.Y(offset))
    ensures Composed(surfaces, screen, offset, Painted(surfaces, order[..n], screen, offset))
  {
    hide Screen.X, Screen.Y, ByteAt;
    var x, y := screen.X(offset), screen.Y(offset);
    if n == 0 {
      assert order[..n] == [];
      forall i | 0 <= i < |surfaces| ensures !Covers(surfaces[i], x, y) {
        if surfaces[i].buffer != 0 {
          assert i in order;
        }
      }
    } else if Covers(surfaces[order[n - 1]], x, y) {
      var top := order[n - 1];
      forall i: nat | IsTop(surfaces, x, y, i) ensures i == top {
        assert i in order;
        var k :| 0 <= k < |order| && order[k] == i;
      }
    } else {
      assert order[..n][..n - 1] == order[..n - 1];
      PaintedIsTop(surfaces, order, n - 1, screen, offset);
    }
  }

  /** There is a topmost surface wherever any surface covers: what belongs at an offset is one byte. */
  lemma {:induction false} TopExists(surfaces: seq<Surface>, x: nat, y: nat, n: nat)
    requires n <= |surfaces| && exists i :: 0 <= i < n && Covers(surfaces[i], x, y)
    ensures exists i: nat :: IsTop(surfaces[..n], x, y, i)
  {
    var rest := surfaces[..n - 1];
    if exists i :: 0 <= i < n - 1 && Covers(surfaces[i], x, y) {
      TopExists(surfaces, x, y, n - 1);
      var i: nat :| IsTop(rest, x, y, i);
      if Covers(surfaces[n - 1], x, y) && Nearer(surfaces, n - 1, i) {
        assert forall j :: 0 <= j < n - 1 ==> rest[j] == surfaces[j];
        assert IsTop(surfaces[..n], x, y, n - 1);
      } else {
        assert forall j :: 0 <= j < n - 1 ==> rest[j] == surfaces[j];
        assert IsTop(surfaces[..n], x, y, i);
      }
    } else {
      assert IsTop(surfaces[..n], x, y, n - 1);
    }
  }

  lemma OneByte(surfaces: seq<Surface>, pointer: Pointer, screen: Screen, offset: nat, v: Byte, w: Byte)
    requires screen.Ok() && AllSound(surfaces, screen.depth)
    requires Shows(surfaces, pointer, screen, offset, v) && Shows(surfaces, pointer, screen, offset, w)
    ensures v == w
  {
    hide ByteAt, Screen.X, Screen.Y, Pointer.InkAt;
    var x, y := screen.X(offset), screen.Y(offset);
    if exists i :: 0 <= i < |surfaces| && Covers(surfaces[i], x, y) {
      TopExists(surfaces, x, y, |surfaces|);
      assert surfaces[..|surfaces|] == surfaces;
    }
  }

  /** Surfaces that change without covering a pixel, before or after, leave it as it was. */
  lemma Unaffected(surfaces: seq<Surface>, surfaces': seq<Surface>, pointer: Pointer, pointer': Pointer,
                   screen: Screen, offset: nat, v: Byte)
    requires screen.Ok() && AllSound(surfaces, screen.depth) && AllSound(surfaces', screen.depth)
    requires |surfaces'| == |surfaces|
    requires var x, y := screen.X(offset), screen.Y(offset);
      && pointer'.InkAt(x, y) == pointer.InkAt(x, y)
      && forall i :: 0 <= i < |surfaces| ==>
           surfaces'[i] == surfaces[i] || (!Covers(surfaces[i], x, y) && !Covers(surfaces'[i], x, y))
    ensures Shows(surfaces, pointer, screen, offset, v) <==> Shows(surfaces', pointer', screen, offset, v)
  {
    hide ByteAt, Screen.X, Screen.Y, Pointer.InkAt;
    var x, y := screen.X(offset), screen.Y(offset);
    forall i: nat ensures IsTop(surfaces, x, y, i) <==> IsTop(surfaces', x, y, i) {
    }
  }
}
