/** Which tiles of the screen are out of date: 128 bits to a row. */
module DamageGrid {
  import opened Arithmetic

  const COLUMNS: nat := 128
  const ROWS: nat := 80

  /** A half-open rectangle of pixels. */
  datatype Rect = Rect(left: nat, top: nat, right: nat, bottom: nat) {
    predicate Empty() {
      right <= left || bottom <= top
    }

    predicate Has(x: nat, y: nat) {
      left <= x < right && top <= y < bottom
    }

    function Intersect(other: Rect): (r: Rect)
      ensures forall x, y :: r.Has(x, y) <==> Has(x, y) && other.Has(x, y)
    {
      Rect(Max(left, other.left), Max(top, other.top), Min(right, other.right), Min(bottom, other.bottom))
    }
  }

  function Max(a: nat, b: nat): nat {
    if a < b then b else a
  }

  function Min(a: nat, b: nat): nat {
    if a < b then a else b
  }

  function DivCeil(a: nat, b: nat): nat
    requires b > 0
  {
    (a + b - 1) / b
  }

  // ---- a u128, least significant bit first ----

  type Bits = b: seq<bool> | |b| == COLUMNS witness seq(COLUMNS, _ => false)

  function Zero(): Bits {
    seq(COLUMNS, _ => false)
  }

  function Clear(): (rows: seq<Bits>)
    ensures |rows| == ROWS
  {
    seq(ROWS, _ => Zero())
  }

  function AllOnes(): Bits {
    seq(COLUMNS, _ => true)
  }

  function Shr(b: Bits, k: nat): Bits {
    seq(COLUMNS, i requires 0 <= i < COLUMNS => i + k < COLUMNS && b[i + k])
  }

  function Shl(b: Bits, k: nat): Bits {
    seq(COLUMNS, i requires 0 <= i < COLUMNS => i >= k && b[i - k])
  }

  function Or(a: Bits, b: Bits): Bits {
    seq(COLUMNS, i requires 0 <= i < COLUMNS => a[i] || b[i])
  }

  function AndNot(a: Bits, b: Bits): Bits {
    seq(COLUMNS, i requires 0 <= i < COLUMNS => a[i] && !b[i])
  }

  /** How many bits from the bottom are equal to `bit`: trailing_zeros and trailing_ones. */
  function Trailing(b: Bits, bit: bool, from: nat): (n: nat)
    requires from <= COLUMNS
    ensures from + n <= COLUMNS
    ensures forall i :: from <= i < from + n ==> b[i] == bit
    ensures from + n < COLUMNS ==> b[from + n] != bit
    decreases COLUMNS - from
  {
    if from < COLUMNS && b[from] == bit then 1 + Trailing(b, bit, from + 1) else 0
  }

  // ---- pixels and tiles ----

  function Tile(x: nat, tile: nat): nat
    requires tile > 0
  {
    x / tile
  }

  lemma TileRange(x: nat, tile: nat, first: nat, past: nat)
    requires tile > 0
    ensures first * tile <= x < past * tile <==> first <= Tile(x, tile) < past
  {
    var t := Tile(x, tile);
    assert t * tile <= x < (t + 1) * tile;
    if first <= t { MulMono(first, t, tile); } else { MulMono(t + 1, first, tile); }
    if t < past { MulMono(t + 1, past, tile); } else { MulMono(past, t, tile); }
  }

  /** A tile holds a pixel of an area, where pixels past the grid's edge count as in its last tile. */
  ghost predicate TouchedBy(area: Rect, column: nat, row: nat, tile: nat)
    requires tile > 0
  {
    exists x, y :: area.Has(x, y) && Min(Tile(x, tile), COLUMNS - 1) == column && Min(Tile(y, tile), ROWS - 1) == row
  }

  /** The span of tiles an interval of pixels covers, clamped, is the set of clamped tiles of its pixels. */
  lemma SpanOfTiles(from: nat, past: nat, tile: nat, limit: nat, t: nat)
    requires tile > 0 && from < past && limit > 0
    ensures Min(Tile(from, tile), limit - 1) <= t <= Min(Tile(past - 1, tile), limit - 1)
            <==> exists p :: from <= p < past && Min(Tile(p, tile), limit - 1) == t
  {
    if Min(Tile(from, tile), limit - 1) <= t <= Min(Tile(past - 1, tile), limit - 1) {
      PixelIn(from, past - 1, tile, t);
    }
    forall p | from <= p < past && Min(Tile(p, tile), limit - 1) == t
      ensures Min(Tile(from, tile), limit - 1) <= t <= Min(Tile(past - 1, tile), limit - 1)
    {
      TileMono(from, p, tile);
      TileMono(p, past - 1, tile);
    }
    hide Tile;
  }

  /** A tile at or before the last pixel's holds a pixel of the interval, or the first pixel is past it. */
  lemma PixelIn(first: nat, last: nat, tile: nat, t: nat)
    requires tile > 0 && first <= last && t <= Tile(last, tile)
    ensures exists p :: first <= p <= last && Tile(p, tile) == Max(t, Tile(first, tile))
  {
    if Tile(first, tile) < t {
      TileRange(first, tile, 0, t);
      TileRange(last, tile, t, Tile(last, tile) + 1);
      TileRange(t * tile, tile, t, t + 1);
      MulMono(t, t + 1, tile);
      assert first <= t * tile <= last && Tile(t * tile, tile) == t;
    }
  }

  lemma TileMono(a: nat, b: nat, tile: nat)
    requires a <= b && tile > 0
    ensures Tile(a, tile) <= Tile(b, tile)
  {
    TileRange(a, tile, Tile(a, tile), Tile(a, tile) + 1);
    TileRange(b, tile, Tile(a, tile), Tile(b, tile) + 1);
  }

  /** The bits `first..=last`, as `add` builds them. */
  function Span(first: nat, last: nat): Bits
    requires first <= last < COLUMNS
  {
    Shl(Shr(AllOnes(), COLUMNS - 1 - (last - first)), first)
  }

  /** A run of damaged tiles in one row. */
  datatype Run = Run(row: nat, first: nat, past: nat) {
    function Pixels(tile: nat): Rect {
      Rect(first * tile, row * tile, past * tile, (row + 1) * tile)
    }

    predicate Holds(column: nat, r: nat) {
      r == row && first <= column < past
    }

    /** Earlier in the drain, with a gap between two runs of one row. */
    predicate Before(other: Run) {
      row < other.row || (row == other.row && past < other.first)
    }
  }

  lemma RunPixels(run: Run, tile: nat, x: nat, y: nat)
    requires tile > 0
    ensures run.Pixels(tile).Has(x, y) <==> run.Holds(Tile(x, tile), Tile(y, tile))
  {
    TileRange(x, tile, run.first, run.past);
    TileRange(y, tile, run.row, run.row + 1);
  }

  ghost predicate Covered(runs: seq<Run>, column: nat, row: nat) {
    exists i :: 0 <= i < |runs| && runs[i].Holds(column, row)
  }

  predicate Shown(regions: seq<Rect>, x: nat, y: nat) {
    exists i :: 0 <= i < |regions| && regions[i].Has(x, y)
  }

  class Damage {
    var rows: seq<Bits>
    const tile: nat

    ghost predicate Valid()
      reads this
    {
      |rows| == ROWS && tile > 0
    }

    /** Whether the tile of a pixel is damaged. */
    ghost predicate Marked(x: nat, y: nat)
      requires Valid() && OnGrid(x, y)
      reads this
    {
      rows[Tile(y, tile)][Tile(x, tile)]
    }

    ghost predicate OnGrid(x: nat, y: nat)
      requires tile > 0
    {
      Tile(x, tile) < COLUMNS && Tile(y, tile) < ROWS
    }

    constructor (width: nat, height: nat)
      ensures Valid() && rows == Clear() && tile >= 32
      ensures width <= 32 * COLUMNS && height <= 32 * ROWS ==> tile == 32
      ensures forall x: nat, y: nat :: x < width && y < height ==> OnGrid(x, y)
    {
      rows := Clear();
      tile := Max(Max(32, DivCeil(width, COLUMNS)), DivCeil(height, ROWS));
      new;
      GridFits(width, COLUMNS, tile);
      GridFits(height, ROWS, tile);
    }

    method Add(area: Rect)
      requires Valid()
      modifies this
      ensures Valid()
      ensures forall c, r :: 0 <= c < COLUMNS && 0 <= r < ROWS ==>
        (rows[r][c] <==> old(rows[r][c]) || TouchedBy(area, c, r, tile))
    {
      if area.Empty() {
        return;
      }
      var first := Min(area.left / tile, COLUMNS - 1);
      var last := Min((area.right - 1) / tile, COLUMNS - 1);
      TileMono(area.left, area.right - 1, tile);
      var span := Span(first, last);
      var top := Min(area.top / tile, ROWS - 1);
      var bottom := Min((area.bottom - 1) / tile, ROWS - 1);
      TileMono(area.top, area.bottom - 1, tile);
      for row := top to bottom + 1
        invariant Valid()
        invariant forall r :: 0 <= r < ROWS && top <= r < row ==> rows[r] == Or(old(rows)[r], span)
        invariant forall r :: 0 <= r < ROWS && !(top <= r < row) ==> rows[r] == old(rows)[r]
      {
        rows := rows[row := Or(rows[row], span)];
      }
      forall c, r | 0 <= c < COLUMNS && 0 <= r < ROWS
        ensures rows[r][c] <==> old(rows[r][c]) || TouchedBy(area, c, r, tile)
      {
        TouchedSpan(area, c, r, tile);
      }
    }

    /** Clears the grid; the regions are the runs of damaged tiles, each damaged pixel in exactly one. */
    method Drain() returns (regions: seq<Rect>)
      requires Valid()
      modifies this
      ensures rows == Clear() && |rows| == ROWS
      ensures forall x, y :: OnGrid(x, y) ==> (Shown(regions, x, y) <==> old(Marked(x, y)))
      ensures forall x, y :: Shown(regions, x, y) ==> OnGrid(x, y)
      ensures forall i, j, x, y :: 0 <= i < j < |regions| && regions[i].Has(x, y) ==> !regions[j].Has(x, y)
    {
      hide Trailing, Tile, Clear, Collected, Left, Drawn, Shr, AndNot, Span, Run.Pixels;
      var taken := rows;
      rows := Clear();
      regions := [];
      ghost var runs: seq<Run> := [];
      NothingCollected(taken, tile);
      for row := 0 to ROWS
        invariant rows == Clear() && Drawn(regions, runs, tile) && Collected(runs, taken, row, 0)
      {
        var remaining := taken[row];
        ghost var at := 0;
        AllLeft(taken, row);
        while remaining != Zero()
          invariant rows == Clear() && Drawn(regions, runs, tile) && at <= COLUMNS + 1
          invariant Collected(runs, taken, row, at) && Left(remaining, taken, row, at)
          decreases COLUMNS + 1 - at
        {
          var start := Trailing(remaining, false, 0);
          var length := Trailing(Shr(remaining, start), true, 0);
          CollectOne(runs, taken, row, at, remaining, start, length);
          DrawOne(regions, runs, tile, Run(row, start, start + length));
          regions := regions + [Run(row, start, start + length).Pixels(tile)];
          runs := runs + [Run(row, start, start + length)];
          remaining := AndNot(remaining, Span(start, start + length - 1));
          at := start + length + 1;
        }
        RowDone(runs, taken, row, at);
      }
      DrainedPixels(regions, runs, taken, tile);
    }
  }

  // ---- draining ----

  /** The runs so far are those of the rows before this one, and of this one before a column. */
  ghost predicate Collected(runs: seq<Run>, taken: seq<Bits>, row: nat, at: nat)
    requires |taken| == ROWS
  {
    && Ordered(runs) && AllBefore(runs, row, at)
    && forall c, r :: 0 <= c < COLUMNS && 0 <= r < ROWS ==>
         (Covered(runs, c, r) <==> (r < row || (r == row && c < at)) && taken[r][c])
  }

  /** What is still to be collected of a row. */
  ghost predicate Left(remaining: Bits, taken: seq<Bits>, row: nat, at: nat)
    requires row < |taken|
  {
    forall c :: 0 <= c < COLUMNS ==> (remaining[c] <==> c >= at && taken[row][c])
  }

  ghost predicate Drawn(regions: seq<Rect>, runs: seq<Run>, tile: nat) {
    |regions| == |runs| && forall i :: 0 <= i < |runs| ==> regions[i] == runs[i].Pixels(tile)
  }

  lemma NothingCollected(taken: seq<Bits>, tile: nat)
    requires |taken| == ROWS
    ensures Collected([], taken, 0, 0) && Drawn([], [], tile)
  {
  }

  lemma AllLeft(taken: seq<Bits>, row: nat)
    requires row < |taken|
    ensures Left(taken[row], taken, row, 0)
  {
  }

  lemma DrawOne(regions: seq<Rect>, runs: seq<Run>, tile: nat, run: Run)
    requires Drawn(regions, runs, tile)
    ensures Drawn(regions + [run.Pixels(tile)], runs + [run], tile)
  {
    hide Run.Pixels;
  }

  lemma CollectOne(
      runs: seq<Run>, taken: seq<Bits>, row: nat, at: nat, remaining: Bits, start: nat, length: nat)
    requires |taken| == ROWS && row < ROWS && Collected(runs, taken, row, at) && Left(remaining, taken, row, at)
    requires remaining != Zero()
    requires start == Trailing(remaining, false, 0) && length == Trailing(Shr(remaining, start), true, 0)
    ensures at <= start < COLUMNS && 0 < length && start + length <= COLUMNS
    ensures Collected(runs + [Run(row, start, start + length)], taken, row, start + length + 1)
    ensures Left(AndNot(remaining, Span(start, start + length - 1)), taken, row, start + length + 1)
  {
    hide Trailing;
    NextRun(remaining, at, start, length);
    CoveredMore(runs, Run(row, start, start + length));
    hide Covered;
  }

  lemma RowDone(runs: seq<Run>, taken: seq<Bits>, row: nat, at: nat)
    requires |taken| == ROWS && row < ROWS && Collected(runs, taken, row, at) && Left(Zero(), taken, row, at)
    ensures Collected(runs, taken, row + 1, 0)
  {
    hide Covered;
    assert forall c :: 0 <= c < COLUMNS ==> !Zero()[c];
  }

  ghost predicate Ordered(runs: seq<Run>) {
    forall i, j :: 0 <= i < j < |runs| ==> runs[i].Before(runs[j])
  }

  /** Every run so far lies in an earlier row, or in this one before `at`. */
  ghost predicate AllBefore(runs: seq<Run>, row: nat, at: nat) {
    forall i :: 0 <= i < |runs| ==>
      && runs[i].row < ROWS && runs[i].past <= COLUMNS
      && (runs[i].row < row || (runs[i].row == row && runs[i].past < at))
  }

  lemma CoveredMore(runs: seq<Run>, run: Run)
    ensures forall c, r :: Covered(runs + [run], c, r) <==> Covered(runs, c, r) || run.Holds(c, r)
  {
    forall c, r ensures Covered(runs + [run], c, r) <==> Covered(runs, c, r) || run.Holds(c, r) {
      if Covered(runs, c, r) {
        var i :| 0 <= i < |runs| && runs[i].Holds(c, r);
        assert (runs + [run])[i].Holds(c, r);
      }
      if run.Holds(c, r) {
        assert (runs + [run])[|runs|].Holds(c, r);
      }
    }
  }

  lemma SomeBit(b: Bits)
    ensures b == Zero() || exists c :: 0 <= c < COLUMNS && b[c]
  {
    if forall c :: 0 <= c < COLUMNS ==> !b[c] {
      assert b == Zero();
    }
  }

  /** The lowest set bits of what is left: they start at or after `at`, and the bit past them is clear. */
  lemma NextRun(remaining: Bits, at: nat, start: nat, length: nat)
    requires remaining != Zero() && forall c :: 0 <= c < at && c < COLUMNS ==> !remaining[c]
    requires start == Trailing(remaining, false, 0) && length == Trailing(Shr(remaining, start), true, 0)
    ensures at <= start < COLUMNS && 0 < length && start + length <= COLUMNS
    ensures forall c :: at <= c < start ==> !remaining[c]
    ensures forall c :: start <= c < start + length ==> remaining[c]
    ensures start + length < COLUMNS ==> !remaining[start + length]
  {
    hide Trailing;
    SomeBit(remaining);
    assert Shr(remaining, start)[0] == remaining[start];
    assert start > 0 ==> !Shr(remaining, start)[COLUMNS - start];
    forall c | start <= c < start + length ensures remaining[c] {
      assert Shr(remaining, start)[c - start];
    }
    if start + length < COLUMNS {
      assert Shr(remaining, start)[length] == remaining[start + length];
    }
  }

  lemma TouchedSpan(area: Rect, c: nat, r: nat, tile: nat)
    requires tile > 0 && !area.Empty() && c < COLUMNS && r < ROWS
    ensures TouchedBy(area, c, r, tile) <==>
      && Min(Tile(area.left, tile), COLUMNS - 1) <= c <= Min(Tile(area.right - 1, tile), COLUMNS - 1)
      && Min(Tile(area.top, tile), ROWS - 1) <= r <= Min(Tile(area.bottom - 1, tile), ROWS - 1)
  {
    hide Tile, Min;
    SpanOfTiles(area.left, area.right, tile, COLUMNS, c);
    SpanOfTiles(area.top, area.bottom, tile, ROWS, r);
    if (exists x :: area.left <= x < area.right && Min(Tile(x, tile), COLUMNS - 1) == c)
      && (exists y :: area.top <= y < area.bottom && Min(Tile(y, tile), ROWS - 1) == r)
    {
      var x :| area.left <= x < area.right && Min(Tile(x, tile), COLUMNS - 1) == c;
      var y :| area.top <= y < area.bottom && Min(Tile(y, tile), ROWS - 1) == r;
      assert area.Has(x, y);
    }
  }

  lemma GridFits(extent: nat, tiles: nat, tile: nat)
    requires tiles > 0 && tile > 0 && tile >= DivCeil(extent, tiles)
    ensures forall x: nat :: x < extent ==> Tile(x, tile) < tiles
  {
    var least := DivCeil(extent, tiles);
    assert extent <= tiles * least;
    MulMono(least, tile, tiles);
    forall x: nat | x < extent ensures Tile(x, tile) < tiles {
      TileRange(x, tile, 0, tiles);
    }
  }

  lemma DrainedPixels(regions: seq<Rect>, runs: seq<Run>, taken: seq<Bits>, tile: nat)
    requires tile > 0 && |taken| == ROWS && Collected(runs, taken, ROWS, 0) && Drawn(regions, runs, tile)
    ensures forall x, y :: Tile(x, tile) < COLUMNS && Tile(y, tile) < ROWS ==>
      (Shown(regions, x, y) <==> taken[Tile(y, tile)][Tile(x, tile)])
    ensures forall x, y :: Shown(regions, x, y) ==> Tile(x, tile) < COLUMNS && Tile(y, tile) < ROWS
    ensures forall i, j, x, y :: 0 <= i < j < |regions| && regions[i].Has(x, y) ==> !regions[j].Has(x, y)
  {
    hide Tile, Run.Pixels;
    forall x: nat, y: nat
      ensures Shown(regions, x, y) <==> Covered(runs, Tile(x, tile), Tile(y, tile))
    {
      forall i | 0 <= i < |runs| ensures regions[i].Has(x, y) <==> runs[i].Holds(Tile(x, tile), Tile(y, tile)) {
        RunPixels(runs[i], tile, x, y);
      }
    }
    forall i, j, x: nat, y: nat | 0 <= i < j < |regions| && regions[i].Has(x, y) ensures !regions[j].Has(x, y) {
      RunPixels(runs[i], tile, x, y);
      RunPixels(runs[j], tile, x, y);
      assert runs[i].Before(runs[j]);
    }
  }
}
