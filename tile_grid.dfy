/**
 * The integer geometry of the slippy-map display: the rectangle of tile
 * coordinates loaded around a centre tile (`get_tiles_to_load`), and where
 * `draw_map` puts each tile on the 480x272 screen and whether it draws it.
 */
module TileGrid {
  /** Side of an OSM tile in pixels. */
  const TileSize: int := 256
  /** The display surface. */
  const Width: int := 480
  const Height: int := 272

  /** A tile position (x, y) in the grid of one zoom level. */
  type Coord = (int, int)

  predicate Distinct<T(==)>(s: seq<T>) {
    forall i, j :: 0 <= i < j < |s| ==> s[i] != s[j]
  }

  /** `math.ceil(a / b)` for a non-negative `a` and a positive `b`. */
  function CeilDiv(a: nat, b: nat): nat
    requires b > 0
  {
    if a == 0 then 0 else 1 + CeilDiv(if a <= b then 0 else a - b, b)
  }

  /** `CeilDiv(a, b)` is the least `q` with `a <= b * q`. */
  lemma {:induction false} CeilDivIsCeiling(a: nat, b: nat)
    requires b > 0
    ensures var q := CeilDiv(a, b); b * (q - 1) < a <= b * q
  {
    if a > b {
      CeilDivIsCeiling(a - b, b);
      var q := CeilDiv(a - b, b);
      assert b * q == b * (q + 1 - 1);
      assert b * (q + 1) == b * q + b;
    }
  }

  /** `tiles_horizontal` and `tiles_vertical` of `get_tiles_to_load`. */
  const TilesHorizontal: nat := CeilDiv(Width, TileSize) + 1
  const TilesVertical: nat := CeilDiv(Height, TileSize) + 1

  /** The inner loop of `get_tiles_to_load`: column `x`, rows `sy` .. `sy + rows - 1`, top down. */
  function Column(x: int, sy: int, rows: nat): (r: seq<Coord>)
    ensures |r| == rows
  {
    if rows == 0 then [] else Column(x, sy, rows - 1) + [(x, sy + rows - 1)]
  }

  /** Both loops: `cols` columns from `sx`, each one a `Column`, left to right. */
  function Block(sx: int, sy: int, cols: nat, rows: nat): seq<Coord> {
    if cols == 0 then [] else Block(sx, sy, cols - 1, rows) + Column(sx + cols - 1, sy, rows)
  }

  /** The number of entries in the first `n` columns of a block with `rows` rows: `n * rows`, by repeated addition. */
  function Offset(n: nat, rows: nat): nat {
    if n == 0 then 0 else Offset(n - 1, rows) + rows
  }

  lemma {:induction false} OffsetIsProduct(n: nat, rows: nat)
    ensures Offset(n, rows) == n * rows
  {
    if n > 0 {
      OffsetIsProduct(n - 1, rows);
      assert n * rows == (n - 1) * rows + rows;
    }
  }

  /** A block has `Offset(cols, rows)` (that is, `cols * rows`) entries. */
  lemma {:induction false} BlockLength(sx: int, sy: int, cols: nat, rows: nat)
    ensures |Block(sx, sy, cols, rows)| == Offset(cols, rows)
  {
    if cols > 0 {
      BlockLength(sx, sy, cols - 1, rows);
    }
  }

  /** The list `get_tiles_to_load(cx, cy)` returns. No zoom enters: nothing is clipped to the grid. */
  function TileWindow(cx: int, cy: int): seq<Coord> {
    Block(cx - TilesHorizontal / 2, cy - TilesVertical / 2, TilesHorizontal + 1, TilesVertical + 1)
  }

  lemma {:induction false} ColumnAt(x: int, sy: int, rows: nat, dy: nat)
    requires dy < rows
    ensures Column(x, sy, rows)[dy] == (x, sy + dy)
  {
    if dy < rows - 1 {
      ColumnAt(x, sy, rows - 1, dy);
    }
  }

  /** Tile `p` lies in the rectangle of `cols` columns and `rows` rows whose top left tile is (sx, sy). */
  predicate InRect(p: Coord, sx: int, sy: int, cols: int, rows: int) {
    sx <= p.0 < sx + cols && sy <= p.1 < sy + rows
  }

  /** A rectangle is its first `cols - 1` columns and its last column. */
  lemma RectSplit(p: Coord, sx: int, sy: int, cols: int, rows: int)
    requires cols > 0
    ensures InRect(p, sx, sy, cols, rows) <==> InRect(p, sx, sy, cols - 1, rows) || InRect(p, sx + cols - 1, sy, 1, rows)
  {
  }

  lemma {:induction false} ColumnContains(x: int, sy: int, rows: nat, p: Coord)
    ensures p in Column(x, sy, rows) <==> InRect(p, x, sy, 1, rows)
  {
    if rows > 0 {
      ColumnContains(x, sy, rows - 1, p);
    }
  }

  lemma {:induction false} ColumnDistinct(x: int, sy: int, rows: nat)
    ensures Distinct(Column(x, sy, rows))
  {
    if rows > 0 {
      ColumnDistinct(x, sy, rows - 1);
      ColumnContains(x, sy, rows - 1, (x, sy + rows - 1));
    }
  }

  /** Entry `Offset(dx, rows) + dy` comes before the entries of the first `k` columns end when `dx < k`. */
  lemma {:induction false} RowBound(dx: nat, dy: nat, rows: nat, k: nat)
    requires dx < k && dy < rows
    ensures Offset(dx, rows) + dy < Offset(k, rows)
  {
    if dx < k - 1 {
      RowBound(dx, dy, rows, k - 1);
    }
  }

  /** Entry number `Offset(dx, rows) + dy` is the tile `dx` columns and `dy` rows from the corner. */
  lemma {:induction false} BlockAt(sx: int, sy: int, cols: nat, rows: nat, dx: nat, dy: nat)
    requires dx < cols && dy < rows
    ensures Offset(dx, rows) + dy < |Block(sx, sy, cols, rows)|
    ensures Block(sx, sy, cols, rows)[Offset(dx, rows) + dy] == (sx + dx, sy + dy)
  {
    var prefix := Block(sx, sy, cols - 1, rows);
    var column := Column(sx + cols - 1, sy, rows);
    var k := Offset(dx, rows) + dy;
    assert Block(sx, sy, cols, rows) == prefix + column;
    BlockLength(sx, sy, cols - 1, rows);
    BlockLength(sx, sy, cols, rows);
    RowBound(dx, dy, rows, cols);
    if dx < cols - 1 {
      RowBound(dx, dy, rows, cols - 1);
      BlockAt(sx, sy, cols - 1, rows, dx, dy);
      assert (prefix + column)[k] == prefix[k];
    } else {
      assert k == |prefix| + dy;
      ColumnAt(sx + cols - 1, sy, rows, dy);
      assert (prefix + column)[k] == column[dy];
    }
  }

  /** A tile is in the block exactly when it lies in the rectangle. */
  lemma {:induction false} BlockContains(sx: int, sy: int, cols: nat, rows: nat, p: Coord)
    ensures p in Block(sx, sy, cols, rows) <==> InRect(p, sx, sy, cols, rows)
  {
    if cols > 0 {
      BlockContains(sx, sy, cols - 1, rows, p);
      ColumnContains(sx + cols - 1, sy, rows, p);
      InConcat(Block(sx, sy, cols - 1, rows), Column(sx + cols - 1, sy, rows), p);
      RectSplit(p, sx, sy, cols, rows);
    }
  }

  lemma InConcat<T>(a: seq<T>, b: seq<T>, x: T)
    ensures x in a + b <==> x in a || x in b
  {
  }

  lemma DistinctConcat<T>(a: seq<T>, b: seq<T>)
    requires Distinct(a) && Distinct(b)
    requires forall i :: 0 <= i < |a| ==> a[i] !in b
    ensures Distinct(a + b)
  {
  }

  lemma {:induction false} BlockDistinct(sx: int, sy: int, cols: nat, rows: nat)
    ensures Distinct(Block(sx, sy, cols, rows))
  {
    if cols > 0 {
      var prefix := Block(sx, sy, cols - 1, rows);
      var column := Column(sx + cols - 1, sy, rows);
      BlockDistinct(sx, sy, cols - 1, rows);
      ColumnDistinct(sx + cols - 1, sy, rows);
      forall i | 0 <= i < |prefix|
        ensures prefix[i] !in column
      {
        BlockContains(sx, sy, cols - 1, rows, prefix[i]);
        ColumnContains(sx + cols - 1, sy, rows, prefix[i]);
      }
      DistinctConcat(prefix, column);
    }
  }

  /** For the 480x272 display: 480/256 and 272/256 both round up to two tiles, plus one each way. */
  lemma WindowDimensions()
    ensures TilesHorizontal == 3 && TilesVertical == 3
  {
    CeilDivIsCeiling(Width, TileSize);
    CeilDivIsCeiling(Height, TileSize);
  }

  /**
   * What `get_tiles_to_load` promises for the 480x272 display: 4 x 4 = 16 distinct
   * tiles, entry `dx * 4 + dy` at (cx - 1 + dx, cy - 1 + dy), the centre among
   * them, and exactly the tiles of the rectangle, whatever the zoom's grid size.
   */
  lemma WindowShape(cx: int, cy: int)
    ensures TilesHorizontal == 3 && TilesVertical == 3
    ensures |TileWindow(cx, cy)| == (TilesHorizontal + 1) * (TilesVertical + 1) == 16
    ensures Distinct(TileWindow(cx, cy))
    ensures (cx, cy) in TileWindow(cx, cy)
    ensures forall p: Coord :: p in TileWindow(cx, cy) <==> cx - 1 <= p.0 <= cx + 2 && cy - 1 <= p.1 <= cy + 2
  {
    WindowDimensions();
    BlockLength(cx - 1, cy - 1, 4, 4);
    BlockDistinct(cx - 1, cy - 1, 4, 4);
    forall p: Coord
      ensures p in TileWindow(cx, cy) <==> cx - 1 <= p.0 <= cx + 2 && cy - 1 <= p.1 <= cy + 2
    {
      BlockContains(cx - 1, cy - 1, 4, 4, p);
    }
  }

  /** Entry `dx * (tv + 1) + dy` of the window, with `dx` the outer loop and `dy` the inner one. */
  lemma WindowAt(cx: int, cy: int, dx: nat, dy: nat)
    requires dx <= TilesHorizontal && dy <= TilesVertical
    ensures dx * (TilesVertical + 1) + dy < |TileWindow(cx, cy)|
    ensures TileWindow(cx, cy)[dx * (TilesVertical + 1) + dy]
         == (cx - TilesHorizontal / 2 + dx, cy - TilesVertical / 2 + dy)
  {
    WindowDimensions();
    OffsetIsProduct(dx, TilesVertical + 1);
    BlockAt(cx - TilesHorizontal / 2, cy - TilesVertical / 2, TilesHorizontal + 1, TilesVertical + 1, dx, dy);
  }

  /** Near the grid's origin the window reaches negative tile indices: there is no clipping. */
  lemma WindowIsNotClipped(cx: int, cy: int)
    ensures (cx - 1, cy - 1) in TileWindow(cx, cy)
    ensures cx == 0 && cy == 0 ==> TileWindow(cx, cy)[0] == (-1, -1)
  {
    WindowShape(cx, cy);
    WindowAt(cx, cy, 0, 0);
  }

  // ---- draw_map placement -------------------------------------------------

  /**
   * The screen position of tile `t` when the focal point sits at pixel (px, py)
   * of centre tile `c`: `offset + (t - c) * tile_size` with `offset = W // 2 - p`.
   */
  function TileScreenPosition(c: Coord, px: int, py: int, t: Coord): Coord {
    (Width / 2 - px + (t.0 - c.0) * TileSize, Height / 2 - py + (t.1 - c.1) * TileSize)
  }

  /** The visibility test of `draw_map`. */
  predicate OnScreen(pos: Coord) {
    pos.0 + TileSize > 0 && pos.0 < Width && pos.1 + TileSize > 0 && pos.1 < Height
  }

  /** Screen pixel (i, j) exists. */
  predicate ScreenPixel(i: int, j: int) {
    0 <= i < Width && 0 <= j < Height
  }

  /** The 256x256 square placed at `pos` covers pixel (i, j). */
  predicate Covers(pos: Coord, i: int, j: int) {
    pos.0 <= i < pos.0 + TileSize && pos.1 <= j < pos.1 + TileSize
  }

  /** `draw_map` blits a tile exactly when its square shares a pixel with the screen. */
  lemma OnScreenIffOverlaps(pos: Coord)
    ensures OnScreen(pos) <==> exists i, j :: ScreenPixel(i, j) && Covers(pos, i, j)
  {
    if OnScreen(pos) {
      var i := if pos.0 < 0 then 0 else pos.0;
      var j := if pos.1 < 0 then 0 else pos.1;
      assert ScreenPixel(i, j) && Covers(pos, i, j);
    }
  }

  /**
   * The placement is a grid: the focal pixel of the centre tile lands on the screen
   * centre, and every tile sits a whole number of tiles away from it.
   */
  lemma PlacementIsGrid(c: Coord, px: int, py: int, t: Coord)
    ensures TileScreenPosition(c, px, py, c) == (Width / 2 - px, Height / 2 - py)
    ensures TileScreenPosition(c, px, py, c).0 + px == 240 && TileScreenPosition(c, px, py, c).1 + py == 136
    ensures TileScreenPosition(c, px, py, (t.0 + 1, t.1)).0 == TileScreenPosition(c, px, py, t).0 + TileSize
    ensures TileScreenPosition(c, px, py, (t.0, t.1 + 1)).1 == TileScreenPosition(c, px, py, t).1 + TileSize
  {
  }

  /** Two different tiles never share a screen pixel, so the order of the blits does not matter. */
  lemma DistinctTilesDisjoint(c: Coord, px: int, py: int, t1: Coord, t2: Coord, i: int, j: int)
    requires t1 != t2
    ensures !(Covers(TileScreenPosition(c, px, py, t1), i, j) && Covers(TileScreenPosition(c, px, py, t2), i, j))
  {
  }

  /** Tile placement is one to one. */
  lemma PlacementInjective(c: Coord, px: int, py: int, t1: Coord, t2: Coord)
    requires TileScreenPosition(c, px, py, t1) == TileScreenPosition(c, px, py, t2)
    ensures t1 == t2
  {
  }

  /**
   * With the focal pixel inside the centre tile, the 16-tile window covers every
   * pixel of the screen: the overscan of `get_tiles_to_load` leaves no gap.
   */
  lemma WindowCoversScreen(cx: int, cy: int, px: int, py: int, i: int, j: int)
    requires 0 <= px < TileSize && 0 <= py < TileSize
    requires ScreenPixel(i, j)
    ensures exists t :: t in TileWindow(cx, cy) && Covers(TileScreenPosition((cx, cy), px, py, t), i, j)
  {
    var ox, oy := Width / 2 - px, Height / 2 - py;
    var dx := (i - ox + TileSize) / TileSize - 1;
    var dy := (j - oy + TileSize) / TileSize - 1;
    assert -1 <= dx <= 1 && -1 <= dy <= 1;
    var t := (cx + dx, cy + dy);
    WindowShape(cx, cy);
    assert t in TileWindow(cx, cy);
    assert Covers(TileScreenPosition((cx, cy), px, py, t), i, j);
  }
}
