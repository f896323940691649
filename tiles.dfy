/** Integer tiles, the box grid of a map, and the truncation of continuous
    positions to tiles. */
module Tiles {

  /** Box codes of the map; code 1, rock, passes no filter. */
  const Grass := 0
  const Wood := 2
  const Metal := 3

  /** A value that may be absent: Python's `None`. */
  datatype Option<T> = None | Some(value: T)

  /** One grid cell, addressed by integer coordinates. */
  datatype Tile = Tile(x: int, y: int)

  /** A map: its size and one row of box codes per y coordinate. */
  datatype BoxGrid = BoxGrid(width: nat, height: nat, rows: seq<seq<int>>)

  /** A box grid whose rows match its declared size. */
  type GameMap = m: BoxGrid
    | |m.rows| == m.height && forall i :: 0 <= i < |m.rows| ==> |m.rows[i]| == m.width
    witness BoxGrid(0, 0, [])

  /** The bounds test of the filters: `0 <= x <= max_x` and `0 <= y <= max_y`. */
  predicate InBounds(g: GameMap, t: Tile)
  {
    0 <= t.x <= g.width - 1 && 0 <= t.y <= g.height - 1
  }

  /** The box code at an in-bounds tile. */
  function BoxAt(g: GameMap, t: Tile): int
    requires InBounds(g, t)
  {
    g.rows[t.y][t.x]
  }

  /** Python's `int()` on a float: truncation toward zero. */
  function Trunc(r: real): (n: int)
    ensures 0.0 <= r ==> 0 <= n && n as real <= r < n as real + 1.0
    ensures r < 0.0 ==> n <= 0 && n as real - 1.0 < r <= n as real
  {
    if r >= 0.0 then r.Floor else -((-r).Floor)
  }

  /** `get_tile_of_position`: the tile holding a continuous position. */
  function TileOf(x: real, y: real): Tile
  {
    Tile(Trunc(x), Trunc(y))
  }

  /** `Vec2d.int_tuple` on one coordinate: Python's `round`, which rounds
      to the nearest integer and breaks ties toward the even one. */
  function RoundHalfEven(r: real): (n: int)
    ensures n as real - 0.5 <= r <= n as real + 0.5
    ensures r == n as real - 0.5 || r == n as real + 0.5 ==> n % 2 == 0
  {
    var f := r.Floor;
    var d := r - f as real;
    if d < 0.5 then f
    else if d > 0.5 then f + 1
    else if f % 2 == 0 then f else f + 1
  }

  /** Truncating a position that is already integral gives the same tile,
      so `get_tile_of_position(grid_pos)` is `grid_pos`. */
  lemma TileOfTile(t: Tile)
    ensures TileOf(t.x as real, t.y as real) == t
  {
  }
}
