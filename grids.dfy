/**
 * The world map of src/world.rs as a value: `H` rows of `W` cells, indexed
 * `g[y][x]` as Rust's `data[y][x]`. This module holds the map's bounds-checked
 * getters, both as written and corrected.
 */
module Grids {
  import opened Wrappers
  import opened Vectors
  import opened Flags

  /** `WORLD_SIZE`: the game's map is `WORLD_SIZE` by `WORLD_SIZE`. */
  const WORLD_SIZE: nat := 100

  type Grid = seq<seq<Flag>>

  /** The grid has `H` rows of `W` cells each. */
  ghost predicate Shaped(g: Grid, W: nat, H: nat) {
    |g| == H && forall y :: 0 <= y < H ==> |g[y]| == W
  }

  /** `Map::new()`: every cell `Flag::EMPTY`. */
  function EmptyGrid(W: nat, H: nat): (g: Grid)
    ensures Shaped(g, W, H)
    ensures forall y, x :: 0 <= y < H && 0 <= x < W ==> IsEmpty(g[y][x])
  {
    seq(H, y => seq(W, x => Word(EMPTY)))
  }

  /** The grid with cell (x, y) replaced by `v`. */
  function Put(g: Grid, x: nat, y: nat, v: Flag): (r: Grid)
    requires y < |g| && x < |g[y]|
    ensures |r| == |g|
    ensures forall yy :: 0 <= yy < |g| ==> |r[yy]| == |g[yy]|
    ensures r[y][x] == v
    ensures forall yy, xx :: 0 <= yy < |g| && 0 <= xx < |g[yy]| && (yy != y || xx != x) ==> r[yy][xx] == g[yy][xx]
  {
    g[y := g[y][x := v]]
  }

  /** Writing a cell twice leaves the second value. */
  lemma PutPut(g: Grid, x: nat, y: nat, a: Flag, b: Flag)
    requires y < |g| && x < |g[y]|
    ensures Put(Put(g, x, y, a), x, y, b) == Put(g, x, y, b)
  {
    assert Put(Put(g, x, y, a), x, y, b)[y] == Put(g, x, y, b)[y];
  }

  /** Writing a cell's own value changes nothing. */
  lemma PutSame(g: Grid, x: nat, y: nat)
    requires y < |g| && x < |g[y]|
    ensures Put(g, x, y, g[y][x]) == g
  {
    assert Put(g, x, y, g[y][x])[y] == g[y];
  }

  /** (x, y) names a cell of a W by H map. */
  predicate InBounds(W: nat, H: nat, p: IVec2) {
    0 <= p.x < W && 0 <= p.y < H
  }

  /** What a getter does: return a cell, return `None`, or panic on an index out of bounds. */
  datatype Lookup = Found(flag: Flag) | Outside | IndexPanic

  /**
   * `Map::get(x, y)` as written: the guard is `x <= W && y <= H`, and the cell
   * read is `self[x][y]`, that is row `x`, column `y`.
   */
  function GetAsWritten(g: Grid, W: nat, H: nat, x: nat, y: nat): (r: Lookup)
    requires Shaped(g, W, H)
    ensures W == H ==> (r == IndexPanic <==> (x == W && y <= H) || (y == H && x <= W))
  {
    if x <= W && y <= H then
      if x < H && y < W then Found(g[x][y]) else IndexPanic
    else Outside
  }

  /** `f32 as usize` of a positive value: truncation toward zero. */
  function Trunc(r: real): nat
    requires r > 0.0
  {
    r.Floor
  }

  /**
   * `Map::get_vec2(v)` as written: the guard is `x > 0 && y > 0 && x as usize <= W
   * && y as usize <= H`, and the cell read is `data[y as usize][x as usize]`.
   */
  function GetVec2AsWritten(g: Grid, W: nat, H: nat, v: Vec2): (r: Lookup)
    requires Shaped(g, W, H)
    ensures r == IndexPanic <==> v.x > 0.0 && v.y > 0.0 && ((Trunc(v.x) == W && Trunc(v.y) <= H) || (Trunc(v.y) == H && Trunc(v.x) <= W))
  {
    if v.x > 0.0 && v.y > 0.0 && Trunc(v.x) <= W && Trunc(v.y) <= H then
      if Trunc(v.y) < H && Trunc(v.x) < W then Found(g[Trunc(v.y)][Trunc(v.x)]) else IndexPanic
    else Outside
  }

  /**
   * `Map::get_uvec2(p)` as written: the guard is `x <= W && y <= H`, and the
   * cell read is `data[y][x]`.
   */
  function GetUvec2AsWritten(g: Grid, W: nat, H: nat, x: nat, y: nat): (r: Lookup)
    requires Shaped(g, W, H)
    ensures r == IndexPanic <==> (x == W && y <= H) || (y == H && x <= W)
  {
    if x <= W && y <= H then
      if y < H && x < W then Found(g[y][x]) else IndexPanic
    else Outside
  }

  /**
   * `Map::get_ivec2(p)`: `Some` exactly for 0 < x < W and 0 < y < H (row 0
   * and column 0 are excluded), and then the cell `data[y][x]`.
   */
  function GetIvec2(g: Grid, W: nat, H: nat, p: IVec2): (r: Option<Flag>)
    requires Shaped(g, W, H)
    ensures r.Some? <==> 0 < p.x < W && 0 < p.y < H
    ensures r.Some? ==> InBounds(W, H, p) && r.value == g[p.y][p.x]
  {
    if p.x > 0 && p.y > 0 && p.x < W && p.y < H then Some(g[p.y][p.x]) else None
  }

  /** `Map::get(x, y)` corrected: the guard is `x < W && y < H`, and the cell read is `data[y][x]`. */
  function Get(g: Grid, W: nat, H: nat, x: nat, y: nat): (r: Option<Flag>)
    requires Shaped(g, W, H)
    ensures r.Some? <==> x < W && y < H
    ensures r.Some? ==> r.value == g[y][x]
  {
    if x < W && y < H then Some(g[y][x]) else None
  }

  /** `Map::get_vec2(v)` corrected: the truncated coordinates are compared with `<`. */
  function GetVec2(g: Grid, W: nat, H: nat, v: Vec2): (r: Option<Flag>)
    requires Shaped(g, W, H)
    ensures r.Some? <==> v.x > 0.0 && v.y > 0.0 && Trunc(v.x) < W && Trunc(v.y) < H
    ensures r.Some? ==> r.value == g[Trunc(v.y)][Trunc(v.x)]
  {
    if v.x > 0.0 && v.y > 0.0 && Trunc(v.x) < W && Trunc(v.y) < H then
      Some(g[Trunc(v.y)][Trunc(v.x)])
    else None
  }

  /** The cell at an integer position, for a position known to be in bounds (Rust's `map[p]`). */
  function At(g: Grid, W: nat, H: nat, p: IVec2): Flag
    requires Shaped(g, W, H) && InBounds(W, H, p)
  {
    g[p.y][p.x]
  }

  /** On the world map, `get(WORLD_SIZE, 0)` passes the guard and indexes past the last row. */
  lemma GetPanicsOnLastEdge(g: Grid)
    requires Shaped(g, WORLD_SIZE, WORLD_SIZE)
    ensures GetAsWritten(g, WORLD_SIZE, WORLD_SIZE, WORLD_SIZE, 0) == IndexPanic
    ensures Get(g, WORLD_SIZE, WORLD_SIZE, WORLD_SIZE, 0) == None
  {
  }

  /**
   * `get` reads the transposed cell: on a 2 by 1 map whose two cells differ,
   * `get(0, 0)` is right but `get(1, 0)` panics although (1, 0) is a cell.
   */
  lemma GetIsTransposed()
    ensures var g := [[Word(FLOWER), Word(TREE)]];
            Shaped(g, 2, 1) && GetAsWritten(g, 2, 1, 1, 0) == IndexPanic && Get(g, 2, 1, 1, 0) == Some(Word(TREE))
  {
  }

  /** `get` agrees with the corrected getter exactly on cells (x, y) whose transposed cell holds the same word. */
  lemma GetAsWrittenAgreement(g: Grid, W: nat, H: nat, x: nat, y: nat)
    requires Shaped(g, W, H) && x < W && y < H && x < H && y < W
    ensures GetAsWritten(g, W, H, x, y) == Found(g[x][y])
    ensures GetAsWritten(g, W, H, x, y).flag == Get(g, W, H, x, y).value <==> g[x][y] == g[y][x]
  {
  }

  /** `get_vec2` and `get_uvec2` panic on the cell just past the last column, which passes their guard. */
  lemma EdgeGettersPanic(g: Grid, W: nat, H: nat)
    requires Shaped(g, W, H) && H > 0
    ensures GetVec2AsWritten(g, W, H, Vec2(W as real + 0.5, 0.5)) == IndexPanic
    ensures GetUvec2AsWritten(g, W, H, W, 0) == IndexPanic
    ensures GetVec2(g, W, H, Vec2(W as real + 0.5, 0.5)) == None
  {
    assert (W as real + 0.5).Floor == W;
    assert (0.5).Floor == 0;
  }

  /**
   * Everywhere the as-written `get_vec2` does not panic it agrees with the
   * corrected one; it panics exactly where the corrected one says `None` but
   * the as-written guard passes.
   */
  lemma GetVec2Agreement(g: Grid, W: nat, H: nat, v: Vec2)
    requires Shaped(g, W, H)
    ensures GetVec2AsWritten(g, W, H, v) != IndexPanic ==>
              (GetVec2AsWritten(g, W, H, v).Found? <==> GetVec2(g, W, H, v).Some?)
    ensures GetVec2AsWritten(g, W, H, v).Found? ==> GetVec2AsWritten(g, W, H, v).flag == GetVec2(g, W, H, v).value
    ensures GetVec2AsWritten(g, W, H, v) == IndexPanic <==>
              GetVec2(g, W, H, v).None? && v.x > 0.0 && v.y > 0.0 && Trunc(v.x) <= W && Trunc(v.y) <= H
  {
  }

  /** At an integer position strictly inside the map, `get_vec2` (either version) and `get_ivec2` read the same cell. */
  lemma IntegerPositionsAgree(g: Grid, W: nat, H: nat, p: IVec2)
    requires Shaped(g, W, H) && 0 < p.x < W && 0 < p.y < H
    ensures GetVec2AsWritten(g, W, H, AsVec2(p)) == Found(At(g, W, H, p))
    ensures GetVec2(g, W, H, AsVec2(p)) == GetIvec2(g, W, H, p)
  {
    assert (p.x as real).Floor == p.x;
    assert (p.y as real).Floor == p.y;
  }
}
