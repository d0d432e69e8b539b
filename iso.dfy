/**
 * The isometric projection of src/grid.rs: world positions (in tiles) to
 * screen positions (in pixels, with a depth for draw order) and back, plus the
 * tilemap's layout constants. The f32 arithmetic is modelled over `real`.
 */
module Iso {
  import opened Vectors

  /** `GRID_COUNT`: `WORLD_SIZE` tiles on each axis. */
  const GRID_COUNT: nat := 100
  const TILE_WIDTH: real := 102.0
  const TILE_HEIGHT: real := 51.0
  /** `CHUNKS` */
  const CHUNKS: (nat, nat) := (2, 2)
  /** `CHUNK_SIZE`: `GRID_COUNT / CHUNKS` on each axis. */
  const CHUNK_SIZE: (nat, nat) := (GRID_COUNT / CHUNKS.0, GRID_COUNT / CHUNKS.1)
  /** `ORIGIN_OFFSET`: half a tile's height per grid row. */
  const ORIGIN_OFFSET: real := TILE_HEIGHT / 2.0 * GRID_COUNT as real

  /** The chunks tile the grid exactly on both axes, and the origin sits 2550 pixels up. */
  lemma Layout()
    ensures CHUNK_SIZE.0 * CHUNKS.0 == GRID_COUNT && CHUNK_SIZE.1 * CHUNKS.1 == GRID_COUNT
    ensures ORIGIN_OFFSET == 2550.0 && TILE_WIDTH == 2.0 * TILE_HEIGHT
  {
  }

  /** `world_to_iso`: x and y to pixels around `ORIGIN_OFFSET`; z is `x + y` so that nearer tiles draw on top. */
  function WorldToIso(p: Vec2): (r: Vec3)
    ensures r.z == p.x + p.y
  {
    var px := (p.x - p.y) * (TILE_WIDTH / 2.0);
    var py := (p.x + p.y) * (TILE_HEIGHT / 2.0);
    Vec3(px, -py + ORIGIN_OFFSET, p.x + p.y)
  }

  /** `world_to_iso_no_offset`: the projection of the point half a tile back on both axes, with the unshifted depth. */
  function WorldToIsoNoOffset(p: Vec2): (r: Vec3)
    ensures r.z == p.x + p.y
    ensures IsoToWorld(r) == Vec2(p.x - 0.5, p.y - 0.5)
  {
    var x, y := p.x - 0.5, p.y - 0.5;
    var px := (x - y) * (TILE_WIDTH / 2.0);
    var py := (x + y) * (TILE_HEIGHT / 2.0);
    Vec3(px, -py + ORIGIN_OFFSET, p.x + p.y)
  }

  /** `iso_to_world`: undoes the offset and the projection; the depth is ignored. */
  function IsoToWorld(iso: Vec3): (r: Vec2)
    ensures WorldToIso(r).x == iso.x && WorldToIso(r).y == iso.y
  {
    var x := iso.x;
    var y := -(iso.y - ORIGIN_OFFSET);
    Vec2((y + x / 2.0) * 2.0 / TILE_WIDTH, (y - x / 2.0) / TILE_HEIGHT)
  }

  /**
   * Projecting and unprojecting gives back the world position, because a
   * tile is twice as wide as it is high. Unprojecting then projecting gives
   * back the screen position, with the depth recomputed.
   */
  lemma RoundTrip(p: Vec2, iso: Vec3)
    ensures IsoToWorld(WorldToIso(p)) == p
    ensures WorldToIso(IsoToWorld(iso)) == Vec3(iso.x, iso.y, IsoToWorld(iso).x + IsoToWorld(iso).y)
  {
  }

  /** The world origin projects to the top of the diamond, and the projection without offset differs only by half a tile. */
  lemma Anchors(p: Vec2)
    ensures WorldToIso(Vec2(0.0, 0.0)) == Vec3(0.0, ORIGIN_OFFSET, 0.0)
    ensures var a, b := WorldToIsoNoOffset(p), WorldToIso(Vec2(p.x - 0.5, p.y - 0.5));
            a.x == b.x && a.y == b.y && a.z == p.x + p.y && b.z == a.z - 1.0
  {
  }

  /** `u32::MAX` */
  const U32_MAX: nat := 0xFFFF_FFFF

  /** `TilePos` */
  datatype TilePos = TilePos(x: nat, y: nat)

  /** `f32 as u32` of a non-negative value: truncation, saturating at `u32::MAX`. */
  function AsU32(r: real): (n: nat)
    requires r >= 0.0
    ensures n <= U32_MAX
    ensures r < U32_MAX as real ==> n as real <= r < n as real + 1.0
  {
    if r.Floor > U32_MAX then U32_MAX else r.Floor
  }

  /** `tile_pos`: (`u32::MAX`, `u32::MAX`) if either coordinate is negative, else the truncated coordinates. */
  function TilePosOf(p: Vec2): (t: TilePos)
    ensures p.x < 0.0 || p.y < 0.0 ==> t == TilePos(U32_MAX, U32_MAX)
    ensures 0.0 <= p.x < U32_MAX as real && 0.0 <= p.y < U32_MAX as real ==>
              t.x as real <= p.x < t.x as real + 1.0 && t.y as real <= p.y < t.y as real + 1.0
  {
    if p.x < 0.0 || p.y < 0.0 then TilePos(U32_MAX, U32_MAX) else TilePos(AsU32(p.x), AsU32(p.y))
  }

  /**
   * A negative coordinate gives the sentinel. A position on the grid gives
   * the tile it lies in, which is never the sentinel.
   */
  lemma TilePosRules(p: Vec2)
    ensures p.x < 0.0 || p.y < 0.0 ==> TilePosOf(p) == TilePos(U32_MAX, U32_MAX)
    ensures 0.0 <= p.x < GRID_COUNT as real && 0.0 <= p.y < GRID_COUNT as real ==>
              var t := TilePosOf(p);
              t.x < GRID_COUNT && t.y < GRID_COUNT &&
              t.x as real <= p.x < t.x as real + 1.0 && t.y as real <= p.y < t.y as real + 1.0
  {
  }
}
