/**
 * `Map<W, H>` of src/world.rs, the world grid that every system reads and
 * writes in place: `H` rows of `W` cells, `data[y][x]`. `Cells()` is its value,
 * and every write goes through `Write`.
 */
module WorldMaps {
  import opened Wrappers
  import opened Vectors
  import opened Flags
  import opened Grids

  class WorldMap {
    const W: nat
    const H: nat
    const data: array2<Flag>

    /** The array has the map's shape. */
    ghost predicate Valid()
      reads this
    {
      data.Length0 == H && data.Length1 == W
    }

    /** The map as a value: row `y`, column `x` is `data[y, x]`. */
    function Cells(): (g: Grid)
      requires Valid()
      reads this, data
      ensures Shaped(g, W, H)
      ensures forall y, x :: 0 <= y < H && 0 <= x < W ==> g[y][x] == data[y, x]
    {
      seq(H, y requires 0 <= y < H reads data => seq(W, x requires 0 <= x < W reads data => data[y, x]))
    }

    /** `Map::new()`: a W by H map of `Flag::EMPTY` cells. */
    constructor (w: nat, h: nat)
      ensures W == w && H == h && Valid()
      ensures Cells() == EmptyGrid(w, h)
      ensures fresh(data)
    {
      W, H := w, h;
      data := new Flag[h, w]((y, x) => Word(EMPTY));
      new;
      assert Cells() == EmptyGrid(w, h) by {
        var g := Cells();
        var e := EmptyGrid(w, h);
        forall y | 0 <= y < h
          ensures g[y] == e[y]
        {
        }
      }
    }

    /** `map[y][x] = v`: one cell is replaced and no other changes. */
    method Write(x: nat, y: nat, v: Flag)
      requires Valid() && x < W && y < H
      modifies data
      ensures Cells() == Put(old(Cells()), x, y, v)
    {
      ghost var before := Cells();
      data[y, x] := v;
      ghost var after := Cells();
      ghost var want := Put(before, x, y, v);
      forall yy | 0 <= yy < H
        ensures after[yy] == want[yy]
      {
        assert |after[yy]| == |want[yy]| == W;
      }
    }

    /** `*map = other`: every cell takes the other map's value. */
    method Assign(other: WorldMap)
      requires Valid() && other.Valid() && other.W == W && other.H == H && other.data != data
      modifies data
      ensures Cells() == old(other.Cells())
    {
      ghost var want := other.Cells();
      for y := 0 to H
        invariant Valid() && other.Cells() == want
        invariant forall yy, xx :: 0 <= yy < H && 0 <= xx < W ==>
                    Cells()[yy][xx] == if yy < y then want[yy][xx] else old(Cells())[yy][xx]
      {
        for x := 0 to W
          invariant Valid() && other.Cells() == want
          invariant forall yy, xx :: 0 <= yy < H && 0 <= xx < W ==>
                      Cells()[yy][xx] == if yy < y || (yy == y && xx < x) then want[yy][xx] else old(Cells())[yy][xx]
        {
          Write(x, y, other.data[y, x]);
        }
      }
      assert Cells() == want by {
        forall yy | 0 <= yy < H
          ensures Cells()[yy] == want[yy]
        {
        }
      }
    }

    /** `Map::get_ivec2` on this map. */
    function GetIvec2(p: IVec2): (r: Option<Flag>)
      requires Valid()
      reads this, data
      ensures r == Grids.GetIvec2(Cells(), W, H, p)
    {
      if p.x > 0 && p.y > 0 && p.x < W && p.y < H then Some(data[p.y, p.x]) else None
    }
  }
}
