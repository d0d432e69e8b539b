/**
 * `SaveMap` of src/world.rs: the map flattened into one vector of cell words
 * for saving. `from_map` writes the rows one after the other (`x + y * W`).
 * `into_map` as written reads `x + y * H`; the corrected reader uses `W`.
 */
module SaveMaps {
  import opened Wrappers
  import opened Flags
  import opened Grids
  import opened WorldMaps

  /** A saved map: the cell words, and the width and height it was saved with. */
  datatype SaveMap = SaveMap(data: seq<Flag>, width: nat, height: nat)

  /** The rows of `g` one after the other. */
  function Flatten(g: Grid): (r: seq<Flag>)
    ensures forall y, x :: 0 <= y < |g| && 0 <= x < |g[y]| ==> g[y][x] in r
  {
    if g == [] then [] else Flatten(g[..|g| - 1]) + g[|g| - 1]
  }

  /** Where cell (x, y) sits in a vector whose rows are `stride` words apart. */
  function Offset(x: nat, y: nat, stride: nat): nat {
    x + y * stride
  }

  /** Flattening a W by H grid gives W * H words, cell (x, y) at `x + y * W`. */
  lemma {:induction false} FlattenLayout(g: Grid, W: nat, H: nat)
    requires Shaped(g, W, H)
    ensures |Flatten(g)| == W * H
    ensures forall y, x :: 0 <= y < H && 0 <= x < W ==> Offset(x, y, W) < W * H && Flatten(g)[Offset(x, y, W)] == g[y][x]
  {
    if H > 0 {
      var front := g[..H - 1];
      FlattenLayout(front, W, H - 1);
      var flat := Flatten(g);
      assert flat == Flatten(front) + g[H - 1];
      MulSucc(W, H - 1);
      forall y, x | 0 <= y < H && 0 <= x < W
        ensures Offset(x, y, W) < W * H && flat[Offset(x, y, W)] == g[y][x]
      {
        if y < H - 1 {
          assert front[y] == g[y];
        } else {
          LastRowOffset(x, y, W);
        }
      }
    }
  }

  lemma MulSucc(W: nat, k: nat)
    ensures W * (k + 1) == W * k + W
  {
  }

  lemma LastRowOffset(x: nat, y: nat, W: nat)
    ensures Offset(x, y, W) == W * y + x
  {
  }

  lemma MulMono(a: nat, b: nat, c: nat)
    requires a <= b
    ensures a * c <= b * c
  {
  }

  /** Every read of a W by H grid with rows `stride` apart falls inside `n` words. */
  predicate ReadsFit(n: nat, W: nat, H: nat, stride: nat) {
    W == 0 || H == 0 || Offset(W - 1, H - 1, stride) < n
  }

  /**
   * Rebuilding a W by H grid from `data` with rows `stride` words apart:
   * `None` where a read would index past the end of the vector (Rust panics).
   * `Flag::from_bits` never fails: the defined flags cover all 32 bits.
   */
  function ReadGrid(data: seq<Flag>, W: nat, H: nat, stride: nat): (r: Option<Grid>)
    ensures r.Some? <==> ReadsFit(|data|, W, H, stride)
    ensures r.Some? ==> Shaped(r.value, W, H)
    ensures r.Some? ==> forall y, x :: 0 <= y < H && 0 <= x < W ==>
                          Offset(x, y, stride) < |data| && r.value[y][x] == data[Offset(x, y, stride)]
  {
    if ReadsFit(|data|, W, H, stride) then
      ReadsFitAll(|data|, W, H, stride);
      Some(seq(H, y requires 0 <= y < H => seq(W, x requires 0 <= x < W => data[Offset(x, y, stride)])))
    else None
  }

  lemma ReadsFitAll(n: nat, W: nat, H: nat, stride: nat)
    requires ReadsFit(n, W, H, stride)
    ensures forall y, x :: 0 <= y < H && 0 <= x < W ==> Offset(x, y, stride) < n
  {
    forall y, x | 0 <= y < H && 0 <= x < W
      ensures Offset(x, y, stride) < n
    {
      MulMono(y, H - 1, stride);
    }
  }

  /** `SaveMap::into_map` as written: rows are read `H` words apart. */
  function IntoMapAsWritten(s: SaveMap, W: nat, H: nat): (r: Option<Grid>)
    ensures W == H ==> r == IntoMapValue(s, W, H)
  {
    ReadGrid(s.data, W, H, H)
  }

  /** `SaveMap::into_map` corrected: rows are read `W` words apart, as `from_map` writes them. */
  function IntoMapValue(s: SaveMap, W: nat, H: nat): Option<Grid> {
    ReadGrid(s.data, W, H, W)
  }

  /** `SaveMap::from_map`: the map's rows pushed one after the other, with its width and height. */
  method FromMap(m: WorldMap) returns (s: SaveMap)
    requires m.Valid()
    ensures s == SaveMap(Flatten(m.Cells()), m.W, m.H)
  {
    var data: seq<Flag> := [];
    ghost var g := m.Cells();
    for y := 0 to m.H
      invariant data == Flatten(g[..y])
    {
      for x := 0 to m.W
        invariant data == Flatten(g[..y]) + g[y][..x]
      {
        data := data + [m.data[y, x]];
      }
      assert g[..y + 1][..y] == g[..y];
      assert g[y][..m.W] == g[y];
    }
    assert g[..m.H] == g;
    s := SaveMap(data, m.W, m.H);
  }

  /**
   * `SaveMap::into_map` corrected, building a new map: `None` where the
   * vector is too short for a W by H map, otherwise the map it holds.
   */
  method IntoMap(s: SaveMap, W: nat, H: nat) returns (r: Option<WorldMap>)
    ensures r.None? <==> IntoMapValue(s, W, H).None?
    ensures r.Some? ==> fresh(r.value.data) && r.value.Valid() && r.value.W == W && r.value.H == H
                        && r.value.Cells() == IntoMapValue(s, W, H).value
  {
    if !ReadsFit(|s.data|, W, H, W) {
      return None;
    }
    ReadsFitAll(|s.data|, W, H, W);
    var m := new WorldMap(W, H);
    ghost var want := IntoMapValue(s, W, H).value;
    for y := 0 to H
      invariant m.Valid() && m.W == W && m.H == H && fresh(m.data)
      invariant forall yy, xx :: 0 <= yy < H && 0 <= xx < W ==>
                  m.Cells()[yy][xx] == if yy < y then want[yy][xx] else Word(EMPTY)
    {
      for x := 0 to W
        invariant m.Valid() && m.W == W && m.H == H && fresh(m.data)
        invariant forall yy, xx :: 0 <= yy < H && 0 <= xx < W ==>
                    m.Cells()[yy][xx] == if yy < y || (yy == y && xx < x) then want[yy][xx] else Word(EMPTY)
      {
        m.Write(x, y, s.data[Offset(x, y, W)]);
      }
    }
    assert m.Cells() == want by {
      forall yy | 0 <= yy < H
        ensures m.Cells()[yy] == want[yy]
      {
      }
    }
    return Some(m);
  }

  /** Saving then loading with the corrected reader gives back the same map, for every shape. */
  lemma RoundTrip(g: Grid, W: nat, H: nat)
    requires Shaped(g, W, H)
    ensures IntoMapValue(SaveMap(Flatten(g), W, H), W, H) == Some(g)
  {
    FlattenFits(g, W, H);
    var r := ReadGrid(Flatten(g), W, H, W).value;
    forall y | 0 <= y < H
      ensures r[y] == g[y]
    {
      assert |r[y]| == W == |g[y]|;
      forall x | 0 <= x < W
        ensures r[y][x] == g[y][x]
      {
        CellRoundTrip(g, W, H, x, y);
      }
    }
    assert |r| == H == |g|;
    assert r == g;
  }

  lemma CellRoundTrip(g: Grid, W: nat, H: nat, x: nat, y: nat)
    requires Shaped(g, W, H) && x < W && y < H
    ensures ReadsFit(|Flatten(g)|, W, H, W)
    ensures ReadGrid(Flatten(g), W, H, W).value[y][x] == g[y][x]
  {
    FlattenFits(g, W, H);
    FlattenLayout(g, W, H);
  }

  lemma FlattenFits(g: Grid, W: nat, H: nat)
    requires Shaped(g, W, H)
    ensures ReadsFit(|Flatten(g)|, W, H, W)
  {
    FlattenLayout(g, W, H);
    if W > 0 && H > 0 {
      assert Offset(W - 1, H - 1, W) < W * H;
    }
  }

  /** The as-written reader agrees with the corrected one on square maps, so `into_map(from_map(m)) == m` there. */
  lemma RoundTripSquare(g: Grid, N: nat)
    requires Shaped(g, N, N)
    ensures IntoMapAsWritten(SaveMap(Flatten(g), N, N), N, N) == Some(g)
  {
    RoundTrip(g, N, N);
  }

  /** With W = 1 and H = 2 the as-written reader indexes word 2 of a 2-word vector and panics. */
  lemma AsWrittenPanicsOnTallMap()
    ensures var g := [[Word(FLOWER)], [Word(TREE)]];
            Shaped(g, 1, 2) && IntoMapAsWritten(SaveMap(Flatten(g), 1, 2), 1, 2) == None
  {
    var g := [[Word(FLOWER)], [Word(TREE)]];
    assert Flatten(g) == [Word(FLOWER), Word(TREE)] by {
      assert g[..1] == [[Word(FLOWER)]];
      assert Flatten(g[..1]) == [Word(FLOWER)] by {
        assert g[..1][..0] == [];
      }
    }
  }

  /**
   * With W = 3 and H = 2 the as-written reader does not panic but reads the
   * wrong words into the second row: it starts that row at word 2, the last
   * cell of the first row.
   */
  lemma AsWrittenScramblesWideMap()
    ensures var g := [[Word(FLOWER), Word(TREE), Word(VOLCANO)], [Word(MULTIVAC), Word(WIRE), Word(OUTPOST)]];
            var r := IntoMapAsWritten(SaveMap(Flatten(g), 3, 2), 3, 2);
            Shaped(g, 3, 2) && r.Some? && r.value[1][0] == Word(VOLCANO) && r.value[1][0] != g[1][0]
  {
    var g := [[Word(FLOWER), Word(TREE), Word(VOLCANO)], [Word(MULTIVAC), Word(WIRE), Word(OUTPOST)]];
    var flat := Flatten(g);
    assert flat == [Word(FLOWER), Word(TREE), Word(VOLCANO), Word(MULTIVAC), Word(WIRE), Word(OUTPOST)] by {
      assert g[..1] == [g[0]];
      assert Flatten(g[..1]) == g[0] by {
        assert g[..1][..0] == [];
      }
    }
    assert ReadsFit(|flat|, 3, 2, 2) by {
      assert Offset(2, 1, 2) == 4;
    }
    assert Offset(0, 1, 2) == 2;
  }
}
