/**
 * `Map::initialize_map` of src/world.rs: the saved map is loaded, every tree
 * and flower it holds is filled up, and every empty border cell becomes a
 * full tree, so that the map is walled in.
 */
module WorldInit {
  import opened Flags
  import opened Grids
  import opened WorldMaps
  import opened SaveMaps

  /** The first pass on one loaded cell: a tree, then a flower, is set to its full count. */
  function Refill(c: Flag): (r: Flag)
    ensures r.kind == c.kind
    ensures c.kind & (TREE | FLOWER) == 0 ==> r == c
  {
    var c1 := if Intersects(c, Kinds(TREE)) then SetResourceQuantity(c, TREE_MAX) else c;
    if Intersects(c1, Kinds(FLOWER)) then SetResourceQuantity(c1, FLOWER_MAX) else c1
  }

  /** A border pass on one cell: an empty cell becomes a full tree. */
  function FillIfEmpty(c: Flag): (r: Flag)
    ensures !IsEmpty(r)
    ensures !IsEmpty(c) ==> r == c
  {
    if IsEmpty(c) then SetResourceQuantity(Word(TREE), TREE_MAX) else c
  }

  /** Column 0 or W - 1, or row 0 or H - 1. */
  predicate OnBorder(W: nat, H: nat, x: nat, y: nat) {
    x == 0 || x + 1 == W || y == 0 || y + 1 == H
  }

  /**
   * The cell (x, y) after `initialize_map`, from the loaded cell: refilled if
   * it lies within the saved width and height, then filled if on the border.
   */
  function InitCell(loaded: Flag, W: nat, H: nat, sw: nat, sh: nat, x: nat, y: nat): Flag {
    var c := if x < sw && y < sh then Refill(loaded) else loaded;
    if OnBorder(W, H, x, y) then FillIfEmpty(c) else c
  }

  /** Refilling keeps the kind bits, and fills every tree or flower to 1000. */
  lemma RefillFills(c: Flag)
    ensures Refill(c).kind == c.kind
    ensures c.kind & (TREE | FLOWER) != 0 ==> Refill(c).quantity == 1000
    ensures c.kind & (TREE | FLOWER) == 0 ==> Refill(c) == c
  {
  }

  /** Filling is idempotent, and what it leaves is never empty. */
  lemma FillIdempotent(c: Flag)
    ensures FillIfEmpty(FillIfEmpty(c)) == FillIfEmpty(c)
    ensures !IsEmpty(FillIfEmpty(c))
    ensures !IsEmpty(c) ==> FillIfEmpty(c) == c
  {
  }

  /**
   * After `initialize_map` every border cell is non-empty, every loaded tree
   * or flower within the saved size holds 1000, and an inner cell that is
   * neither keeps its loaded word.
   */
  lemma InitializedMap(loaded: Flag, W: nat, H: nat, sw: nat, sh: nat, x: nat, y: nat)
    ensures OnBorder(W, H, x, y) ==> !IsEmpty(InitCell(loaded, W, H, sw, sh, x, y))
    ensures x < sw && y < sh && loaded.kind & (TREE | FLOWER) != 0 ==>
              InitCell(loaded, W, H, sw, sh, x, y) == Flag(loaded.kind, 1000)
    ensures !OnBorder(W, H, x, y) && loaded.kind & (TREE | FLOWER) == 0 ==>
              InitCell(loaded, W, H, sw, sh, x, y) == loaded
    ensures OnBorder(W, H, x, y) && IsEmpty(loaded) ==>
              InitCell(loaded, W, H, sw, sh, x, y) == Flag(TREE, 1000)
  {
    RefillFills(loaded);
    FillIdempotent(if x < sw && y < sh then Refill(loaded) else loaded);
  }

  /** A rectangle of cells, `x0 <= x < x1` and `y0 <= y < y1`. */
  datatype Rect = Rect(x0: int, x1: int, y0: int, y1: int)

  predicate InRect(r: Rect, x: nat, y: nat) {
    r.x0 <= x < r.x1 && r.y0 <= y < r.y1
  }

  /** The cell lies in one of the rectangles. */
  predicate InSome(rs: seq<Rect>, x: nat, y: nat) {
    if rs == [] then false else InSome(rs[..|rs| - 1], x, y) || InRect(rs[|rs| - 1], x, y)
  }

  /** `b` is `a` with every cell inside one of `rs` passed through `FillIfEmpty`. */
  ghost predicate FilledOn(a: Grid, b: Grid, W: nat, H: nat, rs: seq<Rect>) {
    Shaped(a, W, H) && Shaped(b, W, H) &&
    forall y, x :: 0 <= y < H && 0 <= x < W ==>
      b[y][x] == if InSome(rs, x, y) then FillIfEmpty(a[y][x]) else a[y][x]
  }

  /** The rectangles the border passes cover, in the order they run. */
  function BorderRects(W: nat, H: nat): seq<Rect> {
    [Rect(0, 1, 1, H - 1), Rect(W - 1, W, 1, H - 1),
     Rect(1, W - 1, 0, 1), Rect(1, W - 1, H - 1, H),
     Rect(0, 1, 0, 1), Rect(W - 1, W, 0, 1), Rect(0, 1, H - 1, H), Rect(W - 1, W, H - 1, H)]
  }

  /** The border passes cover exactly the border: no border cell is missed, no inner cell is touched. */
  lemma BorderRectsCoverBorder(W: nat, H: nat, x: nat, y: nat)
    requires x < W && y < H
    ensures InSome(BorderRects(W, H), x, y) <==> OnBorder(W, H, x, y)
  {
    var rs := BorderRects(W, H);
    InSomeAny(rs, x, y);
    if OnBorder(W, H, x, y) {
      if x == 0 {
        if y == 0 { assert InRect(rs[4], x, y); }
        else if y + 1 == H { assert InRect(rs[6], x, y); }
        else { assert InRect(rs[0], x, y); }
      } else if x + 1 == W {
        if y == 0 { assert InRect(rs[5], x, y); }
        else if y + 1 == H { assert InRect(rs[7], x, y); }
        else { assert InRect(rs[1], x, y); }
      } else if y == 0 {
        assert InRect(rs[2], x, y);
      } else {
        assert InRect(rs[3], x, y);
      }
    }
  }

  /** `InSome` says that some rectangle of the list holds the cell. */
  lemma {:induction false} InSomeAny(rs: seq<Rect>, x: nat, y: nat)
    ensures InSome(rs, x, y) <==> exists i :: 0 <= i < |rs| && InRect(rs[i], x, y)
  {
    if rs != [] {
      var front := rs[..|rs| - 1];
      InSomeAny(front, x, y);
      if InSome(front, x, y) {
        var i :| 0 <= i < |front| && InRect(front[i], x, y);
        assert InRect(rs[i], x, y);
      }
      if exists i :: 0 <= i < |rs| && InRect(rs[i], x, y) {
        var i :| 0 <= i < |rs| && InRect(rs[i], x, y);
        if i < |rs| - 1 {
          assert InRect(front[i], x, y);
        }
      }
    }
  }

  /** `map[y][x]` passes through the first pass's two checks. */
  method RefillCell(m: WorldMap, x: nat, y: nat)
    requires m.Valid() && x < m.W && y < m.H
    modifies m.data
    ensures forall yy, xx :: 0 <= yy < m.H && 0 <= xx < m.W ==>
              m.Cells()[yy][xx] == if yy == y && xx == x then Refill(old(m.Cells())[yy][xx]) else old(m.Cells())[yy][xx]
  {
    if m.data[y, x].kind & TREE != 0 {
      m.Write(x, y, SetResourceQuantity(m.data[y, x], TREE_MAX));
    }
    if m.data[y, x].kind & FLOWER != 0 {
      m.Write(x, y, SetResourceQuantity(m.data[y, x], FLOWER_MAX));
    }
  }

  /** `if map[y][x].is_empty() { map[y][x] = Flag::TREE; map[y][x].set_resource_quantity(Tree::MAX) }` */
  method FillCell(m: WorldMap, x: nat, y: nat)
    requires m.Valid() && x < m.W && y < m.H
    modifies m.data
    ensures FilledOn(old(m.Cells()), m.Cells(), m.W, m.H, [Rect(x, x + 1, y, y + 1)])
  {
    if IsEmpty(m.data[y, x]) {
      m.Write(x, y, Word(TREE));
      m.Write(x, y, SetResourceQuantity(m.data[y, x], TREE_MAX));
    }
    InSomeSingle(Rect(x, x + 1, y, y + 1));
  }

  /** A single rectangle covers exactly its own cells. */
  lemma InSomeSingle(r: Rect)
    ensures forall x: nat, y: nat :: InSome([r], x, y) == InRect(r, x, y)
  {
    assert [r][..0] == [];
  }

  /** One more cell of a column or row filled extends the filled rectangle by that cell. */
  lemma FillExtends(g: Grid, b: Grid, c: Grid, W: nat, H: nat, done: Rect, next: Rect, grown: Rect)
    requires FilledOn(g, b, W, H, [done]) && FilledOn(b, c, W, H, [next])
    requires forall x: nat, y: nat :: InRect(grown, x, y) == (InRect(done, x, y) || InRect(next, x, y))
    ensures FilledOn(g, c, W, H, [grown])
  {
    InSomeSingle(done);
    InSomeSingle(next);
    InSomeSingle(grown);
    forall y, x | 0 <= y < H && 0 <= x < W
      ensures c[y][x] == if InRect(grown, x, y) then FillIfEmpty(g[y][x]) else g[y][x]
    {
      FillIdempotent(g[y][x]);
    }
  }

  /** One column of the first border pass: rows 1 to H - 2 of column `x`. */
  method FillColumn(m: WorldMap, x: nat)
    requires m.Valid() && x < m.W
    modifies m.data
    ensures FilledOn(old(m.Cells()), m.Cells(), m.W, m.H, [Rect(x, x + 1, 1, m.H - 1)])
  {
    ghost var g := m.Cells();
    InSomeSingle(Rect(x, x + 1, 1, 1));
    var y := 1;
    while y < m.H - 1
      invariant 1 <= y && (m.H >= 2 ==> y <= m.H - 1)
      invariant m.Valid() && FilledOn(g, m.Cells(), m.W, m.H, [Rect(x, x + 1, 1, y)])
    {
      ghost var before := m.Cells();
      FillCell(m, x, y);
      FillExtends(g, before, m.Cells(), m.W, m.H, Rect(x, x + 1, 1, y), Rect(x, x + 1, y, y + 1), Rect(x, x + 1, 1, y + 1));
      y := y + 1;
    }
    if m.H < 2 {
      InSomeSingle(Rect(x, x + 1, 1, m.H - 1));
      InSomeSingle(Rect(x, x + 1, 1, y));
    }
  }

  /** One row of the second border pass: columns 1 to W - 2 of row `y`. */
  method FillRow(m: WorldMap, y: nat)
    requires m.Valid() && y < m.H
    modifies m.data
    ensures FilledOn(old(m.Cells()), m.Cells(), m.W, m.H, [Rect(1, m.W - 1, y, y + 1)])
  {
    ghost var g := m.Cells();
    InSomeSingle(Rect(1, 1, y, y + 1));
    var x := 1;
    while x < m.W - 1
      invariant 1 <= x && (m.W >= 2 ==> x <= m.W - 1)
      invariant m.Valid() && FilledOn(g, m.Cells(), m.W, m.H, [Rect(1, x, y, y + 1)])
    {
      ghost var before := m.Cells();
      FillCell(m, x, y);
      FillExtends(g, before, m.Cells(), m.W, m.H, Rect(1, x, y, y + 1), Rect(x, x + 1, y, y + 1), Rect(1, x + 1, y, y + 1));
      x := x + 1;
    }
    if m.W < 2 {
      InSomeSingle(Rect(1, m.W - 1, y, y + 1));
      InSomeSingle(Rect(1, x, y, y + 1));
    }
  }

  /** The first pass: every cell within the saved width and height is refilled. */
  method RefillLoaded(m: WorldMap, sw: nat, sh: nat)
    requires m.Valid() && sw <= m.W && sh <= m.H
    modifies m.data
    ensures forall yy, xx :: 0 <= yy < m.H && 0 <= xx < m.W ==>
              m.Cells()[yy][xx] == if xx < sw && yy < sh then Refill(old(m.Cells())[yy][xx]) else old(m.Cells())[yy][xx]
  {
    ghost var g := m.Cells();
    for y := 0 to sh
      invariant forall yy, xx :: 0 <= yy < m.H && 0 <= xx < m.W ==>
                  m.Cells()[yy][xx] == if xx < sw && yy < y then Refill(g[yy][xx]) else g[yy][xx]
    {
      for x := 0 to sw
        invariant forall yy, xx :: 0 <= yy < m.H && 0 <= xx < m.W ==>
                    m.Cells()[yy][xx] == if (xx < sw && yy < y) || (yy == y && xx < x) then Refill(g[yy][xx]) else g[yy][xx]
      {
        RefillCell(m, x, y);
      }
    }
  }

  /** The three border passes: the two edge columns, the two edge rows, then the four corners. */
  method FillBorder(m: WorldMap)
    requires m.Valid() && m.W >= 1 && m.H >= 1
    modifies m.data
    ensures FilledOn(old(m.Cells()), m.Cells(), m.W, m.H, BorderRects(m.W, m.H))
  {
    var W, H := m.W, m.H;
    ghost var g := m.Cells();
    FillEdges(m);
    ghost var b := m.Cells();
    FillCorners(m);
    FilledOnAppend(g, b, m.Cells(), W, H, BorderRects(W, H)[..4], BorderRects(W, H)[4..]);
    assert BorderRects(W, H)[..4] + BorderRects(W, H)[4..] == BorderRects(W, H);
  }

  /** The first two border passes: columns 0 and W - 1, then rows 0 and H - 1, without their corners. */
  method FillEdges(m: WorldMap)
    requires m.Valid() && m.W >= 1 && m.H >= 1
    modifies m.data
    ensures FilledOn(old(m.Cells()), m.Cells(), m.W, m.H, BorderRects(m.W, m.H)[..4])
  {
    var W, H := m.W, m.H;
    ghost var g0 := m.Cells();
    FillColumn(m, 0);
    ghost var g1 := m.Cells();
    var right, bottom := W - 1, H - 1;
    FillColumn(m, right);
    ghost var g2 := m.Cells();
    FillRow(m, 0);
    ghost var g3 := m.Cells();
    FillRow(m, bottom);
    FilledOnFour(g0, g1, g2, g3, m.Cells(), W, H, Rect(0, 1, 1, H - 1), Rect(right, right + 1, 1, H - 1),
                 Rect(1, W - 1, 0, 1), Rect(1, W - 1, bottom, bottom + 1));
    assert BorderRects(W, H)[..4] == [Rect(0, 1, 1, H - 1), Rect(W - 1, W, 1, H - 1), Rect(1, W - 1, 0, 1), Rect(1, W - 1, H - 1, H)];
  }

  /** The third border pass: the four corners, row by row. */
  method FillCorners(m: WorldMap)
    requires m.Valid() && m.W >= 1 && m.H >= 1
    modifies m.data
    ensures FilledOn(old(m.Cells()), m.Cells(), m.W, m.H, BorderRects(m.W, m.H)[4..])
  {
    var W, H := m.W, m.H;
    ghost var g0 := m.Cells();
    FillCell(m, 0, 0);
    ghost var g1 := m.Cells();
    var right, bottom := W - 1, H - 1;
    FillCell(m, right, 0);
    ghost var g2 := m.Cells();
    FillCell(m, 0, bottom);
    ghost var g3 := m.Cells();
    FillCell(m, right, bottom);
    FilledOnFour(g0, g1, g2, g3, m.Cells(), W, H, Rect(0, 1, 0, 1), Rect(right, right + 1, 0, 1),
                 Rect(0, 1, bottom, bottom + 1), Rect(right, right + 1, bottom, bottom + 1));
    assert BorderRects(W, H)[4..] == [Rect(0, 1, 0, 1), Rect(W - 1, W, 0, 1), Rect(0, 1, H - 1, H), Rect(W - 1, W, H - 1, H)];
  }

  /** Four border passes, one after the other, each over one rectangle, cover the four rectangles. */
  lemma FilledOnFour(g0: Grid, g1: Grid, g2: Grid, g3: Grid, g4: Grid, W: nat, H: nat, r0: Rect, r1: Rect, r2: Rect, r3: Rect)
    requires FilledOn(g0, g1, W, H, [r0]) && FilledOn(g1, g2, W, H, [r1])
    requires FilledOn(g2, g3, W, H, [r2]) && FilledOn(g3, g4, W, H, [r3])
    ensures FilledOn(g0, g4, W, H, [r0, r1, r2, r3])
  {
    FilledOnAppend(g0, g1, g2, W, H, [r0], [r1]);
    assert [r0] + [r1] == [r0, r1];
    FilledOnAppend(g0, g2, g3, W, H, [r0, r1], [r2]);
    assert [r0, r1] + [r2] == [r0, r1, r2];
    FilledOnAppend(g0, g3, g4, W, H, [r0, r1, r2], [r3]);
    assert [r0, r1, r2] + [r3] == [r0, r1, r2, r3];
  }

  /** Two runs of border passes, one after the other, cover both lists of rectangles. */
  lemma FilledOnAppend(a: Grid, b: Grid, c: Grid, W: nat, H: nat, rs: seq<Rect>, ts: seq<Rect>)
    requires FilledOn(a, b, W, H, rs) && FilledOn(b, c, W, H, ts)
    ensures FilledOn(a, c, W, H, rs + ts)
  {
    forall y, x | 0 <= y < H && 0 <= x < W
      ensures c[y][x] == if InSome(rs + ts, x, y) then FillIfEmpty(a[y][x]) else a[y][x]
    {
      InSomeAppend(rs, ts, x, y);
      FillIdempotent(a[y][x]);
    }
  }

  /** A cell is in some rectangle of `rs + ts` exactly when it is in one of `rs` or one of `ts`. */
  lemma {:induction false} InSomeAppend(rs: seq<Rect>, ts: seq<Rect>, x: nat, y: nat)
    ensures InSome(rs + ts, x, y) <==> InSome(rs, x, y) || InSome(ts, x, y)
  {
    if ts == [] {
      assert rs + ts == rs;
    } else {
      var front := ts[..|ts| - 1];
      InSomeAppend(rs, front, x, y);
      assert (rs + ts)[..|rs + ts| - 1] == rs + front;
    }
  }

  /**
   * The refill loops index `map[y][x]` for every `y` below the saved height
   * and `x` below the saved width: they panic when a non-empty save is wider
   * or taller than the map.
   */
  predicate RefillPanics(W: nat, H: nat, sw: nat, sh: nat) {
    sw > 0 && sh > 0 && (sw > W || sh > H)
  }

  /**
   * `initialize_map` on the world map, which is square. The saved map is read
   * with `into_map` (on a square map the as-written and corrected readers are
   * the same), refilled within the saved size, and walled in. The loops over
   * the two-element arrays `xs = [0, W - 1]` and `ys = [0, H - 1]` are unrolled.
   * `ok` is false exactly where the source panics: the save is too short for
   * `into_map`'s reads, or larger than the map; the map is then left alone.
   */
  method InitializeMap(m: WorldMap, s: SaveMap) returns (ok: bool)
    requires m.Valid() && m.W == m.H && m.H >= 1
    modifies m.data
    ensures ok <==> IntoMapAsWritten(s, m.W, m.H).Some? && !RefillPanics(m.W, m.H, s.width, s.height)
    ensures !ok ==> m.Cells() == old(m.Cells())
    ensures ok ==> forall y, x :: 0 <= y < m.H && 0 <= x < m.W ==>
              m.Cells()[y][x] == InitCell(IntoMapAsWritten(s, m.W, m.H).value[y][x], m.W, m.H, s.width, s.height, x, y)
  {
    var W, H := m.W, m.H;
    var loaded := IntoMap(s, W, H);
    if loaded.None? || RefillPanics(W, H, s.width, s.height) {
      return false;
    }
    var empty := s.width == 0 || s.height == 0;
    var sw, sh := if empty then 0 else s.width, if empty then 0 else s.height;
    ghost var g0 := loaded.value.Cells();
    m.Assign(loaded.value);
    RefillLoaded(m, sw, sh);
    ghost var g1 := m.Cells();
    FillBorder(m);
    forall y, x | 0 <= y < H && 0 <= x < W
      ensures m.Cells()[y][x] == InitCell(g0[y][x], W, H, s.width, s.height, x, y)
    {
      BorderRectsCoverBorder(W, H, x, y);
      assert m.Cells()[y][x] == if OnBorder(W, H, x, y) then FillIfEmpty(g1[y][x]) else g1[y][x];
    }
    return true;
  }
}
