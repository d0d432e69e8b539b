/**
 * Resource accounting of src/hivemind/mod.rs. Every frame `gather` and
 * `deposit` drain the event queues that `signal_drones` fills. Each event
 * changes the count of the cell a drone stands on.
 */
module Hivemind {
  import opened Flags
  import opened Grids
  import opened WorldMaps

  /** The cell a drone stands on when it sends a `GatherEvent` or `DepositEvent`. */
  datatype CellPos = CellPos(x: nat, y: nat)

  /** One gather: take one unit, or clear `HIVE_FOOD` from an exhausted cell. */
  function GatherOnce(f: Flag): (r: Flag)
    ensures f.quantity > 0 ==> r == Flag(f.kind, f.quantity - 1)
    ensures f.quantity == 0 ==> r == Flag(f.kind & !HIVE_FOOD, 0)
  {
    var resource := GetResourceQuantity(f);
    if resource > 0 then SetResourceQuantity(f, resource - 1) else Remove(f, HIVE_FOOD)
  }

  /** One deposit: add one unit unless the count is already `MAX_RESOURCE_COUNT`. */
  function DepositOnce(f: Flag): (r: Flag)
    ensures r.kind == f.kind
    ensures r.quantity == f.quantity + 1 || r.quantity == f.quantity == MAX_RESOURCE_COUNT
  {
    var resource := GetResourceQuantity(f);
    if resource < MAX_RESOURCE_COUNT then SetResourceQuantity(f, resource + 1) else f
  }

  /** `n` gathers in a row on one cell. */
  function GatherN(f: Flag, n: nat): Flag {
    if n == 0 then f else GatherOnce(GatherN(f, n - 1))
  }

  /** `n` deposits in a row on one cell. */
  function DepositN(f: Flag, n: nat): Flag {
    if n == 0 then f else DepositOnce(DepositN(f, n - 1))
  }

  /** How many events of `es` address cell `p`. */
  function CountAt(es: seq<CellPos>, p: CellPos): (n: nat)
    ensures n <= |es|
  {
    if es == [] then 0 else CountAt(es[..|es| - 1], p) + (if es[|es| - 1] == p then 1 else 0)
  }

  /** While the count lasts, each gather takes exactly one unit and keeps every kind bit. */
  lemma {:induction false} GatherTakesOne(f: Flag, n: nat)
    requires n <= f.quantity
    ensures GatherN(f, n) == Flag(f.kind, f.quantity - n)
  {
    if n > 0 {
      GatherTakesOne(f, n - 1);
    }
  }

  /**
   * Once the count is spent, the next gather clears `HIVE_FOOD` and keeps
   * the other kind bits, and later gathers change nothing.
   */
  lemma {:induction false} GatherAfterEmpty(f: Flag, n: nat)
    requires n > f.quantity
    ensures GatherN(f, n) == Flag(f.kind & !HIVE_FOOD, 0)
  {
    if n == f.quantity + 1 {
      GatherTakesOne(f, f.quantity);
    } else {
      GatherAfterEmpty(f, n - 1);
    }
  }

  /** A flower holding quantity q still has its FLOWER bit after q gathers and loses it at gather q + 1. */
  lemma FlowerLastsQuantityPlusOne(f: Flag)
    requires f.kind & FLOWER != 0
    ensures forall n :: 0 <= n <= f.quantity ==> Intersects(GatherN(f, n), Kinds(FLOWER))
    ensures !Intersects(GatherN(f, f.quantity + 1), Kinds(FLOWER))
  {
    forall n | 0 <= n <= f.quantity
      ensures Intersects(GatherN(f, n), Kinds(FLOWER))
    {
      GatherTakesOne(f, n);
    }
    GatherAfterEmpty(f, f.quantity + 1);
  }

  /** Deposits count up and stop at `MAX_RESOURCE_COUNT`; the kind bits never change. */
  lemma {:induction false} DepositSaturates(f: Flag, n: nat)
    ensures DepositN(f, n).kind == f.kind
    ensures DepositN(f, n).quantity == if f.quantity + n <= MAX_RESOURCE_COUNT then f.quantity + n else MAX_RESOURCE_COUNT
  {
    if n > 0 {
      DepositSaturates(f, n - 1);
    }
  }

  /** One event of either system: a gather, or a deposit. */
  function Once(f: Flag, gather: bool): Flag {
    if gather then GatherOnce(f) else DepositOnce(f)
  }

  /** `n` events of either system on one cell. */
  function Times(f: Flag, n: nat, gather: bool): Flag {
    if gather then GatherN(f, n) else DepositN(f, n)
  }

  /** The events address cells of a `W` by `H` map. */
  predicate Fits(W: nat, H: nat, es: seq<CellPos>) {
    forall i :: 0 <= i < |es| ==> es[i].x < W && es[i].y < H
  }

  /** The map after the events, applied one at a time in order, each to its own cell. */
  ghost function Applied(g: Grid, W: nat, H: nat, es: seq<CellPos>, gather: bool): (r: Grid)
    requires Shaped(g, W, H) && Fits(W, H, es)
    ensures Shaped(r, W, H)
  {
    if es == [] then g
    else
      var r := Applied(g, W, H, es[..|es| - 1], gather);
      var e := es[|es| - 1];
      Put(r, e.x, e.y, Once(r[e.y][e.x], gather))
  }

  /**
   * Applying the events in order leaves every cell with as many gathers (or
   * deposits) as the events name it, and no other change.
   */
  lemma {:induction false} AppliedCells(g: Grid, W: nat, H: nat, es: seq<CellPos>, gather: bool)
    requires Shaped(g, W, H) && Fits(W, H, es)
    ensures forall y, x :: 0 <= y < H && 0 <= x < W ==>
              Applied(g, W, H, es, gather)[y][x] == Times(g[y][x], CountAt(es, CellPos(x, y)), gather)
  {
    if es != [] {
      var front := es[..|es| - 1];
      AppliedCells(g, W, H, front, gather);
    }
  }

  /**
   * `gather`: events apply in order, each one to its own cell only, so every
   * cell ends up gathered as many times as events name it.
   */
  method Gather(m: WorldMap, events: seq<CellPos>)
    requires m.Valid() && Fits(m.W, m.H, events)
    modifies m.data
    ensures forall y, x :: 0 <= y < m.H && 0 <= x < m.W ==>
              m.Cells()[y][x] == GatherN(old(m.Cells())[y][x], CountAt(events, CellPos(x, y)))
  {
    ghost var g0 := m.Cells();
    for i := 0 to |events|
      invariant m.Cells() == Applied(g0, m.W, m.H, events[..i], true)
    {
      var e := events[i];
      assert events[..i + 1][..i] == events[..i];
      var cell := m.data[e.y, e.x];
      var resource := GetResourceQuantity(cell);
      if resource > 0 {
        m.Write(e.x, e.y, SetResourceQuantity(cell, resource - 1));
      } else {
        m.Write(e.x, e.y, Remove(cell, HIVE_FOOD));
      }
    }
    assert events[..|events|] == events;
    AppliedCells(g0, m.W, m.H, events, true);
  }

  /**
   * `deposit`: events apply in order, each one to its own cell only, so every
   * cell ends up deposited on as many times as events name it.
   */
  method Deposit(m: WorldMap, events: seq<CellPos>)
    requires m.Valid() && Fits(m.W, m.H, events)
    modifies m.data
    ensures forall y, x :: 0 <= y < m.H && 0 <= x < m.W ==>
              m.Cells()[y][x] == DepositN(old(m.Cells())[y][x], CountAt(events, CellPos(x, y)))
  {
    ghost var g0 := m.Cells();
    for i := 0 to |events|
      invariant m.Cells() == Applied(g0, m.W, m.H, events[..i], false)
    {
      var e := events[i];
      assert events[..i + 1][..i] == events[..i];
      var cell := m.data[e.y, e.x];
      var resource := GetResourceQuantity(cell);
      if resource < MAX_RESOURCE_COUNT {
        m.Write(e.x, e.y, SetResourceQuantity(cell, resource + 1));
      } else {
        PutSame(m.Cells(), e.x, e.y);
      }
    }
    assert events[..|events|] == events;
    AppliedCells(g0, m.W, m.H, events, false);
  }

  /** A cell that no event names is left as it was, by either system. */
  lemma {:induction false} UntouchedCells(g: Grid, W: nat, H: nat, es: seq<CellPos>, gather: bool, x: nat, y: nat)
    requires Shaped(g, W, H) && Fits(W, H, es) && x < W && y < H && CountAt(es, CellPos(x, y)) == 0
    ensures Applied(g, W, H, es, gather)[y][x] == g[y][x]
  {
    AppliedCells(g, W, H, es, gather);
  }
}
