/**
 * `handle_event` of src/world.rs: the player's clicks on the map. A left click
 * plants a flower and a right click a tree on an empty cell; a middle click
 * removes a flower or tree. Each costs one unit of the matching ammunition
 * unless cheats are on. Space toggles the game speed and C toggles cheats.
 */
module WorldInput {
  import opened Flags
  import opened Grids
  import opened WorldMaps
  import opened Game

  /** `MouseButton`: the three the game uses, and any other. */
  datatype Button = Left | Right | Middle | OtherButton

  /** A `WorldClickEvent`, at the map cell its position falls in. */
  datatype Click = Click(x: nat, y: nat, btn: Button)

  /** An entity `handle_event` spawns: a `Flower` or a `Tree` at a cell. */
  datatype Spawn = FlowerAt(x: nat, y: nat) | TreeAt(x: nat, y: nat)

  /** `Cheat`: while on, placing and removing costs no ammunition. */
  class Cheat {
    var on: bool

    constructor (on: bool)
      ensures this.on == on
    {
      this.on := on;
    }
  }

  /** What one click does: the clicked cell's new word, the game events sent, the entities spawned. */
  datatype ClickEffect = ClickEffect(cell: Flag, events: seq<GameEvent>, spawns: seq<Spawn>)

  /** A decrement of one counter, unless cheats are on. */
  function Charge(cheat: bool, e: GameEvent): (es: seq<GameEvent>)
    ensures |es| <= 1 && (es == [] <==> cheat)
  {
    if cheat then [] else [e]
  }

  /**
   * One click on cell `c`, with `a` the ammunition at the start of the frame
   * (`Res<GameState>` is not updated while the clicks are handled).
   */
  function ClickOn(c: Flag, click: Click, a: Ammo, cheat: bool): (r: ClickEffect)
    ensures |r.events| <= 1 && |r.spawns| <= 1
    ensures r.cell == c ==> r.events == [] && r.spawns == []
  {
    match click.btn
    case Left =>
      if a.flower > 0 && IsEmpty(c) then
        ClickEffect(Insert(SetResourceQuantity(c, FLOWER_MAX), FLOWER), Charge(cheat, Flower(Decrement)), [FlowerAt(click.x, click.y)])
      else ClickEffect(c, [], [])
    case Right =>
      if a.tree > 0 && IsEmpty(c) then
        ClickEffect(Insert(SetResourceQuantity(c, TREE_MAX), TREE), Charge(cheat, Tree(Decrement)), [TreeAt(click.x, click.y)])
      else ClickEffect(c, [], [])
    case Middle =>
      if a.delete > 0 && Intersects(Masked(c, KIND_MASK), Kinds(FLOWER | TREE)) then
        ClickEffect(Word(EMPTY), Charge(cheat, Delete(Decrement)), [])
      else ClickEffect(c, [], [])
    case OtherButton => ClickEffect(c, [], [])
  }

  /**
   * The placement and removal rules. A left (right) click changes a cell only
   * if the whole word is 0 and flower (tree) ammunition is left, and then
   * makes it exactly a flower (tree) holding 1000. A middle click changes a
   * cell only if its kind bits hold a flower or a tree and delete ammunition is
   * left, and then clears the word to 0. Any other button does nothing.
   */
  lemma PlacementRules(c: Flag, click: Click, a: Ammo, cheat: bool)
    ensures var r := ClickOn(c, click, a, cheat).cell;
            (click.btn == Left ==> (r != c <==> IsEmpty(c) && a.flower > 0) && (r != c ==> r == Flag(FLOWER, 1000))) &&
            (click.btn == Right ==> (r != c <==> IsEmpty(c) && a.tree > 0) && (r != c ==> r == Flag(TREE, 1000))) &&
            (click.btn == Middle ==> (r != c <==> c.kind & (FLOWER | TREE) != 0 && a.delete > 0) && (r != c ==> r == Word(EMPTY))) &&
            (click.btn == OtherButton ==> r == c)
  {
  }

  /**
   * A click sends a game event only when cheats are off and it changed the
   * cell, and the event is one `Decrement` of the clicked button's counter.
   */
  lemma ChargeRules(c: Flag, click: Click, a: Ammo, cheat: bool)
    ensures var e := ClickOn(c, click, a, cheat);
            (e.events != [] <==> !cheat && e.cell != c) &&
            (e.events != [] ==> e.events == [match click.btn
                                             case Left => Flower(Decrement)
                                             case Right => Tree(Decrement)
                                             case _ => Delete(Decrement)])
  {
  }

  /** All clicks address cells of the map (clicks are only sent over a tile). */
  predicate ClicksOnMap(W: nat, H: nat, clicks: seq<Click>) {
    forall i :: 0 <= i < |clicks| ==> clicks[i].x < W && clicks[i].y < H
  }

  /** The clicks of a frame applied in order to the map: its new cells, the events and spawns in order. */
  datatype Handled = Handled(grid: Grid, events: seq<GameEvent>, spawns: seq<Spawn>)

  function ApplyClicks(g: Grid, W: nat, H: nat, clicks: seq<Click>, a: Ammo, cheat: bool): (r: Handled)
    requires Shaped(g, W, H) && ClicksOnMap(W, H, clicks)
    ensures Shaped(r.grid, W, H)
  {
    if clicks == [] then Handled(g, [], [])
    else
      var front := ApplyClicks(g, W, H, clicks[..|clicks| - 1], a, cheat);
      var click := clicks[|clicks| - 1];
      var e := ClickOn(front.grid[click.y][click.x], click, a, cheat);
      Handled(Put(front.grid, click.x, click.y, e.cell), front.events + e.events, front.spawns + e.spawns)
  }

  /** How many of the clicks used button `b`. */
  function Presses(clicks: seq<Click>, b: Button): (n: nat)
    ensures n <= |clicks|
  {
    if clicks == [] then 0 else Presses(clicks[..|clicks| - 1], b) + (if clicks[|clicks| - 1].btn == b then 1 else 0)
  }

  /** The events of one click: at most one, a `Decrement` of the clicked button's counter, whose snapshot is positive. */
  lemma ClickEventCounts(c: Flag, click: Click, a: Ammo, cheat: bool)
    ensures var es := ClickOn(c, click, a, cheat).events;
            |es| <= 1 &&
            (forall i :: 0 <= i < |es| ==> IsDecrement(es[i])) &&
            multiset(es)[Flower(Decrement)] <= (if click.btn == Left then 1 else 0) &&
            multiset(es)[Tree(Decrement)] <= (if click.btn == Right then 1 else 0) &&
            multiset(es)[Delete(Decrement)] <= (if click.btn == Middle then 1 else 0) &&
            (multiset(es)[Flower(Decrement)] > 0 ==> a.flower > 0) &&
            (multiset(es)[Tree(Decrement)] > 0 ==> a.tree > 0) &&
            (multiset(es)[Delete(Decrement)] > 0 ==> a.delete > 0) &&
            (cheat ==> es == [])
  {
  }

  /**
   * Over a frame's clicks: with cheats on no event is sent; otherwise each
   * counter gets at most one `Decrement` per click of its button, and only if
   * its snapshot is positive; no other kind of event is sent.
   */
  lemma {:induction false} ClickEvents(g: Grid, W: nat, H: nat, clicks: seq<Click>, a: Ammo, cheat: bool)
    requires Shaped(g, W, H) && ClicksOnMap(W, H, clicks)
    ensures var es := ApplyClicks(g, W, H, clicks, a, cheat).events;
            (cheat ==> es == []) &&
            (forall i :: 0 <= i < |es| ==> IsDecrement(es[i])) &&
            multiset(es)[Flower(Decrement)] <= Presses(clicks, Left) &&
            multiset(es)[Tree(Decrement)] <= Presses(clicks, Right) &&
            multiset(es)[Delete(Decrement)] <= Presses(clicks, Middle) &&
            (multiset(es)[Flower(Decrement)] > 0 ==> a.flower > 0) &&
            (multiset(es)[Tree(Decrement)] > 0 ==> a.tree > 0) &&
            (multiset(es)[Delete(Decrement)] > 0 ==> a.delete > 0)
  {
    if clicks != [] {
      var front := clicks[..|clicks| - 1];
      ClickEvents(g, W, H, front, a, cheat);
      var f := ApplyClicks(g, W, H, front, a, cheat);
      var click := clicks[|clicks| - 1];
      var e := ClickOn(f.grid[click.y][click.x], click, a, cheat);
      ClickEventCounts(f.grid[click.y][click.x], click, a, cheat);
      var es := f.events + e.events;
      assert ApplyClicks(g, W, H, clicks, a, cheat).events == es;
      assert multiset(es) == multiset(f.events) + multiset(e.events);
      forall i | 0 <= i < |es|
        ensures IsDecrement(es[i])
      {
        if i >= |f.events| {
          assert es[i] == e.events[i - |f.events|];
        }
      }
    }
  }

  /** Reordering the events of a frame keeps them a frame. */
  lemma FrameEventsReordered(a: Ammo, es: seq<GameEvent>, fs: seq<GameEvent>)
    requires multiset(es) == multiset(fs) && FrameEvents(a, fs)
    ensures FrameEvents(a, es)
  {
    forall i | 0 <= i < |es|
      ensures FrameEvent(es[i])
    {
      assert es[i] in multiset(fs);
      var k :| 0 <= k < |fs| && fs[k] == es[i];
    }
  }

  /** The click events, the reload events and the space key's toggle of one frame, in that order, form a frame. */
  lemma FrameInOrder(a: Ammo, ce: seq<GameEvent>, re: seq<GameEvent>, se: seq<GameEvent>)
    requires forall i :: 0 <= i < |ce| ==> IsDecrement(ce[i])
    requires multiset(ce)[Flower(Decrement)] <= 1 && multiset(ce)[Tree(Decrement)] <= 1 && multiset(ce)[Delete(Decrement)] <= 1
    requires (multiset(ce)[Flower(Decrement)] > 0 ==> a.flower > 0) && (multiset(ce)[Tree(Decrement)] > 0 ==> a.tree > 0)
             && (multiset(ce)[Delete(Decrement)] > 0 ==> a.delete > 0)
    requires FrameEvents(a, re) && forall i :: 0 <= i < |re| ==> IsIncrement(re[i])
    requires se == [] || se == [SpeedChange(Toggle)]
    ensures FrameEvents(a, ce + re + se)
  {
    var es := ce + re + se;
    InOrderEvents(ce, re, se);
    assert multiset(es) == multiset(ce) + multiset(re) + multiset(se);
    CounterInOrder(a.flower, ce, re, se, Flower(Decrement), Flower(Increment));
    CounterInOrder(a.tree, ce, re, se, Tree(Decrement), Tree(Increment));
    CounterInOrder(a.delete, ce, re, se, Delete(Decrement), Delete(Increment));
  }

  /** Decrements, then increments, then a toggle are all events a frame may carry. */
  lemma InOrderEvents(ce: seq<GameEvent>, re: seq<GameEvent>, se: seq<GameEvent>)
    requires forall i :: 0 <= i < |ce| ==> IsDecrement(ce[i])
    requires forall i :: 0 <= i < |re| ==> IsIncrement(re[i])
    requires se == [] || se == [SpeedChange(Toggle)]
    ensures forall i :: 0 <= i < |ce + re + se| ==> FrameEvent((ce + re + se)[i])
  {
    var es := ce + re + se;
    forall i | 0 <= i < |es|
      ensures FrameEvent(es[i])
    {
      if i < |ce| {
        assert es[i] == ce[i];
      } else if i < |ce| + |re| {
        assert es[i] == re[i - |ce|];
      } else {
        assert es[i] == se[i - |ce| - |re|];
      }
    }
  }

  /** One counter's clicks, reload and toggle: the `Decrement`s come from the clicks, the `Increment` from the reload. */
  lemma CounterInOrder(v: U8, ce: seq<GameEvent>, re: seq<GameEvent>, se: seq<GameEvent>, dec: GameEvent, inc: GameEvent)
    requires forall i :: 0 <= i < |ce| ==> IsDecrement(ce[i])
    requires forall i :: 0 <= i < |re| ==> IsIncrement(re[i])
    requires IsDecrement(dec) && IsIncrement(inc)
    requires se == [] || se == [SpeedChange(Toggle)]
    requires multiset(ce)[dec] <= 1 && (multiset(ce)[dec] > 0 ==> v > 0)
    requires CounterFrame(v, multiset(re), dec, inc)
    ensures CounterFrame(v, multiset(ce) + multiset(re) + multiset(se), dec, inc)
  {
    assert inc !in ce;
    assert dec !in re;
  }

  /**
   * One frame's game events (clicks, with at most one press per button as
   * `just_pressed` gives, then the reload clock and the space key, arriving in
   * any order) keep every counter within 0 to `MAX_AMMO` once handled.
   */
  lemma FrameKeepsAmmo(g: Grid, W: nat, H: nat, clicks: seq<Click>, a: Ammo, cheat: bool,
                       fired: bool, space: bool, speed: real, es: seq<GameEvent>)
    requires Shaped(g, W, H) && ClicksOnMap(W, H, clicks)
    requires Presses(clicks, Left) <= 1 && Presses(clicks, Right) <= 1 && Presses(clicks, Middle) <= 1
    requires a.flower <= MAX_AMMO && a.tree <= MAX_AMMO && a.delete <= MAX_AMMO
    requires multiset(es) == multiset(ApplyClicks(g, W, H, clicks, a, cheat).events + Reload(a, fired)
                                      + (if space then [SpeedChange(Toggle)] else []))
    ensures ApplyGameEvents(a, speed, es).Some?
    ensures var r := ApplyGameEvents(a, speed, es).value.ammo;
            r.flower <= MAX_AMMO && r.tree <= MAX_AMMO && r.delete <= MAX_AMMO
  {
    var ce := ApplyClicks(g, W, H, clicks, a, cheat).events;
    var re := Reload(a, fired);
    var se: seq<GameEvent> := if space then [SpeedChange(Toggle)] else [];
    ClickEvents(g, W, H, clicks, a, cheat);
    ReloadFitsFrame(a, fired);
    FrameInOrder(a, ce, re, se);
    FrameEventsReordered(a, es, ce + re + se);
    AmmoStaysInRange(a, speed, es);
  }

  /** One click of `handle_event`'s loop: the clicked cell, the events and the spawns as `ClickOn` says. */
  method HandleClick(m: WorldMap, click: Click, a: Ammo, cheat: bool) returns (events: seq<GameEvent>, spawns: seq<Spawn>)
    requires m.Valid() && click.x < m.W && click.y < m.H
    modifies m.data
    ensures var e := ClickOn(old(m.Cells())[click.y][click.x], click, a, cheat);
            m.Cells() == Put(old(m.Cells()), click.x, click.y, e.cell) && events == e.events && spawns == e.spawns
  {
    var cell := m.data[click.y, click.x];
    ghost var before := m.Cells();
    ghost var effect := ClickOn(cell, click, a, cheat);
    events, spawns := [], [];
    match click.btn
    case Left =>
      if a.flower > 0 && IsEmpty(cell) {
        if !cheat {
          events := events + [Flower(Decrement)];
        }
        spawns := spawns + [FlowerAt(click.x, click.y)];
        m.Write(click.x, click.y, SetResourceQuantity(cell, FLOWER_MAX));
        m.Write(click.x, click.y, Insert(m.data[click.y, click.x], FLOWER));
        PutPut(before, click.x, click.y, SetResourceQuantity(cell, FLOWER_MAX), effect.cell);
      } else {
        PutSame(before, click.x, click.y);
      }
    case Right =>
      if a.tree > 0 && IsEmpty(cell) {
        if !cheat {
          events := events + [Tree(Decrement)];
        }
        spawns := spawns + [TreeAt(click.x, click.y)];
        m.Write(click.x, click.y, SetResourceQuantity(cell, TREE_MAX));
        m.Write(click.x, click.y, Insert(m.data[click.y, click.x], TREE));
        PutPut(before, click.x, click.y, SetResourceQuantity(cell, TREE_MAX), effect.cell);
      } else {
        PutSame(before, click.x, click.y);
      }
    case Middle =>
      if a.delete > 0 && Intersects(Masked(cell, KIND_MASK), Kinds(FLOWER | TREE)) {
        if !cheat {
          events := events + [Delete(Decrement)];
        }
        m.Write(click.x, click.y, SetResourceQuantity(cell, 0));
        m.Write(click.x, click.y, Word(EMPTY));
        PutPut(before, click.x, click.y, SetResourceQuantity(cell, 0), Word(EMPTY));
      } else {
        PutSame(before, click.x, click.y);
      }
    case OtherButton =>
      PutSame(before, click.x, click.y);
  }

  /**
   * `handle_event`: the frame's clicks in order, then the space key (a speed
   * toggle) and the C key (cheats flipped).
   */
  method HandleEvent(m: WorldMap, clicks: seq<Click>, a: Ammo, cheat: Cheat, space: bool, cKey: bool)
    returns (events: seq<GameEvent>, spawns: seq<Spawn>)
    requires m.Valid() && ClicksOnMap(m.W, m.H, clicks)
    modifies m.data, cheat
    ensures var r := ApplyClicks(old(m.Cells()), m.W, m.H, clicks, a, old(cheat.on));
            m.Cells() == r.grid &&
            events == r.events + (if space then [SpeedChange(Toggle)] else []) &&
            spawns == r.spawns
    ensures cheat.on == (old(cheat.on) != cKey)
  {
    ghost var g0 := m.Cells();
    events, spawns := [], [];
    for i := 0 to |clicks|
      invariant cheat.on == old(cheat.on)
      invariant ApplyClicks(g0, m.W, m.H, clicks[..i], a, cheat.on) == Handled(m.Cells(), events, spawns)
    {
      assert clicks[..i + 1][..i] == clicks[..i];
      var es, ss := HandleClick(m, clicks[i], a, cheat.on);
      events, spawns := events + es, spawns + ss;
    }
    assert clicks[..|clicks|] == clicks;
    if space {
      events := events + [SpeedChange(Toggle)];
    }
    if cKey {
      cheat.on := !cheat.on;
    }
  }
}
