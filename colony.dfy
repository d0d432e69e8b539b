/**
 * The discrete part of src/hivemind/colony.rs: the drone state machine, which
 * states steer by a signal, the colony's spawn clock with its resource cost
 * and death rule, the gather and deposit signals, and the colony setup.
 */
module Colonies {
  import opened Wrappers
  import opened Vectors
  import opened Flags
  import opened Grids
  import opened WorldMaps

  /** `DroneState` */
  datatype DroneState = ToHome | ToHomeNoFood | ToFood | Exploring | Gathering | Depositing | Resting | Dead

  /** The cell a drone reads: `get_vec2` of its position, or `EMPTY` off the map. */
  function CellOrEmpty(cell: Option<Flag>): Flag {
    match cell
    case Some(f) => f
    case None => Word(EMPTY)
  }

  /**
   * The state change of `update_drones`, its guarded arms in source order,
   * with `*state` (no change) as the fall-through. `colony` is the drone's
   * own colony bit, which only the `ToHomeNoFood` stay guard reads.
   */
  function Advance(state: DroneState, cell: Flag, colony: bv10, autonomy: bool): (r: DroneState)
    ensures r == Dead <==> state == Dead
  {
    match state
    case ToHome => if Intersects(cell, Kinds(COLONY_ALL)) then Depositing else ToHome
    case ToHomeNoFood =>
      if Intersects(cell, Kinds(COLONY_ALL)) then Resting
      else if !Intersects(cell, Kinds(colony)) then ToHomeNoFood
      else state
    case ToFood =>
      if Intersects(cell, Kinds(HIVE_FOOD)) then Gathering
      else if autonomy then Exploring
      else state
    case Exploring => if !autonomy then ToFood else Exploring
    case Gathering => if Intersects(cell, Kinds(HIVE_FOOD)) then ToHome else ToHomeNoFood
    case Depositing => ToFood
    case Resting => ToFood
    case Dead => Dead
  }

  /**
   * The transitions that do not read the cell: `Dead` is absorbing,
   * `Depositing` and `Resting` always go to `ToFood`, and `Exploring` goes to
   * `ToFood` exactly when autonomy is off and stays otherwise.
   */
  lemma DroneTransitions(state: DroneState, cell: Flag, colony: bv10, autonomy: bool)
    ensures state == Dead ==> Advance(state, cell, colony, autonomy) == Dead
    ensures state == Depositing || state == Resting ==> Advance(state, cell, colony, autonomy) == ToFood
    ensures state == Exploring ==> (Advance(state, cell, colony, autonomy) == ToFood <==> !autonomy)
    ensures state == Exploring ==> Advance(state, cell, colony, autonomy) == ToFood || Advance(state, cell, colony, autonomy) == Exploring
  {
  }

  /**
   * The food part of the transition table: `Gathering` goes to `ToHome` on
   * food and to `ToHomeNoFood` off it; `ToFood` goes to `Gathering` on food,
   * and off food to `Exploring` with autonomy and nowhere without.
   */
  lemma DroneFoodTransitions(state: DroneState, cell: Flag, colony: bv10, autonomy: bool)
    ensures state == Gathering ==>
              Advance(state, cell, colony, autonomy) == if cell.kind & HIVE_FOOD != 0 then ToHome else ToHomeNoFood
    ensures state == ToFood ==>
              Advance(state, cell, colony, autonomy) ==
                if cell.kind & HIVE_FOOD != 0 then Gathering else if autonomy then Exploring else ToFood
  {
  }

  /**
   * The homeward part of the transition table: `ToHome` deposits and
   * `ToHomeNoFood` rests on any colony's cell, whatever the drone's own
   * colony; elsewhere both stay.
   */
  lemma DroneHomeTransitions(state: DroneState, cell: Flag, colony: bv10, autonomy: bool)
    ensures state == ToHome ==>
              Advance(state, cell, colony, autonomy) == if cell.kind & COLONY_ALL != 0 then Depositing else ToHome
    ensures state == ToHomeNoFood ==>
              Advance(state, cell, colony, autonomy) == if cell.kind & COLONY_ALL != 0 then Resting else ToHomeNoFood
  {
  }

  /** Only `Dead` leads to `Dead`: no transition kills a drone. */
  lemma NoTransitionKills(state: DroneState, cell: Flag, colony: bv10, autonomy: bool)
    ensures Advance(state, cell, colony, autonomy) == Dead <==> state == Dead
  {
  }

  /** The steering signal a state follows: toward home, along the food gradient, or exploring. */
  datatype Signal = HomeSignal | FoodSignal | ExploreSignal

  /** `signal`: `None` for the states that do not move. */
  function SignalOf(state: DroneState): (r: Option<Signal>)
    ensures r.None? <==> state == Gathering || state == Depositing || state == Resting || state == Dead
  {
    match state
    case ToHome => Some(HomeSignal)
    case ToHomeNoFood => Some(HomeSignal)
    case ToFood => Some(FoodSignal)
    case Exploring => Some(ExploreSignal)
    case Gathering => None
    case Depositing => None
    case Resting => None
    case Dead => None
  }

  /**
   * The autonomy a drone leaves a frame with. Without a signal it is kept.
   * `ToFood` and `Exploring` take it from their threshold test, which `lost`
   * stands for (the food signal is weak, or no gradient nor attractor is
   * strong). Every other state loses it.
   */
  function AutonomyAfter(state: DroneState, lost: bool, autonomy: bool): (r: bool)
    ensures SignalOf(state).None? ==> r == autonomy
    ensures state == ToHome || state == ToHomeNoFood ==> !r
  {
    match SignalOf(state)
    case None => autonomy
    case Some(_) => if state == ToFood || state == Exploring then lost else false
  }

  /**
   * The signal is absent exactly for `Gathering`, `Depositing`, `Resting`
   * and `Dead`, which then keep their autonomy. Homeward drones always lose
   * it.
   */
  lemma SignalRules(state: DroneState, lost: bool, autonomy: bool)
    ensures SignalOf(state).None? <==> state in {Gathering, Depositing, Resting, Dead}
    ensures SignalOf(state).None? ==> AutonomyAfter(state, lost, autonomy) == autonomy
    ensures state == ToHome || state == ToHomeNoFood ==> !AutonomyAfter(state, lost, autonomy)
    ensures SignalOf(state) == Some(HomeSignal) <==> state == ToHome || state == ToHomeNoFood
  {
  }

  /** A drone: its state, its autonomy bit, and its colony's flag. */
  class Drone {
    const colony: bv10
    var state: DroneState
    var autonomy: bool

    /** `Drone::new()` with `DroneState::Exploring`, as every spawn inserts it. */
    constructor (colony: bv10)
      ensures this.colony == colony && state == Exploring && !autonomy
    {
      this.colony := colony;
      state := Exploring;
      autonomy := false;
    }

    /**
     * One frame of `update_drones` for this drone. A drone stuck in a wall
     * (`stuck`: it is still in a wall after bouncing) returns before the
     * state change. Otherwise its state advances on `cell` and, if the new
     * state follows a signal, its autonomy is reset.
     */
    method Update(cell: Option<Flag>, stuck: bool, lost: bool)
      modifies this
      ensures stuck ==> state == old(state) && autonomy == old(autonomy)
      ensures !stuck ==> state == Advance(old(state), CellOrEmpty(cell), colony, old(autonomy))
      ensures !stuck ==> autonomy == AutonomyAfter(state, lost, old(autonomy))
    {
      if stuck {
        return;
      }
      var here := match cell case Some(f) => f case None => Word(EMPTY);
      state := match state
        case ToHome => if Intersects(here, Kinds(COLONY_ALL)) then Depositing else ToHome
        case ToHomeNoFood =>
          if Intersects(here, Kinds(COLONY_ALL)) then Resting
          else if !Intersects(here, Kinds(colony)) then ToHomeNoFood
          else state
        case ToFood =>
          if Intersects(here, Kinds(HIVE_FOOD)) then Gathering
          else if autonomy then Exploring
          else state
        case Exploring => if !autonomy then ToFood else Exploring
        case Gathering => if Intersects(here, Kinds(HIVE_FOOD)) then ToHome else ToHomeNoFood
        case Depositing => ToFood
        case Resting => ToFood
        case Dead => Dead;
      match SignalOf(state)
      case Some(_) =>
        autonomy := match state
          case ToFood => lost
          case Exploring => lost
          case _ => false;
      case None =>
    }
  }

  /** A drone as `signal_drones` sees it: its state and position. */
  datatype DroneAt = DroneAt(state: DroneState, pos: Vec2)

  /** The positions of the drones in state `s`, in query order. */
  function InState(ds: seq<DroneAt>, s: DroneState): (ps: seq<Vec2>)
    ensures |ps| <= |ds|
  {
    if ds == [] then []
    else InState(ds[..|ds| - 1], s) + (if ds[|ds| - 1].state == s then [ds[|ds| - 1].pos] else [])
  }

  /** A position is signalled exactly when some drone in that state stands there. */
  lemma {:induction false} InStateMembers(ds: seq<DroneAt>, s: DroneState, p: Vec2)
    ensures p in InState(ds, s) <==> exists i :: 0 <= i < |ds| && ds[i].state == s && ds[i].pos == p
  {
    if ds != [] {
      var front := ds[..|ds| - 1];
      InStateMembers(front, s, p);
      if exists i :: 0 <= i < |ds| && ds[i].state == s && ds[i].pos == p {
        var i :| 0 <= i < |ds| && ds[i].state == s && ds[i].pos == p;
        if i < |front| {
          assert front[i] == ds[i];
        }
      }
      if exists i :: 0 <= i < |front| && front[i].state == s && front[i].pos == p {
        var i :| 0 <= i < |front| && front[i].state == s && front[i].pos == p;
        assert ds[i] == front[i];
      }
    }
  }

  /** The gather and deposit signals go to disjoint drones: together they are at most one per drone. */
  lemma {:induction false} SignalsPerDrone(ds: seq<DroneAt>)
    ensures |InState(ds, Gathering)| + |InState(ds, Depositing)| <= |ds|
  {
    if ds != [] {
      SignalsPerDrone(ds[..|ds| - 1]);
    }
  }

  /**
   * `signal_drones`: a `GatherEvent` at the position of every `Gathering`
   * drone and a `DepositEvent` at that of every `Depositing` drone, in query
   * order.
   */
  method SignalDrones(drones: seq<DroneAt>) returns (gathers: seq<Vec2>, deposits: seq<Vec2>)
    ensures gathers == InState(drones, Gathering) && deposits == InState(drones, Depositing)
  {
    gathers, deposits := [], [];
    for i := 0 to |drones|
      invariant gathers == InState(drones[..i], Gathering) && deposits == InState(drones[..i], Depositing)
    {
      assert drones[..i + 1][..i] == drones[..i];
      match drones[i].state
      case Gathering =>
        gathers := gathers + [drones[i].pos];
      case Depositing =>
        deposits := deposits + [drones[i].pos];
      case _ =>
    }
    assert drones[..|drones|] == drones;
  }

  /** `drone_cost`: the count a colony spends on each drone. */
  const DRONE_COST: nat := 9

  /** A colony's cell after one clock firing: pay for a drone, or die when the count is 0 and `cheat` is off. */
  function ColonyFire(c: Flag, cheat: bool): (r: Flag)
    ensures c.quantity > 0 ==> r.kind == c.kind && r.quantity < c.quantity && c.quantity - r.quantity <= DRONE_COST
    ensures c.quantity == 0 ==> r == if cheat then c else Word(EMPTY)
  {
    var resource := GetResourceQuantity(c);
    if resource > 0 then SetResourceQuantity(c, resource - if resource < DRONE_COST then resource else DRONE_COST)
    else if !cheat then Word(EMPTY)
    else c
  }

  /** The cell after `k` firings. */
  function ColonyFires(c: Flag, cheat: bool, k: nat): Flag {
    if k == 0 then c else ColonyFire(ColonyFires(c, cheat, k - 1), cheat)
  }

  /** How many firings spend a count of `q`: `ceil(q / drone_cost)`. */
  function SpendFirings(q: nat): nat {
    (q + DRONE_COST - 1) / DRONE_COST
  }

  /**
   * Each firing spends `drone_cost`, or what is left when less remains,
   * and keeps the kind bits.
   */
  lemma {:induction false} ColonySpends(c: Flag, cheat: bool, k: nat)
    requires k <= SpendFirings(c.quantity)
    ensures ColonyFires(c, cheat, k) == Flag(c.kind, if c.quantity < DRONE_COST * k then 0 else c.quantity - DRONE_COST * k)
  {
    if k > 0 {
      ColonySpends(c, cheat, k - 1);
    }
  }

  /**
   * A colony holding `q` pays for `ceil(q / 9)` drones and, without `cheat`,
   * the next firing leaves its cell `EMPTY`.
   */
  lemma ColonyLifetime(c: Flag)
    ensures forall k :: 0 <= k <= SpendFirings(c.quantity) ==> ColonyFires(c, false, k).kind == c.kind
    ensures ColonyFires(c, false, SpendFirings(c.quantity)) == Flag(c.kind, 0)
    ensures ColonyFires(c, false, SpendFirings(c.quantity) + 1) == Word(EMPTY)
  {
    forall k | 0 <= k <= SpendFirings(c.quantity)
      ensures ColonyFires(c, false, k).kind == c.kind
    {
      ColonySpends(c, false, k);
    }
    ColonySpends(c, false, SpendFirings(c.quantity));
  }

  /** With `cheat` on, a colony's cell never loses its kind bits, however often it fires. */
  lemma {:induction false} CheatKeepsColony(c: Flag, k: nat)
    ensures ColonyFires(c, true, k).kind == c.kind
  {
    if k > 0 {
      CheatKeepsColony(c, k - 1);
    }
  }

  /** What a colony firing spawns: a drone of that colony, or the GAME OVER text. */
  datatype ColonySpawn = DroneSpawn(pos: Vec2, home: Vec2, colony: bv10) | GameOverText

  /** The drone every firing spawns: `Exploring`, at the colony, homing to its cell's centre. */
  function NewDrone(x: nat, y: nat, colony: bv10): ColonySpawn {
    DroneSpawn(Vec2(x as real, y as real), Vec2(x as real + 0.5, y as real + 0.5), colony)
  }

  /** `GameTimer`'s repeat flag: the game clock stops when a colony dies. */
  class GameTimer {
    var repeating: bool

    constructor ()
      ensures repeating
    {
      repeating := true;
    }
  }

  /**
   * One clock firing of `update_colony` for the colony with flag `colony` at
   * cell (`x`, `y`). With count 0 it shows GAME OVER; if `cheat` is off, it
   * also empties the cell, despawns the colony and stops the game clock. It
   * always spawns one drone, even on the fatal firing.
   */
  method ColonyFiring(m: WorldMap, x: nat, y: nat, colony: bv10, cheat: bool, timer: GameTimer)
      returns (spawns: seq<ColonySpawn>, despawned: bool)
    requires m.Valid() && x < m.W && y < m.H
    modifies m.data, timer
    ensures m.Cells() == Put(old(m.Cells()), x, y, ColonyFire(old(m.Cells())[y][x], cheat))
    ensures despawned <==> old(m.Cells())[y][x].quantity == 0 && !cheat
    ensures timer.repeating == (old(timer.repeating) && !despawned)
    ensures spawns == (if old(m.Cells())[y][x].quantity == 0 then [GameOverText] else []) + [NewDrone(x, y, colony)]
  {
    spawns := [];
    despawned := false;
    var resource := GetResourceQuantity(m.data[y, x]);
    if resource > 0 {
      m.Write(x, y, SetResourceQuantity(m.data[y, x], resource - if resource < DRONE_COST then resource else DRONE_COST));
    } else {
      if !cheat {
        m.Write(x, y, Word(EMPTY));
        despawned := true;
        timer.repeating := false;
      } else {
        PutSame(m.Cells(), x, y);
      }
      spawns := spawns + [GameOverText];
    }
    spawns := spawns + [NewDrone(x, y, colony)];
  }

  /** The colony cells of `setup`: `location_y`, `location_m` and `location_c` of the default config. */
  const COLONY_CELLS: seq<(nat, nat, bv10)> := [(25, 25, COLONY_Y), (25, 50, COLONY_M), (50, 25, COLONY_C)]

  /** `setup`'s write to a colony cell: its colony bit is added and its count set to 1000. */
  function SeedColony(c: Flag, colony: bv10): Flag {
    SetResourceQuantity(Insert(c, colony), COLONY_MAX)
  }

  /** The map after `setup`, colony by colony. */
  function SetupGrid(g: Grid, cells: seq<(nat, nat, bv10)>): (r: Grid)
    requires forall i :: 0 <= i < |cells| ==> cells[i].1 < |g| && forall j :: 0 <= j < |g| ==> cells[i].0 < |g[j]|
    ensures |r| == |g| && forall j :: 0 <= j < |g| ==> |r[j]| == |g[j]|
  {
    if cells == [] then g
    else
      var r := SetupGrid(g, cells[..|cells| - 1]);
      var (x, y, colony) := cells[|cells| - 1];
      Put(r, x, y, SeedColony(r[y][x], colony))
  }

  /**
   * After `setup`, each colony cell holds its own colony bit, keeps its other
   * kind bits and holds 1000; every other cell is unchanged.
   */
  lemma SetupColonies(g: Grid, W: nat, H: nat)
    requires Shaped(g, W, H) && W > 50 && H > 50
    ensures var r := SetupGrid(g, COLONY_CELLS);
            Shaped(r, W, H) &&
            r[25][25] == Flag(g[25][25].kind | COLONY_Y, 1000) &&
            r[50][25] == Flag(g[50][25].kind | COLONY_M, 1000) &&
            r[25][50] == Flag(g[25][50].kind | COLONY_C, 1000) &&
            forall y, x :: 0 <= y < H && 0 <= x < W && (x, y) !in {(25, 25), (25, 50), (50, 25)} ==> r[y][x] == g[y][x]
  {
    var c1 := COLONY_CELLS[..1];
    var c2 := COLONY_CELLS[..2];
    assert COLONY_CELLS[..2] == c2 && c2[..1] == c1 && c1[..0] == [];
    assert c1[0] == (25, 25, COLONY_Y) && c2[1] == (25, 50, COLONY_M);
    assert SetupGrid(g, c1[..0]) == g;
    var r1 := SetupGrid(g, c1);
    var r2 := SetupGrid(g, c2);
    assert r1 == Put(g, 25, 25, SeedColony(g[25][25], COLONY_Y));
    assert r2 == Put(r1, 25, 50, SeedColony(r1[50][25], COLONY_M));
  }

  /** One colony cell of `setup`: its colony bit is added, then its count set to 1000. */
  method SeedCell(m: WorldMap, x: nat, y: nat, colony: bv10)
    requires m.Valid() && x < m.W && y < m.H
    modifies m.data
    ensures m.Valid()
    ensures m.Cells() == Put(old(m.Cells()), x, y, SeedColony(old(m.Cells())[y][x], colony))
  {
    ghost var g := m.Cells();
    m.Write(x, y, Insert(m.data[y, x], colony));
    m.Write(x, y, SetResourceQuantity(m.data[y, x], COLONY_MAX));
    PutPut(g, x, y, Insert(g[y][x], colony), SeedColony(g[y][x], colony));
  }

  /**
   * `setup`: each colony cell gets its colony bit and a count of 1000, and
   * `starting` (one) `Exploring` drone spawns at each colony, in the order
   * Y, M, C.
   */
  method Setup(m: WorldMap) returns (drones: seq<ColonySpawn>)
    requires m.Valid() && m.W > 50 && m.H > 50
    modifies m.data
    ensures m.Cells() == SetupGrid(old(m.Cells()), COLONY_CELLS)
    ensures drones == [NewDrone(25, 25, COLONY_Y), NewDrone(25, 50, COLONY_M), NewDrone(50, 25, COLONY_C)]
  {
    ghost var g := m.Cells();
    drones := [];
    for i := 0 to |COLONY_CELLS|
      invariant m.Valid()
      invariant m.Cells() == SetupGrid(g, COLONY_CELLS[..i])
      invariant drones == seq(i, k requires 0 <= k < i => NewDrone(COLONY_CELLS[k].0, COLONY_CELLS[k].1, COLONY_CELLS[k].2))
    {
      assert COLONY_CELLS[..i + 1][..i] == COLONY_CELLS[..i];
      var (x, y, colony) := COLONY_CELLS[i];
      SeedCell(m, x, y, colony);
      drones := drones + [NewDrone(x, y, colony)];
    }
    assert COLONY_CELLS[..3] == COLONY_CELLS;
  }
}
