/**
 * The router of src/multivac/mod.rs. From its origin, Multivac runs a
 * breadth-first search over the map, with a visited table that maps each
 * reached cell to the cell it was reached from. The search alternates a
 * forward and a reverse neighbour order. When it reaches food (a flower, tree
 * or volcano), it marks an outpost there. It then walks the visited table back
 * toward the origin, laying wire on each empty cell.
 */
module Router {
  import opened Wrappers
  import opened Vectors
  import opened Flags
  import opened Grids
  import opened WorldMaps

  /** `DIRS`: north, south, east, west as grid offsets. */
  const DIRS: seq<IVec2> := [IVec2(0, 1), IVec2(0, -1), IVec2(1, 0), IVec2(-1, 0)]

  /** `Dir`; Rust's `Dir::None` is `NoDir` here. */
  datatype Dir = NoDir | North | South | East | West

  /** `Dir::from_ivec2`: the direction of an offset of `DIRS`, `NoDir` for any other. */
  function DirOf(d: IVec2): (r: Dir)
    ensures r != NoDir <==> d in DIRS
  {
    if d == DIRS[0] then North
    else if d == DIRS[1] then South
    else if d == DIRS[2] then East
    else if d == DIRS[3] then West
    else NoDir
  }

  /** The offset of a direction; `NoDir` has none. */
  function OffsetOf(d: Dir): IVec2
    requires d != NoDir
  {
    match d
    case North => DIRS[0]
    case South => DIRS[1]
    case East => DIRS[2]
    case West => DIRS[3]
  }

  /** `from_ivec2` names exactly the four offsets of `DIRS`, each with its own direction. */
  lemma DirOfInverse(v: IVec2, d: Dir)
    ensures DirOf(v) != NoDir <==> v in DIRS
    ensures DirOf(v) != NoDir ==> OffsetOf(DirOf(v)) == v
    ensures d != NoDir ==> DirOf(OffsetOf(d)) == d
  {
  }

  /** `WireKind` */
  datatype WireKind = Disconnect(d: Dir) | Connect(a: Dir, b: Dir)

  /** `WireKind::from_route`: the directions from `prev` and from `next` to `pos`. */
  function FromRoute(prev: IVec2, pos: IVec2, next: IVec2): (k: WireKind)
    ensures k.Connect?
    ensures k.a != NoDir <==> Sub(pos, prev) in DIRS
    ensures k.b != NoDir <==> Sub(pos, next) in DIRS
  {
    Connect(DirOf(Sub(pos, prev)), DirOf(Sub(pos, next)))
  }

  /**
   * A wire between two different orthogonal neighbours of its cell connects
   * two different, named directions.
   */
  lemma RouteWireConnects(prev: IVec2, pos: IVec2, next: IVec2)
    requires Sub(pos, prev) in DIRS && Sub(pos, next) in DIRS && prev != next
    ensures FromRoute(prev, pos, next).a != NoDir && FromRoute(prev, pos, next).b != NoDir
    ensures FromRoute(prev, pos, next).a != FromRoute(prev, pos, next).b
  {
    DirOfInverse(Sub(pos, prev), NoDir);
    DirOfInverse(Sub(pos, next), NoDir);
  }

  /** `SearchPath`: a cell to visit and the cell it was reached from. */
  datatype SearchPath = SearchPath(pos: IVec2, prev: IVec2)

  /** `MultivacState` */
  datatype MultivacState = Init | InitRoute(p: IVec2) | Route(p: IVec2) | InFlight | Search(found: Option<IVec2>) | Stop | Error

  /** The blocking test of `search` as written: `!MULTIVAC_FOOD`, which also covers every quantity bit. */
  const FORWARD_BLOCK_AS_WRITTEN: Mask := Not(Kinds(MULTIVAC_FOOD))
  /** The blocking test of `search_reverse`, and of `search` corrected: `!MULTIVAC_FOOD & KIND_MASK`. */
  const BLOCK: Mask := And(Not(Kinds(MULTIVAC_FOOD)), KIND_MASK)

  /** The search state of a `Multivac` as a value: its visited table and its queue. */
  datatype Frontier = Frontier(visited: map<IVec2, IVec2>, queue: seq<SearchPath>)

  /**
   * The neighbours of `pos` that a search step enqueues, in the order of
   * `dirs`: those `get_ivec2` accepts and that are not yet visited, each
   * reached from `pos`.
   */
  function Neighbours(g: Grid, W: nat, H: nat, visited: map<IVec2, IVec2>, pos: IVec2, dirs: seq<IVec2>): seq<SearchPath>
    requires Shaped(g, W, H)
  {
    if dirs == [] then []
    else
      var n := Add(pos, dirs[|dirs| - 1]);
      Neighbours(g, W, H, visited, pos, dirs[..|dirs| - 1]) +
      (if GetIvec2(g, W, H, n).Some? && n !in visited then [SearchPath(n, pos)] else [])
  }

  /** A search step's new frontier and the state it returns. */
  datatype Stepped = Stepped(frontier: Frontier, state: MultivacState)

  /**
   * One `search` step with neighbour order `dirs` and blocking mask `block`.
   * The front entry is popped; an already visited cell ends the step; else the
   * cell is recorded as visited (before the bounds check), and a cell
   * outside `get_ivec2`, a blocked cell, or food ends the step; else its
   * neighbours are enqueued.
   */
  function SearchStep(f: Frontier, g: Grid, W: nat, H: nat, dirs: seq<IVec2>, block: Mask): (r: Stepped)
    requires Shaped(g, W, H)
    ensures r.state.Stop? <==> f.queue == []
    ensures r.state.Search? || r.state.Stop? || r.state.InitRoute?
  {
    if f.queue == [] then Stepped(f, Stop)
    else
      var c, rest := f.queue[0], f.queue[1..];
      if c.pos in f.visited then Stepped(Frontier(f.visited, rest), Search(None))
      else
        var visited := f.visited[c.pos := c.prev];
        match GetIvec2(g, W, H, c.pos)
        case None => Stepped(Frontier(visited, rest), Search(None))
        case Some(flags) =>
          if Intersects(flags, block) then Stepped(Frontier(visited, rest), Search(None))
          else if Intersects(flags, Kinds(MULTIVAC_FOOD)) then Stepped(Frontier(visited, rest), InitRoute(c.pos))
          else Stepped(Frontier(visited, rest + Neighbours(g, W, H, visited, c.pos, dirs)), Search(Some(c.pos)))
  }

  /** The reverse of a sequence. */
  function Reverse<T>(s: seq<T>): (r: seq<T>)
    ensures |r| == |s|
  {
    if s == [] then [] else [s[|s| - 1]] + Reverse(s[..|s| - 1])
  }

  /** `DIRS.iter().rev()` */
  const REVERSED_DIRS: seq<IVec2> := [IVec2(-1, 0), IVec2(1, 0), IVec2(0, -1), IVec2(0, 1)]

  lemma ReversedDirs()
    ensures REVERSED_DIRS == Reverse(DIRS)
  {
    var d3, d2, d1 := DIRS[..3], DIRS[..2], DIRS[..1];
    assert d3[..2] == d2 && d2[..1] == d1 && d1[..0] == [];
    assert Reverse(d1) == [IVec2(0, 1)];
    assert Reverse(d2) == [IVec2(0, -1), IVec2(0, 1)];
    assert Reverse(d3) == [IVec2(1, 0), IVec2(0, -1), IVec2(0, 1)];
  }

  /** The neighbours for two runs of directions are those of the first run, then those of the second. */
  lemma {:induction false} NeighboursAppend(g: Grid, W: nat, H: nat, visited: map<IVec2, IVec2>, pos: IVec2, ds: seq<IVec2>, es: seq<IVec2>)
    requires Shaped(g, W, H)
    ensures Neighbours(g, W, H, visited, pos, ds + es) == Neighbours(g, W, H, visited, pos, ds) + Neighbours(g, W, H, visited, pos, es)
  {
    if es == [] {
      assert ds + es == ds;
    } else {
      var front := es[..|es| - 1];
      NeighboursAppend(g, W, H, visited, pos, ds, front);
      assert (ds + es)[..|ds + es| - 1] == ds + front;
    }
  }

  lemma {:induction false} ReverseAppend<T>(a: seq<T>, b: seq<T>)
    ensures Reverse(a + b) == Reverse(b) + Reverse(a)
  {
    if b == [] {
      assert a + b == a;
    } else {
      var front := b[..|b| - 1];
      ReverseAppend(a, front);
      assert (a + b)[..|a + b| - 1] == a + front;
    }
  }

  /**
   * Reversing the neighbour order reverses what is enqueued: `search_reverse`
   * enqueues the same entries as `search`, in the opposite order.
   */
  lemma {:induction false} NeighboursReversed(g: Grid, W: nat, H: nat, visited: map<IVec2, IVec2>, pos: IVec2, dirs: seq<IVec2>)
    requires Shaped(g, W, H)
    ensures Neighbours(g, W, H, visited, pos, Reverse(dirs)) == Reverse(Neighbours(g, W, H, visited, pos, dirs))
  {
    if dirs != [] {
      var front, last := dirs[..|dirs| - 1], dirs[|dirs| - 1];
      NeighboursReversed(g, W, H, visited, pos, front);
      NeighboursAppend(g, W, H, visited, pos, [last], Reverse(front));
      var one := Neighbours(g, W, H, visited, pos, [last]);
      assert [last][..0] == [];
      ReverseAppend(Neighbours(g, W, H, visited, pos, front), one);
      assert Reverse(one) == one by {
        if one != [] {
          assert one[..0] == [];
        }
      }
    }
  }

  /** Every enqueued neighbour is accepted by `get_ivec2`, was not visited, is reached from `pos`, and is `pos` plus one of `dirs`. */
  lemma {:induction false} NeighboursValid(g: Grid, W: nat, H: nat, visited: map<IVec2, IVec2>, pos: IVec2, dirs: seq<IVec2>)
    requires Shaped(g, W, H)
    ensures var ns := Neighbours(g, W, H, visited, pos, dirs);
            |ns| <= |dirs| &&
            forall i :: 0 <= i < |ns| ==>
              GetIvec2(g, W, H, ns[i].pos).Some? && ns[i].pos !in visited && ns[i].prev == pos && Sub(ns[i].pos, pos) in dirs
  {
    if dirs != [] {
      var front := dirs[..|dirs| - 1];
      NeighboursValid(g, W, H, visited, pos, front);
      var ns := Neighbours(g, W, H, visited, pos, dirs);
      forall i | 0 <= i < |ns|
        ensures Sub(ns[i].pos, pos) in dirs
      {
        if i < |Neighbours(g, W, H, visited, pos, front)| {
          var j :| 0 <= j < |front| && front[j] == Sub(ns[i].pos, pos);
          assert dirs[j] == front[j];
        } else {
          assert Sub(ns[i].pos, pos) == dirs[|dirs| - 1];
        }
      }
    }
  }

  /**
   * A search step. On an empty queue it returns `Stop` and changes nothing.
   * Otherwise it pops exactly the front entry and keeps every visited entry.
   * It adds at most the popped cell, mapped to where it was reached from, and
   * adds nothing when that cell was already visited. It enqueues only valid
   * neighbours of the popped cell.
   */
  lemma SearchStepFrame(f: Frontier, g: Grid, W: nat, H: nat, dirs: seq<IVec2>, block: Mask)
    requires Shaped(g, W, H)
    ensures var r := SearchStep(f, g, W, H, dirs, block);
            (f.queue == [] ==> r == Stepped(f, Stop)) &&
            (f.queue != [] ==>
               r.frontier.queue[..|f.queue| - 1] == f.queue[1..] &&
               |r.frontier.queue| <= |f.queue| - 1 + |dirs| &&
               (forall p :: p in f.visited ==> p in r.frontier.visited && r.frontier.visited[p] == f.visited[p]) &&
               (f.queue[0].pos in f.visited ==> r.frontier.visited == f.visited) &&
               (f.queue[0].pos !in f.visited ==> r.frontier.visited == f.visited[f.queue[0].pos := f.queue[0].prev]) &&
               forall i :: |f.queue| - 1 <= i < |r.frontier.queue| ==>
                 GetIvec2(g, W, H, r.frontier.queue[i].pos).Some? && r.frontier.queue[i].pos !in r.frontier.visited &&
                 r.frontier.queue[i].prev == f.queue[0].pos && Sub(r.frontier.queue[i].pos, f.queue[0].pos) in dirs)
  {
    if f.queue != [] {
      var c := f.queue[0];
      if c.pos !in f.visited {
        NeighboursValid(g, W, H, f.visited[c.pos := c.prev], c.pos, dirs);
      }
    }
  }

  /**
   * What a search step found. `InitRoute(p)` comes only for the popped cell,
   * which then holds food and none of the blocking bits. `Search(Some(p))`
   * comes only for the popped cell, which then holds no food and none of the
   * blocking bits. A step never returns `Init`, `Route`, `InFlight` or
   * `Error`.
   */
  lemma SearchStepOutcome(f: Frontier, g: Grid, W: nat, H: nat, dirs: seq<IVec2>, block: Mask)
    requires Shaped(g, W, H)
    ensures var r := SearchStep(f, g, W, H, dirs, block);
            (r.state.Search? || r.state.Stop? || r.state.InitRoute?) &&
            (r.state.InitRoute? ==>
               f.queue != [] && r.state.p == f.queue[0].pos && InBounds(W, H, r.state.p) &&
               Intersects(At(g, W, H, r.state.p), Kinds(MULTIVAC_FOOD)) && !Intersects(At(g, W, H, r.state.p), block)) &&
            (r.state.Search? && r.state.found.Some? ==>
               f.queue != [] && r.state.found.value == f.queue[0].pos && InBounds(W, H, r.state.found.value) &&
               !Intersects(At(g, W, H, r.state.found.value), Kinds(MULTIVAC_FOOD)) && !Intersects(At(g, W, H, r.state.found.value), block))
  {
  }

  /**
   * The two blocking tests disagree exactly on cells with a count: a flower
   * holding 1000 blocks the forward search as written, but the reverse search
   * finds it.
   */
  lemma ForwardBlockCountsQuantity(f: Flag)
    ensures Intersects(f, BLOCK) ==> Intersects(f, FORWARD_BLOCK_AS_WRITTEN)
    ensures Intersects(f, FORWARD_BLOCK_AS_WRITTEN) && !Intersects(f, BLOCK) <==> f.kind & !MULTIVAC_FOOD == 0 && f.quantity != 0
  {
  }

  /** `search` as written, with the blocking test that counts quantity bits. */
  function SearchAsWritten(f: Frontier, g: Grid, W: nat, H: nat): (r: Stepped)
    requires Shaped(g, W, H)
    ensures r.state.InitRoute? ==> SearchStep(f, g, W, H, DIRS, BLOCK) == r
  {
    SearchStep(f, g, W, H, DIRS, FORWARD_BLOCK_AS_WRITTEN)
  }

  /**
   * On a 3 by 3 map whose middle cell is a flower holding 1000, the forward
   * search as written pops that cell and walks past it, while the reverse
   * search (and the corrected forward search) starts a route there.
   */
  lemma ForwardSearchMissesFood()
    ensures var flower := Flag(FLOWER, 1000);
            var g := [[Word(EMPTY), Word(EMPTY), Word(EMPTY)], [Word(EMPTY), flower, Word(EMPTY)], [Word(EMPTY), Word(EMPTY), Word(EMPTY)]];
            var f := Frontier(map[], [SearchPath(IVec2(1, 1), IVec2(1, 2))]);
            Shaped(g, 3, 3) &&
            SearchAsWritten(f, g, 3, 3).state == Search(None) &&
            SearchStep(f, g, 3, 3, REVERSED_DIRS, BLOCK).state == InitRoute(IVec2(1, 1)) &&
            SearchStep(f, g, 3, 3, DIRS, BLOCK).state == InitRoute(IVec2(1, 1))
  {
  }

  /** The four cells `origin + DIRS[k]`, each reached from the origin, with no bounds check. */
  function AllNeighbours(origin: IVec2): seq<SearchPath> {
    [SearchPath(Add(origin, DIRS[0]), origin), SearchPath(Add(origin, DIRS[1]), origin),
     SearchPath(Add(origin, DIRS[2]), origin), SearchPath(Add(origin, DIRS[3]), origin)]
  }

  /**
   * The queue `init` builds, for the directions `dirs` of its outer loop:
   * each neighbour accepted by `get_ivec2` is queued, followed by all four
   * neighbours again.
   */
  function InitQueue(g: Grid, W: nat, H: nat, origin: IVec2, dirs: seq<IVec2>): seq<SearchPath>
    requires Shaped(g, W, H)
  {
    if dirs == [] then []
    else
      var n := Add(origin, dirs[|dirs| - 1]);
      InitQueue(g, W, H, origin, dirs[..|dirs| - 1]) +
      (if GetIvec2(g, W, H, n).Some? then [SearchPath(n, origin)] + AllNeighbours(origin) else [])
  }

  /** The queue for the first `i + 1` directions extends the queue for the first `i`. */
  lemma InitQueueStep(g: Grid, W: nat, H: nat, origin: IVec2, dirs: seq<IVec2>, i: nat)
    requires Shaped(g, W, H) && i < |dirs|
    ensures var n := Add(origin, dirs[i]);
            InitQueue(g, W, H, origin, dirs[..i + 1]) ==
              InitQueue(g, W, H, origin, dirs[..i]) + (if GetIvec2(g, W, H, n).Some? then [SearchPath(n, origin)] + AllNeighbours(origin) else [])
  {
    assert dirs[..i + 1][..i] == dirs[..i];
  }

  /** How many of the cells `origin + dirs[k]` `get_ivec2` accepts. */
  function AcceptedNeighbours(g: Grid, W: nat, H: nat, origin: IVec2, dirs: seq<IVec2>): nat
    requires Shaped(g, W, H)
  {
    if dirs == [] then 0
    else AcceptedNeighbours(g, W, H, origin, dirs[..|dirs| - 1]) + (if GetIvec2(g, W, H, Add(origin, dirs[|dirs| - 1])).Some? then 1 else 0)
  }

  /**
   * `init`'s queue holds five entries per accepted neighbour. Every entry is
   * reached from the origin, and every entry is an orthogonal neighbour of
   * the origin.
   */
  lemma {:induction false} InitQueueShape(g: Grid, W: nat, H: nat, origin: IVec2, dirs: seq<IVec2>)
    requires Shaped(g, W, H)
    ensures var q := InitQueue(g, W, H, origin, dirs);
            |q| == 5 * AcceptedNeighbours(g, W, H, origin, dirs) &&
            forall i :: 0 <= i < |q| ==> q[i].prev == origin && Sub(q[i].pos, origin) in DIRS + dirs
  {
    if dirs != [] {
      var front := dirs[..|dirs| - 1];
      InitQueueShape(g, W, H, origin, front);
      var q := InitQueue(g, W, H, origin, dirs);
      var qf := InitQueue(g, W, H, origin, front);
      forall i | 0 <= i < |q|
        ensures q[i].prev == origin && Sub(q[i].pos, origin) in DIRS + dirs
      {
        if i < |qf| {
          assert q[i] == qf[i];
          var d := Sub(q[i].pos, origin);
          assert d in DIRS + front;
          if d in front {
            var j :| 0 <= j < |front| && front[j] == d;
            assert dirs[j] == d;
          }
        } else if i == |qf| {
          assert Sub(q[i].pos, origin) == dirs[|dirs| - 1];
        } else {
          assert (DIRS + dirs)[i - |qf| - 1] == DIRS[i - |qf| - 1];
        }
      }
    }
  }

  /**
   * The second pass of `init` queues neighbours that `get_ivec2` rejects: with
   * the origin at (1, 1) of a 3 by 3 map, (1, 0) and (0, 1) are queued
   * although row 0 and column 0 are outside.
   */
  lemma InitQueuesRejectedNeighbours()
    ensures var g := EmptyGrid(3, 3);
            var q := InitQueue(g, 3, 3, IVec2(1, 1), DIRS);
            |q| == 10 && SearchPath(IVec2(1, 0), IVec2(1, 1)) in q && GetIvec2(g, 3, 3, IVec2(1, 0)).None?
  {
    var g, o := EmptyGrid(3, 3), IVec2(1, 1);
    var d3, d2, d1 := DIRS[..3], DIRS[..2], DIRS[..1];
    assert d3[..2] == d2 && d2[..1] == d1 && d1[..0] == [];
    var all := AllNeighbours(o);
    assert all[1] == SearchPath(IVec2(1, 0), o);
    var q1 := [SearchPath(IVec2(1, 2), o)] + all;
    assert InitQueue(g, 3, 3, o, d1) == q1;
    assert InitQueue(g, 3, 3, o, d2) == q1;
    var q3 := q1 + [SearchPath(IVec2(2, 1), o)] + all;
    assert InitQueue(g, 3, 3, o, d3) == q3;
    assert InitQueue(g, 3, 3, o, DIRS) == q3;
    assert q3[2] == all[1];
  }

  /** `WORLD_SIZE * WORLD_SIZE`: the walk gives up when its distance count reaches this. */
  const ROUTE_LIMIT: nat := WORLD_SIZE * WORLD_SIZE

  /** A wire the walk lays: its cell, its `WireKind`, and the distance count that scales its `Delay`. */
  datatype Wire = Wire(pos: IVec2, kind: WireKind, distance: nat)

  /** The map after a walk, the state it ends in, and the wires it laid, in order. */
  datatype Walked = Walked(grid: Grid, state: MultivacState, wires: seq<Wire>)

  /**
   * What one step of the `Route(p)` walk from `prev` does: it fails, or it
   * lays a wire at `pos` (whose flags are `flags`) and stops there or goes on.
   */
  datatype WalkStep = Fails | Lays(pos: IVec2, next: IVec2, flags: Flag, stops: bool)

  /**
   * One step of the walk from `prev` with `count` steps behind it. It looks
   * up `pos = visited[prev]` and `next = visited[pos]`, reads the flags of
   * `pos` and the stop test's flags, and fails unless `pos` is empty and the
   * new count is below the limit. It stops when the stop test's cell holds
   * `MULTIVAC`. With `intended` the stop test reads `next`; without it, as
   * written, it reads `pos` again.
   */
  function StepFrom(visited: map<IVec2, IVec2>, g: Grid, W: nat, H: nat, prev: IVec2, count: nat, intended: bool): (s: WalkStep)
    requires Shaped(g, W, H)
    ensures s.Lays? ==> prev in visited && s.pos == visited[prev] && s.pos in visited && s.next == visited[s.pos] &&
                        InBounds(W, H, s.pos) && s.flags == g[s.pos.y][s.pos.x] && IsEmpty(s.flags) && count + 1 < ROUTE_LIMIT
  {
    if prev !in visited || visited[prev] !in visited then Fails
    else
      var pos := visited[prev];
      var next := visited[pos];
      match (GetIvec2(g, W, H, pos), GetIvec2(g, W, H, if intended then next else pos))
      case (None, _) => Fails
      case (_, None) => Fails
      case (Some(posFlags), Some(nextFlags)) =>
        if !IsEmpty(posFlags) || count + 1 >= ROUTE_LIMIT then Fails
        else Lays(pos, next, posFlags, Intersects(nextFlags, Kinds(MULTIVAC)))
  }

  /**
   * The `Route(p)` walk from `prev` (with `count` steps behind it): step by
   * step, each step ORs `WIRE` into its cell, until a step fails or stops.
   */
  function Walk(visited: map<IVec2, IVec2>, g: Grid, W: nat, H: nat, prev: IVec2, count: nat, intended: bool): (r: Walked)
    requires Shaped(g, W, H)
    ensures Shaped(r.grid, W, H)
    decreases ROUTE_LIMIT - count
  {
    match StepFrom(visited, g, W, H, prev, count, intended)
    case Fails => Walked(g, Error, [])
    case Lays(pos, next, flags, stops) =>
      var wired := Put(g, pos.x, pos.y, Insert(flags, WIRE));
      var wire := Wire(pos, FromRoute(prev, pos, next), count + 1);
      if stops then Walked(wired, Stop, [wire])
      else
        var rest := Walk(visited, wired, W, H, pos, count + 1, intended);
        Walked(rest.grid, rest.state, [wire] + rest.wires)
  }

  /** The whole walk `want` is the wires `done` laid so far followed by the walk from `prev`. */
  ghost predicate WalkRest(visited: map<IVec2, IVec2>, g: Grid, W: nat, H: nat, prev: IVec2, count: nat, done: seq<Wire>, want: Walked)
    requires Shaped(g, W, H)
  {
    var r := Walk(visited, g, W, H, prev, count, true);
    want == Walked(r.grid, r.state, done + r.wires)
  }

  /** The rest of a walk after its step `s`: nothing more when it fails, the wire it lays, and the walk on from there. */
  lemma WalkRestStep(visited: map<IVec2, IVec2>, g: Grid, W: nat, H: nat, prev: IVec2, count: nat, done: seq<Wire>, want: Walked, s: WalkStep)
    requires Shaped(g, W, H) && WalkRest(visited, g, W, H, prev, count, done, want)
    requires s == StepFrom(visited, g, W, H, prev, count, true)
    ensures s.Fails? ==> want == Walked(g, Error, done)
    ensures s.Lays? && s.stops ==>
              want == Walked(Put(g, s.pos.x, s.pos.y, Insert(s.flags, WIRE)), Stop, done + [Wire(s.pos, FromRoute(prev, s.pos, s.next), count + 1)])
    ensures s.Lays? && !s.stops ==>
              WalkRest(visited, Put(g, s.pos.x, s.pos.y, Insert(s.flags, WIRE)), W, H, s.pos, count + 1,
                       done + [Wire(s.pos, FromRoute(prev, s.pos, s.next), count + 1)], want)
  {
    if s.Lays? && !s.stops {
      var wired := Put(g, s.pos.x, s.pos.y, Insert(s.flags, WIRE));
      var wire := Wire(s.pos, FromRoute(prev, s.pos, s.next), count + 1);
      var rest := Walk(visited, wired, W, H, s.pos, count + 1, true);
      assert done + ([wire] + rest.wires) == done + [wire] + rest.wires;
    }
  }

  /**
   * A walk ends in `Stop` or `Error`, never `InFlight`. Its wires follow the
   * predecessor chain from `prev`, each with the next distance count, all
   * below `ROUTE_LIMIT`, so it lays fewer than `ROUTE_LIMIT` wires.
   */
  lemma {:induction false} WalkShape(visited: map<IVec2, IVec2>, g: Grid, W: nat, H: nat, prev: IVec2, count: nat, intended: bool)
    requires Shaped(g, W, H)
    ensures var r := Walk(visited, g, W, H, prev, count, intended);
            (r.state == Stop || r.state == Error) &&
            (r.wires != [] ==> count + |r.wires| < ROUTE_LIMIT) &&
            (r.wires != [] ==> prev in visited && r.wires[0].pos == visited[prev]) &&
            forall i :: 0 <= i < |r.wires| ==>
              r.wires[i].distance == count + i + 1 && r.wires[i].distance < ROUTE_LIMIT && r.wires[i].pos in visited &&
              (i + 1 < |r.wires| ==> r.wires[i + 1].pos == visited[r.wires[i].pos])
    decreases ROUTE_LIMIT - count
  {
    var s := StepFrom(visited, g, W, H, prev, count, intended);
    if s.Lays? && !s.stops {
      var wired := Put(g, s.pos.x, s.pos.y, Insert(s.flags, WIRE));
      WalkShape(visited, wired, W, H, s.pos, count + 1, intended);
    }
  }

  /**
   * A walk changes only empty cells, each to exactly `WIRE`, and only cells
   * where it laid a wire; every other cell keeps its value.
   */
  lemma {:induction false} WalkWritesOnlyWire(visited: map<IVec2, IVec2>, g: Grid, W: nat, H: nat, prev: IVec2, count: nat, intended: bool)
    requires Shaped(g, W, H)
    ensures var r := Walk(visited, g, W, H, prev, count, intended);
            OnlyWired(g, r.grid, W, H, r.wires)
    decreases ROUTE_LIMIT - count
  {
    var r := Walk(visited, g, W, H, prev, count, intended);
    var s := StepFrom(visited, g, W, H, prev, count, intended);
    if s.Lays? {
      var wired := Put(g, s.pos.x, s.pos.y, Insert(s.flags, WIRE));
      assert Insert(s.flags, WIRE) == Word(WIRE);
      var wire := Wire(s.pos, FromRoute(prev, s.pos, s.next), count + 1);
      if !s.stops {
        WalkWritesOnlyWire(visited, wired, W, H, s.pos, count + 1, intended);
        var rest := Walk(visited, wired, W, H, s.pos, count + 1, intended);
        OnlyWiredStep(g, wired, rest.grid, W, H, wire, rest.wires);
      } else {
        PutSame(wired, s.pos.x, s.pos.y);
        OnlyWiredStep(g, wired, wired, W, H, wire, []);
      }
    }
  }

  /**
   * Going from `g` to `r`, every changed cell was entirely empty, is now
   * exactly `WIRE`, and is the cell of one of `wires`.
   */
  ghost predicate OnlyWired(g: Grid, r: Grid, W: nat, H: nat, wires: seq<Wire>)
    requires Shaped(g, W, H) && Shaped(r, W, H)
  {
    forall y, x :: 0 <= y < H && 0 <= x < W && r[y][x] != g[y][x] ==>
      IsEmpty(g[y][x]) && r[y][x] == Word(WIRE) && exists i :: 0 <= i < |wires| && wires[i].pos == IVec2(x, y)
  }

  /** Wiring one empty cell and then changing only empty cells to wires changes only empty cells to wires. */
  lemma OnlyWiredStep(g: Grid, wired: Grid, r: Grid, W: nat, H: nat, wire: Wire, rest: seq<Wire>)
    requires Shaped(g, W, H) && Shaped(r, W, H) && InBounds(W, H, wire.pos)
    requires IsEmpty(g[wire.pos.y][wire.pos.x]) && wired == Put(g, wire.pos.x, wire.pos.y, Word(WIRE))
    requires Shaped(wired, W, H) && OnlyWired(wired, r, W, H, rest)
    ensures OnlyWired(g, r, W, H, [wire] + rest)
  {
    var wires := [wire] + rest;
    forall y, x | 0 <= y < H && 0 <= x < W && r[y][x] != g[y][x]
      ensures IsEmpty(g[y][x]) && r[y][x] == Word(WIRE) && exists i :: 0 <= i < |wires| && wires[i].pos == IVec2(x, y)
    {
      if IVec2(x, y) == wire.pos {
        assert wires[0].pos == IVec2(x, y);
        assert r[y][x] == wired[y][x];
      } else {
        assert wired[y][x] == g[y][x];
        var i :| 0 <= i < |rest| && rest[i].pos == IVec2(x, y);
        assert wires[i + 1].pos == IVec2(x, y);
      }
    }
  }

  /**
   * As written, with the stop test reading `pos`, no walk ever stops: a cell
   * holding `MULTIVAC` is not empty, so the step that would stop fails first.
   */
  lemma {:induction false} AsWrittenWalkAlwaysFails(visited: map<IVec2, IVec2>, g: Grid, W: nat, H: nat, prev: IVec2, count: nat)
    requires Shaped(g, W, H)
    ensures Walk(visited, g, W, H, prev, count, false).state == Error
    decreases ROUTE_LIMIT - count
  {
    var s := StepFrom(visited, g, W, H, prev, count, false);
    if s.Lays? {
      WalkAsWrittenStep(g, W, H, s.pos, s.flags);
      AsWrittenWalkAlwaysFails(visited, Put(g, s.pos.x, s.pos.y, Insert(s.flags, WIRE)), W, H, s.pos, count + 1);
    }
  }

  /** An empty cell intersects no kind mask, so the as-written stop test never fires on a cell the walk may wire. */
  lemma WalkAsWrittenStep(g: Grid, W: nat, H: nat, pos: IVec2, f: Flag)
    requires Shaped(g, W, H) && GetIvec2(g, W, H, pos) == Some(f) && IsEmpty(f)
    ensures !Intersects(f, Kinds(MULTIVAC)) && InBounds(W, H, pos)
  {
  }

  /**
   * A 4 by 3 map with Multivac at (1, 1), an empty cell at (2, 1) and a
   * flower at (3, 1), searched in that order. Walking back from the flower,
   * the intended walk wires (2, 1) and stops at Multivac. The walk as
   * written wires the same cell, then steps onto Multivac's own cell and
   * fails.
   */
  lemma WalkStopsOnlyWhenIntended()
    ensures var g := [[Word(EMPTY), Word(EMPTY), Word(EMPTY), Word(EMPTY)],
                      [Word(EMPTY), Word(MULTIVAC), Word(EMPTY), Flag(FLOWER, 1000)],
                      [Word(EMPTY), Word(EMPTY), Word(EMPTY), Word(EMPTY)]];
            var visited := map[IVec2(1, 1) := IVec2(0, 0), IVec2(2, 1) := IVec2(1, 1), IVec2(3, 1) := IVec2(2, 1)];
            Shaped(g, 4, 3) &&
            Walk(visited, g, 4, 3, IVec2(3, 1), 0, true).state == Stop &&
            Walk(visited, g, 4, 3, IVec2(3, 1), 0, true).grid[1][2] == Word(WIRE) &&
            Walk(visited, g, 4, 3, IVec2(3, 1), 0, false).state == Error &&
            Walk(visited, g, 4, 3, IVec2(3, 1), 0, false).grid[1][2] == Word(WIRE)
  {
    var g := [[Word(EMPTY), Word(EMPTY), Word(EMPTY), Word(EMPTY)],
              [Word(EMPTY), Word(MULTIVAC), Word(EMPTY), Flag(FLOWER, 1000)],
              [Word(EMPTY), Word(EMPTY), Word(EMPTY), Word(EMPTY)]];
    var visited := map[IVec2(1, 1) := IVec2(0, 0), IVec2(2, 1) := IVec2(1, 1), IVec2(3, 1) := IVec2(2, 1)];
    assert Shaped(g, 4, 3);
    assert visited[IVec2(3, 1)] == IVec2(2, 1) && visited[IVec2(2, 1)] == IVec2(1, 1);
    assert GetIvec2(g, 4, 3, IVec2(2, 1)) == Some(Word(EMPTY));
    assert GetIvec2(g, 4, 3, IVec2(1, 1)) == Some(Word(MULTIVAC));
    assert Insert(Word(EMPTY), WIRE) == Word(WIRE);
    var wired := Put(g, 2, 1, Word(WIRE));
    var wire := Wire(IVec2(2, 1), FromRoute(IVec2(3, 1), IVec2(2, 1), IVec2(1, 1)), 1);
    assert Walk(visited, g, 4, 3, IVec2(3, 1), 0, true) == Walked(wired, Stop, [wire]);
    assert GetIvec2(wired, 4, 3, IVec2(1, 1)) == Some(Word(MULTIVAC));
    assert Walk(visited, wired, 4, 3, IVec2(2, 1), 1, false) == Walked(wired, Error, []);
    assert Walk(visited, g, 4, 3, IVec2(3, 1), 0, false) == Walked(wired, Error, [wire]);
  }

  /** The cell a search step pings: the one it expanded, if any. */
  function Pinged(s: MultivacState): seq<IVec2> {
    if s.Search? && s.found.Some? then [s.found.value] else []
  }

  /** The frontier after a tick's search rounds, the state they end in, the cells they pinged, and how many steps ran. */
  datatype Ticked = Ticked(frontier: Frontier, state: MultivacState, pings: seq<IVec2>, steps: nat)

  /**
   * One round: a forward search step and, if it returned `Search`, a reverse
   * one; the cells the steps expanded are pinged.
   */
  function Round(f: Frontier, g: Grid, W: nat, H: nat): (r: Ticked)
    requires Shaped(g, W, H)
    ensures 1 <= r.steps <= 2 && (r.steps < 2 ==> !r.state.Search?) && |r.pings| <= r.steps
    ensures r.state.Search? || r.state.Stop? || r.state.InitRoute?
  {
    var a := SearchStep(f, g, W, H, DIRS, BLOCK);
    if !a.state.Search? then Ticked(a.frontier, a.state, [], 1)
    else
      var b := SearchStep(a.frontier, g, W, H, REVERSED_DIRS, BLOCK);
      Ticked(b.frontier, b.state, Pinged(a.state) + Pinged(b.state), 2)
  }

  /**
   * `n` rounds, starting from `state`, leaving the loop at the first step
   * that does not return `Search`.
   */
  function Rounds(f: Frontier, g: Grid, W: nat, H: nat, n: nat, state: MultivacState): (r: Ticked)
    requires Shaped(g, W, H)
    ensures |r.pings| <= r.steps
    decreases n
  {
    if n == 0 then Ticked(f, state, [], 0)
    else
      var a := Round(f, g, W, H);
      if !a.state.Search? then a
      else
        var r := Rounds(a.frontier, g, W, H, n - 1, a.state);
        Ticked(r.frontier, r.state, a.pings + r.pings, a.steps + r.steps)
  }

  /**
   * After the round `a` of a firing whose remaining `left + 1` rounds from
   * `f` give `rest`: the firing ends with `a` when `a` left `Search`, and
   * otherwise goes on with the remaining `left` rounds.
   */
  lemma RoundsFirst(f: Frontier, g: Grid, W: nat, H: nat, left: nat, state: MultivacState, a: Ticked,
                    want: Ticked, done: seq<IVec2>, rest: Ticked)
    requires Shaped(g, W, H) && a == Round(f, g, W, H) && rest == Rounds(f, g, W, H, left + 1, state)
    requires want.frontier == rest.frontier && want.state == rest.state && want.pings == done + rest.pings
    ensures !a.state.Search? ==> want.frontier == a.frontier && want.state == a.state && want.pings == done + a.pings
    ensures a.state.Search? ==>
              var r := Rounds(a.frontier, g, W, H, left, a.state);
              want.frontier == r.frontier && want.state == r.state && want.pings == (done + a.pings) + r.pings
  {
    if a.state.Search? {
      var r := Rounds(a.frontier, g, W, H, left, a.state);
      assert done + (a.pings + r.pings) == (done + a.pings) + r.pings;
    }
  }

  /** A `Search` firing: `queue.len() / 2` rounds, the count fixed on entry, starting from `Stop`. */
  function SearchTick(f: Frontier, g: Grid, W: nat, H: nat): (r: Ticked)
    requires Shaped(g, W, H)
    ensures |r.pings| <= r.steps <= |f.queue|
  {
    RoundsBound(f, g, W, H, |f.queue| / 2, Stop);
    Rounds(f, g, W, H, |f.queue| / 2, Stop)
  }

  /** Every entry of `f`'s visited map is kept, unchanged, in `h`'s. */
  ghost predicate Keeps(f: Frontier, h: Frontier) {
    forall p {:trigger f.visited[p]} :: p in f.visited ==> p in h.visited && h.visited[p] == f.visited[p]
  }

  /** One round keeps every visited entry. */
  lemma RoundKeeps(f: Frontier, g: Grid, W: nat, H: nat)
    requires Shaped(g, W, H)
    ensures Keeps(f, Round(f, g, W, H).frontier)
  {
    var a := SearchStep(f, g, W, H, DIRS, BLOCK);
    SearchStepFrame(f, g, W, H, DIRS, BLOCK);
    if a.state.Search? {
      SearchStepFrame(a.frontier, g, W, H, REVERSED_DIRS, BLOCK);
      KeepsTrans(f, a.frontier, Round(f, g, W, H).frontier);
    }
  }

  /** Keeping visited entries is transitive. */
  lemma KeepsTrans(f: Frontier, h: Frontier, k: Frontier)
    requires Keeps(f, h) && Keeps(h, k)
    ensures Keeps(f, k)
  {
    forall p | p in f.visited
      ensures p in k.visited && k.visited[p] == f.visited[p]
    {
      assert p in h.visited && h.visited[p] == f.visited[p];
      assert p in k.visited && k.visited[p] == h.visited[p];
    }
  }

  /**
   * Rounds run at most two steps each, and they run short only when a step
   * returned something other than `Search`. They end in `Search`, `Stop`,
   * `InitRoute` or the given state.
   */
  lemma {:induction false} RoundsBound(f: Frontier, g: Grid, W: nat, H: nat, left: nat, state: MultivacState)
    requires Shaped(g, W, H)
    decreases left
    ensures var r := Rounds(f, g, W, H, left, state);
            r.steps <= 2 * left &&
            (left > 0 ==> r.state.Search? || r.state.Stop? || r.state.InitRoute?) &&
            (r.steps < 2 * left ==> !r.state.Search?)
  {
    if left > 0 {
      var k := left - 1;
      var a := Round(f, g, W, H);
      if a.state.Search? {
        RoundsBound(a.frontier, g, W, H, k, a.state);
        RoundsThenBound(f, g, W, H, k, state, a, Rounds(a.frontier, g, W, H, k, a.state));
      }
    }
  }

  /** The bound of `RoundsBound` one round further out, given the rounds after the first. */
  lemma RoundsThenBound(f: Frontier, g: Grid, W: nat, H: nat, k: nat, state: MultivacState, a: Ticked, r: Ticked)
    requires Shaped(g, W, H) && a == Round(f, g, W, H) && a.state.Search?
    requires r == Rounds(a.frontier, g, W, H, k, a.state)
    requires r.steps <= 2 * k && (r.state.Search? || r.state.Stop? || r.state.InitRoute?) && (r.steps < 2 * k ==> !r.state.Search?)
    ensures var t := Rounds(f, g, W, H, k + 1, state);
            t.steps <= 2 * (k + 1) && (t.state.Search? || t.state.Stop? || t.state.InitRoute?) &&
            (t.steps < 2 * (k + 1) ==> !t.state.Search?)
  {
  }


  /** Rounds keep every visited entry. */
  lemma {:induction false} RoundsKeep(f: Frontier, g: Grid, W: nat, H: nat, left: nat, state: MultivacState)
    requires Shaped(g, W, H)
    decreases left
    ensures Keeps(f, Rounds(f, g, W, H, left, state).frontier)
  {
    if left > 0 {
      var a := Round(f, g, W, H);
      RoundKeeps(f, g, W, H);
      if a.state.Search? {
        var k := left - 1;
        RoundsKeep(a.frontier, g, W, H, k, a.state);
        RoundsThenKeep(f, g, W, H, k, state, a, Rounds(a.frontier, g, W, H, k, a.state));
      }
    }
  }

  /** A first round `a` that keeps the visited entries, followed by rounds `r` that keep them too. */
  lemma RoundsThenKeep(f: Frontier, g: Grid, W: nat, H: nat, k: nat, state: MultivacState, a: Ticked, r: Ticked)
    requires Shaped(g, W, H) && a == Round(f, g, W, H) && a.state.Search?
    requires r == Rounds(a.frontier, g, W, H, k, a.state) && Keeps(f, a.frontier) && Keeps(a.frontier, r.frontier)
    ensures Keeps(f, Rounds(f, g, W, H, k + 1, state).frontier)
  {
    KeepsTrans(f, a.frontier, r.frontier);
  }

  /**
   * A `Search` firing runs at most as many steps as the queue held on entry.
   * With fewer than two entries queued, it returns `Stop` and changes nothing.
   * Otherwise it returns `Search`, `Stop` or `InitRoute`.
   */
  lemma SearchTickBudget(f: Frontier, g: Grid, W: nat, H: nat)
    requires Shaped(g, W, H)
    ensures var r := SearchTick(f, g, W, H);
            r.steps <= |f.queue| &&
            (|f.queue| < 2 ==> r == Ticked(f, Stop, [], 0)) &&
            (r.state.Search? || r.state.Stop? || r.state.InitRoute?)
  {
    RoundsBound(f, g, W, H, |f.queue| / 2, Stop);
  }

  /** `next_clock`: the seconds until the next firing in each state. */
  function Delay(s: MultivacState): (d: real)
    ensures 0.0 <= d <= 50.0
    ensures d == 0.0 <==> s.InitRoute?
  {
    match s
    case Init => 50.0
    case InitRoute(_) => 0.0
    case Route(_) => 0.5
    case InFlight => 0.1
    case Search(_) => 0.1
    case Stop => 50.0
    case Error => 50.0
  }

  /**
   * Only `InitRoute` fires at once; the idle states `Init`, `Stop` and
   * `Error` wait 50 seconds; a route waits half a second; and searching (or
   * being caught in flight) waits a tenth of a second.
   */
  lemma DelayTable(s: MultivacState)
    ensures Delay(s) == 0.0 <==> s.InitRoute?
    ensures Delay(s) == 50.0 <==> s == Init || s == Stop || s == Error
    ensures Delay(s) == 0.5 <==> s.Route?
    ensures Delay(s) == 0.1 <==> s.Search? || s == InFlight
  {
  }

  /**
   * What a firing of `update` produces besides the new state: outposts
   * spawned, cells pinged with `ping` and with `ping_long`, wires laid.
   */
  datatype Effects = Effects(outposts: seq<IVec2>, pings: seq<IVec2>, longPings: seq<IVec2>, wires: seq<Wire>)

  /** The positions of the walk's wires, each pinged with `ping_long`. */
  function WirePositions(ws: seq<Wire>): (ps: seq<IVec2>)
    ensures |ps| == |ws| && forall i :: 0 <= i < |ws| ==> ps[i] == ws[i].pos
  {
    if ws == [] then [] else WirePositions(ws[..|ws| - 1]) + [ws[|ws| - 1].pos]
  }

  /** `gather_rate`: the count an outpost drains per firing. */
  const GATHER_RATE: nat := 50

  /** An outpost cell after one firing of `promote_outpost`, and whether a Multivac spawns there. */
  datatype Promoted = Promoted(cell: Flag, spawn: bool)

  /**
   * One firing on an outpost's cell. A cell without food becomes exactly
   * `MULTIVAC` (which drops the `OUTPOST` bit) and a Multivac spawns. A food
   * cell with count 0 loses its food bits. Otherwise the count drops by
   * `min(q, gather_rate)`.
   */
  function PromoteCell(c: Flag): (r: Promoted)
    ensures r.spawn <==> c.kind & MULTIVAC_FOOD == 0
    ensures r.spawn ==> r.cell == Word(MULTIVAC)
  {
    if !Intersects(c, Kinds(MULTIVAC_FOOD)) then Promoted(Word(MULTIVAC), true)
    else if GetResourceQuantity(c) == 0 then Promoted(Remove(c, MULTIVAC_FOOD), false)
    else
      var q := GetResourceQuantity(c);
      Promoted(SetResourceQuantity(c, q - if q < GATHER_RATE then q else GATHER_RATE), false)
  }

  /**
   * A Multivac spawns exactly when the cell holds no food, and the cell is
   * then exactly `MULTIVAC`. Draining never underflows: it takes at most
   * `gather_rate`, and all that is left when less remains, keeping the kind
   * bits. An empty food cell loses only its food bits.
   */
  lemma PromoteCellRules(c: Flag)
    ensures var r := PromoteCell(c);
            (r.spawn <==> c.kind & MULTIVAC_FOOD == 0) &&
            (r.spawn ==> r.cell == Word(MULTIVAC)) &&
            (!r.spawn && c.quantity == 0 ==> r.cell == Flag(c.kind & !MULTIVAC_FOOD, 0)) &&
            (!r.spawn && c.quantity > 0 ==>
               r.cell.kind == c.kind && r.cell.quantity < c.quantity && c.quantity - r.cell.quantity <= GATHER_RATE &&
               (r.cell.quantity == 0 || c.quantity - r.cell.quantity == GATHER_RATE))
  {
    var r := PromoteCell(c);
    if !r.spawn && c.quantity == 0 {
      assert r.cell.kind == c.kind & !MULTIVAC_FOOD;
    }
  }

  /** The cell after `k` firings. */
  function Drain(c: Flag, k: nat): Flag {
    if k == 0 then c else PromoteCell(Drain(c, k - 1)).cell
  }

  /** How many firings empty a count of `q`: `ceil(q / gather_rate)`. */
  function DrainFirings(q: nat): nat {
    (q + GATHER_RATE - 1) / GATHER_RATE
  }

  /** While food remains, each firing takes `gather_rate` until the count is gone. */
  lemma {:induction false} DrainCount(c: Flag, k: nat)
    requires c.kind & MULTIVAC_FOOD != 0 && k <= DrainFirings(c.quantity)
    ensures Drain(c, k) == Flag(c.kind, if c.quantity < GATHER_RATE * k then 0 else c.quantity - GATHER_RATE * k)
  {
    if k > 0 {
      DrainCount(c, k - 1);
      PromoteCellRules(Drain(c, k - 1));
    }
  }

  /**
   * A food outpost holding `q` spawns no Multivac for `ceil(q / 50) + 1`
   * firings: the count runs out, then the food bits go. The next firing
   * turns it into exactly `MULTIVAC` and spawns one.
   */
  lemma OutpostLifetime(c: Flag)
    requires c.kind & MULTIVAC_FOOD != 0
    ensures forall k :: 0 <= k <= DrainFirings(c.quantity) ==> !PromoteCell(Drain(c, k)).spawn
    ensures Drain(c, DrainFirings(c.quantity) + 1) == Flag(c.kind & !MULTIVAC_FOOD, 0)
    ensures PromoteCell(Drain(c, DrainFirings(c.quantity) + 1)) == Promoted(Word(MULTIVAC), true)
  {
    forall k | 0 <= k <= DrainFirings(c.quantity)
      ensures !PromoteCell(Drain(c, k)).spawn
    {
      DrainCount(c, k);
    }
    var n := DrainFirings(c.quantity);
    DrainCount(c, n);
    assert Drain(c, n).quantity == 0;
    PromoteCellRules(Drain(c, n));
    PromoteCellRules(Drain(c, n + 1));
  }

  /** The map after a `promote_outpost` pass, the outposts that remain, and those that became Multivacs. */
  datatype Promotions = Promotions(grid: Grid, kept: seq<Vec2>, spawned: seq<Vec2>)

  /**
   * A `promote_outpost` pass over the outposts at `outposts`, whose clocks
   * fired as `fired` says. An outpost outside the map (by the corrected
   * `get_vec2`) is skipped.
   */
  function PromoteAll(g: Grid, W: nat, H: nat, outposts: seq<Vec2>, fired: seq<bool>): (r: Promotions)
    requires Shaped(g, W, H) && |fired| == |outposts|
    ensures Shaped(r.grid, W, H) && |r.kept| + |r.spawned| == |outposts|
  {
    if outposts == [] then Promotions(g, [], [])
    else
      var n := |outposts| - 1;
      var r := PromoteAll(g, W, H, outposts[..n], fired[..n]);
      var p := outposts[n];
      PromoteOne(r, W, H, p, fired[n])
  }

  /**
   * One outpost's turn in a `promote_outpost` pass: the outpost is either
   * kept or promoted, and only the cell it addresses can change, and only
   * when its clock fired.
   */
  function PromoteOne(r: Promotions, W: nat, H: nat, p: Vec2, fired: bool): (r': Promotions)
    requires Shaped(r.grid, W, H)
    ensures Shaped(r'.grid, W, H)
    ensures |r'.kept| + |r'.spawned| == |r.kept| + |r.spawned| + 1
    ensures forall y, x :: 0 <= y < H && 0 <= x < W && r'.grid[y][x] != r.grid[y][x] ==> fired && Addresses(W, H, p, x, y)
  {
    if !fired then Promotions(r.grid, r.kept + [p], r.spawned)
    else
      match GetVec2(r.grid, W, H, p)
      case None => Promotions(r.grid, r.kept + [p], r.spawned)
      case Some(c) =>
        var q := PromoteCell(c);
        var g := Put(r.grid, Trunc(p.x), Trunc(p.y), q.cell);
        if q.spawn then Promotions(g, r.kept, r.spawned + [p]) else Promotions(g, r.kept + [p], r.spawned)
  }

  /** The cell an outpost position addresses, when the corrected `get_vec2` accepts it. */
  predicate Addresses(W: nat, H: nat, p: Vec2, x: nat, y: nat) {
    p.x > 0.0 && p.y > 0.0 && Trunc(p.x) == x && Trunc(p.y) == y
  }

  /**
   * A pass keeps the map's shape and every outpost is either kept or
   * promoted, in order. Only cells addressed by an outpost whose clock fired
   * can change.
   */
  lemma {:induction false} PromoteAllFrame(g: Grid, W: nat, H: nat, outposts: seq<Vec2>, fired: seq<bool>)
    requires Shaped(g, W, H) && |fired| == |outposts|
    ensures var r := PromoteAll(g, W, H, outposts, fired);
            Shaped(r.grid, W, H) && |r.kept| + |r.spawned| == |outposts| &&
            forall y, x :: 0 <= y < H && 0 <= x < W && r.grid[y][x] != g[y][x] ==>
              exists i :: 0 <= i < |outposts| && fired[i] && Addresses(W, H, outposts[i], x, y)
  {
    if outposts != [] {
      var n := |outposts| - 1;
      PromoteAllFrame(g, W, H, outposts[..n], fired[..n]);
      var r0 := PromoteAll(g, W, H, outposts[..n], fired[..n]);
      var r := PromoteAll(g, W, H, outposts, fired);
      forall y, x | 0 <= y < H && 0 <= x < W && r.grid[y][x] != g[y][x]
        ensures exists i :: 0 <= i < |outposts| && fired[i] && Addresses(W, H, outposts[i], x, y)
      {
        if r0.grid[y][x] != g[y][x] {
          var i :| 0 <= i < n && fired[..n][i] && Addresses(W, H, outposts[..n][i], x, y);
          assert fired[i] && outposts[i] == outposts[..n][i];
        } else {
          assert fired[n] && Addresses(W, H, outposts[n], x, y);
        }
      }
    }
  }

  class Multivac {
    /** `origin`: the cell of the network's computer. */
    const origin: IVec2
    /** `visited`: each reached cell and the cell it was reached from. */
    var visited: map<IVec2, IVec2>
    /** `queue`: the search frontier, popped at the front. */
    var queue: seq<SearchPath>

    function Snapshot(): Frontier
      reads this
    {
      Frontier(visited, queue)
    }

    /** `Multivac::new`: an empty table and queue. */
    constructor (origin: IVec2)
      ensures this.origin == origin && visited == map[] && queue == []
    {
      this.origin := origin;
      visited := map[];
      queue := [];
    }

    /**
     * `init`: the table is cleared to the origin alone, mapped to (0, 0), and
     * the queue is rebuilt from the origin's neighbours; the state is
     * `Search(None)`.
     */
    method Init(m: WorldMap) returns (s: MultivacState)
      requires m.Valid()
      modifies this
      ensures visited == map[origin := IVec2(0, 0)]
      ensures queue == InitQueue(m.Cells(), m.W, m.H, origin, DIRS)
      ensures s == Search(None)
    {
      ghost var g := m.Cells();
      visited := map[];
      queue := [];
      visited := visited[origin := IVec2(0, 0)];
      for i := 0 to |DIRS|
        invariant visited == map[origin := IVec2(0, 0)]
        invariant queue == InitQueue(g, m.W, m.H, origin, DIRS[..i])
      {
        InitQueueStep(g, m.W, m.H, origin, DIRS, i);
        var neighbour := Add(origin, DIRS[i]);
        match m.GetIvec2(neighbour)
        case Some(_) =>
          queue := queue + [SearchPath(neighbour, origin)];
          QueueAllNeighbours();
        case None =>
      }
      assert DIRS[..|DIRS|] == DIRS;
      s := Search(None);
    }

    /** `init`'s inner loop: all four neighbours of the origin are queued, in `DIRS` order. */
    method QueueAllNeighbours()
      modifies this
      ensures queue == old(queue) + AllNeighbours(origin) && visited == old(visited)
    {
      for j := 0 to |DIRS|
        invariant queue == old(queue) + AllNeighbours(origin)[..j] && visited == old(visited)
      {
        assert AllNeighbours(origin)[..j + 1] == AllNeighbours(origin)[..j] + [SearchPath(Add(origin, DIRS[j]), origin)];
        var neighbour := Add(origin, DIRS[j]);
        queue := queue + [SearchPath(neighbour, origin)];
      }
      assert AllNeighbours(origin)[..4] == AllNeighbours(origin);
    }

    /** One search step with neighbour order `dirs` and blocking mask `block`. */
    method SearchWith(m: WorldMap, dirs: seq<IVec2>, block: Mask) returns (s: MultivacState)
      requires m.Valid()
      modifies this
      ensures Stepped(Snapshot(), s) == SearchStep(old(Snapshot()), m.Cells(), m.W, m.H, dirs, block)
    {
      if queue == [] {
        return Stop;
      }
      ghost var g := m.Cells();
      var candidate := queue[0];
      queue := queue[1..];
      if candidate.pos in visited {
        return Search(None);
      }
      visited := visited[candidate.pos := candidate.prev];
      var flags: Flag;
      match m.GetIvec2(candidate.pos)
      case None =>
        return Search(None);
      case Some(f) =>
        flags := f;
      assert GetIvec2(g, m.W, m.H, candidate.pos) == Some(flags);
      if Intersects(flags, block) {
        return Search(None);
      }
      if Intersects(flags, Kinds(MULTIVAC_FOOD)) {
        return InitRoute(candidate.pos);
      }
      ghost var rest := queue;
      for i := 0 to |dirs|
        invariant visited == old(visited)[candidate.pos := candidate.prev]
        invariant queue == rest + Neighbours(g, m.W, m.H, visited, candidate.pos, dirs[..i])
      {
        assert dirs[..i + 1][..i] == dirs[..i];
        var neighbour := Add(candidate.pos, dirs[i]);
        match m.GetIvec2(neighbour)
        case Some(_) =>
          if neighbour !in visited {
            queue := queue + [SearchPath(neighbour, candidate.pos)];
          }
        case None =>
      }
      assert dirs[..|dirs|] == dirs;
      return Search(Some(candidate.pos));
    }

    /** `search`, corrected: neighbours in `DIRS` order, blocked by kind bits only. */
    method SearchForward(m: WorldMap) returns (s: MultivacState)
      requires m.Valid()
      modifies this
      ensures Stepped(Snapshot(), s) == SearchStep(old(Snapshot()), m.Cells(), m.W, m.H, DIRS, BLOCK)
    {
      s := SearchWith(m, DIRS, BLOCK);
    }

    /** `search_reverse`: neighbours in reversed `DIRS` order, blocked by kind bits only. */
    method SearchReverse(m: WorldMap) returns (s: MultivacState)
      requires m.Valid()
      modifies this
      ensures Stepped(Snapshot(), s) == SearchStep(old(Snapshot()), m.Cells(), m.W, m.H, REVERSED_DIRS, BLOCK)
    {
      s := SearchWith(m, REVERSED_DIRS, BLOCK);
    }

    /** One round of `search` and `search_reverse`, and the cells it pinged. */
    method SearchRound(m: WorldMap) returns (state: MultivacState, pings: seq<IVec2>)
      requires m.Valid()
      modifies this
      ensures var t := Round(old(Snapshot()), m.Cells(), m.W, m.H);
              Snapshot() == t.frontier && state == t.state && pings == t.pings
    {
      pings := [];
      state := SearchForward(m);
      if !state.Search? {
        return;
      }
      if state.found.Some? {
        pings := pings + [state.found.value];
      }
      state := SearchReverse(m);
      if state.Search? && state.found.Some? {
        pings := pings + [state.found.value];
      }
    }

    /** A `Search` firing: the rounds of `search` and `search_reverse`, and the cells they pinged. */
    method SearchTicks(m: WorldMap) returns (state: MultivacState, pings: seq<IVec2>)
      requires m.Valid()
      modifies this
      ensures var t := SearchTick(old(Snapshot()), m.Cells(), m.W, m.H);
              Snapshot() == t.frontier && state == t.state && pings == t.pings
    {
      ghost var g := m.Cells();
      var n := |queue| / 2;
      state := Stop;
      pings := [];
      ghost var want := Rounds(Snapshot(), g, m.W, m.H, n, state);
      ghost var rest, left := want, n;
      for k := 0 to n
        invariant left == n - k && m.Cells() == g
        invariant rest == Rounds(Snapshot(), g, m.W, m.H, left, state)
        invariant want.frontier == rest.frontier && want.state == rest.state && want.pings == pings + rest.pings
      {
        ghost var before := Snapshot();
        var s, p := SearchRound(m);
        left := left - 1;
        RoundsFirst(before, g, m.W, m.H, left, state, Round(before, g, m.W, m.H), want, pings, rest);
        rest := Rounds(Snapshot(), g, m.W, m.H, left, s);
        pings := pings + p;
        state := s;
        if !s.Search? {
          return;
        }
      }
    }

    /**
     * A `Route(p)` firing: the walk back from `p` along the visited table,
     * with the stop test reading `next`. The map changes as the walk says,
     * and the wires it lays are returned.
     */
    method RouteWalk(m: WorldMap, p: IVec2) returns (state: MultivacState, wires: seq<Wire>)
      requires m.Valid()
      modifies m.data
      ensures Walk(visited, old(m.Cells()), m.W, m.H, p, 0, true) == Walked(m.Cells(), state, wires)
    {
      ghost var want := Walk(visited, m.Cells(), m.W, m.H, p, 0, true);
      ghost var cur := m.Cells();
      state := InFlight;
      var prev := p;
      var count: nat := 0;
      wires := [];
      while state == InFlight
        invariant m.Cells() == cur && Shaped(cur, m.W, m.H)
        invariant state == InFlight || state == Stop || state == Error
        invariant state == InFlight ==> count < ROUTE_LIMIT && WalkRest(visited, cur, m.W, m.H, prev, count, wires, want)
        invariant state != InFlight ==> want == Walked(cur, state, wires)
        decreases ROUTE_LIMIT - count
      {
        var step := RouteStep(m, prev, count);
        WalkRestStep(visited, cur, m.W, m.H, prev, count, wires, want, step);
        count := count + 1;
        if step.Fails? {
          state := Error;
          break;
        }
        cur := Put(cur, step.pos.x, step.pos.y, Insert(step.flags, WIRE));
        wires := wires + [Wire(step.pos, FromRoute(prev, step.pos, step.next), count)];
        if step.stops {
          state := Stop;
        }
        prev := step.pos;
      }
    }

    /**
     * One iteration of the `Route(p)` loop from `prev`: the lookups and checks
     * of `StepFrom`, each failure returning before anything is written, then
     * `WIRE` ORed into the cell at `pos`.
     */
    method RouteStep(m: WorldMap, prev: IVec2, count: nat) returns (step: WalkStep)
      requires m.Valid()
      modifies m.data
      ensures step == StepFrom(visited, old(m.Cells()), m.W, m.H, prev, count, true)
      ensures step.Fails? ==> m.Cells() == old(m.Cells())
      ensures step.Lays? ==> m.Cells() == Put(old(m.Cells()), step.pos.x, step.pos.y, Insert(step.flags, WIRE))
    {
      if prev !in visited {
        return Fails;
      }
      var pos := visited[prev];
      if pos !in visited {
        return Fails;
      }
      var next := visited[pos];
      var posFlags: Flag;
      match m.GetIvec2(pos)
      case None =>
        return Fails;
      case Some(f) =>
        posFlags := f;
      var nextFlags: Flag;
      match m.GetIvec2(next)
      case None =>
        return Fails;
      case Some(f) =>
        nextFlags := f;
      var stops := Intersects(nextFlags, Kinds(MULTIVAC));
      if !IsEmpty(posFlags) || count + 1 >= ROUTE_LIMIT {
        return Fails;
      }
      m.Write(pos.x, pos.y, Insert(posFlags, WIRE));
      step := Lays(pos, next, posFlags, stops);
    }

    /**
     * `update` for this Multivac: when its clock fired, the state is
     * dispatched and the clock is reset to the delay of the new state; when
     * it did not fire, nothing happens.
     */
    method Update(m: WorldMap, state: MultivacState, fired: bool) returns (next: MultivacState, effects: Effects, clock: Option<real>)
      requires m.Valid()
      requires fired && state.InitRoute? ==> InBounds(m.W, m.H, state.p)
      modifies this, m.data
      ensures !fired ==> next == state && effects == Effects([], [], [], []) && clock == None &&
                         Snapshot() == old(Snapshot()) && m.Cells() == old(m.Cells())
      ensures fired ==> clock == Some(Delay(next)) && next != InFlight && next != MultivacState.Init
      ensures fired && (state == MultivacState.Init || state == Stop || state == Error) ==>
                next == Search(None) && visited == map[origin := IVec2(0, 0)] && queue == InitQueue(old(m.Cells()), m.W, m.H, origin, DIRS) &&
                m.Cells() == old(m.Cells()) && effects == Effects([], [], [], [])
      ensures fired && state.InitRoute? ==>
                next == Route(state.p) && Snapshot() == old(Snapshot()) &&
                m.Cells() == Put(old(m.Cells()), state.p.x, state.p.y, Insert(old(m.Cells())[state.p.y][state.p.x], OUTPOST)) &&
                effects == Effects([state.p], [state.p], [], [])
      ensures fired && state.Route? ==>
                var r := Walk(visited, old(m.Cells()), m.W, m.H, state.p, 0, true);
                Snapshot() == old(Snapshot()) && m.Cells() == r.grid && next == r.state &&
                effects == Effects([], [], WirePositions(r.wires), r.wires)
      ensures fired && state == InFlight ==>
                next == Error && Snapshot() == old(Snapshot()) && m.Cells() == old(m.Cells()) && effects == Effects([], [], [], [])
      ensures fired && state.Search? ==>
                var t := SearchTick(old(Snapshot()), old(m.Cells()), m.W, m.H);
                Snapshot() == t.frontier && next == t.state && m.Cells() == old(m.Cells()) && effects == Effects([], t.pings, [], [])
    {
      if !fired {
        return state, Effects([], [], [], []), None;
      }
      effects := Effects([], [], [], []);
      match state {
        case Init =>
          next := Init(m);
        case InitRoute(p) =>
          m.Write(p.x, p.y, Insert(m.data[p.y, p.x], OUTPOST));
          effects := Effects([p], [p], [], []);
          next := Route(p);
        case Route(p) =>
          ghost var g := m.Cells();
          var wires;
          next, wires := RouteWalk(m, p);
          WalkShape(visited, g, m.W, m.H, p, 0, true);
          effects := Effects([], [], WirePositions(wires), wires);
        case InFlight =>
          next := Error;
        case Search(_) =>
          ghost var f := Snapshot();
          var pings;
          next, pings := SearchTicks(m);
          SearchTickBudget(f, m.Cells(), m.W, m.H);
          effects := Effects([], pings, [], []);
        case Stop =>
          next := Init(m);
        case Error =>
          next := Init(m);
      }
      clock := Some(Delay(next));
    }
  }

  /**
   * `promote_outpost`: each outpost whose clock fired drains its cell, and
   * one whose food is gone becomes a Multivac. It returns the outposts that
   * remain and those that became Multivacs (each pinged with `ping_long`).
   */
  method PromoteOutposts(m: WorldMap, outposts: seq<Vec2>, fired: seq<bool>) returns (kept: seq<Vec2>, spawned: seq<Vec2>)
    requires m.Valid() && |fired| == |outposts|
    modifies m.data
    ensures var r := PromoteAll(old(m.Cells()), m.W, m.H, outposts, fired);
            m.Cells() == r.grid && kept == r.kept && spawned == r.spawned
  {
    ghost var g := m.Cells();
    kept, spawned := [], [];
    for i := 0 to |outposts|
      invariant m.Valid()
      invariant PromoteAll(g, m.W, m.H, outposts[..i], fired[..i]) == Promotions(m.Cells(), kept, spawned)
    {
      assert outposts[..i + 1][..i] == outposts[..i] && fired[..i + 1][..i] == fired[..i];
      var p := outposts[i];
      if !fired[i] {
        kept := kept + [p];
        continue;
      }
      match Grids.GetVec2(m.Cells(), m.W, m.H, p)
      case None =>
        kept := kept + [p];
      case Some(c) =>
        var q := PromoteCell(m.data[Trunc(p.y), Trunc(p.x)]);
        m.Write(Trunc(p.x), Trunc(p.y), q.cell);
        if q.spawn {
          spawned := spawned + [p];
        } else {
          kept := kept + [p];
        }
    }
    assert outposts[..|outposts|] == outposts && fired[..|fired|] == fired;
  }
}
