# Hivemind world, router and colonies in Dafny

This project models the discrete core of *hivemind*, a small Bevy game. A grid world of
packed cell words holds flowers, trees, volcanoes, colonies, the Multivac computer, wires
and outposts. Bee drones gather food for their colonies. The Multivac router searches the
grid breadth-first for food, lays a wire route back to itself and turns drained food
sources into new Multivac nodes. The player places and removes flowers and trees with a
limited supply of ammunition, toggles game speed and rotates the isometric camera.

The model covers:

- **Cells.** A `Flag` holds the ten kind bits apart from the 22-bit resource count, with
  masks, intersection tests and the count accessors (module `Flags`).
- **The map.** The `Map<W, H>` resource is the class `WorldMaps.WorldMap` over an
  `array2`, with its getters (`Grids`), the save-file flattening (`SaveMaps`), start-up
  filling (`WorldInit`) and click handling (`WorldInput`).
- **Hive accounting.** `gather` and `deposit` are in `Hivemind`.
- **The router.** `Router` models `Multivac` as a class with its visited table and queue:
  `init`, both search steps, the per-tick search budget, the route walk, the state
  dispatch with its delay table, and `promote_outpost`.
- **Colonies and drones.** `Colonies` holds the drone state machine, signal selection,
  `signal_drones`, the colony clock, and colony setup.
- **Game counters.** `Game` holds the ammunition counters, reload, event handling and
  the hh:mm:ss clock; `TimeSteps` holds the speed toggle.
- **Camera.** The orientation bit machine and the axes it selects are in `Camera`.
- **Isometric projection.** `Iso` holds the projection and the tile-position conversion.
- **Sprite keys.** The wire, colony and drone key selection is in `DrawKeys`.
- **Cursor edges.** The edge classification is in `Ui`.

Modelling conventions:

- Clock firings, the `cheat` switch and a drone's `autonomy` bit are inputs.
- ECS spawns, pings and events are returned as lists.
- Floating-point positions are `real`s. A click position that `floor` turns into a cell
  is given as that cell.
- Three places where the documentation and the code disagree; the model follows the code:
  - The worked examples in the camera's doc comment (`src/camera.rs:24-34`) swap left and
    right relative to `rotate_left`/`rotate_right`, while the rule lines above them
    (`src/camera.rs:16-22`) agree with the code. `Camera.DocExamplesSwapped` states the
    values the code produces.
  - A colony with count `q` dies at firing `ceil(q / drone_cost) + 1`, not at
    `ceil(q / drone_cost)`. The firing that leaves 0 keeps the colony; only the next one
    removes it.
  - The "GAME OVER" text is spawned on every firing that finds the count at 0, cheats on
    or off. Only the removal of the colony and the stop of the game timer depend on cheats.

## Model

| member | source | states |
|---|---|---|
| Flags.Masked | src/world.rs:145-146 | masking with a mask keeps only its kind bits, and the count exactly when the mask covers the quantity bits |
| Flags.Insert | src/world.rs:127-146 | OR-ing kind bits sets them, keeps every other kind bit and keeps the count |
| Flags.Remove | src/world.rs:127-146 | AND-NOT clears those kind bits, keeps every other kind bit and keeps the count |
| Flags.SetResourceQuantity | src/world.rs:160-165 | the kind bits are unchanged, and a count up to `MAX_RESOURCE_COUNT` is stored exactly |
| Flags.LayoutConsistent | src/world.rs:125-153 | the composite masks are the unions of their kinds, `KIND_MASK` is the complement of `RESOURCE_QUANTITY`, and `MAX_RESOURCE_COUNT + 1` is the 2^22 counts that fit above bit 10 |
| Flags.QuantityBitsTest | src/world.rs:625-637 | a fresh flower holds 0, and 100, 1000 and `MAX_RESOURCE_COUNT` read back as set |
| Flags.WideCountTruncated | src/world.rs:160-165 | a count of 2^22 is shifted out of the word entirely and stores 0 |
| Flags.KindMaskIrrelevant | src/world.rs:145-146 | masking with `KIND_MASK` does not change whether a cell intersects kind bits, and intersection is a test on the kind bits alone |
| Flags.ComplementCoversQuantity | src/world.rs:145-146 | a complement mask such as `!MULTIVAC_FOOD` covers the quantity bits, so any cell with a count intersects it, unlike the same mask ANDed with `KIND_MASK` |
| Flags.EmptyIsUnique | src/world.rs:128 | a cell is empty exactly when its whole word is `EMPTY` |
| Grids.EmptyGrid | src/world.rs:326-330 | a new map is `W` by `H` with every cell empty |
| Grids.Put | src/world.rs:464-506 | writing one cell changes that cell to the value and no other cell |
| Grids.PutPut | src/world.rs:464-506 | a second write to a cell overrides the first |
| Grids.PutSame | src/world.rs:464-506 | writing a cell's own value back leaves the map unchanged |
| Grids.GetIvec2 | src/world.rs:373-383 | `get_ivec2` returns a cell exactly when 0 < x < W and 0 < y < H, and then returns row y, column x |
| Grids.Get | src/world.rs:340-348 | corrected `get`: a cell exactly when x < W and y < H, read from row y, column x |
| Grids.GetVec2 | src/world.rs:350-359 | corrected `get_vec2`: a cell exactly when both coordinates are positive and truncate to x < W and y < H, read at the truncated cell |
| Grids.GetAsWritten | src/world.rs:340-348 | `get` as written, with the `<=` guard and the transposed read; on a square map it panics exactly on the row or column one past the end, and nowhere else |
| Grids.GetVec2AsWritten | src/world.rs:350-359 | `get_vec2` as written panics exactly when a positive position truncates onto column W or row H and still passes the `<=` guard |
| Grids.GetUvec2AsWritten | src/world.rs:361-369 | `get_uvec2` as written panics exactly at x == W with y <= H, or at y == H with x <= W |
| Grids.GetPanicsOnLastEdge | src/world.rs:340-348 | `get` as written indexes out of bounds at x == W, where the corrected getter returns None |
| Grids.GetIsTransposed | src/world.rs:340-348 | on a one-row map `get` as written reads column y of row x, not the cell at (x, y) |
| Grids.GetAsWrittenAgreement | src/world.rs:340-348 | where `get` as written stays in bounds it returns `g[x][y]`, which agrees with the corrected getter exactly when the map is symmetric there |
| Grids.EdgeGettersPanic | src/world.rs:350-369 | `get_vec2` and `get_uvec2` as written index out of bounds for x == W, where the corrected getter returns None |
| Grids.GetVec2Agreement | src/world.rs:350-359 | `get_vec2` as written and the corrected getter agree on every position that does not panic, and the as-written one panics exactly on the extra edge it admits |
| Grids.IntegerPositionsAgree | src/world.rs:350-383 | on a cell position `get_ivec2` accepts, `get_vec2` of the same position returns the same cell |
| WorldMaps.WorldMap.Cells | src/world.rs:318-321 | the map's contents as rows of cells, `W` by `H`, matching the array |
| WorldMaps.WorldMap.constructor | src/world.rs:326-330 | `Map::new` makes a `W` by `H` map of empty cells in a fresh array |
| WorldMaps.WorldMap.Write | src/world.rs:464-506 | an indexed write changes exactly that cell |
| WorldMaps.WorldMap.Assign | src/world.rs:387 | assigning a loaded map copies all its cells |
| WorldMaps.WorldMap.GetIvec2 | src/world.rs:373-383 | `get_ivec2` on the map equals the grid-level `get_ivec2` of its contents |
| Hivemind.CountAt | src/hivemind/mod.rs:22-41 | the number of events naming a cell is at most the number of events |
| Hivemind.GatherOnce | src/hivemind/mod.rs:22-31 | one gather takes exactly one unit from a cell holding a count and keeps its kinds; at count 0 it clears only `HIVE_FOOD` |
| Hivemind.DepositOnce | src/hivemind/mod.rs:34-41 | one deposit keeps the kinds and adds exactly one unit, except at `MAX_RESOURCE_COUNT`, where the cell stays as it was |
| Hivemind.GatherTakesOne | src/hivemind/mod.rs:22-27 | while the count lasts, each gather takes 1 and keeps the kind bits |
| Hivemind.GatherAfterEmpty | src/hivemind/mod.rs:28-29 | a gather at count 0 clears only the `HIVE_FOOD` bit, and further gathers change nothing more |
| Hivemind.FlowerLastsQuantityPlusOne | src/hivemind/mod.rs:22-32 | a flower holding q survives q gathers and is gone after q + 1 |
| Hivemind.DepositSaturates | src/hivemind/mod.rs:34-41 | n deposits add n to the count, saturating at `MAX_RESOURCE_COUNT`, and never change the kind bits |
| Hivemind.Gather | src/hivemind/mod.rs:22-32 | events apply in order, each to its own cell only: every cell is gathered as often as the events name it |
| Hivemind.Deposit | src/hivemind/mod.rs:34-41 | events apply in order, each to its own cell only: every cell is deposited on as often as the events name it |
| Hivemind.AppliedCells | src/hivemind/mod.rs:21-41 | applying the events one at a time in order leaves every cell gathered (or deposited on) exactly as often as the events name it |
| Hivemind.UntouchedCells | src/hivemind/mod.rs:22-41 | after `gather` or `deposit` over a queue of events, a cell of the map that no event names holds the word it held before |
| SaveMaps.Flatten | src/world.rs:251-258 | the vector `from_map` builds holds the word of every cell of the map |
| SaveMaps.FlattenLayout | src/world.rs:251-258 | `from_map` writes W·H cells, with cell (x, y) at offset x + y·W |
| SaveMaps.ReadGrid | src/world.rs:283-293 | reading with a stride succeeds exactly when every offset fits, gives a `W` by `H` map, and reads cell (x, y) from offset x + y·stride |
| SaveMaps.ReadsFitAll | src/world.rs:283-293 | when the last offset fits, every offset fits |
| SaveMaps.FromMap | src/world.rs:251-264 | the save holds the row-major flattening of the map, with its width and height |
| SaveMaps.IntoMap | src/world.rs:283-293 | loading fails exactly when the corrected reader fails; on success it gives a fresh `W` by `H` map |
| SaveMaps.IntoMapAsWritten | src/world.rs:283-293 | `into_map` as written reads rows H words apart; on a square map it is exactly the corrected reader |
| SaveMaps.RoundTrip | src/world.rs:251-293 | loading a saved map with stride W gives back the same map, for every W and H |
| SaveMaps.CellRoundTrip | src/world.rs:251-293 | each cell of a saved map reads back from its own offset |
| SaveMaps.FlattenFits | src/world.rs:251-293 | a saved map's data is long enough for every read with stride W |
| SaveMaps.RoundTripSquare | src/world.rs:251-293 | `into_map` as written, with stride H, round-trips square maps |
| SaveMaps.AsWrittenPanicsOnTallMap | src/world.rs:283-293 | `into_map` as written fails on a saved 1-by-2 map that the corrected reader loads |
| SaveMaps.AsWrittenScramblesWideMap | src/world.rs:283-293 | on a saved 3-by-2 map `into_map` as written succeeds but returns a different map |
| TimeSteps.ToggleSpeed | src/world.rs:42-50 | a toggle pauses exactly a running speed, and returns 3 exactly when it resumes play |
| TimeSteps.ToggleFlipsPause | src/world.rs:42-50 | toggling pauses exactly a running speed, and returns 3 when it starts play and 1 when it pauses |
| TimeSteps.ToggleTwiceFromPaused | src/world.rs:42-50 | from paused, toggle plays at 1.0 and returns 3; a second toggle pauses and returns 1 |
| TimeSteps.ToggleTwiceForgetsSpeed | src/world.rs:42-50 | two toggles from any running speed come back at 1.0, so a fast speed is lost |
| TimeSteps.TimeStep.constructor | src/world.rs:18 | a time step holds the given speed and frame delta |
| TimeSteps.TimeStep.SetFrom | src/world.rs:26-28 | `set_from` copies only the speed; the frame delta is kept |
| TimeSteps.TimeStep.SetSpeed | src/world.rs:30-32 | `set_speed` sets the speed and keeps the delta |
| TimeSteps.TimeStep.SetDeltaTime | src/world.rs:34-36 | `set_delta_time` sets the delta and keeps the speed |
| TimeSteps.TimeStep.Toggle | src/world.rs:42-50 | the new speed and returned meter are those of the toggle rule, the pause state flips, and the delta is kept |
| WorldInit.Refill | src/world.rs:388-404 | refilling keeps the kind bits, and a cell with neither tree nor flower bits stays as it was |
| WorldInit.FillIfEmpty | src/world.rs:407-443 | after the border fill a cell is never empty, and a cell that was not empty is left as it was |
| WorldInit.RefillFills | src/world.rs:388-404 | a loaded tree or flower gets count 1000 with its kind bits kept; other cells are untouched |
| WorldInit.FillIdempotent | src/world.rs:407-443 | the border fill makes an empty cell non-empty, leaves a non-empty cell alone, and is idempotent |
| WorldInit.InitializedMap | src/world.rs:385-445 | after start-up every border cell is non-empty (an empty one becomes a tree holding 1000), every loaded tree or flower holds 1000, and inner cells without them keep their loaded value |
| WorldInit.BorderRectsCoverBorder | src/world.rs:405-443 | the two edge passes and the corner pass together cover exactly the border cells |
| WorldInit.InSomeAny | src/world.rs:405-443 | a cell lies in a list of rectangles exactly when it lies in one of them |
| WorldInit.RefillCell | src/world.rs:390-403 | the refill of one cell changes only that cell, to its refilled value |
| WorldInit.FillCell | src/world.rs:407-417 | filling one cell changes only that cell, to its filled value |
| WorldInit.FillExtends | src/world.rs:405-443 | two fills over adjoining rectangles are a fill over their union |
| WorldInit.FillColumn | src/world.rs:406-418 | one column pass fills rows 1 to H-2 of that column and changes nothing else |
| WorldInit.FillRow | src/world.rs:419-431 | one row pass fills columns 1 to W-2 of that row and changes nothing else |
| WorldInit.RefillLoaded | src/world.rs:388-404 | the refill loop refills exactly the loaded rectangle and changes nothing else |
| WorldInit.FillBorder | src/world.rs:405-443 | the three border passes fill exactly the border rectangles |
| WorldInit.FillEdges | src/world.rs:405-431 | the column and row passes fill the two edge columns and the two edge rows, without corners |
| WorldInit.FillCorners | src/world.rs:433-443 | the corner pass fills exactly the four corners |
| WorldInit.FilledOnAppend | src/world.rs:405-443 | fills over two rectangle lists compose into one fill over both |
| WorldInit.InSomeAppend | src/world.rs:405-443 | membership in the concatenation of rectangle lists is membership in either |
| WorldInit.InitializeMap | src/world.rs:385-445 | `initialize_map` fails exactly where the source panics: the save is too short for `into_map`'s reads, or a non-empty save is larger than the map; otherwise every cell is the start-up value of its loaded cell |
| Game.GameState.constructor | src/game.rs:14-22 | all three ammunition counters start at `MAX_AMMO` = 3 |
| Game.Operate | src/game.rs:52-60 | an increment raises the value and leaves it decrementable, and a decrement lowers it and leaves it incrementable |
| Game.OperateInverse | src/game.rs:52-60 | an increment undoes a decrement and vice versa within the u8 range, and `Set(a)` yields a whatever the operand was |
| Game.Reload | src/game.rs:70-94 | a reload firing sends one `Increment` for exactly the counters below `MAX_AMMO`, each at most once; without a firing nothing is sent |
| Game.ApplyGameEvent | src/game.rs:102-124 | an event that applies reports exactly one HUD update; a counter event faults exactly when its byte operation would overflow or underflow, and a speed event exactly when it is `Set` |
| Game.ApplyGameEvents | src/game.rs:102-126 | a queue of events applied in order without fault reports one HUD update per event |
| Game.ApplyGameEventFrame | src/game.rs:102-124 | an event changes only its own counter, by its byte operation, and reports the new value in its own meter; a toggle reports the toggle's return and changes only the speed |
| Game.ApplyGameEventsPrefix | src/game.rs:102-126 | a sequence of events that applies without fault also applies without fault up to any prefix |
| Game.HandleGameEvents | src/game.rs:96-127 | the new counters, new speed and reported meters are those of applying the events in order; the frame delta is kept |
| Game.FrameNet | src/game.rs:96-127 | applying a frame's events leaves each counter at its start plus increments minus decrements |
| Game.AmmoStaysInRange | src/game.rs:96-127 | one frame of at most one decrement per counter, guarded by a positive counter, and at most one reload increment below `MAX_AMMO` keeps every counter within 0 to 3 |
| Game.ReloadFitsFrame | src/game.rs:82-92 | reload's events are a valid frame by themselves |
| Game.IncrementsCounter | src/game.rs:82-92 | distinct increments sent only below `MAX_AMMO` hold no decrement and at most one increment of a counter, which then stays in range |
| Game.DistinctCountsOne | src/game.rs:82-92 | a sequence without repeats holds each event at most once |
| Game.SplitRecombines | src/game.rs:140 | minutes and seconds are below 60, and hours·3600 + minutes·60 + seconds is the elapsed time |
| Game.Decimal | src/game.rs:140 | the decimal rendering of a number is non-empty; `Game.DecimalValue` proves it is all digits and reads back to the number |
| Game.DecimalValue | src/game.rs:140 | reading the decimal rendering back gives the number |
| Game.Pad2Value | src/game.rs:140 | a number below 100 pads to exactly two digits that read back to it |
| Game.Clock | src/game.rs:140 | the clock text is at least `hh:mm:ss` long; `Game.ClockReadsBack` gives its layout and values below 100 hours |
| Game.ClockReadsBack | src/game.rs:140 | the clock text is `hh:mm:ss`, eight characters with colons at 2 and 5, and its fields read back to the elapsed time |
| Game.GameClock.constructor | src/game.rs:25 | the game time starts at 0 seconds |
| Game.GameClock.Tick | src/game.rs:129-143 | the seconds grow by the number of firings, and frame i shows the clock text of the time after its firing exactly when it fired; frames without a firing show nothing |
| Game.FiredBefore | src/game.rs:129-143 | at most n of the first n frames fired, and at least one when frame n fired |
| Game.ShownExtends | src/game.rs:129-143 | one more frame extends the shown texts by that frame's text: the clock after its firing, or nothing |
| WorldInput.Cheat.constructor | src/world.rs:508 | the cheat switch holds its initial value |
| WorldInput.Charge | src/world.rs:524-558 | a charge is at most one event, and none exactly when cheats are on |
| WorldInput.ClickOn | src/world.rs:524-558 | a click sends at most one event and spawns at most one entity, and a click that leaves its cell as it was sends and spawns nothing |
| WorldInput.PlacementRules | src/world.rs:524-558 | a left (right) click changes a cell only when its whole word is 0 and flower (tree) ammunition is left, making it exactly a flower (tree) holding 1000; a middle click changes a cell only when its kind bits hold a flower or tree and delete ammunition is left, clearing it to 0; other buttons do nothing |
| WorldInput.ChargeRules | src/world.rs:524-558 | a click sends an event only when cheats are off and it changed the cell, and that event is one `Decrement` of the clicked button's counter |
| WorldInput.ApplyClicks | src/world.rs:521-560 | handling a frame's clicks in order keeps the map's shape |
| WorldInput.Presses | src/world.rs:521-560 | a button is pressed at most once per click |
| WorldInput.ClickEventCounts | src/world.rs:524-558 | a click sends at most one event, a `Decrement` of its own button's counter, only when that counter is positive and never with cheats on |
| WorldInput.ClickEvents | src/world.rs:521-560 | the events of a frame's clicks are decrements, at most as many per counter as that button's presses, each guarded by a positive counter |
| WorldInput.FrameEventsReordered | src/world.rs:521-560 | whether a frame's events are valid does not depend on their order |
| WorldInput.FrameInOrder | src/world.rs:521-566 | click decrements, then reload increments, then a speed toggle form a valid frame |
| WorldInput.FrameKeepsAmmo | src/world.rs:521-566 | with at most one press per button per frame, the click and reload events of a frame, in any order, keep every counter within 0 to 3 |
| WorldInput.HandleClick | src/world.rs:524-558 | one click rewrites only the clicked cell, by the placement rules, and returns that click's events and spawns |
| WorldInput.HandleEvent | src/world.rs:510-576 | the map, events and spawns are those of the clicks in order, plus a speed toggle when space is pressed; pressing C flips the cheat switch |
| Router.DirOf | src/multivac/mod.rs:61-73 | `Dir::from_ivec2` names a direction exactly for the four offsets of `DIRS` |
| Router.FromRoute | src/multivac/mod.rs:83-85 | `from_route` always gives a `Connect`, whose first (second) direction is named exactly when prev (next) is a unit neighbour of pos |
| Router.DirOfInverse | src/multivac/mod.rs:11-16 | `Dir::from_ivec2` names a direction exactly for the four unit offsets, and is inverse to the offset of each direction |
| Router.RouteWireConnects | src/multivac/mod.rs:83-85 | when prev and next are distinct orthogonal neighbours of pos, `from_route` connects two distinct named directions |
| Router.Reverse | src/multivac/mod.rs:218 | a reversed sequence has the same length |
| Router.ReversedDirs | src/multivac/mod.rs:218 | the reverse search's direction order is `DIRS` reversed |
| Router.NeighboursAppend | src/multivac/mod.rs:178-190 | enqueuing over two direction lists in turn is enqueuing over their concatenation |
| Router.ReverseAppend | src/multivac/mod.rs:218 | reversing a concatenation reverses and swaps the parts |
| Router.NeighboursReversed | src/multivac/mod.rs:178-190 | the reverse step enqueues the forward step's neighbours in reverse order |
| Router.NeighboursValid | src/multivac/mod.rs:178-190 | enqueued neighbours lie in the map per `get_ivec2`, are unvisited at enqueue time, carry the current cell as prev and are one step in a listed direction |
| Router.SearchStep | src/multivac/mod.rs:152-236 | a search step returns `Stop` exactly on an empty queue, and otherwise `Search` or `InitRoute` |
| Router.SearchStepFrame | src/multivac/mod.rs:152-236 | an empty queue returns `Stop` and changes nothing; otherwise exactly the front entry is popped, visited only grows, a visited cell adds nothing, an unvisited one is added with its prev before the bounds check, and only valid neighbours are enqueued |
| Router.SearchStepOutcome | src/multivac/mod.rs:163-192 | `InitRoute(p)` comes only for the popped cell holding food and no blocking bits; `Search(Some(p))` only for the popped cell holding neither; a step never returns `Init`, `Route`, `InFlight` or `Error` |
| Router.ForwardBlockCountsQuantity | src/multivac/mod.rs:170 | the forward blocking test as written blocks whatever the corrected test blocks, and additionally exactly the food or empty cells with a count |
| Router.SearchAsWritten | src/multivac/mod.rs:152-193 | the forward step as written starts a route only where the corrected step starts the same route with the same frontier |
| Router.ForwardSearchMissesFood | src/multivac/mod.rs:170 | the forward step as written skips a flower holding 1000 that the corrected step routes to |
| Router.InitQueueShape | src/multivac/mod.rs:124-145 | `init` queues five entries per in-map neighbour of the origin, all with prev = origin and pos one step from the origin |
| Router.InitQueuesRejectedNeighbours | src/multivac/mod.rs:134-141 | the inner pass re-adds the origin's neighbours without a bounds check: on a 3-by-3 map the origin at (1, 1) gets 10 entries, including (1, 0), which `get_ivec2` rejects |
| Router.Walk | src/multivac/mod.rs:298-364 | the route walk, as written (`intended` false) or corrected, keeps the map's shape; `Router.WalkShape` and `Router.WalkWritesOnlyWire` state what it lays |
| Router.WalkShape | src/multivac/mod.rs:298-364 | the route walk ends in `Stop` or `Error`, never `InFlight`; it lays fewer than `WORLD_SIZE²` wires, each one the predecessor of the one before along the visited chain from p, at distance count + 1 |
| Router.WalkWritesOnlyWire | src/multivac/mod.rs:298-364 | the walk changes only cells that were entirely empty, to exactly `WIRE`, and only at the positions of the wires it lays |
| Router.StepFrom | src/multivac/mod.rs:305-346 | a step lays a wire only when prev and its successor are visited, the cell is in bounds and empty, and the count stays below `WORLD_SIZE²` |
| Router.OnlyWiredStep | src/multivac/mod.rs:346 | wiring one empty cell before a walk that wires only empty cells still wires only empty cells, at wire positions |
| Router.AsWrittenWalkAlwaysFails | src/multivac/mod.rs:328-338 | as written, the walk always ends in `Error`, because `next_flags` reads `pos` |
| Router.WalkAsWrittenStep | src/multivac/mod.rs:322-341 | an empty cell read as `next_flags` never holds `MULTIVAC` |
| Router.WalkStopsOnlyWhenIntended | src/multivac/mod.rs:321-338 | on a 4-by-3 map routing a flower back to the Multivac, the corrected walk lays one wire and stops, while the walk as written ends in `Error` |
| Router.Round | src/multivac/mod.rs:368-382 | a round runs one or two steps, one only when its step left `Search`, pings at most one cell per step, and ends in `Search`, `Stop` or `InitRoute` |
| Router.Rounds | src/multivac/mod.rs:366-384 | the rounds of a firing ping at most one cell per step |
| Router.SearchTick | src/multivac/mod.rs:366-384 | a `Search` firing pings at most one cell per step and takes at most as many steps as the queue held on entry |
| Router.RoundsFirst | src/multivac/mod.rs:366-384 | after a round, a firing ends with that round when it left `Search`, and otherwise goes on with one round fewer |
| Router.RoundKeeps | src/multivac/mod.rs:368-382 | a round keeps every visited entry unchanged |
| Router.RoundsBound | src/multivac/mod.rs:366-384 | n rounds take at most 2n steps, end at a non-`Search` result when they take fewer, and end in `Search`, `Stop` or `InitRoute` |
| Router.RoundsThenBound | src/multivac/mod.rs:366-384 | the step bound of `Router.RoundsBound` carries over from the rounds after the first round to the whole firing |
| Router.RoundsKeep | src/multivac/mod.rs:366-384 | any number of rounds keeps every visited entry unchanged |
| Router.SearchTickBudget | src/multivac/mod.rs:366-384 | a `Search` firing takes at most as many steps as the queue held on entry; with fewer than two queued it returns `Stop` with nothing changed |
| Router.Delay | src/multivac/mod.rs:389-398 | the next clock lies between 0 and 50 seconds, and is 0 exactly after `InitRoute` |
| Router.DelayTable | src/multivac/mod.rs:389-398 | the next clock is 0 exactly for `InitRoute`, 50 exactly for `Init`, `Stop` and `Error`, 0.5 exactly for `Route`, and 0.1 exactly for `Search` and `InFlight` |
| Router.WirePositions | src/multivac/mod.rs:346-356 | the long pings are at the laid wires' positions, in order |
| Router.PromoteCell | src/multivac/mod.rs:414-440 | a firing spawns a Multivac exactly when the outpost's cell holds no food, and the cell is then exactly `MULTIVAC` |
| Router.PromoteCellRules | src/multivac/mod.rs:414-440 | an outpost spawns a Multivac exactly when its cell holds no food, and the cell becomes exactly `MULTIVAC`; otherwise at most `gather_rate` is drained without underflow and the kinds are kept, and an emptied cell loses only its food bits |
| Router.DrainCount | src/multivac/mod.rs:431-437 | after k firings within the drain count, the count is q − 50k, or 0 when less remains |
| Router.OutpostLifetime | src/multivac/mod.rs:414-440 | an outpost on food holding q lasts ceil(q/50) firings; the next firing clears its food bits, and the one after makes the cell `MULTIVAC` |
| Router.PromoteAll | src/multivac/mod.rs:404-442 | a `promote_outpost` pass keeps the map's shape, and every outpost is either kept or promoted |
| Router.PromoteOne | src/multivac/mod.rs:410-440 | one outpost's turn keeps the map's shape and keeps or promotes that outpost; only the cell it addresses can change, and only when its clock fired |
| Router.PromoteAllFrame | src/multivac/mod.rs:404-442 | every outpost is either kept or promoted, and only cells addressed by an outpost whose clock fired can change |
| Router.Multivac.constructor | src/multivac/mod.rs:113-122 | a new router has the given origin, an empty visited table and an empty queue |
| Router.Multivac.Init | src/multivac/mod.rs:124-145 | `init` leaves visited = {origin ↦ (0, 0)}, queues the `init` entries and returns `Search(None)` |
| Router.InitQueueStep | src/multivac/mod.rs:128-141 | each accepted neighbour adds itself and then all four neighbours of the origin, unchecked; a rejected one adds nothing |
| Router.Multivac.QueueAllNeighbours | src/multivac/mod.rs:134-138 | the inner pass appends all four neighbours of the origin, in `DIRS` order, and leaves visited alone |
| Router.Multivac.SearchWith | src/multivac/mod.rs:152-236 | one search step updates the queue and visited table and returns the state, as the step specification says |
| Router.Multivac.SearchForward | src/multivac/mod.rs:152-193 | `search` is the step over `DIRS` with the corrected blocking mask |
| Router.Multivac.SearchReverse | src/multivac/mod.rs:195-236 | `search_reverse` is the step over reversed `DIRS`, blocking on kind bits only |
| Router.Multivac.SearchRound | src/multivac/mod.rs:368-382 | a round is one forward and, after a `Search` result, one reverse step, pinging every `Search(Some(p))` |
| Router.Multivac.SearchTicks | src/multivac/mod.rs:366-384 | a `Search` firing runs `queue.len()/2` rounds, fixed at entry, and exits at the first result that is not `Search` |
| Router.Multivac.RouteWalk | src/multivac/mod.rs:298-364 | the route loop writes the map and lays the wires of the corrected walk, and returns its final state |
| Router.Multivac.RouteStep | src/multivac/mod.rs:305-346 | one pass of the route loop is the corrected walk's step: on failure the map is unchanged, otherwise the step's cell gains `WIRE` |
| Router.Multivac.Update | src/multivac/mod.rs:272-401 | without a firing nothing changes; on a firing the next state never is `InFlight` or `Init` and the clock is reset to that state's delay; `Init`, `Stop` and `Error` re-run `init`, `InitRoute(p)` ORs `OUTPOST` into p, pings p, spawns an outpost and goes to `Route(p)`, `Route(p)` walks, `InFlight` goes to `Error`, and `Search` runs the tick budget |
| Router.PromoteOutposts | src/multivac/mod.rs:404-442 | the pass writes the map and returns the kept and promoted outposts of the specification |
| Colonies.Advance | src/hivemind/colony.rs:342-382 | no transition kills a drone, and a dead drone stays dead |
| Colonies.DroneTransitions | src/hivemind/colony.rs:342-382 | `Dead` is absorbing; `Depositing` and `Resting` go to `ToFood`; `Exploring` goes to `ToFood` exactly without autonomy and stays otherwise |
| Colonies.DroneFoodTransitions | src/hivemind/colony.rs:342-382 | `Gathering` goes to `ToHome` on food, else to `ToHomeNoFood`; `ToFood` gathers on food, explores off food with autonomy and stays otherwise |
| Colonies.DroneHomeTransitions | src/hivemind/colony.rs:342-382 | `ToHome` and `ToHomeNoFood` deposit or rest on any colony bit and stay otherwise |
| Colonies.NoTransitionKills | src/hivemind/colony.rs:342-382 | a drone becomes `Dead` only if it already is |
| Colonies.SignalOf | src/hivemind/colony.rs:386-396 | a drone has no steering signal exactly when it is `Gathering`, `Depositing`, `Resting` or `Dead` |
| Colonies.AutonomyAfter | src/hivemind/colony.rs:400-421 | a drone without a signal keeps its autonomy, and a homing drone loses it |
| Colonies.SignalRules | src/hivemind/colony.rs:384-422 | the steering signal is absent exactly for `Gathering`, `Depositing`, `Resting` and `Dead`, leaving autonomy unchanged; heading home clears autonomy; the home signal serves exactly the two homing states |
| Colonies.Drone.constructor | src/hivemind/colony.rs:90-97 | a new drone of a colony starts `Exploring` without autonomy |
| Colonies.Drone.Update | src/hivemind/colony.rs:336-422 | a drone stuck in a wall changes nothing; otherwise it takes the transition for the cell it is on (EMPTY off the map) and then the autonomy rule |
| Colonies.InState | src/hivemind/colony.rs:294-306 | the drones in a state are at most all drones |
| Colonies.InStateMembers | src/hivemind/colony.rs:294-306 | a position is listed for a state exactly when a drone in that state is there |
| Colonies.SignalsPerDrone | src/hivemind/colony.rs:294-306 | each drone sends at most one gather or deposit event |
| Colonies.SignalDrones | src/hivemind/colony.rs:294-306 | `signal_drones` sends gather events exactly for `Gathering` drones and deposit events exactly for `Depositing` ones, in drone order |
| Colonies.ColonyFire | src/hivemind/colony.rs:234-247 | a firing on a colony holding a count keeps its kinds and spends at least 1 and at most `drone_cost`; on count 0 it empties the cell unless cheats are on |
| Colonies.ColonySpends | src/hivemind/colony.rs:232-237 | within the spend count each firing takes `drone_cost` = 9, or all that is left |
| Colonies.ColonyLifetime | src/hivemind/colony.rs:232-245 | without cheats, a colony keeps its kind through ceil(q/9) firings, holds 0 after them, and the next firing empties the cell |
| Colonies.CheatKeepsColony | src/hivemind/colony.rs:238-246 | with cheats on, a colony cell keeps its kind forever |
| Colonies.GameTimer.constructor | src/game.rs:26 | the game timer starts repeating |
| Colonies.ColonyFiring | src/hivemind/colony.rs:232-289 | a firing drains or (count 0, cheats off) empties the colony cell and changes no other cell, stops the game timer exactly when the colony dies, shows "GAME OVER" whenever the count was 0, and always spawns one `Exploring` drone of the colony |
| Colonies.SetupGrid | src/hivemind/colony.rs:124-217 | seeding colony cells keeps the map's shape |
| Colonies.SetupColonies | src/hivemind/colony.rs:124-217 | setup gives the three colony cells their colony bit and count 1000 and changes no other cell |
| Colonies.Setup | src/hivemind/colony.rs:124-217 | the map after setup is the seeded map, and one starting drone per colony is spawned |
| Colonies.SeedCell | src/hivemind/colony.rs:143-144 | seeding one colony cell adds its colony bit and sets its count to 1000, and changes no other cell |
| Camera.RightOf | src/camera.rs:114-119 | `rotate_right` toggles `SWAP_AXIS` and keeps every bit outside `FLIP_AXIS` and `SWAP_AXIS` |
| Camera.LeftOf | src/camera.rs:121-126 | `rotate_left` toggles `SWAP_AXIS` and keeps every bit outside `FLIP_AXIS` and `SWAP_AXIS` |
| Camera.RotationsInverse | src/camera.rs:114-126 | `rotate_left` undoes `rotate_right` and vice versa |
| Camera.RightCycle | src/camera.rs:107-119 | from the default the right rotations cycle 01 → 11 → 00 → 10 → 01, and four of them are the identity |
| Camera.DocExamplesSwapped | src/camera.rs:24-34 | the code's rotations from 01 and 00 are the doc's examples with left and right swapped |
| Camera.OrientAxes | src/camera.rs:72-104 | `orient` sets `mouse_swap` exactly when `SWAP_AXIS` is set; up and right are perpendicular axis unit vectors, right a quarter turn from up; the flip components are ±1; a right rotation turns up by a quarter |
| Camera.Orientation.constructor | src/camera.rs:107-111 | the default orientation is `FLIP_AXIS` |
| Camera.Orientation.RotateRight | src/camera.rs:114-119 | the bits become their right rotation |
| Camera.Orientation.RotateLeft | src/camera.rs:121-126 | the bits become their left rotation |
| Camera.CoordinateVectors.constructor | src/camera.rs:51-60 | new coordinate vectors are oriented for the default orientation |
| Camera.CoordinateVectors.Orient | src/camera.rs:72-104 | `orient` sets the axes, flip and swap of the current bits and keeps the z components |
| Camera.CoordinateVectors.RotateRight | src/camera.rs:62-65 | rotating right rotates the bits and re-orients |
| Camera.CoordinateVectors.RotateLeft | src/camera.rs:67-70 | rotating left rotates the bits and re-orients |
| Iso.Layout | src/grid.rs:8-15 | the chunks tile the grid on each axis, `ORIGIN_OFFSET` is 2550 and a tile is twice as wide as high |
| Iso.WorldToIso | src/grid.rs:32-40 | the z of a projected position is x + y |
| Iso.WorldToIsoNoOffset | src/grid.rs:42-50 | the depth is x + y, and `iso_to_world` maps the result back to the point half a tile back on both axes |
| Iso.IsoToWorld | src/grid.rs:61-79 | projecting the result with `world_to_iso` gives back the screen x and y |
| Iso.RoundTrip | src/grid.rs:32-79 | `iso_to_world` inverts `world_to_iso`, and projecting back reproduces the screen x and y |
| Iso.Anchors | src/grid.rs:32-50 | the origin projects to (0, `ORIGIN_OFFSET`, 0), and `world_to_iso_no_offset(p)` is `world_to_iso(p − (0.5, 0.5))` with z = p.x + p.y |
| Iso.AsU32 | src/grid.rs:87 | the saturating `as u32` cast is at most `u32::MAX` and truncates any smaller value |
| Iso.TilePosOf | src/grid.rs:82-89 | a negative coordinate gives the `u32::MAX` sentinel; below `u32::MAX` the result is the tile whose unit square contains the point |
| Iso.TilePosRules | src/grid.rs:82-89 | `tile_pos` is (`u32::MAX`, `u32::MAX`) when either coordinate is negative, and otherwise the truncated coordinates |
| DrawKeys.WireTexture | src/draw/setup.rs:231-273 | every wire texture key is at least eight characters and starts with "wire-" |
| DrawKeys.WireTextureSymmetric | src/draw/setup.rs:231-273 | `Connect(a, b)` and `Connect(b, a)` have the same texture; `Disconnect(None)`, `Connect(d, d)` and any `Connect` with `None` fall back to "wire-all" |
| DrawKeys.DisconnectTexture | src/draw/setup.rs:232-235 | `Disconnect(d)` for a named direction selects "wire-" followed by its name |
| DrawKeys.ConnectTexture | src/draw/setup.rs:236-271 | two distinct named directions select "wire-a-b" in the order north, south, east, west, whichever way round they come |
| DrawKeys.RouteWiresAreNamed | src/draw/setup.rs:231-273 | a wire laid along a route never gets the "wire-all" texture |
| DrawKeys.WireSprite | src/draw/setup.rs:222-225 | a wire gets a sprite exactly when it has a `Delay` that has finished |
| DrawKeys.ColonyLookOf | src/draw/setup.rs:135-160 | a colony is drawn exactly when its flag is one of the four colony words with count 0; any other flag panics |
| DrawKeys.ColonyLookRules | src/draw/setup.rs:135-160 | a colony is drawn exactly when its flag is exactly one of `COLONY_C`, `COLONY_M`, `COLONY_Y` and `COLONY_ALL`, with a count of 0, and the three single colonies get distinct textures |
| DrawKeys.DroneAtlas | src/draw/setup.rs:30-36 | a drone gets a sprite sheet unless its colony bits hold none or exactly two colonies, where drawing panics |
| DrawKeys.DroneAtlasRules | src/draw/setup.rs:30-36 | the drone atlas panics exactly when the masked colony bits hold none or exactly two colonies, and depends only on those bits |
| Ui.EdgePredicates | src/ui.rs:48-65 | north and south are never both true, nor east and west; N, E, S and W satisfy one predicate, the diagonals two |
| Ui.UiContext.ClassifyEdge | src/ui.rs:126-151 | an edge is reached exactly when the cursor is within `EDGE_EPSILON` of a side; W beats E and the bottom beats the top, so the reached edge is west, east, south or north exactly by those tests; the `unreachable!()` arms are never taken, and `cursor_edge` ends as None |
| Ui.UiContext.CacheWindowAttrs | src/ui.rs:90-153 | a resize stores the size and centres the cursor; motion reads the cursor, 0 when absent; after either the edge reached is the one `Classified` gives for the new size and cursor, and `cursor_edge` is reset to None; otherwise nothing changes |

## Left out

- `Hivemind.Gather` and `Hivemind.Deposit`: require every event to name a cell inside the map; the source indexes the map without a check, so an event off the map panics there.
- Bit packing: a cell is modelled as kind bits plus a count, not as one `u32`. `Flag::from_bits` never fails because the defined flags cover all 32 bits, so the save reader cannot fail on the data itself.
- `SaveMap::load`/`save`: file I/O and the RON format are not modelled; a save is its data, width and height.
- ECS plumbing: entity spawns and despawns, pings and events are returned as lists or left out. Timers are modelled as firings given as inputs.
- The text bundle of the "GAME OVER" message: only the fact that it is shown is modelled.
- `src/hivemind/field.rs` and `src/hivemind/field_systems.rs` are not part of this model. The scalar and vector field diffusion is floating-point numerics.
- Drone steering and movement (`src/hivemind/colony.rs:398-456`): the float gradients, random jitter, normalisation, wall bounce and `should_face_left` are left out.
- Drone positions: a drone's position is a `real` vector in `Colonies`. A gather or deposit event addresses its cell in `Hivemind`.
- `Colonies.Drone.Update`: being stuck in a wall and the float threshold tests on the signals are given as the inputs `stuck` and `lost`. The cell under the drone is the input `cell`, `None` off the map; the source reads it with `get_vec2`, whose `<=` guard (src/world.rs:353) lets a position that truncates onto column W or row H through and then indexes past the map. While the border holds trees no drone reaches those cells.
- `update_colony` loops over every colony; the model takes one colony's firing at a time (`Colonies.ColonyFiring`).
- `multivac::setup` is not modelled: it spawns `Multivac` components and `Disconnect` wires without a `Delay`. Those wires never get a sprite, which `DrawKeys.WireSprite` states.
- `Router.Multivac.constructor` does not model the capacity hints of the hash map and queue, which do not change behaviour.
- `game_time` counts seconds in an `f32`; the model counts whole seconds in a `nat`, so rounding of very large times is not modelled.
- Floating-point rounding in `src/grid.rs`, `src/camera.rs` and `src/ui.rs` is not modelled: positions are `real`s.
- `cache_window_attrs_system` recomputes the camera matrix on rotation events; that matrix is left out, along with `camera::movement` and `ui::cursor_system`.
- Sprite bundles around the key selection in `src/draw/setup.rs` are left out: transforms, scales and the health-bar width.
- `WorldInit.InitializeMap`: the tree and flower entities spawned during start-up are not returned. It also requires a square map of at least one cell, which the game always uses.
- `WorldInit.InitializeMap`: where the source panics (a save too short for `into_map`'s reads, or a non-empty save wider or taller than the map), the model returns false and leaves the map as it was. The source has already replaced the map when the refill loop panics.
- `WorldInit.FillColumn` and `WorldInit.FillRow` model one iteration of the outer `for x in xs` / `for y in ys` loops each; `WorldInit.FillEdges` calls them once per entry.
- `SpeedOp::Set` panics (`todo!()`); the model treats it as a fault that makes `Game.ApplyGameEvent` return None.
- `Game.HandleGameEvents` requires the events to apply without fault. It does not model the u8 overflow panic or a `SpeedOp::Set` panic.
- `Router.Multivac.Update`: an `InitRoute(p)` firing requires p to lie in the map, because the source indexes the map at p without a check. Every `InitRoute` the search produces satisfies this (`Router.SearchStepOutcome`).
- `Router.Multivac.Update` and `Router.Multivac.RouteWalk` use the corrected walk. `Router.Walk` with `intended` set to false models the code as written.
- `Router.Multivac.RouteStep` is one step of the corrected walk, which reads the cell at `next` where the code reads `pos` again. `Router.StepFrom` with `intended` set to false models the step as written.
- `Router.Multivac.SearchRound` runs the forward search step with the corrected blocking mask (kind bits only), where the code also blocks on any count. `Router.SearchAsWritten` models the step as written, and `Router.ForwardSearchMissesFood` shows a flower the two treat differently.
- `Router.Multivac.SearchTicks` runs its rounds with the corrected forward step, so it can start a route at a flower or tree holding a count that the code skips.
- `Router.Multivac.Update`: its `Search` branch runs the corrected forward step as well.
- `Router.Round` specifies a search round with the corrected forward step.
- `Router.Rounds` and `Router.SearchTick` specify a `Search` firing with the corrected forward step.
- `Router.PromoteOne`, `Router.PromoteAll` and `Router.PromoteOutposts` skip an outpost by the corrected `get_vec2` (a strict `<` guard). For every outpost inside the map this is the same answer as the code's; the code panics on an outpost on row H or column W.
- Flower and tree despawn animations, volcanoes, the apocalypse countdown, `src/hud.rs`, `src/story.rs` and `src/main.rs` are outside the modelled core.

## Findings

| source | as written | input that shows it | evidently intended | confidence | as-written member | corrected member |
|---|---|---|---|---|---|---|
| src/world.rs:340-369 | `get`, `get_vec2` and `get_uvec2` test `x <= W && y <= H`, and `get` reads `self[x][y]` | `get(W, 0)` passes the guard and reads row W, one past the last row of the square world map; on the map `[[FLOWER, TREE]]`, `get(1, 0)` reads row 1 | `x < W && y < H`, read at row y, column x | not executed | Grids.GetPanicsOnLastEdge | Grids.Get |
| src/world.rs:283-293 | `into_map` reads `data[x + y * H]` | a saved 1-by-2 map reads past its data; a saved 3-by-2 map loads scrambled | read `data[x + y * W]`, as `from_map` writes | not executed | SaveMaps.AsWrittenScramblesWideMap | SaveMaps.RoundTrip |
| src/multivac/mod.rs:170 | the forward search blocks on `intersects(!MULTIVAC_FOOD)`, which includes the quantity bits | a flower holding 1000 next to the origin is skipped by `search` but found by `search_reverse` | block on kind bits only, `!MULTIVAC_FOOD & KIND_MASK`, as the reverse search does at line 213 | not executed | Router.ForwardSearchMissesFood | Router.Multivac.SearchForward |
| src/multivac/mod.rs:328 | `next_flags` reads `map.get_ivec2(pos)`, so the `Stop` at lines 336-338 needs an empty cell holding `MULTIVAC` | any route: the walk overwrites `Stop` with `Error` (or runs until the cell test fails) | read `map.get_ivec2(next)`, stopping when the next cell is the Multivac | not executed | Router.AsWrittenWalkAlwaysFails | Router.Multivac.RouteWalk |
