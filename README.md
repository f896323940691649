# Tank AI of the capture-the-flag game, in Dafny

This project models the class `Ai` of `ai.py`, the computer player of a
top-down capture-the-flag tank game, and proves properties of it. Each tick
the game loop calls `decide`. That decides whether to fire and then resumes
the movement generator `move_cycle_gen` for one step. The generator plans a
route by breadth-first search over the tile grid, turns the tank toward the
next waypoint, drives there, and plans again.

The model has one module per concern:

- `Tiles`: the box grid, its box codes (grass 0, rock 1, wood 2, metal 3),
  Python's `int()` truncation and the round-half-to-even rounding of
  `Vec2d.int_tuple`.
- `PathSearch`: the three neighbour filters and `find_shortest_path`.
  The search is written twice:
  - as the function `Search`, one recursion per round of the outer loop;
  - as the loop method `BreadthFirstSearch`, which keeps the source's FIFO
    queue of (tile, route) entries and its visited set.

  The method is proved equal to the function. The function is proved to
  return a shortest route when one exists and nothing otherwise. The proof
  uses a breadth-first invariant over the sets of tiles reachable within
  `k` steps.
- `Targeting`: `get_target_tile`. It returns the home base while carrying
  the flag. Otherwise it returns a tile of the route a flag-carrying
  teammate broadcast, or else the flag's tile. The teammate loop is the
  method `FollowTeammate`, proved against the fold `Nearest`.
- `Alternation`: `switch`, the rule that toggles the route-avoiding mode.
- `Combat`: the cooldown-gated fire decision of `maybe_shoot`.
- `Controller`: the generator as an explicit state machine.
  - `Step` runs it from one `yield` to the next, as one
    `next(self.move_cycle)` does.
  - The agent is in one of four phases: planning, aiming after the yield
    that follows planning, inside the turn loop, or inside the drive loop.
  - The float geometry of `turn`, `correct_angle` and `correct_pos` arrives
    each tick as three booleans.
- `AiAgent`: the class `Ai` itself.
  - Its fields, and the generator's locals `reset`, `next_coord` and
    `original_path`, are fields of a Dafny class.
  - Its methods update them in place.
  - Each method is proved to leave exactly the state the corresponding
    `Controller`, `Combat` or `Alternation` function computes.

## Notes on the source

- `filter_tile_neighbors_second_path` admits metal boxes, like the
  `second_try` filter. It rejects every tile of `previous_path` except the
  last one, because its loop runs over `range(len(previous_path) - 1)`
  (ai.py:279-289).
- `get_tile_neighbors` reads `other_path` (ai.py:262), so while it is set the
  first search of a planning round (ai.py:123) already avoids the previous
  route. The search at ai.py:127 repeats the one at ai.py:123, and
  `Controller.PlanSpec` proves that the repeat never changes the plan.
- A turn stalled past 250 ticks calls `switch` and leaves the turn loop with
  the counter still above the limit (ai.py:148-151). When the position is not
  reached at once and no forced reset arrives first, the drive loop yields
  once and on the next tick calls `switch` a second time with the same route
  (ai.py:154-161). `Controller.TurnStallSwitchesTwice` proves the net effect
  under those conditions: the mode flips exactly when the route differs from
  the remembered one.

## Model

| member | source | states |
|---|---|---|
| Tiles.Trunc | ai.py:246-251 | `int()` of a coordinate truncates toward zero: the result is within one of the input, no larger in magnitude, with the input's sign |
| Tiles.TileOf | ai.py:246-251 | `get_tile_of_position`: each coordinate truncated by `Trunc` |
| Tiles.RoundHalfEven | ai.py:69-71 | the tile coordinate of `start.int_tuple` is within one half of the position, and a tie goes to the even integer |
| Tiles.TileOfTile | ai.py:221 | the tile of an integral position is that tile, so `get_tile_of_position(self.grid_pos)` is the grid position |
| PathSearch.FilterFor | ai.py:260-265 | the filter `get_tile_neighbors` picks: the metal-box filter under `second_try`, else the avoiding filter under `other_path`, else the normal filter |
| PathSearch.Excluded | ai.py:284-287 | the tiles the avoiding filter rejects: every tile of the previous route but the last |
| PathSearch.Passable | ai.py:267-289 | the three filters: in bounds, and grass or wood (normal), also metal (`second_try`), also metal and not an excluded tile (avoiding) |
| PathSearch.Neighbors | ai.py:259 | the neighbour list has four entries, and they are exactly the tiles one step away along x or y |
| PathSearch.Expand | ai.py:198-202 | the inner loop only adds to the visited set; it adds only neighbours that pass the filter; when it adds nothing the queue is unchanged |
| PathSearch.ExpandQueue | ai.py:198-202 | the inner loop keeps the queue as a prefix and appends entries for passable, previously unvisited neighbours, each tile once, each carrying the front entry's route |
| PathSearch.ExpandPrefix | ai.py:198-202 | the inner loop only appends to the queue |
| PathSearch.ExpandEntries | ai.py:198-202 | every appended entry is a passable, previously unvisited neighbour that carries the front entry's route |
| PathSearch.ExpandDistinct | ai.py:198-202 | no tile is appended twice in one pass of the inner loop |
| PathSearch.ExpandVisited | ai.py:199-202 | the visited set after the inner loop is the old one plus exactly the appended tiles |
| PathSearch.ExpandCovers | ai.py:198-202 | after the inner loop every neighbour that passes the filter is visited |
| PathSearch.RoundQueue | ai.py:189-202 | one round of the outer loop drops the front entry and appends entries for the passable, unvisited neighbours of its tile, each once, with routes one tile longer |
| PathSearch.RoundVisited | ai.py:189-202 | one round visits exactly what it enqueues, and afterwards every passable neighbour of the front tile is visited |
| PathSearch.RoundNodes | ai.py:189-202 | the tiles in the queue after a round are the old ones minus the front tile plus the appended ones |
| PathSearch.RoundKeepsArea | ai.py:198-202 | a round visits only in-bounds tiles (or the start), which bounds the search's termination measure |
| PathSearch.RoundKeepsDistinct | ai.py:199-202 | the queue never holds a tile twice |
| PathSearch.RoundKeepsPartition | ai.py:189-202 | the visited set is always the expanded tiles plus the queued ones, and no tile is in both |
| PathSearch.RoundKeepsSets | ai.py:189-202 | a round keeps the set part of the invariant: visited = expanded + queued, and every expanded tile has all its passable neighbours visited |
| PathSearch.RoundKeepsRoutes | ai.py:189-202 | a round keeps every queued route a valid route to its tile, shortest first and at most one step apart in length |
| PathSearch.RoundRoutesValid | ai.py:189-202 | after a round every queued entry carries a valid route to its tile, one or two levels long |
| PathSearch.RoundRoutesSorted | ai.py:189-202 | after a round the queue still holds shorter routes first |
| PathSearch.RoundKeepsLevels | ai.py:189-202 | a round keeps the level part: everything within `level - 1` steps is expanded, nothing expanded is farther than `level`, and the longer queued routes lead farther |
| PathSearch.RoundKeepsInv | ai.py:188-202 | one round of the outer loop on a non-target entry keeps the whole breadth-first invariant |
| PathSearch.InvInit | ai.py:177-186 | the initial queue (the start tile with an empty route) and visited set (the start tile) meet the invariant |
| PathSearch.ReachVisited | ai.py:188-202 | under the invariant every tile within `level` steps is visited |
| PathSearch.FrontReached | ai.py:189 | the front entry's tile is within `level` steps |
| PathSearch.ExhaustedOutcome | ai.py:188-203 | when the queue runs dry the target is unreachable in any number of steps, and the search returns no route |
| PathSearch.FoundOutcome | ai.py:193-197 | when the target is at the front of the queue, its route plus the target is a route to the target that no shorter route matches |
| PathSearch.ExploreRound | ai.py:188-202 | a round on a non-target front entry keeps the visited set in bounds and does not change the search's result |
| PathSearch.Explore | ai.py:188-202 | the outer loop: pop the front entry, return its route plus its tile when it is the target, otherwise expand it and go on; nothing when the queue runs dry |
| PathSearch.Search | ai.py:168-203 | `find_shortest_path` as a function: `Explore` from the queue holding the start tile with an empty route and the visited set holding the start tile |
| PathSearch.ExploreCorrect | ai.py:188-203 | from any state meeting the invariant the rest of the search returns no route exactly when the target is unreachable, and otherwise a shortest route |
| PathSearch.ExploreOn | ai.py:188-202 | the same promise after one more round on a non-target entry |
| PathSearch.SearchCorrect | ai.py:168-203 | `find_shortest_path` returns a route from the start to the target whenever one exists under the filter, returns nothing exactly when none does, and is never longer than any route |
| PathSearch.ShortestIsSimple | ai.py:168-203 | a shortest route never visits a tile twice |
| PathSearch.PermissiveWidest | ai.py:267-289 | every tile the normal or the avoiding filter lets through, the metal-box filter lets through too, so every route is a permissive route |
| PathSearch.BreadthFirstSearch | ai.py:168-203 | the queue-and-visited-set loop returns the same route as `Search`: a route to the target when one exists, nothing exactly when none does, the shortest one, with no tile twice |
| Targeting.Nearest | ai.py:213-219 | the route `closest` holds after scanning the tiles: the permissive route to each tile replaces it when there is none yet or it is strictly longer |
| Targeting.TeammateTile | ai.py:212-227 | the teammate branch: the route's first tile once our own tile is found on it, otherwise the last tile of the kept route, or the route's first tile when the kept route is empty |
| Targeting.TargetTile | ai.py:205-231 | `get_target_tile`: the truncated start position when carrying the flag, else the teammate branch, else the flag's tile |
| Targeting.NearestSpec | ai.py:213-219 | the route kept by the teammate loop is the permissive route to some tile of the broadcast route, no longer than the route to any tile, and strictly shorter than the route to every earlier tile |
| Targeting.NearestStep | ai.py:214-219 | each tile scanned replaces the kept route exactly when there is none yet or its own route is strictly shorter |
| Targeting.TargetPriority | ai.py:205-231 | the target is the home base tile when carrying the flag, otherwise a tile of the broadcast route when there is one, otherwise the flag's tile |
| Targeting.TeammateTileSpec | ai.py:212-227 | the teammate branch returns a tile of the route. It is the route's first tile when our tile is on the route or some route tile is unreachable. Otherwise it is a reachable tile whose route is no longer than that to any route tile |
| Targeting.FollowTeammate | ai.py:212-227 | the loop with its early exit returns the tile `TeammateTile` specifies |
| Alternation.Switch | ai.py:108-114 | `switch` on the two fields it owns: flip the mode when the route equals the remembered one, then remember the route |
| Alternation.SwitchSpec | ai.py:108-114 | `switch` flips the mode exactly when the abandoned route equals the remembered one, always remembers the abandoned route, and keeps the mode consistent |
| Alternation.DoubleSwitch | ai.py:108-114 | two switches on the same route flip the mode exactly when the route differs from the remembered one |
| Combat.IsTarget | ai.py:102-104 | the ray hits count as targets: another tank or a destructible box |
| Combat.ShootStep | ai.py:87-106 | below the trigger the counter counts up without firing; at 50 a tank or a destructible box in the ray resets it to 0 and fires; it fires in no other case and stays within 0..50 |
| Combat.QuietWhileCooling | ai.py:93-94 | starting below the trigger, the first `50 - tick` calls never fire |
| Combat.ShotsSpaced | ai.py:93-106 | two shots are at least 51 calls apart, whatever the ray hits |
| Combat.SteadyFire | ai.py:93-106 | from the initial counter value 50 (ai.py:57), a run of targets fires exactly on every 51st call, the first included |
| Combat.CoolingReturns | ai.py:93-105 | 51 calls after a shot the counter is back at the trigger |
| Combat.CountUp | ai.py:93-94 | `n` calls below the trigger leave the counter `n` higher |
| Controller.Plan | ai.py:123-129 | the four searches of the planning block in the source's order, without simplification |
| Controller.Replan | ai.py:123-140 | planning issues no command, and it reports a hang only in the state it leaves: planning, with no route and none findable |
| Controller.Finish | ai.py:162-166 | ending a maneuver issues exactly stop-turning and stop-moving, zeroes the counter, clears the forced reset, takes the body's tile as the grid position, and plans again |
| Controller.ShouldAccelerate | ai.py:152 | the throttle condition: route tiles remain, no teammate target, or the tank carries the flag |
| Controller.AfterTurn | ai.py:151-158 | leaving the turn loop: stop turning, throttle under `ShouldAccelerate`, then the drive loop's first test, which ends the maneuver or yields with the counter one higher |
| Controller.AimStep | ai.py:142-145 | the step after planning: turn toward the waypoint, then leave the turn loop at once when the angle is right, or yield in it with the counter one higher |
| Controller.TurnStep | ai.py:143-151 | a turn-loop tick: a forced reset, a stall past 250 (after `switch`) or the right angle leaves the loop; otherwise it yields again with the counter one higher |
| Controller.DriveStep | ai.py:154-166 | a drive-loop tick: a forced reset, a stall past 250 (after `switch`) or arrival ends the maneuver; otherwise it yields again with the counter one higher |
| Controller.Step | ai.py:116-166 | a step that hangs leaves the planning state from which no route is findable |
| Controller.Initial | ai.py:116-122 | a fresh generator is in planning with the counter at zero and meets the state invariant |
| Controller.PlanSpec | ai.py:123-129 | the four searches give the active filter's shortest route when there is one, else the shortest permissive route. The search under `other_path` changes nothing. The result is empty exactly when no permissive route exists |
| Controller.PlanningStep | ai.py:123-140 | planning issues nothing. An empty route hangs. A one-tile route waits a tick. A longer route starts a maneuver toward its second tile, remembers the route as `original_path` and keeps the rest after the waypoint |
| Controller.HangIsForever | ai.py:130-135 | a hung step leaves a state from which planning hangs again and changes nothing, so the `continue` never yields, and that no permissive route leads from the new grid position to the target |
| Controller.HangExactly | ai.py:123-135 | a planning step hangs exactly when no permissive route leads from the grid position to the target |
| Controller.StepKeepsValid | ai.py:116-166 | every step keeps the invariant: the counter is zero outside the loops and bounded inside them, and the waypoint and remaining tiles come from the planned route |
| Controller.ReplanValid | ai.py:123-140 | planning from a zero counter leaves a valid state whatever the route |
| Controller.ResetLifecycle | ai.py:121-166 | a step adds one to the counter or zeroes it. It zeroes it only when a maneuver ends, and then the forced reset is cleared, the stop commands are issued and the grid position is updated. Inside the loops the counter always grows |
| Controller.ResetPlanning | ai.py:121-140 | planning keeps the counter at zero and enters neither loop |
| Controller.ResetAiming | ai.py:142-166 | the step after planning counts into a loop or ends the maneuver as `ResetLifecycle` states |
| Controller.ResetTurning | ai.py:143-166 | a turn-loop step counts on, counts into the drive loop, or ends the maneuver |
| Controller.ResetDriving | ai.py:154-166 | a drive-loop step counts on or ends the maneuver |
| Controller.DriveWaits | ai.py:154-161 | without a forced reset, a stall or arrival, the drive loop yields again, issues nothing and only counts |
| Controller.ThrottleRule | ai.py:151-153 | the throttle is issued only when leaving the turn loop. It is issued then exactly when route tiles remain, no teammate target is set, or the tank carries the flag |
| Controller.ForcedResetWhileDriving | ai.py:157-166 | a forced reset seen in the drive loop ends the maneuver on that tick: stop commands, counter zero, flag cleared |
| Controller.ForcedResetWhileTurning | ai.py:146-158 | a forced reset seen in the turn loop falls through into the drive loop with the flag still set and, when the position is not reached on that tick, the maneuver ends on the next tick |
| Controller.TurnStallSwitchesTwice | ai.py:148-161 | when no forced reset is set and the position is not reached on the stall tick, a turn stalled past 250 switches, falls into the drive loop still above the limit, and switches again on the next tick. Net effect under those conditions: the mode flips exactly when the route differs from the remembered one |
| AiAgent.FirstFlag | ai.py:238-243 | the flag found is the first flag object of the list, and there is none exactly when the list holds no flag |
| AiAgent.FirstFlagAppend | ctf.py:173 | appending an object keeps the list's first flag; a list without a flag gets the appended object's flag when it is one, so the flag appended after the agents are built is the one `get_flag` finds |
| AiAgent.FirstFlagRemove | ctf.py:250 | removing an object that is not a flag, as the game loop does with bullets and boxes, keeps the list's first flag |
| AiAgent.TileOfFlag | ai.py:229-231 | the tile of the cached flag's position, truncated as `get_tile_of_position` does, or none without a flag |
| AiAgent.Ai.constructor | ai.py:43-62 | a new agent has no cached flag, the body's tile as grid position, the gun at 50 and not fired, no teammate target, no remembered route, the generator fresh, the game objects list as passed in, and the invariant established |
| AiAgent.Ai.UpdateGridPos | ai.py:74-78 | only the grid position changes, to the body's tile |
| AiAgent.Ai.GetFlag | ai.py:233-244 | a cached flag is kept; otherwise the first flag object of the list as it stands at the call is cached and returned; nothing else changes |
| AiAgent.Ai.MaybeShoot | ai.py:87-106 | the counter and the pending-shot flag change as `ShootStep` says; the movement state does not change |
| AiAgent.Ai.Switch | ai.py:108-114 | the mode and the remembered route change as `Alternation.Switch` says and nothing else changes |
| AiAgent.Ai.GetTargetTile | ai.py:205-231 | returns the target `TargetTile` specifies |
| AiAgent.Ai.FindShortestPath | ai.py:168-203 | without a target: the search from the grid position to the target tile. With one: the search from the body's tile. Both use the filter `second_try` and `other_path` select |
| AiAgent.Ai.RevealPosition | ai.py:64-72 | the route to the start position is a permissive route whenever one exists, and empty exactly when none does. It is the first search's result when that is not empty: the shortest route under the active filter, which is the avoiding filter while `other_path` is set. Otherwise it is the `second_try` search's result, the shortest permissive route |
| AiAgent.Ai.ChooseRoute | ai.py:123-129 | the four searches return the route `Plan` specifies |
| AiAgent.Ai.PlanRoute | ai.py:123-140 | the fields change as `Replan` says: `original_path` set, the start and the waypoint popped, a hang reported when the route is empty |
| AiAgent.Ai.EndManeuver | ai.py:162-166 | the fields and the command log change as `Finish` says |
| AiAgent.Ai.LeaveTurn | ai.py:151-158 | the fields and the command log change as `AfterTurn` says |
| AiAgent.Ai.Aim | ai.py:142-145 | the fields and the command log change as `AimStep` says |
| AiAgent.Ai.TurnTick | ai.py:143-151 | the fields and the command log change as `TurnStep` says |
| AiAgent.Ai.DriveTick | ai.py:154-166 | the fields and the command log change as `DriveStep` says |
| AiAgent.Ai.Advance | ai.py:116-166 | one `next(self.move_cycle)` changes the fields and the log as `Step` says and keeps the invariant |
| AiAgent.Ai.Decide | ai.py:80-85 | `decide` fires as `ShootStep` says, caches the flag when the target needs it, advances the generator as `Step` says, leaves the game objects list alone, and keeps the invariant |
| AiAgent.Ai.OnBulletHit | ctf.py:263-265 | a hit drops the teammate target and sets the forced reset, and keeps the invariant |
| AiAgent.Ai.OnGameReset | ctf.py:322-325 | a reset sets the forced reset, drops the teammate target and leaves the avoiding mode, so the next search uses the normal filter |
| AiAgent.Ai.ShareRoute | ctf.py:436-439 | a teammate's broadcast route becomes the teammate target and nothing else changes |
| AiAgent.Ai.AddObject | ctf.py:173 | an object appended to the shared list (the flag, and boxes, tanks and bullets) is appended to the agent's list; nothing else changes and the invariant is kept |
| AiAgent.Ai.RemoveObject | ctf.py:250 | an object removed from the shared list is removed from the agent's list at the same position; nothing else changes and the invariant is kept |
| AiAgent.Ai.ClearFired | ctf.py:433-434 | taking the pending shot clears the fired flag and nothing else changes |

## Left out

- The float geometry of `turn`, `correct_angle`, `correct_pos`, `angle_between_vectors`, `periodic_difference_of_angles` and `MIN_ANGLE_DIF` (ai.py:16-33 and ai.py:291-331). Each tick it arrives as the three booleans of `Controller.Sense`, so the model says nothing about angles or distances.
- The physics ray query of `maybe_shoot` (ai.py:95-101) is an input: `Combat.RayHit` classifies the first thing the ray hits.
- The tank body's motor calls (`turn_left`, `turn_right`, `stop_turning`, `accelerate`, `stop_moving`) are recorded in a ghost command log. Their effect on the body is not modelled.
- pymunk, the physics space, the game loop and the screens (ctf.py, screens.py) are not part of this model. Only the places where ctf.py changes what the agent sees are modelled, as the event methods: the four writes to the agent's fields, and the appends to and removals from the shared game objects list (ctf.py:133, 160-161, 173, 400, 435; ctf.py:250, 276, 283, 293, 317).
- `AiAgent.Ai.constructor`: the agent holds the game objects list as a value, where the source holds a reference to ctf.py's one shared list. Changes to that list reach the model only through `AddObject` and `RemoveObject`, which must be called on every agent; aliasing between the agents is not modelled. In ctf.py the flag is appended after the agents are built (ctf.py:224-226), which the model covers by a later `AddObject`.
- Positions are exact reals. Floating-point rounding of body positions is not modelled, and pymunk's `Vec2d` appears only as integer tiles.
- `AiAgent.Ai.FindShortestPath`: computes the target before the loop, where the source computes it inside the first iteration. The queue is never empty then, so the result is the same.
- `AiAgent.Ai.Advance`: the source re-plans forever without yielding when every search of a planning round is empty. The model reports this as `hung` in the planning state (see `Controller.HangIsForever`) instead of not terminating.
- `AiAgent.Ai.Decide`: requires on EVERY tick what the source needs only on ticks that compute the target, that is, ticks that plan. Unless the tank carries the flag, a teammate target must not be an empty route (planning would raise a `TypeError` on `len(None)`), and without one there must be a flag object to find (`AttributeError` on `None.x`). `AiAgent.Ai.Advance` and `Controller.Step` demand the same of every step through `Controller.CanPlan`. So the model does not cover a turn-loop or drive-loop tick taken with an empty broadcast route or no flag, which the source runs without error (for example ai.py:154-156). Exceptions are not modelled.
- `AiAgent.Ai.Decide`: calls `get_flag` on every tick where the tank carries no flag and has no teammate target, before the step. The source calls it only when it computes the target (ai.py:229). This only caches the flag object earlier; the cached value is the same because nothing else writes `self.flag`.
- `AiAgent.Ai.GetTargetTile`: requires the flag to be cached already when the target is the flag, where `get_target_tile` calls `get_flag` itself (ai.py:229). `Decide` does that call before the step.
- `tanks_list`, `space`, `max_x`, `max_y` and `path` (ai.py:43-54) are not fields of the model. `max_x` and `max_y` are the map's size minus one in `Tiles.InBounds`. `space` is read only for the ray query of `maybe_shoot` (ai.py:101), whose result `Combat.ShootStep` takes as an input. `tanks_list` and `path` are never read by the modelled code.
- The generator object itself is replaced by the explicit phase field (`Controller.Phase`). The generator's local `reset` becomes the field `reset`, and `next_coord` and `original_path` become fields too.
