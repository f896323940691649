/** The movement generator `Ai.move_cycle_gen` as an explicit state machine.
    Each call of `Step` runs the generator from the point where it last
    yielded to the next `yield`, exactly as one `next(self.move_cycle)` does.
    Body geometry arrives as per-tick booleans in `Sense`. */
module Controller {
  import opened Tiles
  import opened PathSearch
  import opened Targeting
  import opened Alternation

  /** The counter value above which a turn or a drive counts as stalled. */
  const StallLimit := 250

  /** Where the generator is suspended.
      Planning: at the top of its `while True` (or after yielding on a
                one-tile route);
      Aiming:   after yielding with a fresh `next_coord`, before `turn`;
      Turning:  after yielding inside the turn loop;
      Driving:  after yielding inside the drive loop. */
  datatype Phase = Planning | Aiming | Turning | Driving

  /** Commands sent to the tank body. */
  datatype Command = TurnLeft | TurnRight | StopTurning | Accelerate | StopMoving

  /** The fields and generator locals the movement cycle reads and writes. */
  datatype Agent = Agent(
    phase: Phase,
    reset: int,                 // the generator's `reset` counter
    shortestPath: seq<Tile>,    // the route tiles still ahead of `nextCoord`
    nextCoord: Tile,            // the waypoint of the current maneuver
    originalPath: seq<Tile>,    // the planned route before any tile was popped
    forcedReset: bool,
    gridPos: Tile,
    memory: Memory,             // `other_path` and `previous_path`
    targetTile: Option<seq<Tile>>)

  /** One tick's view of the world: the tank body, the cached flag's tile,
      and the outcome of the float geometry for the current waypoint. */
  datatype Sense = Sense(
    tank: TankView,
    flagTile: Option<Tile>,
    angleReached: bool,         // `correct_angle(next_coord)`
    turnRight: bool,            // the direction `turn(next_coord)` picks
    posReached: bool)           // `correct_pos(next_coord)`

  /** The agent after one step, the commands it issued, and whether the
      source would re-plan forever inside this `next()` call. */
  datatype Outcome = Outcome(agent: Agent, commands: seq<Command>, hung: bool)

  /** The filter of a search without `second_try`. */
  function ActiveFilter(m: Memory): Filter
    requires Consistent(m)
  {
    if m.otherPath then FilterFor(false, true, m.previousPath.value) else FilterFor(false, false, [])
  }

  /** What planning needs: a consistent mode flag and a resolvable target. */
  predicate CanPlan(a: Agent, s: Sense)
  {
    Consistent(a.memory) && Resolvable(s.tank, a.targetTile, s.flagTile)
  }

  /** The target every search of one planning round aims at. */
  function PlanTarget(g: GameMap, a: Agent, s: Sense): Tile
    requires CanPlan(a, s)
  {
    TargetTile(g, s.tank, a.gridPos, a.targetTile, s.flagTile)
  }

  /** The four searches of the planning block, as written: the normal search,
      the metal-box fallback if empty, the normal search again when
      `other_path` is set, and the fallback again if empty. */
  function Plan(g: GameMap, a: Agent, s: Sense): seq<Tile>
    requires CanPlan(a, s)
  {
    var target := PlanTarget(g, a, s);
    var first := Search(g, ActiveFilter(a.memory), a.gridPos, target);
    var second := if first == [] then Search(g, Permissive, a.gridPos, target) else first;
    var third := if a.memory.otherPath then Search(g, ActiveFilter(a.memory), a.gridPos, target) else second;
    if third == [] then Search(g, Permissive, a.gridPos, target) else third
  }

  /** Planning: pop the start tile and then the next waypoint. An empty route
      re-plans without yielding, which never ends; a route holding only the
      start tile yields and re-plans on the next tick. */
  function Replan(g: GameMap, a: Agent, s: Sense): (o: Outcome)
    requires CanPlan(a, s)
    ensures o.hung ==> Hung(g, o.agent, s)
    ensures o.commands == []
  {
    var route := Plan(g, a, s);
    if route == [] then
      Outcome(a.(phase := Planning, shortestPath := [], originalPath := []), [], true)
    else if |route| == 1 then
      Outcome(a.(phase := Planning, shortestPath := [], originalPath := route), [], false)
    else
      Outcome(a.(phase := Aiming, shortestPath := route[2..], nextCoord := route[1], originalPath := route), [], false)
  }

  /** The outcome `o` preceded by the commands `c` issued earlier in the step. */
  function After(c: seq<Command>, o: Outcome): Outcome
  {
    o.(commands := c + o.commands)
  }

  /** The state a hung planning round leaves: planning, with no route and
      none findable from the same inputs. */
  predicate Hung(g: GameMap, a: Agent, s: Sense)
  {
    && a.phase == Planning && a.shortestPath == [] && a.originalPath == []
    && CanPlan(a, s) && Plan(g, a, s) == []
  }

  /** The throttle condition after turning. */
  predicate ShouldAccelerate(a: Agent, s: Sense)
  {
    |a.shortestPath| >= 1 || a.targetTile.None? || s.tank.carriesFlag
  }

  /** The end of a maneuver: stop, take the body's tile as the grid position,
      clear the forced reset and the counter, and plan again. */
  function Finish(g: GameMap, a: Agent, s: Sense): (o: Outcome)
    requires CanPlan(a, s)
    ensures o.commands == [StopTurning, StopMoving]
    ensures && o.agent.reset == 0 && !o.agent.forcedReset && o.agent.gridPos == BodyTile(s.tank)
            && (o.agent.phase == Planning || o.agent.phase == Aiming)
  {
    After([StopTurning, StopMoving], Replan(g, a.(gridPos := BodyTile(s.tank), forcedReset := false, reset := 0), s))
  }

  /** Leaving the turn loop: stop turning, maybe throttle, and enter the
      drive loop, which yields unless the position is already reached. */
  function AfterTurn(g: GameMap, a: Agent, s: Sense): Outcome
    requires CanPlan(a, s)
  {
    var c := [StopTurning] + (if ShouldAccelerate(a, s) then [Accelerate] else []);
    if s.posReached then After(c, Finish(g, a, s))
    else Outcome(a.(phase := Driving, reset := a.reset + 1), c, false)
  }

  /** Resuming after the yield that follows planning: `turn` toward the
      waypoint, then the turn loop's first test. */
  function AimStep(g: GameMap, a: Agent, s: Sense): Outcome
    requires CanPlan(a, s)
  {
    var c := [if s.turnRight then TurnRight else TurnLeft];
    if s.angleReached then After(c, AfterTurn(g, a, s))
    else Outcome(a.(phase := Turning, reset := a.reset + 1), c, false)
  }

  /** Resuming inside the turn loop: a forced reset or a stall leaves it (a
      stall toggles the alternation first), as does reaching the angle. */
  function TurnStep(g: GameMap, a: Agent, s: Sense): Outcome
    requires CanPlan(a, s)
  {
    if a.forcedReset then AfterTurn(g, a, s)
    else if a.reset > StallLimit then AfterTurn(g, a.(memory := Switch(a.memory, a.originalPath)), s)
    else if s.angleReached then AfterTurn(g, a, s)
    else Outcome(a.(reset := a.reset + 1), [], false)
  }

  /** Resuming inside the drive loop: a forced reset or a stall ends the
      maneuver (a stall toggles the alternation first), as does arriving. */
  function DriveStep(g: GameMap, a: Agent, s: Sense): Outcome
    requires CanPlan(a, s)
  {
    if a.forcedReset then Finish(g, a, s)
    else if a.reset > StallLimit then Finish(g, a.(memory := Switch(a.memory, a.originalPath)), s)
    else if s.posReached then Finish(g, a, s)
    else Outcome(a.(reset := a.reset + 1), [], false)
  }

  /** One `next()` of the movement generator. */
  function Step(g: GameMap, a: Agent, s: Sense): (o: Outcome)
    requires CanPlan(a, s)
    ensures o.hung ==> Hung(g, o.agent, s)
  {
    match a.phase
    case Planning => Replan(g, a, s)
    case Aiming => AimStep(g, a, s)
    case Turning => TurnStep(g, a, s)
    case Driving => DriveStep(g, a, s)
  }


  /** The state invariant of the movement cycle: the counter is zero outside
      the two loops and bounded inside them, and during a maneuver the
      waypoint and the remaining tiles are those of the planned route, which
      starts at the grid position. */
  ghost predicate Valid(a: Agent)
  {
    && Consistent(a.memory)
    && (a.phase == Planning || a.phase == Aiming ==> a.reset == 0)
    && (a.phase == Turning ==> 1 <= a.reset <= StallLimit + 1)
    && (a.phase == Driving ==> 1 <= a.reset <= StallLimit + 2)
    && (a.phase != Planning ==>
          && |a.originalPath| >= 2
          && a.originalPath[0] == a.gridPos
          && a.nextCoord == a.originalPath[1]
          && a.shortestPath == a.originalPath[2..])
  }

  /** The state of a fresh generator. */
  function Initial(gridPos: Tile): (a: Agent)
    ensures Valid(a) && a.phase == Planning
  {
    Agent(Planning, 0, [], gridPos, [], false, gridPos, Memory(false, None), None)
  }

  // ---------------------------------------------------------------------
  // Properties of planning
  // ---------------------------------------------------------------------

  /** Planning yields the active filter's shortest route when there is one,
      else the shortest permissive route, else nothing; the repeated search
      under `other_path` never changes the outcome. The route starts at the
      grid position and ends at the target, and it is empty exactly when not
      even the permissive filter admits a route. */
  lemma PlanSpec(g: GameMap, a: Agent, s: Sense)
    requires CanPlan(a, s)
    ensures var f, target, r := ActiveFilter(a.memory), PlanTarget(g, a, s), Plan(g, a, s);
      && r == (if Search(g, f, a.gridPos, target) != [] then Search(g, f, a.gridPos, target)
               else Search(g, Permissive, a.gridPos, target))
      && (r != [] ==> RouteTo(g, Permissive, a.gridPos, target, r))
      && (r == [] <==> forall p :: !RouteTo(g, Permissive, a.gridPos, target, p))
      && ((exists p :: RouteTo(g, f, a.gridPos, target, p)) ==>
            RouteTo(g, f, a.gridPos, target, r) && forall p :: RouteTo(g, f, a.gridPos, target, p) ==> |r| <= |p|)
  {
    var f, target := ActiveFilter(a.memory), PlanTarget(g, a, s);
    SearchCorrect(g, f, a.gridPos, target);
    SearchCorrect(g, Permissive, a.gridPos, target);
    var r := Plan(g, a, s);
    if Search(g, f, a.gridPos, target) != [] {
      PermissiveWidest(g, f, a.gridPos, target, r);
    } else {
      forall p | RouteTo(g, Permissive, a.gridPos, target, p) ensures r != [] { }
    }
  }

  /** What a planning step does with the route: an empty one hangs, a
      one-tile one waits a tick, a longer one starts a maneuver toward its
      second tile with the counter at zero. */
  lemma PlanningStep(g: GameMap, a: Agent, s: Sense)
    requires CanPlan(a, s) && Valid(a) && a.phase == Planning
    ensures var r, o := Plan(g, a, s), Step(g, a, s);
      && o.commands == []
      && (o.hung <==> r == [])
      && (|r| == 1 ==> o.agent.phase == Planning && o.agent.originalPath == r && o.agent.shortestPath == [])
      && (|r| >= 2 ==> && o.agent.phase == Aiming && o.agent.nextCoord == r[1]
                       && o.agent.shortestPath == r[2..] && o.agent.originalPath == r)
      && o.agent.reset == 0 && o.agent.memory == a.memory && o.agent.gridPos == a.gridPos
  {
  }

  /** The planning hang: when a step ends hung, planning again from the state
      it left, with the same inputs, hangs again and changes nothing, so the
      source's `continue` loops forever inside one `next()`. This happens
      exactly when no permissive route leads from the grid position to the
      target. */
  lemma HangIsForever(g: GameMap, a: Agent, s: Sense)
    requires CanPlan(a, s)
    requires Step(g, a, s).hung
    ensures var a' := Step(g, a, s).agent;
      && a'.phase == Planning
      && CanPlan(a', s)
      && Step(g, a', s) == Outcome(a', [], true)
      && forall p :: !RouteTo(g, Permissive, a'.gridPos, PlanTarget(g, a', s), p)
  {
    var a' := Step(g, a, s).agent;
    PlanSpec(g, a', s);
  }

  /** The converse of the hang: a planning step hangs exactly when no
      permissive route leads from the grid position to the target. */
  lemma HangExactly(g: GameMap, a: Agent, s: Sense)
    requires CanPlan(a, s) && a.phase == Planning
    ensures Step(g, a, s).hung <==> forall p :: !RouteTo(g, Permissive, a.gridPos, PlanTarget(g, a, s), p)
  {
    PlanSpec(g, a, s);
  }

  // ---------------------------------------------------------------------
  // Properties of the turn and drive loops
  // ---------------------------------------------------------------------

  /** Every step keeps the state invariant. */
  lemma StepKeepsValid(g: GameMap, a: Agent, s: Sense)
    requires CanPlan(a, s) && Valid(a)
    ensures Valid(Step(g, a, s).agent)
  {
    var e := a.(gridPos := BodyTile(s.tank), forcedReset := false, reset := 0);
    var sw := e.(memory := Switch(a.memory, a.originalPath));
    SwitchSpec(a.memory, a.originalPath);
    ReplanValid(g, e, s);
    ReplanValid(g, sw, s);
    if a.phase == Planning {
      ReplanValid(g, a, s);
    }
  }

  /** Planning from a counter at zero leaves a valid state whatever the route. */
  lemma ReplanValid(g: GameMap, a: Agent, s: Sense)
    requires CanPlan(a, s) && a.reset == 0
    ensures Valid(Replan(g, a, s).agent)
  {
    var r := Plan(g, a, s);
    PlanSpec(g, a, s);
  }

  /** The tick counter: a step either adds one to it or zeroes it, and it is
      zeroed only when a maneuver ends, together with clearing the forced
      reset, sending the stop commands and taking the body's tile as the grid
      position (or while planning, where it is already zero). It is never
      zeroed between the turn loop and the drive loop. */
  lemma ResetLifecycle(g: GameMap, a: Agent, s: Sense)
    requires CanPlan(a, s) && Valid(a)
    ensures ResetRule(a, s, Step(g, a, s))
  {
    match a.phase
    case Planning => ResetPlanning(g, a, s);
    case Aiming => ResetAiming(g, a, s);
    case Turning => ResetTurning(g, a, s);
    case Driving => ResetDriving(g, a, s);
  }

  /** How one step may change the counter (see `ResetLifecycle`). */
  predicate ResetRule(a: Agent, s: Sense, o: Outcome)
  {
    && (o.agent.reset == a.reset + 1 || o.agent.reset == 0)
    && (o.agent.phase == Turning || o.agent.phase == Driving ==> o.agent.reset == a.reset + 1)
    && (o.agent.reset != a.reset + 1 && a.phase != Planning ==>
          && o.agent.reset == 0
          && !o.agent.forcedReset
          && o.agent.gridPos == BodyTile(s.tank)
          && |o.commands| >= 2 && o.commands[|o.commands| - 2..] == [StopTurning, StopMoving])
  }

  /** Planning leaves the counter at zero and enters no loop. */
  lemma ResetPlanning(g: GameMap, a: Agent, s: Sense)
    requires CanPlan(a, s) && Valid(a) && a.phase == Planning
    ensures var o := Step(g, a, s);
      o.agent.reset == 0 && o.agent.phase != Turning && o.agent.phase != Driving
  {
  }

  /** Aiming counts into the turn loop or, when the angle is already right,
      into the drive loop, or ends the maneuver at once. */
  lemma ResetAiming(g: GameMap, a: Agent, s: Sense)
    requires CanPlan(a, s) && Valid(a) && a.phase == Aiming
    ensures ResetRule(a, s, Step(g, a, s))
  {
  }

  /** The turn loop counts on, moves to the drive loop with one more, or ends
      the maneuver. */
  lemma ResetTurning(g: GameMap, a: Agent, s: Sense)
    requires CanPlan(a, s) && Valid(a) && a.phase == Turning
    ensures ResetRule(a, s, Step(g, a, s))
  {
  }

  /** The drive loop counts on or ends the maneuver. */
  lemma ResetDriving(g: GameMap, a: Agent, s: Sense)
    requires CanPlan(a, s) && Valid(a) && a.phase == Driving
    ensures ResetRule(a, s, Step(g, a, s))
  {
  }

  /** A stalled drive keeps waiting: with no forced reset, the counter within
      the limit and the position not reached, the drive loop yields again,
      issues nothing and only counts. Arrival is never reported otherwise. */
  lemma DriveWaits(g: GameMap, a: Agent, s: Sense)
    requires CanPlan(a, s) && a.phase == Driving
    requires !a.forcedReset && a.reset <= StallLimit && !s.posReached
    ensures Step(g, a, s) == Outcome(a.(reset := a.reset + 1), [], false)
  {
  }

  /** The throttle is issued only when leaving the turn loop, and then
      exactly when route tiles remain after the waypoint, no teammate target
      is set, or the tank carries the flag. */
  lemma ThrottleRule(g: GameMap, a: Agent, s: Sense)
    requires CanPlan(a, s)
    ensures var leaves :=
      || (a.phase == Aiming && s.angleReached)
      || (a.phase == Turning && (a.forcedReset || a.reset > StallLimit || s.angleReached));
      Accelerate in Step(g, a, s).commands <==> leaves && ShouldAccelerate(a, s)
  {
  }

  /** A forced reset seen in the drive loop ends the maneuver on this tick. */
  lemma ForcedResetWhileDriving(g: GameMap, a: Agent, s: Sense)
    requires CanPlan(a, s) && a.phase == Driving && a.forcedReset
    ensures var o := Step(g, a, s);
      && o.agent.phase != Turning && o.agent.phase != Driving
      && o.agent.reset == 0 && !o.agent.forcedReset
      && o.agent.memory == a.memory
      && o.commands[..2] == [StopTurning, StopMoving]
  {
  }

  /** A forced reset seen in the turn loop does not end the maneuver: it falls
      through into the drive loop, which yields once more (unless the position
      is reached at once) with the flag still set, and ends on the next tick. */
  lemma ForcedResetWhileTurning(g: GameMap, a: Agent, s1: Sense, s2: Sense)
    requires CanPlan(a, s1) && CanPlan(a, s2) && a.phase == Turning && a.forcedReset
    requires !s1.posReached
    ensures var o1 := Step(g, a, s1);
      && o1.agent.phase == Driving && o1.agent.forcedReset && o1.agent.reset == a.reset + 1
      && CanPlan(o1.agent, s2)
      && var o2 := Step(g, o1.agent, s2);
         && o2.agent.phase != Turning && o2.agent.phase != Driving
         && o2.agent.reset == 0 && !o2.agent.forcedReset
  {
  }

  /** The counter fall-through: a turn stalled past the limit calls `switch`,
      falls into the drive loop with the counter still above the limit, and
      on the next tick the drive loop calls `switch` again with the same
      route. The mode flag therefore ends up flipped exactly when the route
      differs from the remembered one, the opposite of the alternation rule. */
  lemma TurnStallSwitchesTwice(g: GameMap, a: Agent, s1: Sense, s2: Sense)
    requires CanPlan(a, s1) && CanPlan(a, s2) && Valid(a)
    requires a.phase == Turning && !a.forcedReset && a.reset > StallLimit && !s1.posReached
    ensures var o1 := Step(g, a, s1);
      && o1.agent.phase == Driving
      && o1.agent.memory == Switch(a.memory, a.originalPath)
      && o1.agent.reset == a.reset + 1 > StallLimit
      && CanPlan(o1.agent, s2)
      && var o2 := Step(g, o1.agent, s2);
         && o2.agent.memory == Switch(Switch(a.memory, a.originalPath), a.originalPath)
         && o2.agent.memory.previousPath == Some(a.originalPath)
         && (o2.agent.memory.otherPath != a.memory.otherPath <==> a.memory.previousPath != Some(a.originalPath))
         && o2.agent.reset == 0
  {
    SwitchSpec(a.memory, a.originalPath);
    DoubleSwitch(a.memory, a.originalPath);
  }
}
