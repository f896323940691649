/** The class `Ai` of ai.py: one agent's fields, the generator's locals made
    into fields, and the methods the game loop calls. Every method is proved
    against the functions of the modules it imports. */
module AiAgent {
  import opened Tiles
  import opened PathSearch
  import opened Targeting
  import opened Alternation
  import opened Combat
  import opened Controller

  /** The flag game object; it moves while a tank carries it. */
  class Flag {
    var x: real
    var y: real

    constructor (x: real, y: real)
      ensures this.x == x && this.y == y
    {
      this.x := x;
      this.y := y;
    }
  }

  /** An entry of the shared game objects list, as far as the agent looks at it. */
  datatype GameObject = FlagObject(flag: Flag) | OtherObject

  /** The flag `get_flag` picks: the first flag object of the list, or none. */
  function FirstFlag(objects: seq<GameObject>): (f: Flag?)
    ensures f == null <==> forall i :: 0 <= i < |objects| ==> !objects[i].FlagObject?
    ensures f != null ==> exists i :: 0 <= i < |objects| && objects[i] == FlagObject(f)
                                      && forall j :: 0 <= j < i ==> !objects[j].FlagObject?
    decreases |objects|
  {
    if objects == [] then null
    else if objects[0].FlagObject? then objects[0].flag
    else
      var f := FirstFlag(objects[1..]);
      assert forall i :: 1 <= i < |objects| ==> objects[i] == objects[1..][i - 1];
      f
  }

  /** Appending to the list keeps its first flag; a list without one gets
      the appended object's flag, if it is one. */
  lemma {:induction false} FirstFlagAppend(objects: seq<GameObject>, o: GameObject)
    ensures FirstFlag(objects + [o]) ==
      if FirstFlag(objects) != null then FirstFlag(objects)
      else if o.FlagObject? then o.flag else null
    decreases |objects|
  {
    if objects != [] {
      assert (objects + [o])[1..] == objects[1..] + [o];
      FirstFlagAppend(objects[1..], o);
    }
  }

  /** Removing an object that is not a flag keeps the first flag. */
  lemma {:induction false} FirstFlagRemove(objects: seq<GameObject>, i: nat)
    requires i < |objects| && !objects[i].FlagObject?
    ensures FirstFlag(objects[..i] + objects[i + 1..]) == FirstFlag(objects)
    decreases |objects|
  {
    if i == 0 {
      assert objects[..0] + objects[1..] == objects[1..];
    } else {
      var rest := objects[..i] + objects[i + 1..];
      assert rest[0] == objects[0];
      assert rest[1..] == objects[1..][..i - 1] + objects[1..][i..];
      FirstFlagRemove(objects[1..], i - 1);
    }
  }

  /** The tile under a flag object, when there is one. */
  function TileOfFlag(f: Flag?): Option<Tile>
    reads f
  {
    if f == null then None else Some(TileOf(f.x, f.y))
  }

  class Ai {
    const grid: GameMap
    var gameObjects: seq<GameObject>
    var flag: Flag?
    var forcedReset: bool
    var gridPos: Tile
    var bulletTick: int
    var hasFired: bool
    var targetTile: Option<seq<Tile>>
    var shortestPath: seq<Tile>
    var previousPath: Option<seq<Tile>>
    var otherPath: bool
    // The locals of `move_cycle_gen`, kept across yields, and where it yielded.
    var phase: Phase
    var reset: int
    var nextCoord: Tile
    var originalPath: seq<Tile>
    /** The commands sent to the tank body so far. */
    ghost var commands: seq<Command>

    /** The movement state, as the controller sees it. */
    function State(): Agent
      reads this
    {
      Agent(phase, reset, shortestPath, nextCoord, originalPath, forcedReset, gridPos,
            Memory(otherPath, previousPath), targetTile)
    }

    /** The fire state: the cooldown counter, and in `fired` the field
        `has_fired`, which stays set until the game loop takes the shot. */
    function Gun(): Shot
      reads this
    {
      Shot(bulletTick, hasFired)
    }

    /** The invariant of the agent: the controller's and the cooldown bound. */
    ghost predicate Valid()
      reads this
    {
      Controller.Valid(State()) && 0 <= bulletTick <= Cooldown
    }

    /** `__init__`: no flag cached, the grid position taken from the body,
        the gun ready to fire, no teammate target, no remembered route. */
    constructor (grid: GameMap, gameObjects: seq<GameObject>, tank: TankView)
      ensures this.grid == grid && this.gameObjects == gameObjects && flag == null
      ensures State() == Initial(BodyTile(tank))
      ensures Gun() == Shot(Cooldown, false)
      ensures commands == []
      ensures Valid()
    {
      this.grid := grid;
      this.gameObjects := gameObjects;
      flag := null;
      forcedReset := false;
      phase := Planning;
      reset := 0;
      nextCoord := BodyTile(tank);
      originalPath := [];
      gridPos := BodyTile(tank);
      bulletTick := Cooldown;
      hasFired := false;
      targetTile := None;
      shortestPath := [];
      previousPath := None;
      otherPath := false;
      commands := [];
    }

    /** `update_grid_pos`: the grid position becomes the body's tile. */
    method UpdateGridPos(tank: TankView)
      modifies this
      ensures State() == old(State()).(gridPos := BodyTile(tank))
      ensures Gun() == old(Gun()) && flag == old(flag) && gameObjects == old(gameObjects)
      ensures commands == old(commands)
    {
      gridPos := BodyTile(tank);
    }

    /** `get_flag`: the cached flag, or else the first flag object of the
        list, which is then cached. */
    method GetFlag() returns (f: Flag?)
      modifies this
      ensures flag == (if old(flag) != null then old(flag) else FirstFlag(gameObjects))
      ensures f == flag
      ensures State() == old(State()) && Gun() == old(Gun()) && gameObjects == old(gameObjects)
      ensures commands == old(commands)
    {
      if flag == null {
        var i := 0;
        while i < |gameObjects|
          invariant 0 <= i <= |gameObjects|
          invariant flag == null
          invariant FirstFlag(gameObjects) == FirstFlag(gameObjects[i..])
        {
          if gameObjects[i].FlagObject? {
            flag := gameObjects[i].flag;
            break;
          }
          assert gameObjects[i..][1..] == gameObjects[i + 1..];
          i := i + 1;
        }
      }
      f := flag;
    }

    /** `maybe_shoot`, with the ray query's first hit as an input. */
    method MaybeShoot(hit: RayHit)
      requires 0 <= bulletTick <= Cooldown
      modifies this
      ensures var r := ShootStep(old(bulletTick), hit);
        bulletTick == r.tick && hasFired == (old(hasFired) || r.fired)
      ensures State() == old(State()) && flag == old(flag) && gameObjects == old(gameObjects)
      ensures commands == old(commands)
    {
      if bulletTick != Cooldown {
        bulletTick := bulletTick + 1;
      } else if IsTarget(hit) {
        bulletTick := 0;
        hasFired := true;
      }
    }

    /** `switch(original_path)`. */
    method Switch(original: seq<Tile>)
      modifies this
      ensures Memory(otherPath, previousPath) == Alternation.Switch(old(Memory(otherPath, previousPath)), original)
      ensures State() == old(State()).(memory := Memory(otherPath, previousPath))
      ensures Gun() == old(Gun()) && flag == old(flag) && gameObjects == old(gameObjects)
      ensures commands == old(commands)
    {
      if previousPath == Some(original) {
        if !otherPath {
          otherPath := true;
        } else {
          otherPath := false;
        }
      }
      previousPath := Some(original);
    }

    /** `get_target_tile`, reading the flag cached by `Decide`. */
    method GetTargetTile(tank: TankView) returns (t: Tile)
      requires Resolvable(tank, targetTile, TileOfFlag(flag))
      ensures t == TargetTile(grid, tank, gridPos, targetTile, TileOfFlag(flag))
    {
      if tank.carriesFlag {
        t := TileOf(tank.startX, tank.startY);
      } else if targetTile.Some? {
        var here := TileOf(gridPos.x as real, gridPos.y as real);
        TileOfTile(gridPos);
        t := FollowTeammate(grid, BodyTile(tank), here, targetTile.value);
      } else {
        t := TileOf(flag.x, flag.y);
      }
    }

    /** `find_shortest_path(target, second_try)`: without a target, from the
        grid position to the target tile; with one, from the body's tile. */
    method FindShortestPath(tank: TankView, target: Option<Tile>, secondTry: bool) returns (route: seq<Tile>)
      requires Consistent(Memory(otherPath, previousPath))
      requires target.None? ==> Resolvable(tank, targetTile, TileOfFlag(flag))
      ensures var f := FilterFor(secondTry, otherPath, if otherPath then previousPath.value else []);
        route == if target.None?
                 then Search(grid, f, gridPos, TargetTile(grid, tank, gridPos, targetTile, TileOfFlag(flag)))
                 else Search(grid, f, BodyTile(tank), target.value)
    {
      var f := FilterFor(secondTry, otherPath, if otherPath then previousPath.value else []);
      if target.None? {
        var goal := GetTargetTile(tank);
        route := BreadthFirstSearch(grid, f, gridPos, goal);
      } else {
        route := BreadthFirstSearch(grid, f, BodyTile(tank), target.value);
      }
    }

    /** `reveal_position(start)`: the route from the body's tile to the tile
        of the start position, retried through metal boxes when empty. */
    method RevealPosition(tank: TankView, startX: real, startY: real) returns (route: seq<Tile>)
      requires Consistent(Memory(otherPath, previousPath))
      ensures var home := Tile(RoundHalfEven(startX), RoundHalfEven(startY));
        var f := ActiveFilter(Memory(otherPath, previousPath));
        route == if Search(grid, f, BodyTile(tank), home) != [] then Search(grid, f, BodyTile(tank), home)
                 else Search(grid, Permissive, BodyTile(tank), home)
      ensures var home := Tile(RoundHalfEven(startX), RoundHalfEven(startY));
        var f := ActiveFilter(Memory(otherPath, previousPath));
        && (route != [] ==> RouteTo(grid, Permissive, BodyTile(tank), home, route))
        && (route == [] <==> forall p :: !RouteTo(grid, Permissive, BodyTile(tank), home, p))
        && ((exists p :: RouteTo(grid, f, BodyTile(tank), home, p)) ==>
              RouteTo(grid, f, BodyTile(tank), home, route)
              && forall p :: RouteTo(grid, f, BodyTile(tank), home, p) ==> |route| <= |p|)
    {
      var home := Tile(RoundHalfEven(startX), RoundHalfEven(startY));
      ghost var f := ActiveFilter(Memory(otherPath, previousPath));
      route := FindShortestPath(tank, Some(home), false);
      SearchCorrect(grid, f, BodyTile(tank), home);
      SearchCorrect(grid, Permissive, BodyTile(tank), home);
      if route == [] {
        route := FindShortestPath(tank, Some(home), true);
      } else {
        PermissiveWidest(grid, f, BodyTile(tank), home, route);
      }
    }

    /** The four searches of the planning block. */
    method ChooseRoute(s: Sense) returns (route: seq<Tile>)
      requires CanPlan(State(), s) && s.flagTile == TileOfFlag(flag)
      ensures route == Plan(grid, State(), s)
    {
      ghost var target := PlanTarget(grid, State(), s);
      ghost var f := ActiveFilter(State().memory);
      route := FindShortestPath(s.tank, None, false);
      assert route == Search(grid, f, gridPos, target);
      if route == [] {
        route := FindShortestPath(s.tank, None, true);
      }
      if otherPath {
        route := FindShortestPath(s.tank, None, false);
      }
      if route == [] {
        route := FindShortestPath(s.tank, None, true);
      }
    }

    /** The planning block of `move_cycle_gen`: the searches, the copy taken
        as `original_path`, and the two pops. */
    method PlanRoute(s: Sense) returns (hung: bool)
      requires CanPlan(State(), s) && s.flagTile == TileOfFlag(flag)
      modifies this
      ensures var o := Replan(grid, old(State()), s);
        State() == o.agent && hung == o.hung
      ensures Gun() == old(Gun()) && flag == old(flag) && gameObjects == old(gameObjects)
      ensures commands == old(commands)
    {
      var route := ChooseRoute(s);
      originalPath := route;
      phase := Planning;
      hung := route == [];
      if route == [] {
        shortestPath := [];
      } else {
        shortestPath := route[1..];
        if shortestPath != [] {
          nextCoord := shortestPath[0];
          shortestPath := shortestPath[1..];
          phase := Aiming;
        }
      }
    }

    /** The end of a maneuver: the stop commands, the new grid position, the
        forced reset and the counter cleared, then planning again. */
    method EndManeuver(s: Sense) returns (hung: bool)
      requires CanPlan(State(), s) && s.flagTile == TileOfFlag(flag)
      modifies this
      ensures var o := Finish(grid, old(State()), s);
        State() == o.agent && commands == old(commands) + o.commands && hung == o.hung
      ensures Gun() == old(Gun()) && flag == old(flag) && gameObjects == old(gameObjects)
    {
      commands := commands + [StopTurning, StopMoving];
      UpdateGridPos(s.tank);
      forcedReset := false;
      reset := 0;
      hung := PlanRoute(s);
    }

    /** Leaving the turn loop: stop turning, throttle when the source does,
        and enter the drive loop, which ends at once if the position is reached. */
    method LeaveTurn(s: Sense) returns (hung: bool)
      requires CanPlan(State(), s) && s.flagTile == TileOfFlag(flag)
      modifies this
      ensures var o := AfterTurn(grid, old(State()), s);
        State() == o.agent && commands == old(commands) + o.commands && hung == o.hung
      ensures Gun() == old(Gun()) && flag == old(flag) && gameObjects == old(gameObjects)
    {
      ghost var a := State();
      var throttle := |shortestPath| >= 1 || targetTile.None? || s.tank.carriesFlag;
      assert throttle == ShouldAccelerate(a, s);
      ghost var c := [StopTurning] + (if throttle then [Accelerate] else []);
      commands := commands + c;
      if s.posReached {
        hung := EndManeuver(s);
      } else {
        phase := Driving;
        reset := reset + 1;
        hung := false;
      }
    }

    /** Resuming after the yield that follows planning: `turn` toward the
        waypoint, then the turn loop's first test. */
    method Aim(s: Sense) returns (hung: bool)
      requires phase == Aiming && CanPlan(State(), s) && s.flagTile == TileOfFlag(flag)
      modifies this
      ensures var o := AimStep(grid, old(State()), s);
        State() == o.agent && commands == old(commands) + o.commands && hung == o.hung
      ensures Gun() == old(Gun()) && flag == old(flag) && gameObjects == old(gameObjects)
    {
      ghost var a := State();
      var turn := if s.turnRight then TurnRight else TurnLeft;
      commands := commands + [turn];
      if s.angleReached {
        hung := LeaveTurn(s);
      } else {
        phase := Turning;
        reset := reset + 1;
        hung := false;
      }
    }

    /** Resuming inside the turn loop. */
    method TurnTick(s: Sense) returns (hung: bool)
      requires phase == Turning && CanPlan(State(), s) && s.flagTile == TileOfFlag(flag)
      modifies this
      ensures var o := TurnStep(grid, old(State()), s);
        State() == o.agent && commands == old(commands) + o.commands && hung == o.hung
      ensures Gun() == old(Gun()) && flag == old(flag) && gameObjects == old(gameObjects)
    {
      if forcedReset {
        hung := LeaveTurn(s);
      } else if reset > StallLimit {
        Switch(originalPath);
        SwitchSpec(old(State()).memory, originalPath);
        hung := LeaveTurn(s);
      } else if s.angleReached {
        hung := LeaveTurn(s);
      } else {
        reset := reset + 1;
        hung := false;
      }
    }

    /** Resuming inside the drive loop. */
    method DriveTick(s: Sense) returns (hung: bool)
      requires phase == Driving && CanPlan(State(), s) && s.flagTile == TileOfFlag(flag)
      modifies this
      ensures var o := DriveStep(grid, old(State()), s);
        State() == o.agent && commands == old(commands) + o.commands && hung == o.hung
      ensures Gun() == old(Gun()) && flag == old(flag) && gameObjects == old(gameObjects)
    {
      if forcedReset {
        hung := EndManeuver(s);
      } else if reset > StallLimit {
        Switch(originalPath);
        SwitchSpec(old(State()).memory, originalPath);
        hung := EndManeuver(s);
      } else if s.posReached {
        hung := EndManeuver(s);
      } else {
        reset := reset + 1;
        hung := false;
      }
    }

    /** One `next(self.move_cycle)`: the generator runs from where it last
        yielded to its next yield. */
    method Advance(s: Sense) returns (hung: bool)
      requires Valid() && CanPlan(State(), s) && s.flagTile == TileOfFlag(flag)
      modifies this
      ensures var o := Step(grid, old(State()), s);
        State() == o.agent && commands == old(commands) + o.commands && hung == o.hung
      ensures Valid()
      ensures Gun() == old(Gun()) && flag == old(flag) && gameObjects == old(gameObjects)
    {
      StepKeepsValid(grid, State(), s);
      match phase {
        case Planning => hung := PlanRoute(s);
        case Aiming => hung := Aim(s);
        case Turning => hung := TurnTick(s);
        case Driving => hung := DriveTick(s);
      }
    }

    /** `decide`: the fire decision, then one step of the movement cycle. The
        body's geometry for the current waypoint arrives as the three
        booleans; the flag is looked up and cached first whenever the target
        would be it. */
    method Decide(tank: TankView, hit: RayHit, angleReached: bool, turnRight: bool, posReached: bool)
      returns (hung: bool)
      requires Valid()
      requires !tank.carriesFlag ==>
        if targetTile.Some? then targetTile.value != [] else flag != null || FirstFlag(gameObjects) != null
      modifies this
      ensures flag == if !tank.carriesFlag && old(targetTile).None? && old(flag) == null
                      then FirstFlag(gameObjects) else old(flag)
      ensures var r := ShootStep(old(bulletTick), hit);
        bulletTick == r.tick && hasFired == (old(hasFired) || r.fired)
      ensures CanPlan(old(State()), Sense(tank, TileOfFlag(flag), angleReached, turnRight, posReached))
      ensures var o := Step(grid, old(State()), Sense(tank, TileOfFlag(flag), angleReached, turnRight, posReached));
        State() == o.agent && commands == old(commands) + o.commands && hung == o.hung
      ensures gameObjects == old(gameObjects)
      ensures Valid()
    {
      MaybeShoot(hit);
      if !tank.carriesFlag && targetTile.None? {
        var _ := GetFlag();
      }
      var s := Sense(tank, TileOfFlag(flag), angleReached, turnRight, posReached);
      hung := Advance(s);
    }

    /** An object was appended to the shared game objects list: a box or
        tank at set-up, the flag after the agents exist, a bullet when a
        tank shoots. */
    method AddObject(o: GameObject)
      modifies this
      ensures gameObjects == old(gameObjects) + [o]
      ensures State() == old(State()) && Gun() == old(Gun()) && flag == old(flag)
      ensures commands == old(commands)
      ensures old(Valid()) ==> Valid()
    {
      gameObjects := gameObjects + [o];
    }

    /** An object was removed from the shared game objects list (a bullet
        or a destroyed box), at position `i`. Removing an object that is not
        in the list raises in ctf.py and is caught there, changing nothing,
        so it is no event. */
    method RemoveObject(i: nat)
      requires i < |gameObjects|
      modifies this
      ensures gameObjects == old(gameObjects[..i] + gameObjects[i + 1..])
      ensures State() == old(State()) && Gun() == old(Gun()) && flag == old(flag)
      ensures commands == old(commands)
      ensures old(Valid()) ==> Valid()
    {
      gameObjects := gameObjects[..i] + gameObjects[i + 1..];
    }

    /** A bullet hit this agent's tank: drop the teammate target and abort
        the maneuver in progress. */
    method OnBulletHit()
      modifies this
      ensures State() == old(State()).(targetTile := None, forcedReset := true)
      ensures Gun() == old(Gun()) && flag == old(flag) && gameObjects == old(gameObjects)
      ensures commands == old(commands)
      ensures old(Valid()) ==> Valid()
    {
      targetTile := None;
      forcedReset := true;
    }

    /** The game was reset: abort the maneuver, drop the teammate target and
        leave the avoiding mode. */
    method OnGameReset()
      modifies this
      ensures State() == old(State()).(forcedReset := true, targetTile := None,
                                       memory := Memory(false, old(previousPath)))
      ensures ActiveFilter(State().memory) == Normal
      ensures Gun() == old(Gun()) && flag == old(flag) && gameObjects == old(gameObjects)
      ensures commands == old(commands)
      ensures old(Valid()) ==> Valid()
    {
      forcedReset := true;
      targetTile := None;
      otherPath := false;
    }

    /** A flag-carrying teammate broadcast its route home. */
    method ShareRoute(route: seq<Tile>)
      modifies this
      ensures State() == old(State()).(targetTile := Some(route))
      ensures Gun() == old(Gun()) && flag == old(flag) && gameObjects == old(gameObjects)
      ensures commands == old(commands)
      ensures old(Valid()) ==> Valid()
    {
      targetTile := Some(route);
    }

    /** The game loop took the pending shot. */
    method ClearFired()
      modifies this
      ensures Gun() == old(Gun()).(fired := false)
      ensures State() == old(State()) && flag == old(flag) && gameObjects == old(gameObjects)
      ensures commands == old(commands)
      ensures old(Valid()) ==> Valid()
    {
      hasFired := false;
    }
  }
}
