/** Target selection of `Ai.get_target_tile`: home base when carrying the
    flag, else a tile of the route a flag-carrying teammate broadcast, else
    the flag's tile. */
module Targeting {
  import opened Tiles
  import opened PathSearch

  /** What the agent reads from its own tank body: its position, whether it
      carries the flag (`tank.flag is not None`) and its start position. */
  datatype TankView = TankView(x: real, y: real, carriesFlag: bool, startX: real, startY: real)

  /** The tile under the tank body. */
  function BodyTile(tank: TankView): Tile
  {
    TileOf(tank.x, tank.y)
  }

  /** The route the source's `closest` ends on after scanning `cords`: each
      tile's permissive route replaces the one kept so far only when it is
      strictly shorter, so the first of the shortest is kept. */
  function Nearest(g: GameMap, from: Tile, cords: seq<Tile>): Option<seq<Tile>>
  {
    if cords == [] then None
    else
      var kept := Nearest(g, from, cords[..|cords| - 1]);
      var close := Search(g, Permissive, from, cords[|cords| - 1]);
      if kept.None? || |kept.value| > |close| then Some(close) else kept
  }

  /** The kept route is the permissive route to some tile `cords[i]`, no
      longer than that to any tile of `cords`, and strictly shorter than that
      to every tile before `cords[i]`. */
  lemma {:induction false} NearestSpec(g: GameMap, from: Tile, cords: seq<Tile>) returns (i: nat)
    requires cords != []
    ensures i < |cords| && Nearest(g, from, cords) == Some(Search(g, Permissive, from, cords[i]))
    ensures forall j :: 0 <= j < |cords| ==> |Search(g, Permissive, from, cords[i])| <= |Search(g, Permissive, from, cords[j])|
    ensures forall j :: 0 <= j < i ==> |Search(g, Permissive, from, cords[i])| < |Search(g, Permissive, from, cords[j])|
    decreases |cords|
  {
    var n := |cords| - 1;
    var init := cords[..n];
    if n == 0 {
      i := 0;
    } else {
      var i' := NearestSpec(g, from, init);
      var close := Search(g, Permissive, from, cords[n]);
      assert init[i'] == cords[i'];
      assert forall j :: 0 <= j < n ==> init[j] == cords[j];
      if |Search(g, Permissive, from, cords[i'])| > |close| {
        i := n;
      } else {
        i := i';
      }
    }
  }

  /** One more tile of the route: the fold takes one more step. */
  lemma NearestStep(g: GameMap, from: Tile, cords: seq<Tile>, k: nat)
    requires k < |cords|
    ensures var kept, close := Nearest(g, from, cords[..k]), Search(g, Permissive, from, cords[k]);
      Nearest(g, from, cords[..k + 1]) == if kept.None? || |kept.value| > |close| then Some(close) else kept
  {
    assert cords[..k + 1][..k] == cords[..k];
  }

  /** The teammate branch: the route's first tile once our own tile is on the
      route; otherwise the end of the first strictly shortest permissive route,
      where an empty (failed) route counts as the shortest and falls back to
      the route's first tile. */
  function TeammateTile(g: GameMap, from: Tile, here: Tile, cords: seq<Tile>): Tile
    requires cords != []
  {
    if here in cords then cords[0]
    else
      var best := Nearest(g, from, cords);
      if best.Some? && |best.value| >= 1 then best.value[|best.value| - 1] else cords[0]
  }

  /** The source fails (`AttributeError`, `TypeError`) when the branch it
      takes has nothing to read: an empty broadcast route, or no flag object. */
  predicate Resolvable(tank: TankView, targetTile: Option<seq<Tile>>, flagTile: Option<Tile>)
  {
    !tank.carriesFlag ==> if targetTile.Some? then targetTile.value != [] else flagTile.Some?
  }

  /** `get_target_tile`, with the cached flag's truncated position as `flagTile`. */
  function TargetTile(g: GameMap, tank: TankView, gridPos: Tile, targetTile: Option<seq<Tile>>, flagTile: Option<Tile>): Tile
    requires Resolvable(tank, targetTile, flagTile)
  {
    if tank.carriesFlag then TileOf(tank.startX, tank.startY)
    else if targetTile.Some? then TeammateTile(g, BodyTile(tank), gridPos, targetTile.value)
    else flagTile.value
  }

  /** The priority order of target selection: the home base tile when
      carrying the flag, a tile of the broadcast route when there is one, the
      flag's tile otherwise. */
  lemma TargetPriority(g: GameMap, tank: TankView, gridPos: Tile, targetTile: Option<seq<Tile>>, flagTile: Option<Tile>)
    requires Resolvable(tank, targetTile, flagTile)
    ensures var t := TargetTile(g, tank, gridPos, targetTile, flagTile);
      && (tank.carriesFlag ==> t == TileOf(tank.startX, tank.startY))
      && (!tank.carriesFlag && targetTile.Some? ==> t in targetTile.value)
      && (!tank.carriesFlag && targetTile.None? ==> Some(t) == flagTile)
  {
    if !tank.carriesFlag && targetTile.Some? {
      TeammateTileSpec(g, BodyTile(tank), gridPos, targetTile.value);
    }
  }

  /** The teammate branch picks a tile of the route; the first one when we
      stand on the route or some tile of it cannot be reached; otherwise a
      tile whose permissive route is no longer than that to any other tile of
      the route. */
  lemma TeammateTileSpec(g: GameMap, from: Tile, here: Tile, cords: seq<Tile>)
    requires cords != []
    ensures var t := TeammateTile(g, from, here, cords);
      && t in cords
      && (here in cords ==> t == cords[0])
      && (here !in cords && (exists c :: c in cords && Search(g, Permissive, from, c) == []) ==> t == cords[0])
      && (here !in cords && (forall c :: c in cords ==> Search(g, Permissive, from, c) != []) ==>
            && Search(g, Permissive, from, t) != []
            && (forall c :: c in cords ==> |Search(g, Permissive, from, t)| <= |Search(g, Permissive, from, c)|))
  {
    if here !in cords {
      var i := NearestSpec(g, from, cords);
      var best := Search(g, Permissive, from, cords[i]);
      if exists c :: c in cords && Search(g, Permissive, from, c) == [] {
        var c :| c in cords && Search(g, Permissive, from, c) == [];
        var k :| 0 <= k < |cords| && cords[k] == c;
        assert |best| <= |Search(g, Permissive, from, cords[k])|;
      } else {
        assert best != [];
        SearchCorrect(g, Permissive, from, cords[i]);
        forall c | c in cords ensures |Search(g, Permissive, from, cords[i])| <= |Search(g, Permissive, from, c)| {
          var k :| 0 <= k < |cords| && cords[k] == c;
        }
      }
    }
  }

  /** The teammate loop of `get_target_tile`: a permissive search from the
      body tile to each tile of the broadcast route, keeping the first strictly
      shortest, with an early exit once the route passes our own tile. */
  method FollowTeammate(g: GameMap, from: Tile, here: Tile, cords: seq<Tile>) returns (t: Tile)
    requires cords != []
    ensures t == TeammateTile(g, from, here, cords)
  {
    var closest: Option<seq<Tile>> := None;
    var k := 0;
    while k < |cords|
      invariant 0 <= k <= |cords|
      invariant forall j :: 0 <= j < k ==> cords[j] != here
      invariant closest == Nearest(g, from, cords[..k])
    {
      var close := BreadthFirstSearch(g, Permissive, from, cords[k]);
      NearestStep(g, from, cords, k);
      if closest.None? {
        closest := Some(close);
      } else if |closest.value| > |close| {
        closest := Some(close);
      }
      if cords[k] == here {
        assert here in cords;
        return cords[0];
      }
      k := k + 1;
    }
    assert cords[..|cords|] == cords;
    assert here !in cords;
    var best := closest.value;
    if |best| >= 1 {
      t := best[|best| - 1];
    } else {
      t := cords[0];
    }
  }
}
