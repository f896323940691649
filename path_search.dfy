/** The breadth-first search of `Ai.find_shortest_path` over integer tiles,
    its three passability filters, and the proof that it returns a shortest
    route under the active filter, or nothing exactly when no route exists. */
module PathSearch {
  import opened Tiles

  /** Which `filter_tile_neighbors*` predicate the search applies. */
  datatype Filter =
    | Normal                              // grass or wood
    | Permissive                          // grass, wood or metal (`second_try`)
    | AvoidPrevious(previous: seq<Tile>)  // permissive, off the previous route (`other_path`)

  /** A queued node: a tile and the route that led to it (start first,
      the tile itself not included). */
  datatype Entry = Entry(tile: Tile, path: seq<Tile>)

  /** The search state: the FIFO queue and the set of visited tiles. */
  datatype Frontier = Frontier(queue: seq<Entry>, visited: set<Tile>)

  /** The filter `get_tile_neighbors` picks: `second_try` wins over `other_path`. */
  function FilterFor(secondTry: bool, otherPath: bool, previousPath: seq<Tile>): Filter
  {
    if secondTry then Permissive
    else if otherPath then AvoidPrevious(previousPath)
    else Normal
  }

  /** Tiles of the previous route the avoiding filter rejects: every one but the last. */
  function Excluded(previous: seq<Tile>): seq<Tile>
  {
    if |previous| == 0 then [] else previous[..|previous| - 1]
  }

  /** The three filters over the box codes. */
  predicate Passable(g: GameMap, f: Filter, t: Tile)
  {
    && InBounds(g, t)
    && match f
       case Normal => BoxAt(g, t) == Grass || BoxAt(g, t) == Wood
       case Permissive => BoxAt(g, t) == Grass || BoxAt(g, t) == Wood || BoxAt(g, t) == Metal
       case AvoidPrevious(previous) =>
         (BoxAt(g, t) == Grass || BoxAt(g, t) == Wood || BoxAt(g, t) == Metal) && t !in Excluded(previous)
  }

  /** Two tiles one unit apart along x or along y. */
  predicate Adjacent(a: Tile, b: Tile)
  {
    || (a.x == b.x && (b.y == a.y + 1 || b.y == a.y - 1))
    || (a.y == b.y && (b.x == a.x + 1 || b.x == a.x - 1))
  }

  /** The neighbour list, in the source's order (0,1), (0,-1), (1,0), (-1,0). */
  function Neighbors(t: Tile): (ns: seq<Tile>)
    ensures |ns| == 4
    ensures forall n :: n in ns <==> Adjacent(t, n)
  {
    [Tile(t.x, t.y + 1), Tile(t.x, t.y - 1), Tile(t.x + 1, t.y), Tile(t.x - 1, t.y)]
  }

  /** A route from `start`: consecutive tiles adjacent, every tile after the
      start passing the filter (the start tile itself is never filtered). */
  ghost predicate ValidRoute(g: GameMap, f: Filter, start: Tile, p: seq<Tile>)
  {
    && |p| >= 1
    && p[0] == start
    && forall i :: 1 <= i < |p| ==> Passable(g, f, p[i]) && Adjacent(p[i - 1], p[i])
  }

  /** A valid route that ends at `target`. */
  ghost predicate RouteTo(g: GameMap, f: Filter, start: Tile, target: Tile, p: seq<Tile>)
  {
    ValidRoute(g, f, start, p) && p[|p| - 1] == target
  }

  /** The in-bounds tiles together with the start: every tile a search can visit. */
  ghost function Area(g: GameMap, start: Tile): set<Tile>
  {
    (set x, y | 0 <= x < g.width && 0 <= y < g.height :: Tile(x, y)) + {start}
  }

  /** `t` is reachable from `start` in at most `k` filtered steps: it is
      reachable in `k - 1`, or it passes the filter and one of its four
      neighbours is reachable in `k - 1`. */
  ghost predicate Within(g: GameMap, f: Filter, start: Tile, k: nat, t: Tile)
  {
    if k == 0 then t == start
    else
      || Within(g, f, start, k - 1, t)
      || (&& Passable(g, f, t)
          && (|| Within(g, f, start, k - 1, Tile(t.x, t.y + 1))
              || Within(g, f, start, k - 1, Tile(t.x, t.y - 1))
              || Within(g, f, start, k - 1, Tile(t.x + 1, t.y))
              || Within(g, f, start, k - 1, Tile(t.x - 1, t.y))))
  }

  /** Tiles reachable from `start` in at most `k` filtered steps. */
  ghost function Reach(g: GameMap, f: Filter, start: Tile, k: nat): set<Tile>
  {
    set t | t in Area(g, start) && Within(g, f, start, k, t)
  }

  /** The tiles held by a queue. */
  ghost function NodesOf(q: seq<Entry>): set<Tile>
  {
    set i | 0 <= i < |q| :: q[i].tile
  }

  /** The inner loop of the search: each neighbour that passes the filter and
      is not yet visited is enqueued with the route to it and marked visited. */
  function Expand(g: GameMap, f: Filter, ns: seq<Tile>, route: seq<Tile>, fr: Frontier): (r: Frontier)
    ensures fr.visited <= r.visited
    ensures forall w :: w in r.visited && w !in fr.visited ==> w in ns && Passable(g, f, w)
    ensures r.visited == fr.visited ==> r.queue == fr.queue
  {
    if ns == [] then fr
    else if Passable(g, f, ns[0]) && ns[0] !in fr.visited then
      Expand(g, f, ns[1..], route, Frontier(fr.queue + [Entry(ns[0], route)], fr.visited + {ns[0]}))
    else
      Expand(g, f, ns[1..], route, fr)
  }

  /** Adding a tile of `area` that was not visited shrinks what is left to visit. */
  lemma UnvisitedShrinks(area: set<Tile>, v: set<Tile>, v': set<Tile>)
    requires v <= v' <= area && v' != v
    ensures |area - v'| < |area - v|
  {
    var w :| w in v' && w !in v;
    assert area - v' <= (area - v) - {w};
    SubsetCard(area - v', (area - v) - {w});
    assert |(area - v) - {w}| == |area - v| - 1;
  }

  lemma {:induction false} SubsetCard(a: set<Tile>, b: set<Tile>)
    requires a <= b
    ensures |a| <= |b|
    decreases a
  {
    if a != {} {
      var x :| x in a;
      SubsetCard(a - {x}, b - {x});
    }
  }

  /** The outer loop of the search: pop the front entry; stop with its route
      when it is the target, otherwise expand it and go on. */
  function Explore(g: GameMap, f: Filter, start: Tile, target: Tile, fr: Frontier): seq<Tile>
    requires fr.visited <= Area(g, start)
    decreases |Area(g, start) - fr.visited|, |fr.queue|
  {
    if fr.queue == [] then []
    else
      var e := fr.queue[0];
      if e.tile == target then e.path + [e.tile]
      else
        var next := Expand(g, f, Neighbors(e.tile), e.path + [e.tile], Frontier(fr.queue[1..], fr.visited));
        assert next.visited <= Area(g, start) by {
          forall w | w in next.visited ensures w in Area(g, start) {
            if w !in fr.visited {
              assert InBounds(g, w);
              assert w == Tile(w.x, w.y);
            }
          }
        }
        if next.visited != fr.visited then
          UnvisitedShrinks(Area(g, start), fr.visited, next.visited);
          Explore(g, f, start, target, next)
        else
          Explore(g, f, start, target, next)
  }

  /** `find_shortest_path`: the search from `start`, whose queue starts with the
      start tile and an empty route and whose visited set holds the start tile. */
  function Search(g: GameMap, f: Filter, start: Tile, target: Tile): seq<Tile>
  {
    Explore(g, f, start, target, Frontier([Entry(start, [])], {start}))
  }

  // ---------------------------------------------------------------------
  // Correctness of the search
  // ---------------------------------------------------------------------

  /** Every filtered successor of a `done` tile has been visited. */
  ghost predicate Closed(g: GameMap, f: Filter, done: set<Tile>, visited: set<Tile>)
  {
    forall u, w :: u in done && w in Neighbors(u) && Passable(g, f, w) ==> w in visited
  }

  /** The loop invariant of the search. `done` holds the expanded tiles and
      `level` the route length of the queue's front entry. The queue is the
      classic two-level breadth-first frontier: routes of length `level` and
      then `level + 1`, the longer ones leading to tiles farther than `level`. */
  ghost predicate Inv(g: GameMap, f: Filter, start: Tile, target: Tile, fr: Frontier, done: set<Tile>, level: nat)
  {
    && SetsInv(g, f, start, target, fr, done)
    && RoutesInv(g, f, start, fr, level)
    && LevelsInv(g, f, start, fr, done, level)
  }

  /** Visited tiles are the expanded ones plus the queued ones, each queued
      once, and expanded tiles have all their passable neighbours visited. */
  ghost predicate SetsInv(g: GameMap, f: Filter, start: Tile, target: Tile, fr: Frontier, done: set<Tile>)
  {
    var q, v := fr.queue, fr.visited;
    && start in v
    && v <= Area(g, start)
    && v == done + NodesOf(q)
    && done !! NodesOf(q)
    && (forall i, j :: 0 <= i < j < |q| ==> q[i].tile != q[j].tile)
    && Closed(g, f, done, v)
    && target !in done
  }

  /** Every queued entry carries a route to its tile, of length `level` or
      `level + 1`, shorter routes first. */
  ghost predicate RoutesInv(g: GameMap, f: Filter, start: Tile, fr: Frontier, level: nat)
  {
    var q := fr.queue;
    && (forall i :: 0 <= i < |q| ==> ValidRoute(g, f, start, q[i].path + [q[i].tile]))
    && (forall i :: 0 <= i < |q| ==> level <= |q[i].path| <= level + 1)
    && (forall i, j :: 0 <= i < j < |q| ==> |q[i].path| <= |q[j].path|)
    && (q != [] ==> |q[0].path| == level)
  }

  /** Everything within `level - 1` steps is expanded, nothing expanded is
      farther than `level`, and the longer queued routes lead farther than `level`. */
  ghost predicate LevelsInv(g: GameMap, f: Filter, start: Tile, fr: Frontier, done: set<Tile>, level: nat)
  {
    var q := fr.queue;
    && (forall i :: 0 <= i < |q| && |q[i].path| == level + 1 ==> q[i].tile !in Reach(g, f, start, level))
    && (level > 0 ==> Reach(g, f, start, level - 1) <= done)
    && done <= Reach(g, f, start, level)
  }

  /** What the search promises: nothing when the target is unreachable, and
      otherwise a route to it of the least number of steps. */
  ghost predicate SearchOutcome(g: GameMap, f: Filter, start: Tile, target: Tile, r: seq<Tile>)
  {
    && (r == [] ==> forall k :: target !in Reach(g, f, start, k))
    && (r != [] ==> RouteTo(g, f, start, target, r) && (|r| >= 2 ==> target !in Reach(g, f, start, |r| - 2)))
  }

  /** A tile reached within `i` steps is reached within any `j >= i` steps. */
  lemma {:induction false} ReachMonotone(g: GameMap, f: Filter, start: Tile, i: nat, j: nat, t: Tile)
    requires i <= j && t in Reach(g, f, start, i)
    ensures t in Reach(g, f, start, j)
    decreases j
  {
    if i < j {
      ReachMonotone(g, f, start, i, j - 1, t);
    }
  }

  /** One more step reaches at least as much. */
  lemma ReachGrows(g: GameMap, f: Filter, start: Tile, k: nat)
    ensures Reach(g, f, start, k) <= Reach(g, f, start, k + 1)
  {
  }

  /** The end of a route of `n` steps is reachable within `n` steps. */
  lemma {:induction false} RouteReaches(g: GameMap, f: Filter, start: Tile, p: seq<Tile>)
    requires ValidRoute(g, f, start, p)
    ensures p[|p| - 1] in Reach(g, f, start, |p| - 1)
    decreases |p|
  {
    if |p| > 1 {
      var p' := p[..|p| - 1];
      assert ValidRoute(g, f, start, p') by {
        forall i | 1 <= i < |p'| ensures Passable(g, f, p'[i]) && Adjacent(p'[i - 1], p'[i]) {
          assert p'[i] == p[i] && p'[i - 1] == p[i - 1];
        }
      }
      RouteReaches(g, f, start, p');
      var u, w := p[|p| - 2], p[|p| - 1];
      assert Adjacent(u, w) && Passable(g, f, w);
      StepReaches(g, f, start, |p| - 2, u, w);
    }
  }

  /** Whatever is reachable lies in the area a search can visit. */
  lemma {:induction false} WithinArea(g: GameMap, f: Filter, start: Tile, k: nat, t: Tile)
    requires Within(g, f, start, k, t)
    ensures t in Area(g, start)
    decreases k
  {
    if k > 0 && Within(g, f, start, k - 1, t) {
      WithinArea(g, f, start, k - 1, t);
    } else if k > 0 {
      assert InBounds(g, t) && t == Tile(t.x, t.y);
    }
  }

  /** One filtered step from a tile reachable within `k` steps reaches a tile
      within `k + 1` steps. */
  lemma StepReaches(g: GameMap, f: Filter, start: Tile, k: nat, u: Tile, w: Tile)
    requires u in Reach(g, f, start, k) && Adjacent(u, w) && Passable(g, f, w)
    ensures w in Reach(g, f, start, k + 1)
  {
    assert u in [Tile(w.x, w.y + 1), Tile(w.x, w.y - 1), Tile(w.x + 1, w.y), Tile(w.x - 1, w.y)];
    assert InBounds(g, w) && w == Tile(w.x, w.y);
  }

  /** A tile first reached in `k` steps is one filtered step from a tile
      reached in `k - 1`. */
  lemma Predecessor(g: GameMap, f: Filter, start: Tile, k: nat, t: Tile) returns (n: Tile)
    requires k > 0 && Within(g, f, start, k, t) && !Within(g, f, start, k - 1, t)
    ensures Passable(g, f, t) && n in Reach(g, f, start, k - 1) && t in Neighbors(n)
  {
    if Within(g, f, start, k - 1, Tile(t.x, t.y + 1)) {
      n := Tile(t.x, t.y + 1);
    } else if Within(g, f, start, k - 1, Tile(t.x, t.y - 1)) {
      n := Tile(t.x, t.y - 1);
    } else if Within(g, f, start, k - 1, Tile(t.x + 1, t.y)) {
      n := Tile(t.x + 1, t.y);
    } else {
      n := Tile(t.x - 1, t.y);
    }
    WithinArea(g, f, start, k - 1, n);
    assert Adjacent(n, t);
  }

  /** A set that holds the start and is closed under filtered steps holds
      everything reachable. */
  lemma {:induction false} ClosedCoversReach(g: GameMap, f: Filter, start: Tile, done: set<Tile>, k: nat)
    requires start in done && Closed(g, f, done, done)
    ensures Reach(g, f, start, k) <= done
    decreases k
  {
    if k > 0 {
      ClosedCoversReach(g, f, start, done, k - 1);
      forall t | t in Reach(g, f, start, k) ensures t in done {
        if !Within(g, f, start, k - 1, t) {
          var n := Predecessor(g, f, start, k, t);
        }
      }
    }
  }

  lemma NodesOfAppend(a: seq<Entry>, b: seq<Entry>)
    ensures NodesOf(a + b) == NodesOf(a) + NodesOf(b)
  {
    var ab := a + b;
    forall w | w in NodesOf(ab) ensures w in NodesOf(a) + NodesOf(b) {
      var i :| 0 <= i < |ab| && ab[i].tile == w;
      if i < |a| { assert a[i] == ab[i]; } else { assert b[i - |a|] == ab[i]; }
    }
    forall w | w in NodesOf(a) + NodesOf(b) ensures w in NodesOf(ab) {
      if w in NodesOf(a) {
        var i :| 0 <= i < |a| && a[i].tile == w;
        assert ab[i] == a[i];
      } else {
        var i :| 0 <= i < |b| && b[i].tile == w;
        assert ab[|a| + i] == b[i];
      }
    }
  }

  /** What the inner loop adds to the queue: entries for passable, unvisited
      neighbours, each tile once, all carrying `route`. */
  lemma ExpandQueue(g: GameMap, f: Filter, ns: seq<Tile>, route: seq<Tile>, fr: Frontier)
    ensures var r := Expand(g, f, ns, route, fr);
      && |fr.queue| <= |r.queue| && r.queue[..|fr.queue|] == fr.queue
      && (forall i :: |fr.queue| <= i < |r.queue| ==>
            r.queue[i].path == route && r.queue[i].tile in ns && Passable(g, f, r.queue[i].tile) && r.queue[i].tile !in fr.visited)
      && (forall i, j :: |fr.queue| <= i < j < |r.queue| ==> r.queue[i].tile != r.queue[j].tile)
  {
    ExpandPrefix(g, f, ns, route, fr);
    ExpandEntries(g, f, ns, route, fr);
    ExpandDistinct(g, f, ns, route, fr);
  }

  /** The inner loop only appends to the queue. */
  lemma {:induction false} ExpandPrefix(g: GameMap, f: Filter, ns: seq<Tile>, route: seq<Tile>, fr: Frontier)
    ensures var r := Expand(g, f, ns, route, fr);
      |fr.queue| <= |r.queue| && r.queue[..|fr.queue|] == fr.queue
    decreases ns
  {
    if ns != [] {
      if Passable(g, f, ns[0]) && ns[0] !in fr.visited {
        var r := Expand(g, f, ns, route, fr);
        var n := |fr.queue|;
        var fr1 := Frontier(fr.queue + [Entry(ns[0], route)], fr.visited + {ns[0]});
        ExpandPrefix(g, f, ns[1..], route, fr1);
        assert r.queue[..n + 1] == fr1.queue;
        assert r.queue[..n] == fr1.queue[..n];
      } else {
        ExpandPrefix(g, f, ns[1..], route, fr);
      }
    }
  }

  /** Every appended entry is a passable, previously unvisited neighbour
      carrying `route`. */
  lemma {:induction false} ExpandEntries(g: GameMap, f: Filter, ns: seq<Tile>, route: seq<Tile>, fr: Frontier)
    ensures var r := Expand(g, f, ns, route, fr);
      forall i :: |fr.queue| <= i < |r.queue| ==>
        r.queue[i].path == route && r.queue[i].tile in ns && Passable(g, f, r.queue[i].tile) && r.queue[i].tile !in fr.visited
    decreases ns
  {
    if ns != [] {
      var r := Expand(g, f, ns, route, fr);
      var n := |fr.queue|;
      if Passable(g, f, ns[0]) && ns[0] !in fr.visited {
        var fr1 := Frontier(fr.queue + [Entry(ns[0], route)], fr.visited + {ns[0]});
        ExpandEntries(g, f, ns[1..], route, fr1);
        ExpandPrefix(g, f, ns[1..], route, fr1);
        forall i | n <= i < |r.queue|
          ensures r.queue[i].path == route && r.queue[i].tile in ns && Passable(g, f, r.queue[i].tile) && r.queue[i].tile !in fr.visited
        {
          if i > n {
            assert r.queue[i].tile in ns[1..];
          } else {
            assert r.queue[..n + 1][i] == fr1.queue[n];
          }
        }
      } else {
        ExpandEntries(g, f, ns[1..], route, fr);
        assert r == Expand(g, f, ns[1..], route, fr);
        forall i | n <= i < |r.queue| ensures r.queue[i].tile in ns {
          assert r.queue[i].tile in ns[1..];
        }
      }
    }
  }

  /** No tile is appended twice. */
  lemma {:induction false} ExpandDistinct(g: GameMap, f: Filter, ns: seq<Tile>, route: seq<Tile>, fr: Frontier)
    ensures var r := Expand(g, f, ns, route, fr);
      forall i, j :: |fr.queue| <= i < j < |r.queue| ==> r.queue[i].tile != r.queue[j].tile
    decreases ns
  {
    if ns != [] {
      if Passable(g, f, ns[0]) && ns[0] !in fr.visited {
        var r := Expand(g, f, ns, route, fr);
        var n := |fr.queue|;
        var fr1 := Frontier(fr.queue + [Entry(ns[0], route)], fr.visited + {ns[0]});
        assert r == Expand(g, f, ns[1..], route, fr1) && |fr1.queue| == n + 1;
        ExpandDistinct(g, f, ns[1..], route, fr1);
        ExpandEntries(g, f, ns[1..], route, fr1);
        ExpandPrefix(g, f, ns[1..], route, fr1);
        assert r.queue[n] == r.queue[..n + 1][n] == fr1.queue[n] == Entry(ns[0], route);
        forall i, j | n <= i < j < |r.queue| ensures r.queue[i].tile != r.queue[j].tile {
          if i == n {
            assert r.queue[j].tile !in fr1.visited;
          }
        }
      } else {
        var r := Expand(g, f, ns, route, fr);
        assert r == Expand(g, f, ns[1..], route, fr);
        ExpandDistinct(g, f, ns[1..], route, fr);
        forall i, j | |fr.queue| <= i < j < |r.queue| ensures r.queue[i].tile != r.queue[j].tile {
        }
      }
    }
  }

  /** The inner loop visits exactly the tiles it enqueues. */
  lemma {:induction false} ExpandVisited(g: GameMap, f: Filter, ns: seq<Tile>, route: seq<Tile>, fr: Frontier)
    ensures var r := Expand(g, f, ns, route, fr);
      |fr.queue| <= |r.queue| && r.visited == fr.visited + NodesOf(r.queue[|fr.queue|..])
    decreases ns
  {
    var r := Expand(g, f, ns, route, fr);
    var n := |fr.queue|;
    if ns == [] {
      assert r.queue[n..] == [];
    } else if Passable(g, f, ns[0]) && ns[0] !in fr.visited {
      var e := Entry(ns[0], route);
      var fr1 := Frontier(fr.queue + [e], fr.visited + {ns[0]});
      assert r == Expand(g, f, ns[1..], route, fr1);
      ExpandVisited(g, f, ns[1..], route, fr1);
      ExpandPrefix(g, f, ns[1..], route, fr1);
      assert |fr1.queue| == n + 1 && r.queue[n] == fr1.queue[n] == e;
      VisitedAfterAppend(r.queue, n, e, fr.visited, r.visited);
    } else {
      assert r == Expand(g, f, ns[1..], route, fr);
      ExpandVisited(g, f, ns[1..], route, fr);
    }
  }

  /** Regrouping the visited set when the entry at `n` was the one just added. */
  lemma VisitedAfterAppend(q: seq<Entry>, n: nat, e: Entry, v: set<Tile>, vis: set<Tile>)
    requires n < |q| && q[n] == e && vis == (v + {e.tile}) + NodesOf(q[n + 1..])
    ensures vis == v + NodesOf(q[n..])
  {
    var rest := q[n + 1..];
    assert q[n..] == [e] + rest;
    NodesOfAppend([e], rest);
    assert NodesOf([e]) == {e.tile};
  }

  /** After the inner loop every passable neighbour is visited. */
  lemma {:induction false} ExpandCovers(g: GameMap, f: Filter, ns: seq<Tile>, route: seq<Tile>, fr: Frontier)
    ensures forall w :: w in ns && Passable(g, f, w) ==> w in Expand(g, f, ns, route, fr).visited
    decreases ns
  {
    if ns != [] {
      var r := Expand(g, f, ns, route, fr);
      if Passable(g, f, ns[0]) && ns[0] !in fr.visited {
        ExpandCovers(g, f, ns[1..], route, Frontier(fr.queue + [Entry(ns[0], route)], fr.visited + {ns[0]}));
      } else {
        ExpandCovers(g, f, ns[1..], route, fr);
      }
      forall w | w in ns && Passable(g, f, w) ensures w in r.visited {
        if w != ns[0] { assert w in ns[1..]; }
      }
    }
  }

  /** The tiles within `level` steps have all been visited. */
  lemma ReachVisited(g: GameMap, f: Filter, start: Tile, target: Tile, fr: Frontier, done: set<Tile>, level: nat)
    requires Inv(g, f, start, target, fr, done, level)
    ensures Reach(g, f, start, level) <= fr.visited
  {
    if level > 0 {
      forall t | t in Reach(g, f, start, level) ensures t in fr.visited {
        if !Within(g, f, start, level - 1, t) {
          var n := Predecessor(g, f, start, level, t);
        }
      }
    }
  }

  /** One round of the outer loop on a non-target front entry. */
  ghost function Round(g: GameMap, f: Filter, fr: Frontier): Frontier
    requires fr.queue != []
  {
    var e := fr.queue[0];
    Expand(g, f, Neighbors(e.tile), e.path + [e.tile], Frontier(fr.queue[1..], fr.visited))
  }

  /** The level after a round: that of the new front entry. */
  ghost function NextLevel(fr: Frontier, level: nat): nat
  {
    if fr.queue != [] then |fr.queue[0].path| else level
  }

  /** What one round does to the queue and the visited set. */
  lemma RoundFacts(g: GameMap, f: Filter, fr: Frontier)
    requires fr.queue != []
    ensures var e, next := fr.queue[0], Round(g, f, fr);
      var n := |fr.queue| - 1;
      && n <= |next.queue|
      && next.queue == fr.queue[1..] + next.queue[n..]
      && (forall i :: n <= i < |next.queue| ==>
            && next.queue[i].path == e.path + [e.tile]
            && Adjacent(e.tile, next.queue[i].tile)
            && Passable(g, f, next.queue[i].tile)
            && next.queue[i].tile !in fr.visited)
      && (forall i, j :: n <= i < j < |next.queue| ==> next.queue[i].tile != next.queue[j].tile)
      && next.visited == fr.visited + NodesOf(next.queue[n..])
      && (forall w :: w in Neighbors(e.tile) && Passable(g, f, w) ==> w in next.visited)
      && NodesOf(fr.queue) == {e.tile} + NodesOf(fr.queue[1..])
      && NodesOf(next.queue) == NodesOf(fr.queue[1..]) + NodesOf(next.queue[n..])
  {
    RoundQueue(g, f, fr);
    RoundVisited(g, f, fr);
    RoundNodes(g, f, fr);
  }

  /** One round drops the front entry and appends entries for the passable,
      unvisited neighbours of its tile, each once, carrying its route. */
  lemma RoundQueue(g: GameMap, f: Filter, fr: Frontier)
    requires fr.queue != []
    ensures var e, next := fr.queue[0], Round(g, f, fr);
      var n := |fr.queue| - 1;
      && n <= |next.queue|
      && next.queue == fr.queue[1..] + next.queue[n..]
      && (forall i :: n <= i < |next.queue| ==>
            && next.queue[i].path == e.path + [e.tile]
            && Adjacent(e.tile, next.queue[i].tile)
            && Passable(g, f, next.queue[i].tile)
            && next.queue[i].tile !in fr.visited)
      && (forall i, j :: n <= i < j < |next.queue| ==> next.queue[i].tile != next.queue[j].tile)
  {
    var q := fr.queue;
    var e := q[0];
    var next := Round(g, f, fr);
    var n := |q| - 1;
    ExpandQueue(g, f, Neighbors(e.tile), e.path + [e.tile], Frontier(q[1..], fr.visited));
    assert next.queue == next.queue[..n] + next.queue[n..];
  }

  /** One round visits exactly the tiles it enqueues, and after it every
      passable neighbour of the front tile is visited. */
  lemma RoundVisited(g: GameMap, f: Filter, fr: Frontier)
    requires fr.queue != []
    ensures var e, next := fr.queue[0], Round(g, f, fr);
      var n := |fr.queue| - 1;
      && n <= |next.queue|
      && next.visited == fr.visited + NodesOf(next.queue[n..])
      && (forall w :: w in Neighbors(e.tile) && Passable(g, f, w) ==> w in next.visited)
  {
    var q := fr.queue;
    var e := q[0];
    var front := Frontier(q[1..], fr.visited);
    ExpandVisited(g, f, Neighbors(e.tile), e.path + [e.tile], front);
    ExpandCovers(g, f, Neighbors(e.tile), e.path + [e.tile], front);
  }

  /** The tiles held by the queue before and after a round. */
  lemma RoundNodes(g: GameMap, f: Filter, fr: Frontier)
    requires fr.queue != []
    ensures var e, next := fr.queue[0], Round(g, f, fr);
      var n := |fr.queue| - 1;
      && n <= |next.queue|
      && NodesOf(fr.queue) == {e.tile} + NodesOf(fr.queue[1..])
      && NodesOf(next.queue) == NodesOf(fr.queue[1..]) + NodesOf(next.queue[n..])
  {
    var q := fr.queue;
    var e := q[0];
    var next := Round(g, f, fr);
    var n := |q| - 1;
    ExpandPrefix(g, f, Neighbors(e.tile), e.path + [e.tile], Frontier(q[1..], fr.visited));
    assert next.queue == q[1..] + next.queue[n..] by {
      assert next.queue == next.queue[..n] + next.queue[n..];
    }
    assert q == [e] + q[1..];
    NodesOfAppend([e], q[1..]);
    assert NodesOf([e]) == {e.tile};
    NodesOfAppend(q[1..], next.queue[n..]);
  }

  /** The front entry lies within `level` steps, all of which are visited. */
  lemma FrontReached(g: GameMap, f: Filter, start: Tile, target: Tile, fr: Frontier, done: set<Tile>, level: nat)
    requires Inv(g, f, start, target, fr, done, level)
    requires fr.queue != []
    ensures fr.queue[0].tile in Reach(g, f, start, level)
    ensures Reach(g, f, start, level) <= fr.visited
  {
    RouteReaches(g, f, start, fr.queue[0].path + [fr.queue[0].tile]);
    ReachVisited(g, f, start, target, fr, done, level);
  }

  /** A route extended by one adjacent passable tile is still a route. */
  lemma ExtendRoute(g: GameMap, f: Filter, start: Tile, p: seq<Tile>, w: Tile)
    requires ValidRoute(g, f, start, p)
    requires Passable(g, f, w) && Adjacent(p[|p| - 1], w)
    ensures ValidRoute(g, f, start, p + [w])
  {
    var p' := p + [w];
    forall i | 1 <= i < |p'| ensures Passable(g, f, p'[i]) && Adjacent(p'[i - 1], p'[i]) {
      if i < |p| { assert p'[i] == p[i] && p'[i - 1] == p[i - 1]; }
    }
  }

  /** The queue after a round holds each tile once. */
  lemma RoundKeepsDistinct(g: GameMap, f: Filter, start: Tile, target: Tile, fr: Frontier, done: set<Tile>)
    requires SetsInv(g, f, start, target, fr, done)
    requires fr.queue != []
    ensures var q' := Round(g, f, fr).queue;
      forall i, j :: 0 <= i < j < |q'| ==> q'[i].tile != q'[j].tile
  {
    var q, v := fr.queue, fr.visited;
    var q' := Round(g, f, fr).queue;
    var n := |q| - 1;
    RoundFacts(g, f, fr);
    forall i, j | 0 <= i < j < |q'| ensures q'[i].tile != q'[j].tile {
      if j < n {
        assert q'[i] == q[i + 1] && q'[j] == q[j + 1];
      } else if i < n {
        assert q'[i] == q[i + 1];
        assert q'[i].tile in NodesOf(q);
      }
    }
  }

  /** After a round the visited tiles are still within the area. */
  lemma RoundKeepsArea(g: GameMap, f: Filter, start: Tile, fr: Frontier)
    requires fr.visited <= Area(g, start)
    requires fr.queue != []
    ensures Round(g, f, fr).visited <= Area(g, start)
  {
    var next := Round(g, f, fr);
    var n := |fr.queue| - 1;
    RoundFacts(g, f, fr);
    forall w | w in next.visited ensures w in Area(g, start) {
      if w !in fr.visited {
        var i :| 0 <= i < |next.queue[n..]| && next.queue[n..][i].tile == w;
        assert next.queue[n..][i] == next.queue[n + i];
        assert InBounds(g, w);
        assert w == Tile(w.x, w.y);
      }
    }
  }

  /** After a round the visited tiles are the expanded ones, the front tile
      included, plus the queued ones, and the two parts do not overlap. */
  lemma RoundKeepsPartition(g: GameMap, f: Filter, start: Tile, target: Tile, fr: Frontier, done: set<Tile>)
    requires SetsInv(g, f, start, target, fr, done)
    requires fr.queue != []
    ensures var next, done' := Round(g, f, fr), done + {fr.queue[0].tile};
      next.visited == done' + NodesOf(next.queue) && done' !! NodesOf(next.queue)
  {
    var q, v := fr.queue, fr.visited;
    var e := q[0];
    var next := Round(g, f, fr);
    var n := |q| - 1;
    RoundFacts(g, f, fr);
    var added := next.queue[n..];
    assert e.tile !in NodesOf(q[1..]) by {
      forall i | 0 <= i < n ensures q[1..][i].tile != e.tile {
        assert q[1..][i] == q[i + 1];
      }
    }
    assert NodesOf(added) !! v by {
      forall i | 0 <= i < |added| ensures added[i].tile !in v {
        assert added[i] == next.queue[n + i];
      }
    }
    PartitionMoves(v, done, e.tile, NodesOf(q[1..]), NodesOf(added), next.visited);
  }

  /** Moving `x` from the queued tiles to the expanded ones and queueing
      fresh tiles keeps visited = expanded + queued, the two disjoint. */
  lemma PartitionMoves(v: set<Tile>, done: set<Tile>, x: Tile, rest: set<Tile>, added: set<Tile>, v': set<Tile>)
    requires v == done + ({x} + rest) && done !! ({x} + rest) && x !in rest
    requires v' == v + added && added !! v
    ensures v' == (done + {x}) + (rest + added) && (done + {x}) !! (rest + added)
  {
  }

  /** A round keeps the set part of the invariant. */
  lemma RoundKeepsSets(g: GameMap, f: Filter, start: Tile, target: Tile, fr: Frontier, done: set<Tile>)
    requires SetsInv(g, f, start, target, fr, done)
    requires fr.queue != [] && fr.queue[0].tile != target
    ensures SetsInv(g, f, start, target, Round(g, f, fr), done + {fr.queue[0].tile})
  {
    RoundFacts(g, f, fr);
    RoundKeepsDistinct(g, f, start, target, fr, done);
    RoundKeepsArea(g, f, start, fr);
    RoundKeepsPartition(g, f, start, target, fr, done);
  }

  /** A round keeps the route part of the invariant; the level moves on by
      at most one, and when it moves every queued route has the new length. */
  lemma RoundKeepsRoutes(g: GameMap, f: Filter, start: Tile, target: Tile, fr: Frontier, level: nat)
    requires RoutesInv(g, f, start, fr, level)
    requires fr.queue != [] && fr.queue[0].tile != target
    ensures var next := Round(g, f, fr);
      var q', level' := next.queue, NextLevel(next, level);
      && (level' == level || level' == level + 1)
      && (level' == level + 1 ==> forall i :: 0 <= i < |q'| ==> |q'[i].path| == level + 1)
      && RoutesInv(g, f, start, next, level')
  {
    var next := Round(g, f, fr);
    RoundRoutesValid(g, f, start, fr, level);
    RoundRoutesSorted(g, f, start, fr, level);
    SortedLevels(next.queue, level);
  }

  /** Every entry after a round carries a route to its tile, one or two
      levels long. */
  lemma RoundRoutesValid(g: GameMap, f: Filter, start: Tile, fr: Frontier, level: nat)
    requires RoutesInv(g, f, start, fr, level)
    requires fr.queue != []
    ensures var q' := Round(g, f, fr).queue;
      forall i :: 0 <= i < |q'| ==> ValidRoute(g, f, start, q'[i].path + [q'[i].tile]) && level <= |q'[i].path| <= level + 1
  {
    var q := fr.queue;
    var e := q[0];
    var q' := Round(g, f, fr).queue;
    var n := |q| - 1;
    RoundQueue(g, f, fr);
    forall i | 0 <= i < |q'|
      ensures ValidRoute(g, f, start, q'[i].path + [q'[i].tile])
      ensures level <= |q'[i].path| <= level + 1
    {
      if i < n {
        assert q'[i] == q[i + 1];
      } else {
        ExtendRoute(g, f, start, e.path + [e.tile], q'[i].tile);
      }
    }
  }

  /** After a round the queue still holds shorter routes first. */
  lemma RoundRoutesSorted(g: GameMap, f: Filter, start: Tile, fr: Frontier, level: nat)
    requires RoutesInv(g, f, start, fr, level)
    requires fr.queue != []
    ensures var q' := Round(g, f, fr).queue;
      forall i, j :: 0 <= i < j < |q'| ==> |q'[i].path| <= |q'[j].path|
  {
    var q := fr.queue;
    var q' := Round(g, f, fr).queue;
    var n := |q| - 1;
    RoundQueue(g, f, fr);
    forall i, j | 0 <= i < j < |q'| ensures |q'[i].path| <= |q'[j].path| {
      if j < n {
        assert q'[i] == q[i + 1] && q'[j] == q[j + 1];
      } else if i < n {
        assert q'[i] == q[i + 1];
      }
    }
  }

  /** A queue sorted by route length, all of length `level` or `level + 1`,
      sits at the level of its front entry. */
  lemma SortedLevels(q: seq<Entry>, level: nat)
    requires forall i :: 0 <= i < |q| ==> level <= |q[i].path| <= level + 1
    requires forall i, j :: 0 <= i < j < |q| ==> |q[i].path| <= |q[j].path|
    ensures var level' := if q != [] then |q[0].path| else level;
      && (level' == level || level' == level + 1)
      && (level' == level + 1 ==> forall i :: 0 <= i < |q| ==> |q[i].path| == level + 1)
      && (forall i :: 0 <= i < |q| ==> level' <= |q[i].path| <= level' + 1)
  {
  }

  /** Entries of length `len` keep leading outside `far` when the new ones
      lead to unvisited tiles and `far` is visited. */
  lemma OutsideKept(q: seq<Entry>, q': seq<Entry>, v: set<Tile>, far: set<Tile>, len: nat)
    requires q != [] && |q| - 1 <= |q'| && q' == q[1..] + q'[|q| - 1..]
    requires forall i :: 0 <= i < |q| && |q[i].path| == len ==> q[i].tile !in far
    requires forall i :: |q| - 1 <= i < |q'| ==> q'[i].tile !in v
    requires far <= v
    ensures forall i :: 0 <= i < |q'| && |q'[i].path| == len ==> q'[i].tile !in far
  {
    forall i | 0 <= i < |q'| && |q'[i].path| == len ensures q'[i].tile !in far {
      if i < |q| - 1 { assert q'[i] == q[i + 1]; }
    }
  }

  /** Tiles in `far` that are visited but not queued are expanded. */
  lemma NotQueuedIsDone(q': seq<Entry>, done': set<Tile>, v': set<Tile>, far: set<Tile>)
    requires far <= v' && v' == done' + NodesOf(q')
    requires forall i :: 0 <= i < |q'| ==> q'[i].tile !in far
    ensures far <= done'
  {
  }

  /** A round keeps the level part of the invariant, given what the other
      parts of the invariant say about the round. */
  lemma RoundKeepsLevels(g: GameMap, f: Filter, start: Tile, fr: Frontier, done: set<Tile>, level: nat)
    requires fr.queue != []
    requires LevelsInv(g, f, start, fr, done, level)
    requires fr.queue[0].tile in Reach(g, f, start, level) && Reach(g, f, start, level) <= fr.visited
    requires var next := Round(g, f, fr);
      var level' := NextLevel(next, level);
      && (level' == level || level' == level + 1)
      && (level' == level + 1 ==> forall i :: 0 <= i < |next.queue| ==> |next.queue[i].path| == level + 1)
      && next.visited == done + {fr.queue[0].tile} + NodesOf(next.queue)
    ensures var next := Round(g, f, fr);
      LevelsInv(g, f, start, next, done + {fr.queue[0].tile}, NextLevel(next, level))
  {
    var q, v := fr.queue, fr.visited;
    var next := Round(g, f, fr);
    var q' := next.queue;
    var done' := done + {q[0].tile};
    var reached := Reach(g, f, start, level);
    AddInside(done, q[0].tile, reached);
    RoundQueue(g, f, fr);
    OutsideKept(q, q', v, reached, level + 1);
    if NextLevel(next, level) == level {
      if level > 0 {
        SubsetTrans(Reach(g, f, start, level - 1), done, done');
      }
      LevelsSame(g, f, start, next, done', level);
    } else {
      forall i | 0 <= i < |q'| ensures q'[i].tile !in reached {
        assert |q'[i].path| == level + 1;
      }
      SubsetTrans(reached, v, next.visited);
      NotQueuedIsDone(q', done', next.visited, reached);
      LevelsAdvance(g, f, start, next, done', level);
    }
  }

  lemma SubsetTrans(a: set<Tile>, b: set<Tile>, c: set<Tile>)
    requires a <= b && b <= c
    ensures a <= c
  {
  }

  lemma AddInside(a: set<Tile>, x: Tile, b: set<Tile>)
    requires a <= b && x in b
    ensures a + {x} <= b
  {
  }

  /** The level part of the invariant when the front stays at the same level. */
  lemma LevelsSame(g: GameMap, f: Filter, start: Tile, next: Frontier, done': set<Tile>, level: nat)
    requires forall i :: 0 <= i < |next.queue| && |next.queue[i].path| == level + 1 ==>
               next.queue[i].tile !in Reach(g, f, start, level)
    requires level > 0 ==> Reach(g, f, start, level - 1) <= done'
    requires done' <= Reach(g, f, start, level)
    ensures LevelsInv(g, f, start, next, done', level)
  {
  }

  /** The level part of the invariant when the front moves one level on:
      every queued route is then one step longer than `level`. */
  lemma LevelsAdvance(g: GameMap, f: Filter, start: Tile, next: Frontier, done': set<Tile>, level: nat)
    requires forall i :: 0 <= i < |next.queue| ==> |next.queue[i].path| == level + 1
    requires Reach(g, f, start, level) <= done' <= Reach(g, f, start, level)
    ensures LevelsInv(g, f, start, next, done', level + 1)
  {
    ReachGrows(g, f, start, level);
  }

  /** One round keeps the whole invariant, at the level of the new front entry. */
  lemma RoundKeepsInv(g: GameMap, f: Filter, start: Tile, target: Tile, fr: Frontier, done: set<Tile>, level: nat)
    requires Inv(g, f, start, target, fr, done, level)
    requires fr.queue != [] && fr.queue[0].tile != target
    ensures var next := Round(g, f, fr);
      Inv(g, f, start, target, next, done + {fr.queue[0].tile}, NextLevel(next, level))
  {
    RoundKeepsSets(g, f, start, target, fr, done);
    RoundKeepsRoutes(g, f, start, target, fr, level);
    RoundKeepsPartition(g, f, start, target, fr, done);
    FrontReached(g, f, start, target, fr, done, level);
    RoundKeepsLevels(g, f, start, fr, done, level);
  }

  /** The invariant holds for the initial queue and visited set. */
  lemma InvInit(g: GameMap, f: Filter, start: Tile, target: Tile)
    ensures Inv(g, f, start, target, Frontier([Entry(start, [])], {start}), {}, 0)
  {
    var q := [Entry(start, [])];
    assert NodesOf(q) == {start};
    assert ValidRoute(g, f, start, q[0].path + [q[0].tile]);
  }

  /** An exhausted queue means the target is out of reach. */
  lemma ExhaustedOutcome(g: GameMap, f: Filter, start: Tile, target: Tile, fr: Frontier, done: set<Tile>)
    requires SetsInv(g, f, start, target, fr, done)
    requires fr.queue == []
    ensures forall k: nat :: target !in Reach(g, f, start, k)
    ensures SearchOutcome(g, f, start, target, Explore(g, f, start, target, fr))
  {
    assert NodesOf(fr.queue) == {};
    forall k: nat ensures target !in Reach(g, f, start, k) {
      ClosedCoversReach(g, f, start, done, k);
    }
    assert Explore(g, f, start, target, fr) == [];
  }

  /** The target at the front of the queue comes with a shortest route. */
  lemma FoundOutcome(g: GameMap, f: Filter, start: Tile, target: Tile, fr: Frontier, done: set<Tile>, level: nat)
    requires Inv(g, f, start, target, fr, done, level)
    requires fr.queue != [] && fr.queue[0].tile == target
    ensures var r := fr.queue[0].path + [target];
      RouteTo(g, f, start, target, r) && (|r| >= 2 ==> target !in Reach(g, f, start, |r| - 2))
    ensures SearchOutcome(g, f, start, target, Explore(g, f, start, target, fr))
  {
    assert target in NodesOf(fr.queue);
    assert Explore(g, f, start, target, fr) == fr.queue[0].path + [target];
  }

  /** A round on a non-target front entry leaves the outcome of the search unchanged. */
  lemma ExploreRound(g: GameMap, f: Filter, start: Tile, target: Tile, fr: Frontier)
    requires fr.visited <= Area(g, start) && fr.queue != [] && fr.queue[0].tile != target
    ensures Round(g, f, fr).visited <= Area(g, start)
    ensures Explore(g, f, start, target, fr) == Explore(g, f, start, target, Round(g, f, fr))
  {
    RoundKeepsArea(g, f, start, fr);
  }

  /** From any state meeting the invariant the rest of the search keeps its promise. */
  lemma ExploreCorrect(g: GameMap, f: Filter, start: Tile, target: Tile, fr: Frontier, done: set<Tile>, level: nat)
    requires Inv(g, f, start, target, fr, done, level)
    ensures SearchOutcome(g, f, start, target, Explore(g, f, start, target, fr))
    decreases |Area(g, start) - fr.visited|, |fr.queue|, 1
  {
    var q := fr.queue;
    if q == [] {
      ExhaustedOutcome(g, f, start, target, fr, done);
    } else if q[0].tile == target {
      FoundOutcome(g, f, start, target, fr, done, level);
    } else {
      ExploreOn(g, f, start, target, fr, done, level);
    }
  }

  /** A round on a non-target front entry keeps the invariant and the outcome. */
  lemma ExploreOn(g: GameMap, f: Filter, start: Tile, target: Tile, fr: Frontier, done: set<Tile>, level: nat)
    requires Inv(g, f, start, target, fr, done, level)
    requires fr.queue != [] && fr.queue[0].tile != target
    ensures SearchOutcome(g, f, start, target, Explore(g, f, start, target, fr))
    decreases |Area(g, start) - fr.visited|, |fr.queue|, 0
  {
    var next := Round(g, f, fr);
    RoundKeepsInv(g, f, start, target, fr, done, level);
    ExploreRound(g, f, start, target, fr);
    if next.visited != fr.visited {
      UnvisitedShrinks(Area(g, start), fr.visited, next.visited);
    }
    ExploreCorrect(g, f, start, target, next, done + {fr.queue[0].tile}, NextLevel(next, level));
  }

  /** `find_shortest_path` returns a route from the start to the target when
      one exists under the filter, no route when none does, and never a route
      longer than any other route to the target. */
  lemma SearchCorrect(g: GameMap, f: Filter, start: Tile, target: Tile)
    ensures var r := Search(g, f, start, target);
      && (r != [] ==> RouteTo(g, f, start, target, r))
      && (r == [] <==> forall p :: !RouteTo(g, f, start, target, p))
      && (forall p :: RouteTo(g, f, start, target, p) ==> |r| <= |p|)
  {
    var r := Search(g, f, start, target);
    InvInit(g, f, start, target);
    ExploreCorrect(g, f, start, target, Frontier([Entry(start, [])], {start}), {}, 0);
    forall p | RouteTo(g, f, start, target, p) ensures r != [] && |r| <= |p| {
      RouteReaches(g, f, start, p);
      if |p| < |r| {
        ReachMonotone(g, f, start, |p| - 1, |r| - 2, target);
      }
    }
  }

  /** A shortest route visits no tile twice: cutting out the loop between two
      visits would give a shorter route. */
  lemma ShortestIsSimple(g: GameMap, f: Filter, start: Tile, target: Tile, r: seq<Tile>)
    requires RouteTo(g, f, start, target, r)
    requires forall p :: RouteTo(g, f, start, target, p) ==> |r| <= |p|
    ensures forall i, j :: 0 <= i < j < |r| ==> r[i] != r[j]
  {
    forall i, j | 0 <= i < j < |r| ensures r[i] != r[j] {
      if r[i] == r[j] {
        var p := r[..i] + r[j..];
        assert |p| == |r| - (j - i);
        forall k | 1 <= k < |p| ensures Passable(g, f, p[k]) && Adjacent(p[k - 1], p[k]) {
          if k < i {
            assert p[k] == r[k] && p[k - 1] == r[k - 1];
          } else if k == i {
            assert p[k] == r[j] && p[k - 1] == r[i - 1];
          } else {
            assert p[k] == r[k - i + j] && p[k - 1] == r[k - 1 - i + j];
          }
        }
        assert p[0] == start by {
          if i == 0 { assert p[0] == r[j] == r[0]; } else { assert p[0] == r[0]; }
        }
        assert p[|p| - 1] == r[|r| - 1];
        assert RouteTo(g, f, start, target, p);
        assert false;
      }
    }
  }

  /** The permissive filter lets through every tile the other two let through,
      so a route under any filter is a permissive route. */
  lemma PermissiveWidest(g: GameMap, f: Filter, start: Tile, target: Tile, p: seq<Tile>)
    requires RouteTo(g, f, start, target, p)
    ensures RouteTo(g, Permissive, start, target, p)
  {
    forall i | 1 <= i < |p| ensures Passable(g, Permissive, p[i]) {
      assert Passable(g, f, p[i]);
    }
  }

  /** `find_shortest_path` as the source runs it: a FIFO queue of (tile,
      route) entries and a visited set, the neighbours expanded in their fixed
      order, the route copied for each entry. */
  method BreadthFirstSearch(g: GameMap, f: Filter, start: Tile, target: Tile) returns (route: seq<Tile>)
    ensures route == Search(g, f, start, target)
    ensures route != [] ==> RouteTo(g, f, start, target, route)
    ensures route == [] <==> forall p :: !RouteTo(g, f, start, target, p)
    ensures forall p :: RouteTo(g, f, start, target, p) ==> |route| <= |p|
    ensures forall i, j :: 0 <= i < j < |route| ==> route[i] != route[j]
  {
    var queue := [Entry(start, [])];
    var visited := {start};
    route := [];
    while queue != []
      invariant visited <= Area(g, start)
      invariant Explore(g, f, start, target, Frontier(queue, visited)) == Search(g, f, start, target)
      decreases |Area(g, start) - visited|, |queue|
    {
      var current := queue[0];
      queue := queue[1..];
      if current.tile == target {
        route := current.path + [current.tile];
        break;
      }
      var neighbors := Neighbors(current.tile);
      var step := current.path + [current.tile];
      ghost var before := Frontier(queue, visited);
      var k := 0;
      while k < |neighbors|
        invariant 0 <= k <= |neighbors|
        invariant Expand(g, f, neighbors[k..], step, Frontier(queue, visited)) == Expand(g, f, neighbors, step, before)
      {
        var neighbor := neighbors[k];
        if Passable(g, f, neighbor) && neighbor !in visited {
          queue := queue + [Entry(neighbor, step)];
          visited := visited + {neighbor};
        }
        k := k + 1;
      }
      assert Frontier(queue, visited) == Expand(g, f, neighbors, step, before);
      RoundKeepsArea(g, f, start, Frontier([current] + before.queue, before.visited));
      if visited != before.visited {
        UnvisitedShrinks(Area(g, start), before.visited, visited);
      }
    }
    SearchCorrect(g, f, start, target);
    if route != [] {
      ShortestIsSimple(g, f, start, target, route);
    }
  }
}
