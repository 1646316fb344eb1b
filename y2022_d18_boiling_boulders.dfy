// Lava droplets (2022, day 18): a droplet is a list of unit cubes. Its
// surface area counts the cube faces not covered by another cube; its
// exterior area leaves out the faces of air pockets trapped inside, found by
// flooding the bounding box from the origin.

module BoilingBoulders {
  import opened Wrappers

  type Point = (int, int, int)

  /** `adjacent_points`: the six face neighbours, in the source's order. */
  function AdjacentPoints(p: Point): seq<Point>
  {
    var (x, y, z) := p;
    [(x + 1, y, z), (x - 1, y, z), (x, y + 1, z), (x, y - 1, z), (x, y, z + 1), (x, y, z - 1)]
  }

  /** The taxicab distance between two points. */
  function Distance(p: Point, q: Point): nat
  {
    Abs(p.0 - q.0) + Abs(p.1 - q.1) + Abs(p.2 - q.2)
  }

  /** The six neighbours are distinct and are exactly the points at distance 1. */
  lemma AdjacentPointsMeaning(p: Point, q: Point)
    ensures q in AdjacentPoints(p) <==> Distance(p, q) == 1
    ensures forall i, j :: 0 <= i < j < 6 ==> AdjacentPoints(p)[i] != AdjacentPoints(p)[j]
  {
  }

  /** Being neighbours is symmetric. */
  lemma AdjacentSymmetric(p: Point, q: Point)
    ensures q in AdjacentPoints(p) <==> p in AdjacentPoints(q)
  {
    AdjacentPointsMeaning(p, q);
    AdjacentPointsMeaning(q, p);
  }

  // Surface area

  /** The test the filter of `find_total_surface_area` applies: the neighbour is not a cube. */
  function Uncovered(occupied: set<Point>): Point -> bool
  {
    (n: Point) => n !in occupied
  }

  /** The faces of the listed cubes that no cube of `occupied` covers. */
  function FreeFaces(occupied: set<Point>, cubes: seq<Point>): nat
  {
    if cubes == [] then 0
    else FreeFaces(occupied, cubes[..|cubes| - 1]) + |Filter(AdjacentPoints(cubes[|cubes| - 1]), Uncovered(occupied))|
  }

  /** The cubes of a list, as a set. */
  function Occupied(cubes: seq<Point>): set<Point>
  {
    set k | 0 <= k < |cubes| :: cubes[k]
  }

  /** `find_total_surface_area`: every face whose neighbour is not a cube. */
  function FindTotalSurfaceArea(cubes: seq<Point>): nat
  {
    FreeFaces(Occupied(cubes), cubes)
  }

  /** Each cube has at most six free faces. */
  lemma {:induction false} FreeFacesBound(occupied: set<Point>, cubes: seq<Point>)
    ensures FreeFaces(occupied, cubes) <= 6 * |cubes|
  {
    if cubes != [] {
      FreeFacesBound(occupied, cubes[..|cubes| - 1]);
      FilterLength(AdjacentPoints(cubes[|cubes| - 1]), Uncovered(occupied));
    }
  }

  /** A filter keeps at most what it is given. */
  lemma FilterLength<T>(s: seq<T>, p: T -> bool)
    ensures |Filter(s, p)| <= |s|
  {
    FilterMeaning(s, p);
  }

  /** A cube none of whose neighbours is occupied has all six faces free. */
  lemma LoneCubeFaces(occupied: set<Point>, c: Point)
    requires forall n :: n in AdjacentPoints(c) ==> n !in occupied
    ensures |Filter(AdjacentPoints(c), Uncovered(occupied))| == 6
  {
    var s := AdjacentPoints(c);
    FilterMeaning(s, Uncovered(occupied));
    FilterIndicesExact(s, Uncovered(occupied), [0, 1, 2, 3, 4, 5]);
  }

  /** Cubes no two of which touch expose six faces each. */
  lemma {:induction false} ApartCubesFaces(occupied: set<Point>, cubes: seq<Point>)
    requires forall k, n :: 0 <= k < |cubes| && n in AdjacentPoints(cubes[k]) ==> n !in occupied
    ensures FreeFaces(occupied, cubes) == 6 * |cubes|
  {
    if cubes != [] {
      ApartCubesFaces(occupied, cubes[..|cubes| - 1]);
      LoneCubeFaces(occupied, cubes[|cubes| - 1]);
    }
  }

  /** A droplet of cubes that pairwise do not touch has area six per cube. */
  lemma ApartArea(cubes: seq<Point>)
    requires forall i, j :: 0 <= i < |cubes| && 0 <= j < |cubes| ==> Distance(cubes[i], cubes[j]) != 1
    ensures FindTotalSurfaceArea(cubes) == 6 * |cubes|
  {
    forall k, n | 0 <= k < |cubes| && n in AdjacentPoints(cubes[k])
      ensures n !in Occupied(cubes)
    {
      AdjacentPointsMeaning(cubes[k], n);
    }
    ApartCubesFaces(Occupied(cubes), cubes);
  }

  // Flooding the bounding box

  /** `n` lies in the box from the origin to `(mx, my, mz)`. */
  predicate InBox(n: Point, mx: int, my: int, mz: int)
  {
    0 <= n.0 <= mx && 0 <= n.1 <= my && 0 <= n.2 <= mz
  }

  /** The points of the box. */
  function Box(mx: int, my: int, mz: int): set<Point>
  {
    set x, y, z | 0 <= x <= mx && 0 <= y <= my && 0 <= z <= mz :: (x, y, z)
  }

  /** The test of the flood's filter: not a cube, not flooded yet, in the box. */
  function Floodable(original: set<Point>, flooded: set<Point>, mx: int, my: int, mz: int): Point -> bool
  {
    (n: Point) => n !in original && n !in flooded && InBox(n, mx, my, mz)
  }

  /** Flooded points are the origin or air in the box. */
  ghost predicate Air(original: set<Point>, flooded: set<Point>, mx: int, my: int, mz: int)
  {
    (0, 0, 0) in flooded &&
    forall p :: p in flooded ==> p == (0, 0, 0) || (p !in original && InBox(p, mx, my, mz))
  }

  /**
   * Every flooded point other than the origin has a flooded neighbour of
   * smaller depth, so it is reached from the origin through flooded points.
   */
  ghost predicate Rooted(flooded: set<Point>, depth: map<Point, nat>)
  {
    flooded <= depth.Keys &&
    forall p :: p in flooded && p != (0, 0, 0) ==>
      exists q :: q in flooded && p in AdjacentPoints(q) && depth[q] < depth[p]
  }

  /** No air in the box next to a flooded point is left dry. */
  ghost predicate Closed(original: set<Point>, flooded: set<Point>, mx: int, my: int, mz: int)
  {
    forall p, n :: p in flooded && n in AdjacentPoints(p) && n !in original && InBox(n, mx, my, mz) ==> n in flooded
  }

  /** The result of the flood: rooted at the origin, air only, and closed. */
  ghost predicate IsFlood(original: set<Point>, flooded: set<Point>, mx: int, my: int, mz: int)
  {
    Air(original, flooded, mx, my, mz) && Closed(original, flooded, mx, my, mz) &&
    exists depth :: Rooted(flooded, depth)
  }

  /** A rooted set lies inside any closed set that holds the origin. */
  lemma RootedWithin(original: set<Point>, a: set<Point>, depth: map<Point, nat>, b: set<Point>, mx: int, my: int, mz: int, p: Point)
    requires Air(original, a, mx, my, mz) && Rooted(a, depth)
    requires (0, 0, 0) in b && Closed(original, b, mx, my, mz)
    requires p in a
    ensures p in b
    decreases depth[p]
  {
    if p != (0, 0, 0) {
      var q :| q in a && p in AdjacentPoints(q) && depth[q] < depth[p];
      RootedWithin(original, a, depth, b, mx, my, mz, q);
    }
  }

  /** The flood is unique: whatever order the points are visited in, it floods the same set. */
  lemma FloodUnique(original: set<Point>, a: set<Point>, b: set<Point>, mx: int, my: int, mz: int)
    requires IsFlood(original, a, mx, my, mz) && IsFlood(original, b, mx, my, mz)
    ensures a == b
  {
    var da :| Rooted(a, da);
    var db :| Rooted(b, db);
    forall p | p in a
      ensures p in b
    {
      RootedWithin(original, a, da, b, mx, my, mz, p);
    }
    forall p | p in b
      ensures p in a
    {
      RootedWithin(original, b, db, a, mx, my, mz, p);
    }
  }

  /** Flooding the neighbours of `p` that pass the filter keeps the flood rooted and air only. */
  lemma ExtendFlood(original: set<Point>, flooded: set<Point>, depth: map<Point, nat>, mx: int, my: int, mz: int,
                    p: Point, floodable: seq<Point>)
    requires Air(original, flooded, mx, my, mz) && Rooted(flooded, depth) && p in flooded
    requires floodable == Filter(AdjacentPoints(p), Floodable(original, flooded, mx, my, mz))
    ensures var more := set n | n in floodable;
      var newDepth := depth + map n | n in floodable :: depth[p] + 1;
      Air(original, flooded + more, mx, my, mz) && Rooted(flooded + more, newDepth) &&
      (forall n :: n in AdjacentPoints(p) && n !in original && InBox(n, mx, my, mz) ==> n in flooded + more) &&
      forall n :: n in more ==> n !in flooded && InBox(n, mx, my, mz)
  {
    var more := set n | n in floodable;
    var newDepth := depth + map n | n in floodable :: depth[p] + 1;
    forall n | n in AdjacentPoints(p) && n !in original && InBox(n, mx, my, mz)
      ensures n in flooded + more
    {
      FilterMembers(AdjacentPoints(p), Floodable(original, flooded, mx, my, mz), n);
    }
    forall n | n in more
      ensures n !in flooded && InBox(n, mx, my, mz) && n !in original && n in AdjacentPoints(p)
    {
      FilterMembers(AdjacentPoints(p), Floodable(original, flooded, mx, my, mz), n);
    }
    forall q | q in flooded + more && q != (0, 0, 0)
      ensures exists r :: r in flooded + more && q in AdjacentPoints(r) && newDepth[r] < newDepth[q]
    {
      if q in flooded {
        var r :| r in flooded && q in AdjacentPoints(r) && depth[r] < depth[q];
        assert newDepth[r] == depth[r] && newDepth[q] == depth[q];
      } else {
        assert p in flooded + more && newDepth[p] < newDepth[q];
      }
    }
  }

  /** The points of the box outside a set of flooded points. */
  lemma DryShrinks(box: set<Point>, flooded: set<Point>, more: set<Point>)
    requires more <= box && more != {} && more !! flooded
    ensures |box - (flooded + more)| < |box - flooded|
  {
    var n :| n in more;
    var (dry, after) := (box - flooded, box - (flooded + more));
    assert n in dry - after;
    assert dry == after + (dry - after) && after * (dry - after) == {};
  }

  /** The state within one pass: every point already visited has its dry air neighbours flooded. */
  ghost predicate PassDone(original: set<Point>, flooded: set<Point>, visited: set<Point>, mx: int, my: int, mz: int)
  {
    forall q, n :: q in visited && n in AdjacentPoints(q) && n !in original && InBox(n, mx, my, mz) ==> n in flooded
  }

  /** The dry air neighbours of `p` in the box. */
  function AirNeighbours(original: set<Point>, p: Point, mx: int, my: int, mz: int): set<Point>
  {
    set n | n in AdjacentPoints(p) && n !in original && InBox(n, mx, my, mz)
  }

  /** The dry air neighbours in the box of the points of `visited`. */
  ghost function Spread(original: set<Point>, visited: set<Point>, mx: int, my: int, mz: int): set<Point>
  {
    set q, n | q in visited && n in AdjacentPoints(q) && n !in original && InBox(n, mx, my, mz) :: n
  }

  /** The invariant of the pass's loop: the points not in `remaining` are visited. */
  ghost predicate PassLoop(original: set<Point>, flooded0: set<Point>, flooded: set<Point>, depth: map<Point, nat>,
                           visited: set<Point>, remaining: set<Point>, extended: bool, mx: int, my: int, mz: int)
  {
    remaining <= flooded0 && visited == flooded0 - remaining &&
    PassState(original, flooded0, flooded, depth, visited, extended, mx, my, mz) &&
    flooded == flooded0 + Spread(original, visited, mx, my, mz)
  }

  /** Visiting one more point spreads the flood to its dry air neighbours. */
  lemma PassLoopStep(original: set<Point>, flooded0: set<Point>, flooded: set<Point>, depth: map<Point, nat>,
                     visited: set<Point>, remaining: set<Point>, extended: bool, mx: int, my: int, mz: int, p: Point,
                     flooded': set<Point>, depth': map<Point, nat>, extended': bool)
    requires PassLoop(original, flooded0, flooded, depth, visited, remaining, extended, mx, my, mz) && p in remaining
    requires PassState(original, flooded0, flooded', depth', visited + {p}, extended', mx, my, mz)
    requires flooded' == flooded + AirNeighbours(original, p, mx, my, mz)
    ensures PassLoop(original, flooded0, flooded', depth', visited + {p}, remaining - {p}, extended', mx, my, mz)
  {
    SpreadAdd(original, flooded0, flooded, flooded', visited, p, mx, my, mz);
    MoveVisited(flooded0, visited, remaining, p);
  }

  /** The spread of one more point adds its dry air neighbours. */
  lemma SpreadAdd(original: set<Point>, flooded0: set<Point>, flooded: set<Point>, flooded': set<Point>,
                  visited: set<Point>, p: Point, mx: int, my: int, mz: int)
    requires flooded == flooded0 + Spread(original, visited, mx, my, mz)
    requires flooded' == flooded + AirNeighbours(original, p, mx, my, mz)
    ensures flooded' == flooded0 + Spread(original, visited + {p}, mx, my, mz)
  {
    forall n | n in AirNeighbours(original, p, mx, my, mz)
      ensures n in Spread(original, visited + {p}, mx, my, mz)
    {
      assert p in visited + {p} && n in AdjacentPoints(p);
    }
    assert Spread(original, visited + {p}, mx, my, mz) ==
           Spread(original, visited, mx, my, mz) + AirNeighbours(original, p, mx, my, mz);
  }

  /** Moving `p` from the remaining points to the visited ones. */
  lemma MoveVisited(flooded0: set<Point>, visited: set<Point>, remaining: set<Point>, p: Point)
    requires remaining <= flooded0 && visited == flooded0 - remaining && p in remaining
    ensures remaining - {p} <= flooded0 && visited + {p} == flooded0 - (remaining - {p})
  {
  }

  /**
   * The filter of the pass lets through the neighbours that are not yet
   * flooded, so flooding them floods every dry air neighbour of `p`.
   */
  lemma FloodableAdds(original: set<Point>, flooded: set<Point>, p: Point, mx: int, my: int, mz: int)
    ensures flooded + (set n | n in Filter(AdjacentPoints(p), Floodable(original, flooded, mx, my, mz))) ==
            flooded + AirNeighbours(original, p, mx, my, mz)
  {
    forall n
      ensures n in Filter(AdjacentPoints(p), Floodable(original, flooded, mx, my, mz)) <==>
              n in AdjacentPoints(p) && n !in original && n !in flooded && InBox(n, mx, my, mz)
    {
      FilterMembers(AdjacentPoints(p), Floodable(original, flooded, mx, my, mz), n);
    }
  }

  /** A point of the box as the triple of its coordinates. */
  lemma InBoxIsBox(n: Point, mx: int, my: int, mz: int)
    requires InBox(n, mx, my, mz)
    ensures n in Box(mx, my, mz)
  {
    var (x, y, z) := n;
    assert (x, y, z) in Box(mx, my, mz);
  }

  /** The invariant of one pass, after visiting the points of `visited`. */
  ghost predicate PassState(original: set<Point>, flooded0: set<Point>, flooded: set<Point>, depth: map<Point, nat>,
                            visited: set<Point>, extended: bool, mx: int, my: int, mz: int)
  {
    flooded0 <= flooded &&
    Air(original, flooded, mx, my, mz) && Rooted(flooded, depth) &&
    PassDone(original, flooded, visited, mx, my, mz) &&
    (extended <==> flooded != flooded0) &&
    (extended ==> |Box(mx, my, mz) - flooded| < |Box(mx, my, mz) - flooded0|)
  }

  /** Once `p`'s dry air neighbours are flooded, `p` counts as visited. */
  lemma VisitDone(original: set<Point>, flooded: set<Point>, visited: set<Point>, mx: int, my: int, mz: int, p: Point,
                  after: set<Point>)
    requires PassDone(original, flooded, visited, mx, my, mz) && flooded <= after
    requires forall n :: n in AdjacentPoints(p) && n !in original && InBox(n, mx, my, mz) ==> n in after
    ensures PassDone(original, after, visited + {p}, mx, my, mz)
  {
    forall q, n | q in visited + {p} && n in AdjacentPoints(q) && n !in original && InBox(n, mx, my, mz)
      ensures n in after
    {
      if q != p {
        assert n in flooded;
      }
    }
  }

  /** Visiting `p` when none of its neighbours passes the filter keeps the invariant of the pass. */
  lemma PassStepNone(original: set<Point>, flooded0: set<Point>, flooded: set<Point>, depth: map<Point, nat>,
                     visited: set<Point>, extended: bool, mx: int, my: int, mz: int, p: Point)
    requires PassState(original, flooded0, flooded, depth, visited, extended, mx, my, mz) && p in flooded
    requires Filter(AdjacentPoints(p), Floodable(original, flooded, mx, my, mz)) == []
    ensures PassState(original, flooded0, flooded, depth, visited + {p}, extended, mx, my, mz)
  {
    forall n | n in AdjacentPoints(p) && n !in original && InBox(n, mx, my, mz)
      ensures n in flooded
    {
      FilterMembers(AdjacentPoints(p), Floodable(original, flooded, mx, my, mz), n);
    }
    VisitDone(original, flooded, visited, mx, my, mz, p, flooded);
  }

  /** Visiting `p` and flooding its neighbours that pass the filter keeps the invariant of the pass. */
  lemma PassStepMore(original: set<Point>, flooded0: set<Point>, flooded: set<Point>, depth: map<Point, nat>,
                     visited: set<Point>, extended: bool, mx: int, my: int, mz: int, p: Point, floodable: seq<Point>)
    requires PassState(original, flooded0, flooded, depth, visited, extended, mx, my, mz) && p in flooded
    requires floodable == Filter(AdjacentPoints(p), Floodable(original, flooded, mx, my, mz)) && floodable != []
    ensures PassState(original, flooded0, flooded + (set n | n in floodable), depth + (map n | n in floodable :: depth[p] + 1),
                      visited + {p}, true, mx, my, mz)
  {
    var more := set n | n in floodable;
    ExtendFlood(original, flooded, depth, mx, my, mz, p, floodable);
    VisitDone(original, flooded, visited, mx, my, mz, p, flooded + more);
    assert floodable[0] in more;
    forall n | n in more
      ensures n in Box(mx, my, mz)
    {
      InBoxIsBox(n, mx, my, mz);
    }
    DryShrinks(Box(mx, my, mz), flooded, more);
    assert floodable[0] !in flooded0;
  }

  /**
   * One pass of the flood's `loop`: every point flooded at the start of the
   * pass, in any order, floods its dry air neighbours in the box. `extended`
   * tells whether the pass added anything.
   */
  method FloodPass(original: set<Point>, flooded0: set<Point>, ghost depth0: map<Point, nat>, mx: int, my: int, mz: int)
    returns (flooded: set<Point>, extended: bool, ghost depth: map<Point, nat>)
    requires Air(original, flooded0, mx, my, mz) && Rooted(flooded0, depth0)
    ensures PassState(original, flooded0, flooded, depth, flooded0, extended, mx, my, mz)
    ensures flooded == flooded0 + Spread(original, flooded0, mx, my, mz)
  {
    flooded, extended, depth := flooded0, false, depth0;
    var remaining := flooded0;
    ghost var visited: set<Point> := {};
    while remaining != {}
      invariant PassLoop(original, flooded0, flooded, depth, visited, remaining, extended, mx, my, mz)
      decreases |remaining|
    {
      var p :| p in remaining;
      var flooded', extended', depth' := Visit(original, flooded0, flooded, depth, visited, extended, mx, my, mz, p);
      PassLoopStep(original, flooded0, flooded, depth, visited, remaining, extended, mx, my, mz, p, flooded', depth', extended');
      flooded, extended, depth := flooded', extended', depth';
      visited, remaining := visited + {p}, remaining - {p};
    }
    assert visited == flooded0;
  }

  /** The body of the pass for one flooded point `p`: its dry air neighbours in the box join the flood. */
  method Visit(original: set<Point>, flooded0: set<Point>, flooded: set<Point>, ghost depth: map<Point, nat>,
               ghost visited: set<Point>, extended: bool, mx: int, my: int, mz: int, p: Point)
    returns (flooded': set<Point>, extended': bool, ghost depth': map<Point, nat>)
    requires PassState(original, flooded0, flooded, depth, visited, extended, mx, my, mz) && p in flooded
    ensures PassState(original, flooded0, flooded', depth', visited + {p}, extended', mx, my, mz)
    ensures flooded' == flooded + AirNeighbours(original, p, mx, my, mz)
  {
    var floodable := Filter(AdjacentPoints(p), Floodable(original, flooded, mx, my, mz));
    FloodableAdds(original, flooded, p, mx, my, mz);
    if floodable == [] {
      PassStepNone(original, flooded0, flooded, depth, visited, extended, mx, my, mz, p);
      flooded', extended', depth' := flooded, extended, depth;
    } else {
      PassStepMore(original, flooded0, flooded, depth, visited, extended, mx, my, mz, p, floodable);
      flooded', extended' := flooded + set n | n in floodable, true;
      depth' := depth + map n | n in floodable :: depth[p] + 1;
    }
  }

  /**
   * The flood of `find_exterior_surface_area`: starting from the origin,
   * passes repeat until one adds nothing.
   */
  method Flood(original: set<Point>, mx: int, my: int, mz: int) returns (flooded: set<Point>)
    ensures IsFlood(original, flooded, mx, my, mz)
  {
    flooded := {(0, 0, 0)};
    ghost var depth: map<Point, nat> := map[(0, 0, 0) := 0];
    while true
      invariant Air(original, flooded, mx, my, mz) && Rooted(flooded, depth)
      decreases |Box(mx, my, mz) - flooded|
    {
      var extended;
      var next;
      next, extended, depth := FloodPass(original, flooded, depth, mx, my, mz);
      if !extended {
        return;
      }
      flooded := next;
    }
  }

  // Exterior area

  /** The greatest coordinate picked by `coord` among the cubes. */
  function MaxCoord(cubes: seq<Point>, coord: Point -> int): (m: int)
    requires cubes != []
    ensures forall k :: 0 <= k < |cubes| ==> coord(cubes[k]) <= m
    ensures exists k :: 0 <= k < |cubes| && m == coord(cubes[k])
  {
    if |cubes| == 1 then coord(cubes[0])
    else
      var m := MaxCoord(cubes[..|cubes| - 1], coord);
      if coord(cubes[|cubes| - 1]) >= m then coord(cubes[|cubes| - 1]) else m
  }

  function X(p: Point): int { p.0 }
  function Y(p: Point): int { p.1 }
  function Z(p: Point): int { p.2 }

  /** The cells `(x, y, 0)` to `(x, y, mz)`. */
  function Line(x: int, y: int, mz: int): (r: seq<Point>)
    ensures forall p :: p in r <==> p.0 == x && p.1 == y && 0 <= p.2 <= mz
  {
    if mz < 0 then [] else
      var r := Line(x, y, mz - 1) + [(x, y, mz)];
      r
  }

  /** The cells `(x, 0, 0)` to `(x, my, mz)`, `y` outer and `z` inner. */
  function Plane(x: int, my: int, mz: int): (r: seq<Point>)
    ensures forall p :: p in r <==> p.0 == x && 0 <= p.1 <= my && 0 <= p.2 <= mz
  {
    if my < 0 then [] else Plane(x, my - 1, mz) + Line(x, my, mz)
  }

  /** The cells of the box in the order of the source's nested ranges: `x`, then `y`, then `z`. */
  function BoxCells(mx: int, my: int, mz: int): (r: seq<Point>)
    ensures forall p :: p in r <==> InBox(p, mx, my, mz)
  {
    if mx < 0 then [] else BoxCells(mx - 1, my, mz) + Plane(mx, my, mz)
  }

  /** The test of the `internal` filter: neither a cube nor flooded. */
  function Enclosed(original: set<Point>, flooded: set<Point>): Point -> bool
  {
    (p: Point) => p !in original && p !in flooded
  }

  /**
   * The end of `find_exterior_surface_area` once the flood is known: the
   * total area less the area of the air in the box that stayed dry; `None`
   * is the panic of a `usize` subtraction that would go below zero.
   */
  function ExteriorArea(cubes: seq<Point>, flooded: set<Point>, mx: int, my: int, mz: int): Option<nat>
  {
    var total := FindTotalSurfaceArea(cubes);
    var internal := Filter(BoxCells(mx, my, mz), Enclosed(Occupied(cubes), flooded));
    var inner := FindTotalSurfaceArea(internal);
    if inner <= total then Some(total - inner) else None
  }

  /** The far corner of the box: one past the greatest coordinate on each axis. */
  function Corner(cubes: seq<Point>): (int, int, int)
    requires cubes != []
  {
    (1 + MaxCoord(cubes, X), 1 + MaxCoord(cubes, Y), 1 + MaxCoord(cubes, Z))
  }

  /**
   * `find_exterior_surface_area`: flood the box from the origin, then take
   * the total area less the area of the dry air; `None` is a panic (an empty
   * list, or a subtraction below zero).
   */
  method FindExteriorSurfaceArea(cubes: seq<Point>) returns (r: Option<nat>)
    ensures cubes == [] ==> r == None
    ensures cubes != [] ==>
      var (mx, my, mz) := Corner(cubes);
      exists flooded :: IsFlood(Occupied(cubes), flooded, mx, my, mz) && r == ExteriorArea(cubes, flooded, mx, my, mz)
  {
    if cubes == [] {
      return None;
    }
    var original := Occupied(cubes);
    var (mx, my, mz) := Corner(cubes);
    var flooded := Flood(original, mx, my, mz);
    r := ExteriorArea(cubes, flooded, mx, my, mz);
    assert IsFlood(original, flooded, mx, my, mz) && r == ExteriorArea(cubes, flooded, mx, my, mz);
  }

  /** With no dry air left in the box, the exterior area is the whole area. */
  lemma NoPocketsExterior(cubes: seq<Point>, flooded: set<Point>, mx: int, my: int, mz: int)
    requires forall p :: InBox(p, mx, my, mz) && p !in Occupied(cubes) ==> p in flooded
    ensures ExteriorArea(cubes, flooded, mx, my, mz) == Some(FindTotalSurfaceArea(cubes))
  {
    var internal := Filter(BoxCells(mx, my, mz), Enclosed(Occupied(cubes), flooded));
    if internal != [] {
      FilterMembers(BoxCells(mx, my, mz), Enclosed(Occupied(cubes), flooded), internal[0]);
      assert false;
    }
  }

  // The examples of the tests

  /** Of a cube's six faces, only the one towards its `i`-th neighbour is covered. */
  lemma OneCoveredFace(occupied: set<Point>, c: Point, i: nat)
    requires i < 6 && AdjacentPoints(c)[i] in occupied
    requires forall j :: 0 <= j < 6 && j != i ==> AdjacentPoints(c)[j] !in occupied
    ensures |Filter(AdjacentPoints(c), Uncovered(occupied))| == 5
  {
    var s := AdjacentPoints(c);
    var ix: seq<nat> := seq(5, k requires 0 <= k < 5 => if k < i then k else k + 1);
    forall j | 0 <= j < 6
      ensures j in ix <==> j != i
    {
      if j < i {
        assert ix[j] == j;
      } else if j > i {
        assert ix[j - 1] == j;
      }
    }
    FilterMeaning(s, Uncovered(occupied));
    FilterIndicesExact(s, Uncovered(occupied), ix);
  }

  /** Two cubes side by side along `x` hide one face each: ten faces show. */
  lemma TouchingPairArea(a: Point, b: Point)
    requires b == (a.0 + 1, a.1, a.2)
    ensures FindTotalSurfaceArea([a, b]) == 10
  {
    var cubes := [a, b];
    var occupied := Occupied(cubes);
    assert occupied == {a, b} by {
      assert cubes[0] == a && cubes[1] == b;
    }
    OneCoveredFace(occupied, a, 0);
    OneCoveredFace(occupied, b, 1);
    assert cubes[..1] == [a] && [a][..0] == [];
    assert FreeFaces(occupied, [a]) == 5;
    assert FreeFaces(occupied, cubes) == 5 + |Filter(AdjacentPoints(b), Uncovered(occupied))|;
  }

  /** `simple_find_total_surface_area_test`: two touching cubes show ten faces. */
  lemma SampleTotalArea(cubes: seq<Point>)
    requires cubes == [(1, 1, 1), (2, 1, 1)]
    ensures FindTotalSurfaceArea(cubes) == 10
  {
    TouchingPairArea((1, 1, 1), (2, 1, 1));
  }

  /** `p` moved `k` steps along `axis` (0 for `x`, 1 for `y`, 2 for `z`). */
  function Shift(p: Point, axis: nat, k: int): Point
  {
    if axis == 0 then (p.0 + k, p.1, p.2) else if axis == 1 then (p.0, p.1 + k, p.2) else (p.0, p.1, p.2 + k)
  }

  /** A closed flood reaches along any straight run of in-box air from a flooded point. */
  lemma {:induction false} RayFlooded(original: set<Point>, flooded: set<Point>, mx: int, my: int, mz: int,
                                      p: Point, axis: nat, k: nat)
    requires axis < 3 && Closed(original, flooded, mx, my, mz) && p in flooded
    requires forall j :: 1 <= j <= k ==> Shift(p, axis, j) !in original && InBox(Shift(p, axis, j), mx, my, mz)
    ensures Shift(p, axis, k) in flooded
  {
    if k > 0 {
      RayFlooded(original, flooded, mx, my, mz, p, axis, k - 1);
      assert Shift(p, axis, k) in AdjacentPoints(Shift(p, axis, k - 1));
    }
  }

  /** A closed flood that reaches `(0, 0, c)` floods the whole plane `z = c` when it holds no cube. */
  lemma PlaneFlooded(original: set<Point>, flooded: set<Point>, mx: int, my: int, mz: int, c: int, x: nat, y: nat)
    requires Closed(original, flooded, mx, my, mz) && (0, 0, c) in flooded && 0 <= c <= mz
    requires forall p :: p in original ==> p.2 != c
    requires x <= mx && y <= my
    ensures (x, y, c) in flooded
  {
    forall j | 1 <= j <= x
      ensures Shift((0, 0, c), 0, j) !in original && InBox(Shift((0, 0, c), 0, j), mx, my, mz)
    {
      assert Shift((0, 0, c), 0, j).2 == c;
    }
    RayFlooded(original, flooded, mx, my, mz, (0, 0, c), 0, x);
    forall j | 1 <= j <= y
      ensures Shift((x, 0, c), 1, j) !in original && InBox(Shift((x, 0, c), 1, j), mx, my, mz)
    {
      assert Shift((x, 0, c), 1, j).2 == c;
    }
    RayFlooded(original, flooded, mx, my, mz, (x, 0, c), 1, y);
  }

  /** In the box of the two test cubes, a closed flood from the origin reaches all the air. */
  lemma SampleAirFlooded(original: set<Point>, flooded: set<Point>, q: Point)
    requires original == {(1, 1, 1), (2, 1, 1)}
    requires Closed(original, flooded, 3, 2, 2) && (0, 0, 0) in flooded
    requires InBox(q, 3, 2, 2) && q !in original
    ensures q in flooded
  {
    var (x, y, z) := q;
    if (x, y) != (1, 1) && (x, y) != (2, 1) {
      PlaneFlooded(original, flooded, 3, 2, 2, 0, x, y);
      RayFlooded(original, flooded, 3, 2, 2, (x, y, 0), 2, z);
    } else {
      RayFlooded(original, flooded, 3, 2, 2, (0, 0, 0), 2, z);
      PlaneFlooded(original, flooded, 3, 2, 2, z, x, y);
    }
  }

  /** The flood of the two test cubes' box leaves no air dry. */
  lemma SampleNoPockets(cubes: seq<Point>, flooded: set<Point>)
    requires cubes == [(1, 1, 1), (2, 1, 1)]
    requires IsFlood(Occupied(cubes), flooded, 3, 2, 2)
    ensures forall q :: InBox(q, 3, 2, 2) && q !in Occupied(cubes) ==> q in flooded
  {
    var original := Occupied(cubes);
    assert original == {(1, 1, 1), (2, 1, 1)} by {
      assert cubes[0] == (1, 1, 1) && cubes[1] == (2, 1, 1);
    }
    forall q | InBox(q, 3, 2, 2) && q !in original
      ensures q in flooded
    {
      SampleAirFlooded(original, flooded, q);
    }
  }

  /** The box of the two test cubes reaches `(3, 2, 2)`. */
  lemma SampleCorner(cubes: seq<Point>)
    requires cubes == [(1, 1, 1), (2, 1, 1)]
    ensures Corner(cubes) == (3, 2, 2)
  {
    assert cubes[..1] == [(1, 1, 1)];
  }

  /** Two cubes side by side along `x` whose box is flooded completely have an exterior area of 10. */
  lemma TouchingPairExterior(a: Point, b: Point, flooded: set<Point>, mx: int, my: int, mz: int)
    requires b == (a.0 + 1, a.1, a.2)
    requires forall q :: InBox(q, mx, my, mz) && q !in Occupied([a, b]) ==> q in flooded
    ensures ExteriorArea([a, b], flooded, mx, my, mz) == Some(10)
  {
    NoPocketsExterior([a, b], flooded, mx, my, mz);
    TouchingPairArea(a, b);
  }

  /**
   * `simple_find_exterior_surface_area_test`: the two touching cubes
   * `(1,1,1)` and `(2,1,1)` trap no air, so their exterior area is their
   * whole area, 10, for any flood of their box.
   */
  lemma SampleExteriorArea(cubes: seq<Point>, flooded: set<Point>)
    requires cubes == [(1, 1, 1), (2, 1, 1)]
    requires IsFlood(Occupied(cubes), flooded, 3, 2, 2)
    ensures ExteriorArea(cubes, flooded, 3, 2, 2) == Some(10)
  {
    SampleNoPockets(cubes, flooded);
    TouchingPairExterior(cubes[0], cubes[1], flooded, 3, 2, 2);
  }
}
