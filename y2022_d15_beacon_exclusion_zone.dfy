// Sensors and beacons (2022, day 15): each sensor reports its nearest beacon
// in the taxicab metric, which rules out every other beacon within that
// distance of the sensor.

module BeaconExclusionZone {
  import opened Wrappers

  type Point = (int, int)

  datatype SensorBeaconPair = SensorBeaconPair(sensor: Point, beacon: Point)

  /** `manhattan_distance`: the sum of the distances along both axes. */
  function ManhattanDistance(p: Point, q: Point): nat
  {
    Abs(p.0 - q.0) + Abs(p.1 - q.1)
  }

  /** The distance does not depend on the order of the points. */
  lemma DistanceSymmetric(p: Point, q: Point)
    ensures ManhattanDistance(p, q) == ManhattanDistance(q, p)
  {
  }

  /** The distance is 0 exactly between equal points, and never beats a detour. */
  lemma DistanceMetric(p: Point, q: Point, r: Point)
    ensures ManhattanDistance(p, q) == 0 <==> p == q
    ensures ManhattanDistance(p, r) <= ManhattanDistance(p, q) + ManhattanDistance(q, r)
  {
  }

  /** `get_dist`: the distance from the sensor to its beacon. */
  function GetDist(pair: SensorBeaconPair): nat
  {
    ManhattanDistance(pair.sensor, pair.beacon)
  }

  /** `contains`: the point is no farther from the sensor than its beacon. */
  predicate Contains(pair: SensorBeaconPair, pt: Point)
  {
    ManhattanDistance(pair.sensor, pt) <= GetDist(pair)
  }

  /** A sensor's range holds the sensor and its beacon. */
  lemma ContainsEnds(pair: SensorBeaconPair)
    ensures Contains(pair, pair.sensor) && Contains(pair, pair.beacon)
  {
  }

  // The points just outside a sensor's range

  /** The points at distance exactly `r` from `c`. */
  function Ring(c: Point, r: nat): set<Point>
  {
    set x: int, y: int | c.0 - r <= x <= c.0 + r && c.1 - r <= y <= c.1 + r &&
      ManhattanDistance((x, y), c) == r :: (x, y)
  }

  /**
   * The `k`-th point of the walk around the ring of radius `r`, starting
   * below the centre (at `y - r`) and turning at the four corners, one leg of
   * `r` points per loop of the source.
   */
  function PerimeterPoint(c: Point, r: nat, k: nat): Point
    requires k <= 4 * r
  {
    var (sx, sy) := c;
    if k <= r then (sx + k, sy - r + k)
    else if k <= 2 * r then (sx + r - (k - r), sy + (k - r))
    else if k <= 3 * r then (sx - (k - 2 * r), sy + r - (k - 2 * r))
    else (sx - r + (k - 3 * r), sy - (k - 3 * r))
  }

  /** The first `k` points of the walk around the ring. */
  function Perimeter(c: Point, r: nat, k: nat): set<Point>
    requires k <= 4 * r
  {
    set j | 0 <= j < k :: PerimeterPoint(c, r, j)
  }

  /** The set after `k + 1` steps of the walk. */
  lemma PerimeterStep(c: Point, r: nat, k: nat)
    requires k < 4 * r
    ensures Perimeter(c, r, k + 1) == Perimeter(c, r, k) + {PerimeterPoint(c, r, k)}
  {
    assert PerimeterPoint(c, r, k) in Perimeter(c, r, k + 1);
  }

  /** The whole walk visits exactly the points at distance `r`. */
  lemma PerimeterIsRing(c: Point, r: nat)
    requires r >= 1
    ensures Perimeter(c, r, 4 * r) == Ring(c, r)
  {
    forall pt | pt in Ring(c, r)
      ensures pt in Perimeter(c, r, 4 * r)
    {
      var (dx, dy) := (pt.0 - c.0, pt.1 - c.1);
      var k := if dx >= 0 && dy < 0 then dx
        else if dx > 0 && dy >= 0 then r + dy
        else if dx <= 0 && dy > 0 then 2 * r - dx
        else 3 * r - dy;
      assert PerimeterPoint(c, r, k) == pt;
    }
    forall k | 0 <= k < 4 * r
      ensures PerimeterPoint(c, r, k) in Ring(c, r)
    {
      var pt := PerimeterPoint(c, r, k);
      assert ManhattanDistance(pt, c) == r;
    }
  }

  /** The walk in closed form, leg by leg: each loop of the source walks one leg. */
  lemma LegPoints(c: Point, r: nat, k: nat)
    requires k <= 4 * r
    ensures k <= r ==> PerimeterPoint(c, r, k) == (c.0 + k, c.1 - r + k)
    ensures r <= k <= 2 * r ==> PerimeterPoint(c, r, k) == (c.0 + 2 * r - k, c.1 - r + k)
    ensures 2 * r <= k <= 3 * r ==> PerimeterPoint(c, r, k) == (c.0 + 2 * r - k, c.1 + 3 * r - k)
    ensures 3 * r <= k ==> PerimeterPoint(c, r, k) == (c.0 - 4 * r + k, c.1 + 3 * r - k)
  {
  }

  /** Inserting the `k`-th point of the walk extends the set of the first `k`. */
  lemma InsertStep(c: Point, r: nat, k: nat, x: int, y: int, s: set<Point>)
    requires k < 4 * r && s == Perimeter(c, r, k)
    requires (x, y) == PerimeterPoint(c, r, k)
    ensures s + {(x, y)} == Perimeter(c, r, k + 1)
  {
    PerimeterStep(c, r, k);
  }

  /**
   * `get_points_just_outside_range`: four loops walk the diagonal sides of
   * the ring one past the sensor's distance, inserting every point they pass.
   */
  method GetPointsJustOutsideRange(pair: SensorBeaconPair) returns (s: set<Point>)
    ensures s == Ring(pair.sensor, GetDist(pair) + 1)
  {
    var dist := GetDist(pair);
    var c := pair.sensor;
    var (sx, sy) := c;
    ghost var r := dist + 1;
    var x, y := sx, sy - dist - 1;
    s := {};
    ghost var k := 0;
    while y < sy
      invariant k <= r && x == sx + k && y == sy - r + k && s == Perimeter(c, r, k)
      decreases sy - y
    {
      LegPoints(c, r, k);
      InsertStep(c, r, k, x, y, s);
      s := s + {(x, y)};
      x, y := x + 1, y + 1;
      k := k + 1;
    }
    while x > sx
      invariant r <= k <= 2 * r && x == sx + 2 * r - k && y == sy - r + k && s == Perimeter(c, r, k)
      decreases x - sx
    {
      LegPoints(c, r, k);
      InsertStep(c, r, k, x, y, s);
      s := s + {(x, y)};
      x, y := x - 1, y + 1;
      k := k + 1;
    }
    while y > sy
      invariant 2 * r <= k <= 3 * r && x == sx + 2 * r - k && y == sy + 3 * r - k && s == Perimeter(c, r, k)
      decreases y - sy
    {
      LegPoints(c, r, k);
      InsertStep(c, r, k, x, y, s);
      s := s + {(x, y)};
      x, y := x - 1, y - 1;
      k := k + 1;
    }
    while x < sx
      invariant 3 * r <= k <= 4 * r && x == sx - 4 * r + k && y == sy + 3 * r - k && s == Perimeter(c, r, k)
      decreases sx - x
    {
      LegPoints(c, r, k);
      InsertStep(c, r, k, x, y, s);
      s := s + {(x, y)};
      x, y := x + 1, y - 1;
      k := k + 1;
    }
    PerimeterIsRing(c, r);
  }

  /**
   * The points just outside a sensor's range are exactly the points outside
   * it with a neighbour inside it.
   */
  lemma JustOutsideMeaning(pair: SensorBeaconPair, pt: Point)
    ensures pt in Ring(pair.sensor, GetDist(pair) + 1) <==>
      !Contains(pair, pt) &&
      exists n: Point :: ManhattanDistance(n, pt) == 1 && Contains(pair, n)
  {
    var c, d := pair.sensor, GetDist(pair);
    if ManhattanDistance(pt, c) == d + 1 {
      var n: Point := if pt.0 > c.0 then (pt.0 - 1, pt.1)
        else if pt.0 < c.0 then (pt.0 + 1, pt.1)
        else if pt.1 > c.1 then (pt.0, pt.1 - 1)
        else (pt.0, pt.1 + 1);
      assert ManhattanDistance(n, pt) == 1 && Contains(pair, n);
      assert pt in Ring(c, d + 1);
    }
    if !Contains(pair, pt) && exists n: Point :: ManhattanDistance(n, pt) == 1 && Contains(pair, n) {
      var n: Point :| ManhattanDistance(n, pt) == 1 && Contains(pair, n);
      DistanceMetric(c, n, pt);
      DistanceSymmetric(c, pt);
    }
  }

  /** A point at distance `r` from `c` is on the ring. */
  lemma InRing(c: Point, r: nat, pt: Point)
    requires ManhattanDistance(pt, c) == r
    ensures pt in Ring(c, r)
  {
  }

  // Counting the cells of one row where no beacon can be

  /** Some sensor covers `pt` and no beacon sits on it. */
  predicate Occupied(pairs: seq<SensorBeaconPair>, pt: Point)
  {
    (exists k :: 0 <= k < |pairs| && Contains(pairs[k], pt)) &&
    !(exists k :: 0 <= k < |pairs| && pairs[k].beacon == pt)
  }

  /** The number of occupied cells `(x, y)` for `x` from `lo` to `hi`. */
  function CountFrom(pairs: seq<SensorBeaconPair>, y: int, lo: int, hi: int): nat
    decreases hi - lo + 1
  {
    if lo > hi then 0
    else (if Occupied(pairs, (lo, y)) then 1 else 0) + CountFrom(pairs, y, lo + 1, hi)
  }

  /** The occupied columns of row `y` between `lo` and `hi`. */
  function OccupiedColumns(pairs: seq<SensorBeaconPair>, y: int, lo: int, hi: int): set<int>
  {
    set x | lo <= x <= hi && Occupied(pairs, (x, y))
  }

  /** The count is the number of occupied columns. */
  lemma {:induction false} CountFromMeaning(pairs: seq<SensorBeaconPair>, y: int, lo: int, hi: int)
    ensures CountFrom(pairs, y, lo, hi) == |OccupiedColumns(pairs, y, lo, hi)|
    decreases hi - lo + 1
  {
    if lo > hi {
      assert OccupiedColumns(pairs, y, lo, hi) == {};
    } else {
      CountFromMeaning(pairs, y, lo + 1, hi);
      var rest := OccupiedColumns(pairs, y, lo + 1, hi);
      if Occupied(pairs, (lo, y)) {
        assert OccupiedColumns(pairs, y, lo, hi) == rest + {lo};
      } else {
        assert OccupiedColumns(pairs, y, lo, hi) == rest;
      }
    }
  }

  /** Rust's `/` on `i32`: the quotient truncated toward zero. */
  function TruncDiv(a: int, b: int): int
    requires b > 0
  {
    if a >= 0 then a / b else -((-a) / b)
  }

  /** The least of the beacons' `x` coordinates. */
  function MinBeaconX(pairs: seq<SensorBeaconPair>): (m: int)
    requires pairs != []
    ensures forall k :: 0 <= k < |pairs| ==> m <= pairs[k].beacon.0
    ensures exists k :: 0 <= k < |pairs| && m == pairs[k].beacon.0
  {
    if |pairs| == 1 then pairs[0].beacon.0
    else
      var m := MinBeaconX(pairs[1..]);
      assert forall k :: 1 <= k < |pairs| ==> pairs[k] == pairs[1..][k - 1];
      if pairs[0].beacon.0 <= m then pairs[0].beacon.0 else m
  }

  /** The greatest of the beacons' `x` coordinates. */
  function MaxBeaconX(pairs: seq<SensorBeaconPair>): (m: int)
    requires pairs != []
    ensures forall k :: 0 <= k < |pairs| ==> pairs[k].beacon.0 <= m
    ensures exists k :: 0 <= k < |pairs| && m == pairs[k].beacon.0
  {
    if |pairs| == 1 then pairs[0].beacon.0
    else
      var m := MaxBeaconX(pairs[1..]);
      assert forall k :: 1 <= k < |pairs| ==> pairs[k] == pairs[1..][k - 1];
      if pairs[0].beacon.0 >= m then pairs[0].beacon.0 else m
  }

  /**
   * `count_occupied_cells_at_y_level`: the occupied cells of the row among
   * the columns from the least beacon `x` to one and a half times the
   * greatest; `None` is the panic on an empty list.
   */
  function CountOccupiedCellsAtYLevel(pairs: seq<SensorBeaconPair>, y: int): Option<nat>
  {
    if pairs == [] then None
    else Some(CountFrom(pairs, y, MinBeaconX(pairs), TruncDiv(MaxBeaconX(pairs) * 15, 10)))
  }

  /**
   * The count is the number of columns of the scanned range where some sensor
   * rules a beacon out and no known beacon sits, and the scan starts at the
   * leftmost beacon.
   */
  lemma CountOccupiedMeaning(pairs: seq<SensorBeaconPair>, y: int)
    ensures CountOccupiedCellsAtYLevel(pairs, y).Some? <==> pairs != []
    ensures pairs != [] ==>
      var (lo, hi) := (MinBeaconX(pairs), TruncDiv(MaxBeaconX(pairs) * 15, 10));
      CountOccupiedCellsAtYLevel(pairs, y).value == |OccupiedColumns(pairs, y, lo, hi)|
  {
    if pairs != [] {
      CountFromMeaning(pairs, y, MinBeaconX(pairs), TruncDiv(MaxBeaconX(pairs) * 15, 10));
    }
  }

  /** No counted cell holds a beacon, and every counted cell is in some sensor's range. */
  lemma OccupiedColumnsMeaning(pairs: seq<SensorBeaconPair>, y: int, lo: int, hi: int, x: int)
    requires x in OccupiedColumns(pairs, y, lo, hi)
    ensures lo <= x <= hi
    ensures forall k :: 0 <= k < |pairs| ==> pairs[k].beacon != (x, y)
    ensures exists k :: 0 <= k < |pairs| && ManhattanDistance(pairs[k].sensor, (x, y)) <= GetDist(pairs[k])
  {
  }

  // The example of the tests

  /** The ring just outside a sensor at the origin with its beacon at `(3, 0)`. */
  function SampleRing(): set<Point>
  {
    {(0, 4), (1, 3), (2, 2), (3, 1), (4, 0), (3, -1), (2, -2), (1, -3),
     (0, -4), (-1, -3), (-2, -2), (-3, -1), (-4, 0), (-3, 1), (-2, 2), (-1, 3)}
  }

  /** Every point of the ring of radius 4 around the origin is one of the sixteen. */
  lemma SampleRingWithin(c: Point, ring: set<Point>)
    requires c == (0, 0) && ring == Ring(c, 4)
    ensures ring <= SampleRing()
  {
    forall pt | pt in ring
      ensures pt in SampleRing()
    {
      var (x, y) := pt;
      if x == -4 || x == 4 {
        assert y == 0;
      } else if x == -3 || x == 3 {
        assert y == -1 || y == 1;
      } else if x == -2 || x == 2 {
        assert y == -2 || y == 2;
      } else if x == -1 || x == 1 {
        assert y == -3 || y == 3;
      } else {
        assert y == -4 || y == 4;
      }
    }
  }

  /** Each of the sixteen points is on the ring of radius 4 around the origin. */
  lemma SampleRingCovers(c: Point, ring: set<Point>)
    requires c == (0, 0) && ring == Ring(c, 4)
    ensures SampleRing() <= ring
  {
    forall pt | pt in SampleRing()
      ensures pt in ring
    {
      InRing(c, 4, pt);
    }
  }

  /** `get_points_just_outside_range_test`: the sensor at the origin with its beacon at `(3, 0)`. */
  lemma SampleJustOutside(pair: SensorBeaconPair)
    requires pair == SensorBeaconPair((0, 0), (3, 0))
    ensures Ring(pair.sensor, GetDist(pair) + 1) == SampleRing()
  {
    var ring := Ring(pair.sensor, GetDist(pair) + 1);
    assert GetDist(pair) + 1 == 4;
    SampleRingWithin(pair.sensor, ring);
    SampleRingCovers(pair.sensor, ring);
  }
}
