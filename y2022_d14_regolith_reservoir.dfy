// Falling sand in a cave (2022, day 14).
//
// Rock is given as paths of straight segments. Sand enters at (500, 0) one grain
// at a time and falls: straight down if that cell is free, else down and to the
// left, else down and to the right, and comes to rest when all three are taken.
// In the first part the cave has no floor and sand below the lowest rock falls
// into the abyss; in the second the row just below the lowest rock holds sand up,
// and the source itself ends up blocked.

module RegolithReservoir {
  import opened Wrappers

  /** `(x, y)` with `y` growing downwards. */
  type Point = (nat, nat)

  /** The point where sand enters. */
  const Source: Point := (500, 0)

  function Min(a: nat, b: nat): nat
  {
    if a <= b then a else b
  }

  function Max(a: nat, b: nat): nat
  {
    if a <= b then b else a
  }

  /** `v` lies between `a` and `b`, both included, whichever is larger. */
  predicate Between(v: nat, a: nat, b: nat)
  {
    Min(a, b) <= v <= Max(a, b)
  }

  /** `pt` lies in the rectangle spanned by `p` and `q`: for a straight segment, on the segment. */
  predicate OnSegment(p: Point, q: Point, pt: Point)
  {
    Between(pt.0, p.0, q.0) && Between(pt.1, p.1, q.1)
  }

  /** The segment from `p` to `q` is vertical or horizontal. */
  predicate Straight(p: Point, q: Point)
  {
    p.0 == q.0 || p.1 == q.1
  }

  /** The column `x` from row `lo` down to row `hi`. */
  function Column(x: nat, lo: nat, hi: nat): seq<Point>
    requires lo <= hi
    decreases hi - lo
  {
    if lo == hi then [(x, lo)] else Column(x, lo, hi - 1) + [(x, hi)]
  }

  /** The row `y` from column `lo` right to column `hi`. */
  function Row(y: nat, lo: nat, hi: nat): seq<Point>
    requires lo <= hi
    decreases hi - lo
  {
    if lo == hi then [(lo, y)] else Row(y, lo, hi - 1) + [(hi, y)]
  }

  /** A column lists rows `lo` to `hi` in order. */
  lemma {:induction false} ColumnMeaning(x: nat, lo: nat, hi: nat)
    requires lo <= hi
    ensures |Column(x, lo, hi)| == hi - lo + 1
    ensures forall i :: 0 <= i < |Column(x, lo, hi)| ==> Column(x, lo, hi)[i] == (x, lo + i)
    decreases hi - lo
  {
    if lo < hi {
      ColumnMeaning(x, lo, hi - 1);
    }
  }

  /** A row lists columns `lo` to `hi` in order. */
  lemma {:induction false} RowMeaning(y: nat, lo: nat, hi: nat)
    requires lo <= hi
    ensures |Row(y, lo, hi)| == hi - lo + 1
    ensures forall i :: 0 <= i < |Row(y, lo, hi)| ==> Row(y, lo, hi)[i] == (lo + i, y)
    decreases hi - lo
  {
    if lo < hi {
      RowMeaning(y, lo, hi - 1);
    }
  }

  /**
   * `points_in_straight_line`: every point of the segment from `p` to `q`, in
   * increasing order of the coordinate that varies; `None` (the panic) for a
   * diagonal segment.
   */
  function PointsInStraightLine(p: Point, q: Point): (r: Option<seq<Point>>)
    ensures r.Some? <==> Straight(p, q)
  {
    if p.0 == q.0 then Some(Column(p.0, Min(p.1, q.1), Max(p.1, q.1)))
    else if p.1 == q.1 then Some(Row(p.1, Min(p.0, q.0), Max(p.0, q.0)))
    else None
  }

  /** A straight segment's points are exactly the points between its ends. */
  lemma StraightLineMeaning(p: Point, q: Point, pt: Point)
    requires Straight(p, q)
    ensures pt in PointsInStraightLine(p, q).value <==> OnSegment(p, q, pt)
  {
    var r := PointsInStraightLine(p, q).value;
    if p.0 == q.0 {
      var lo := Min(p.1, q.1);
      ColumnMeaning(p.0, lo, Max(p.1, q.1));
      if OnSegment(p, q, pt) {
        assert r[pt.1 - lo] == pt;
      }
    } else {
      var lo := Min(p.0, q.0);
      RowMeaning(p.1, lo, Max(p.0, q.0));
      if OnSegment(p, q, pt) {
        assert r[pt.0 - lo] == pt;
      }
    }
  }

  /** A straight segment lists each of its points once, in increasing order, and has one more point than its length. */
  lemma StraightLineOrdered(p: Point, q: Point)
    requires Straight(p, q)
    ensures var r := PointsInStraightLine(p, q).value;
      (if p.0 == q.0 then |r| == Max(p.1, q.1) - Min(p.1, q.1) + 1 else |r| == Max(p.0, q.0) - Min(p.0, q.0) + 1) &&
      forall i, j :: 0 <= i < j < |r| ==> r[i].0 <= r[j].0 && r[i].1 <= r[j].1 && r[i] != r[j]
  {
    if p.0 == q.0 {
      ColumnMeaning(p.0, Min(p.1, q.1), Max(p.1, q.1));
    } else {
      RowMeaning(p.1, Min(p.0, q.0), Max(p.0, q.0));
    }
  }

  /** A path the source can follow: at least one point, and every segment straight. */
  predicate ValidPath(path: seq<Point>)
  {
    |path| > 0 && forall j :: 0 <= j < |path| - 1 ==> Straight(path[j], path[j + 1])
  }

  /** The points of a list, as a set: what `HashSet::extend` adds. */
  function Elements(points: seq<Point>): (r: set<Point>)
    ensures forall pt :: pt in r <==> pt in points
  {
    set pt | pt in points
  }

  /** The points of the straight ones among the first `k` segments of a path. */
  function PathRocks(path: seq<Point>, k: nat): set<Point>
    requires k < |path|
  {
    if k == 0 then {}
    else
      PathRocks(path, k - 1) +
        match PointsInStraightLine(path[k - 1], path[k])
        case None => {}
        case Some(segment) => Elements(segment)
  }

  /** The points of every segment of every path. */
  function Rocks(paths: seq<seq<Point>>): set<Point>
  {
    if paths == [] then {}
    else
      var last := paths[|paths| - 1];
      Rocks(paths[..|paths| - 1]) + (if last == [] then {} else PathRocks(last, |last| - 1))
  }

  /**
   * The rock of `RockMap::from_lines`, or `None` where it panics: on an empty
   * path (`points.len() - 1` underflows) and on a diagonal segment.
   */
  function RockPoints(paths: seq<seq<Point>>): Option<set<Point>>
  {
    if forall i :: 0 <= i < |paths| ==> ValidPath(paths[i]) then Some(Rocks(paths)) else None
  }

  /** `pt` lies on one of the segments of the paths. */
  ghost predicate OnPaths(paths: seq<seq<Point>>, pt: Point)
  {
    exists i, j :: 0 <= i < |paths| && 0 <= j < |paths[i]| - 1 && OnSegment(paths[i][j], paths[i][j + 1], pt)
  }

  /** `pt` lies on one of the first `k` segments of a path. */
  ghost predicate OnPath(path: seq<Point>, k: nat, pt: Point)
    requires k < |path|
  {
    exists j :: 0 <= j < k && OnSegment(path[j], path[j + 1], pt)
  }

  /** A point on the first `k` segments lies on the first `k - 1` or on segment `k - 1`. */
  lemma OnPathStep(path: seq<Point>, k: nat, pt: Point)
    requires 0 < k < |path|
    ensures OnPath(path, k, pt) <==> OnPath(path, k - 1, pt) || OnSegment(path[k - 1], path[k], pt)
  {
    if OnPath(path, k, pt) {
      var j :| 0 <= j < k && OnSegment(path[j], path[j + 1], pt);
      if j < k - 1 {
        assert OnPath(path, k - 1, pt);
      }
    }
    if OnPath(path, k - 1, pt) {
      var j :| 0 <= j < k - 1 && OnSegment(path[j], path[j + 1], pt);
      assert OnPath(path, k, pt);
    }
    if OnSegment(path[k - 1], path[k], pt) {
      assert OnPath(path, k, pt);
    }
  }

  /** The rock of a path's first `k` segments is exactly the points on them. */
  lemma {:induction false} PathRocksMeaning(path: seq<Point>, k: nat, pt: Point)
    requires k < |path|
    requires forall j :: 0 <= j < k ==> Straight(path[j], path[j + 1])
    ensures pt in PathRocks(path, k) <==> OnPath(path, k, pt)
  {
    if k > 0 {
      PathRocksMeaning(path, k - 1, pt);
      OnPathStep(path, k, pt);
      var segment := PointsInStraightLine(path[k - 1], path[k]).value;
      assert pt in PathRocks(path, k) <==> pt in PathRocks(path, k - 1) || pt in segment;
      StraightLineMeaning(path[k - 1], path[k], pt);
    }
  }

  /** A point on the paths lies on the paths before the last one or on the last one. */
  lemma OnPathsSplit(paths: seq<seq<Point>>, pt: Point)
    requires paths != [] && |paths[|paths| - 1]| > 0
    ensures var n := |paths| - 1;
      OnPaths(paths, pt) <==> OnPaths(paths[..n], pt) || OnPath(paths[n], |paths[n]| - 1, pt)
  {
    var n := |paths| - 1;
    var last := paths[n];
    if OnPaths(paths, pt) {
      var i, j :| 0 <= i < |paths| && 0 <= j < |paths[i]| - 1 && OnSegment(paths[i][j], paths[i][j + 1], pt);
      if i < n {
        assert paths[..n][i] == paths[i];
        assert OnPaths(paths[..n], pt);
      } else {
        assert OnPath(last, |last| - 1, pt);
      }
    }
    if OnPaths(paths[..n], pt) {
      var i, j :| 0 <= i < n && 0 <= j < |paths[..n][i]| - 1 && OnSegment(paths[..n][i][j], paths[..n][i][j + 1], pt);
      assert paths[..n][i] == paths[i];
      assert OnPaths(paths, pt);
    }
    if OnPath(last, |last| - 1, pt) {
      var j :| 0 <= j < |last| - 1 && OnSegment(last[j], last[j + 1], pt);
      assert OnPaths(paths, pt);
    }
  }

  /** The rock is exactly the union of the segments of all paths. */
  lemma {:induction false} RocksMeaning(paths: seq<seq<Point>>, pt: Point)
    requires forall i :: 0 <= i < |paths| ==> ValidPath(paths[i])
    ensures pt in Rocks(paths) <==> OnPaths(paths, pt)
  {
    if paths != [] {
      var n := |paths| - 1;
      var last := paths[n];
      assert ValidPath(last);
      RocksMeaning(paths[..n], pt);
      PathRocksMeaning(last, |last| - 1, pt);
      OnPathsSplit(paths, pt);
    }
  }

  /** `from_lines` panics exactly on an empty path or a diagonal segment, and otherwise its rock is the union of the segments. */
  lemma RockPointsMeaning(paths: seq<seq<Point>>)
    ensures RockPoints(paths).None? <==>
      exists i :: 0 <= i < |paths| && (|paths[i]| == 0 ||
        exists j :: 0 <= j < |paths[i]| - 1 && !Straight(paths[i][j], paths[i][j + 1]))
    ensures RockPoints(paths).Some? ==> forall pt :: pt in RockPoints(paths).value <==> OnPaths(paths, pt)
  {
    if RockPoints(paths).Some? {
      forall pt
        ensures pt in RockPoints(paths).value <==> OnPaths(paths, pt)
      {
        RocksMeaning(paths, pt);
      }
    }
  }

  // ---- Falling sand ----

  /** A non-empty finite set of naturals has a largest element. */
  lemma {:induction false} SetHasMax(ys: set<nat>)
    requires ys != {}
    ensures exists m :: m in ys && forall y :: y in ys ==> y <= m
    decreases |ys|
  {
    var y :| y in ys;
    var rest := ys - {y};
    if rest != {} {
      SetHasMax(rest);
      var m :| m in rest && forall z :: z in rest ==> z <= m;
      var top := if y > m then y else m;
      forall z | z in ys
        ensures z <= top
      {
        if z != y {
          assert z in rest;
        }
      }
    } else {
      assert ys == {y};
    }
  }

  /** `max_rock_y`: the lowest rock's row, or `None` where the source unwraps an empty maximum. */
  function MaxRockY(rocks: set<Point>): (r: Option<nat>)
    ensures r.None? <==> rocks == {}
    ensures r.Some? ==> (exists p :: p in rocks && p.1 == r.value) && forall p :: p in rocks ==> p.1 <= r.value
  {
    if rocks == {} then None
    else
      var ys := set p | p in rocks :: p.1;
      var p0 :| p0 in rocks;
      assert p0.1 in ys;
      SetHasMax(ys);
      var m :| m in ys && forall y :: y in ys ==> y <= m;
      assert forall p :: p in rocks ==> p.1 in ys;
      Some(m)
  }

  /** The outcome of `get_next_point`: a move, or one of the source's `NextPointError`s, or a panic. */
  datatype Next = Moved(to: Point) | Blocked | SourceBlocked | FallenIntoAbyss | Panic

  /** `is_occupied`: rock or sand is at `p`. */
  predicate Occupied(rocks: set<Point>, sand: set<Point>, p: Point)
  {
    p in rocks || p in sand
  }

  /**
   * `get_next_point`: the floor below the lowest rock blocks (without abyss),
   * the abyss swallows a grain below the lowest rock (with abyss), and otherwise
   * the grain moves to the first free cell of straight down, down-left and
   * down-right, or is blocked, reported as `SourceBlocked` at the source. The
   * source panics on an empty rock set and on `x - 1` at column 0.
   */
  function GetNextPoint(rocks: set<Point>, sand: set<Point>, p: Point, withAbyss: bool): (r: Next)
    ensures r.Panic? ==> rocks == {} || (p.0 == 0 && Occupied(rocks, sand, (p.0, p.1 + 1)))
    ensures r.Moved? ==>
      && rocks != {}
      && r.to.1 == p.1 + 1
      && !Occupied(rocks, sand, r.to)
      && p.1 != MaxRockY(rocks).value + 1
      && (withAbyss ==> p.1 <= MaxRockY(rocks).value)
  {
    match MaxRockY(rocks)
    case None => Panic
    case Some(maxY) =>
      if !withAbyss && p.1 == maxY + 1 then Blocked
      else if withAbyss && p.1 > maxY then FallenIntoAbyss
      else if !Occupied(rocks, sand, (p.0, p.1 + 1)) then Moved((p.0, p.1 + 1))
      else if p.0 == 0 then Panic
      else if !Occupied(rocks, sand, (p.0 - 1, p.1 + 1)) then Moved((p.0 - 1, p.1 + 1))
      else if !Occupied(rocks, sand, (p.0 + 1, p.1 + 1)) then Moved((p.0 + 1, p.1 + 1))
      else if p == Source then SourceBlocked
      else Blocked
  }

  /** The three cells under `p` are all taken (and the one down-left exists). */
  predicate Resting(rocks: set<Point>, sand: set<Point>, p: Point)
  {
    p.0 >= 1 && Occupied(rocks, sand, (p.0, p.1 + 1)) &&
    Occupied(rocks, sand, (p.0 - 1, p.1 + 1)) && Occupied(rocks, sand, (p.0 + 1, p.1 + 1))
  }

  /**
   * What a step does: without abyss the row below the lowest rock is a floor;
   * with abyss a grain below the lowest rock is lost; otherwise the grain moves
   * down if it can, else down-left, else down-right, and it is blocked (at the
   * source: the source is blocked) only when all three are taken.
   */
  lemma NextPointMeaning(rocks: set<Point>, sand: set<Point>, p: Point, withAbyss: bool)
    requires rocks != {}
    ensures var maxY := MaxRockY(rocks).value;
      var r := GetNextPoint(rocks, sand, p, withAbyss);
      var down, left, right := (p.0, p.1 + 1), (p.0 - 1, p.1 + 1), (p.0 + 1, p.1 + 1);
      var inPlay := !(withAbyss && p.1 > maxY) && !(!withAbyss && p.1 == maxY + 1);
      var onlyRight := inPlay && p.0 >= 1 && Occupied(rocks, sand, down) && Occupied(rocks, sand, left)
        && !Occupied(rocks, sand, right);
      (!withAbyss && p.1 == maxY + 1 ==> r == Blocked) &&
      (withAbyss && p.1 > maxY ==> r == FallenIntoAbyss) &&
      (inPlay && !Occupied(rocks, sand, down) ==> r == Moved(down)) &&
      (inPlay && p.0 >= 1 && Occupied(rocks, sand, down) && !Occupied(rocks, sand, left) ==> r == Moved(left)) &&
      (onlyRight ==> r == Moved(right)) &&
      (inPlay && p.0 == 0 && Occupied(rocks, sand, down) ==> r == Panic) &&
      (inPlay && Resting(rocks, sand, p) ==> r == (if p == Source then SourceBlocked else Blocked))
  {
  }

  /** How a falling grain ends: at rest, stuck at the blocked source, lost in the abyss, or in a panic. */
  datatype Landing = Rest(at: Point) | Stuck | Lost | Panicked

  /** The rows a grain at `p` can still fall before the floor row (or the abyss) stops it. */
  function Room(rocks: set<Point>, p: Point): nat
    requires rocks != {} ==> p.1 <= MaxRockY(rocks).value + 1
  {
    match MaxRockY(rocks)
    case None => 0
    case Some(maxY) => maxY + 1 - p.1
  }

  /** The grain at `p` follows `get_next_point` until it stops moving. */
  function Fall(rocks: set<Point>, sand: set<Point>, p: Point, withAbyss: bool): Landing
    requires rocks != {} ==> p.1 <= MaxRockY(rocks).value + 1
    decreases Room(rocks, p)
  {
    match GetNextPoint(rocks, sand, p, withAbyss)
    case Moved(q) => Fall(rocks, sand, q, withAbyss)
    case Blocked => Rest(p)
    case SourceBlocked => Stuck
    case FallenIntoAbyss => Lost
    case Panic => Panicked
  }

  /**
   * One call of `drop_sand_with_abyss` on the map's rock and sand: the value it
   * returns and the sand afterwards, or `None` where it panics. A grain at rest
   * is added and returned; a blocked source adds a grain at the source and
   * returns `None`; a grain lost in the abyss adds nothing.
   */
  function Drop(rocks: set<Point>, sand: set<Point>, withAbyss: bool): Option<(Option<Point>, set<Point>)>
  {
    match Fall(rocks, sand, Source, withAbyss)
    case Rest(p) => Some((Some(p), sand + {p}))
    case Stuck => Some((None, sand + {Source}))
    case Lost => Some((None, sand))
    case Panicked => None
  }

  /** The grain at `g` is held up: by the floor row (without abyss) or by the three cells under it. */
  predicate Supported(rocks: set<Point>, sand: set<Point>, g: Point, withAbyss: bool)
  {
    rocks != {} && ((!withAbyss && g.1 == MaxRockY(rocks).value + 1) || Resting(rocks, sand, g))
  }

  /** Where a fall ends: a grain rests only where it is held up, on a free cell or where it started, within the floor or above the abyss; the source is stuck only at the source; the abyss is reached only with abyss. */
  lemma {:induction false} FallMeaning(rocks: set<Point>, sand: set<Point>, p: Point, withAbyss: bool)
    requires rocks != {} ==> p.1 <= MaxRockY(rocks).value + 1
    ensures var r := Fall(rocks, sand, p, withAbyss);
      (r.Rest? ==>
        && Supported(rocks, sand, r.at, withAbyss)
        && (r.at == p || !Occupied(rocks, sand, r.at))
        && p.1 <= r.at.1
        && r.at.1 <= MaxRockY(rocks).value + (if withAbyss then 0 else 1)) &&
      (r.Stuck? ==> p == Source && Resting(rocks, sand, p)) &&
      (r.Lost? ==> withAbyss)
    decreases Room(rocks, p)
  {
    var next := GetNextPoint(rocks, sand, p, withAbyss);
    if rocks != {} {
      NextPointMeaning(rocks, sand, p, withAbyss);
    }
    match next
    case Moved(q) =>
      FallMeaning(rocks, sand, q, withAbyss);
    case _ =>
  }

  /** Every grain of sand is off the rock and held up. */
  predicate Settled(rocks: set<Point>, sand: set<Point>, withAbyss: bool)
  {
    forall g :: g in sand ==> g !in rocks && Supported(rocks, sand, g, withAbyss)
  }

  /** More sand can only hold a grain up better. */
  lemma SupportedGrows(rocks: set<Point>, sand: set<Point>, more: set<Point>, g: Point, withAbyss: bool)
    requires Supported(rocks, sand, g, withAbyss)
    ensures Supported(rocks, sand + more, g, withAbyss)
  {
  }

  /**
   * A drop adds at most one grain, and a grain it returns is new; with abyss a
   * lost grain leaves the sand as it was, and without abyss no grain is lost:
   * `None` comes back only when the source is blocked, and then a grain sits at
   * the source.
   */
  lemma DropMeaning(rocks: set<Point>, sand: set<Point>, withAbyss: bool)
    requires Settled(rocks, sand, withAbyss)
    ensures var d := Drop(rocks, sand, withAbyss);
      d.Some? ==>
        && sand <= d.value.1
        && (d.value.0.Some? ==> d.value.0.value !in sand && d.value.1 == sand + {d.value.0.value})
        && (d.value.0.None? ==> d.value.1 == sand || d.value.1 == sand + {Source})
        && (!withAbyss && d.value.0.None? ==> Source in d.value.1)
  {
    FallMeaning(rocks, sand, Source, withAbyss);
    match Fall(rocks, sand, Source, withAbyss)
    case Rest(p) =>
      if p == Source {
        NextPointMeaning(rocks, sand, Source, withAbyss);
      }
    case _ =>
  }

  /**
   * Dropping a grain keeps the sand settled: a grain comes to rest only off the
   * rock and held up, and grains already there stay held up.
   */
  lemma DropKeepsSettled(rocks: set<Point>, sand: set<Point>, withAbyss: bool)
    requires Source !in rocks
    requires Settled(rocks, sand, withAbyss)
    requires Drop(rocks, sand, withAbyss).Some?
    ensures Settled(rocks, Drop(rocks, sand, withAbyss).value.1, withAbyss)
  {
    var after := Drop(rocks, sand, withAbyss).value.1;
    FallMeaning(rocks, sand, Source, withAbyss);
    match Fall(rocks, sand, Source, withAbyss)
    case Rest(p) =>
      if p == Source {
        NextPointMeaning(rocks, sand, Source, withAbyss);
      }
      forall g | g in after
        ensures g !in rocks && Supported(rocks, after, g, withAbyss)
      {
        SupportedGrows(rocks, sand, {p}, g, withAbyss);
      }
    case Stuck =>
      forall g | g in after
        ensures g !in rocks && Supported(rocks, after, g, withAbyss)
      {
        SupportedGrows(rocks, sand, {Source}, g, withAbyss);
      }
    case Lost =>
    case Panicked =>
  }

  /** One more segment of a path adds its points to the rock of the earlier ones. */
  lemma PathRocksStep(path: seq<Point>, k: nat, segment: seq<Point>)
    requires k + 1 < |path|
    requires forall j :: 0 <= j < k ==> Straight(path[j], path[j + 1])
    requires PointsInStraightLine(path[k], path[k + 1]) == Some(segment)
    ensures PathRocks(path, k + 1) == PathRocks(path, k) + Elements(segment)
  {
  }

  /** One more path adds its rock to the rock of the earlier ones. */
  lemma RocksStep(paths: seq<seq<Point>>, i: nat)
    requires i < |paths| && paths[i] != []
    ensures Rocks(paths[..i + 1]) == Rocks(paths[..i]) + PathRocks(paths[i], |paths[i]| - 1)
  {
    var prefix := paths[..i + 1];
    assert prefix[..i] == paths[..i];
    assert prefix[i] == paths[i];
  }

  /** The cave: its rock and the sand that has come to rest in it. */
  class RockMap {
    var rockPoints: set<Point>
    var sandPoints: set<Point>

    constructor (rocks: set<Point>)
      ensures rockPoints == rocks && sandPoints == {}
    {
      rockPoints := rocks;
      sandPoints := {};
    }

    /**
     * The inner loop of `from_lines`: the points of every segment of one path
     * added to `rocks`; `None` where the source panics.
     */
    static method AddPath(rocks: set<Point>, path: seq<Point>) returns (r: Option<set<Point>>)
      ensures r.None? <==> !ValidPath(path)
      ensures r.Some? ==> r.value == rocks + PathRocks(path, |path| - 1)
    {
      if |path| == 0 {
        assert !ValidPath(path);
        return None;
      }
      var acc := rocks;
      for k := 0 to |path| - 1
        invariant forall j :: 0 <= j < k ==> Straight(path[j], path[j + 1])
        invariant acc == rocks + PathRocks(path, k)
      {
        match PointsInStraightLine(path[k], path[k + 1])
        case None =>
          assert !ValidPath(path) by {
            assert !Straight(path[k], path[k + 1]);
          }
          return None;
        case Some(segment) =>
          PathRocksStep(path, k, segment);
          acc := acc + Elements(segment);
      }
      assert ValidPath(path);
      return Some(acc);
    }

    /**
     * `RockMap::from_lines`: the points of every segment of every path, with no
     * sand; `None` where the source panics.
     */
    static method FromLines(paths: seq<seq<Point>>) returns (r: Option<RockMap>)
      ensures r.None? <==> RockPoints(paths).None?
      ensures r.Some? ==> fresh(r.value) && r.value.rockPoints == RockPoints(paths).value && r.value.sandPoints == {}
    {
      var rocks: set<Point> := {};
      for i := 0 to |paths|
        invariant forall i' :: 0 <= i' < i ==> ValidPath(paths[i'])
        invariant rocks == Rocks(paths[..i])
      {
        var added := AddPath(rocks, paths[i]);
        match added
        case None =>
          assert RockPoints(paths).None? by {
            assert !ValidPath(paths[i]);
          }
          return None;
        case Some(more) =>
          RocksStep(paths, i);
          rocks := more;
      }
      assert paths[..|paths|] == paths;
      assert RockPoints(paths) == Some(rocks);
      var map_ := new RockMap(rocks);
      return Some(map_);
    }

    /**
     * `drop_sand_with_abyss`: let one grain fall from the source until it stops,
     * record it where the source does, and return what the source returns;
     * `None` where the source panics.
     */
    method DropSandWithAbyss(withAbyss: bool) returns (r: Option<Option<Point>>)
      modifies this
      ensures rockPoints == old(rockPoints)
      ensures var d := Drop(old(rockPoints), old(sandPoints), withAbyss);
        && (d.None? ==> r.None? && sandPoints == old(sandPoints))
        && (d.Some? ==> r == Some(d.value.0) && sandPoints == d.value.1)
    {
      var sandPoint := Source;
      while true
        invariant rockPoints == old(rockPoints) && sandPoints == old(sandPoints)
        invariant rockPoints != {} ==> sandPoint.1 <= MaxRockY(rockPoints).value + 1
        invariant Fall(rockPoints, sandPoints, sandPoint, withAbyss) == Fall(rockPoints, sandPoints, Source, withAbyss)
        decreases Room(rockPoints, sandPoint)
      {
        match GetNextPoint(rockPoints, sandPoints, sandPoint, withAbyss)
        case Moved(p) =>
          sandPoint := p;
        case Blocked =>
          sandPoints := sandPoints + {sandPoint};
          return Some(Some(sandPoint));
        case SourceBlocked =>
          sandPoints := sandPoints + {Source};
          return Some(None);
        case FallenIntoAbyss =>
          return Some(None);
        case Panic =>
          return None;
      }
    }
  }

  /** The sample's two rock paths. */
  function SamplePaths(): seq<seq<Point>>
  {
    [[(498, 4), (498, 6), (496, 6)], [(503, 4), (502, 4), (502, 9), (494, 9)]]
  }

  /** The points of the sample's five segments, each in increasing order. */
  lemma SampleSegments()
    ensures PointsInStraightLine((498, 4), (498, 6)) ==
      Some([(498, 4), (498, 5), (498, 6)])
    ensures PointsInStraightLine((498, 6), (496, 6)) ==
      Some([(496, 6), (497, 6), (498, 6)])
    ensures PointsInStraightLine((503, 4), (502, 4)) ==
      Some([(502, 4), (503, 4)])
    ensures PointsInStraightLine((502, 4), (502, 9)) ==
      Some([(502, 4), (502, 5), (502, 6), (502, 7), (502, 8), (502, 9)])
    ensures PointsInStraightLine((502, 9), (494, 9)) ==
      Some([(494, 9), (495, 9), (496, 9), (497, 9), (498, 9), (499, 9), (500, 9), (501, 9), (502, 9)])
  {
    assert PointsInStraightLine((498, 4), (498, 6)).value == [(498, 4), (498, 5), (498, 6)] by {
      ColumnMeaning(498, 4, 6);
    }
    assert PointsInStraightLine((498, 6), (496, 6)).value == [(496, 6), (497, 6), (498, 6)] by {
      RowMeaning(6, 496, 498);
    }
    assert PointsInStraightLine((503, 4), (502, 4)).value == [(502, 4), (503, 4)] by {
      RowMeaning(4, 502, 503);
    }
    assert PointsInStraightLine((502, 4), (502, 9)).value == [(502, 4), (502, 5), (502, 6), (502, 7), (502, 8), (502, 9)] by {
      ColumnMeaning(502, 4, 9);
    }
    assert PointsInStraightLine((502, 9), (494, 9)).value == [(494, 9), (495, 9), (496, 9), (497, 9), (498, 9), (499, 9), (500, 9), (501, 9), (502, 9)] by {
      RowMeaning(9, 494, 502);
    }
  }

  /** The first sample path's rock: its two segments. */
  lemma SampleFirstPath()
    ensures ValidPath(SamplePaths()[0])
    ensures PathRocks(SamplePaths()[0], 2) == {(498, 4), (498, 5), (498, 6), (497, 6), (496, 6)}
  {
    SampleSegments();
    var p0 := SamplePaths()[0];
    assert PathRocks(p0, 1) == {(498, 4), (498, 5), (498, 6)};
  }

  /** The second sample path's rock: its three segments. */
  lemma SampleSecondPath()
    ensures ValidPath(SamplePaths()[1])
    ensures PathRocks(SamplePaths()[1], 3) == {
      (503, 4), (502, 4), (502, 5), (502, 6), (502, 7), (502, 8), (502, 9),
      (501, 9), (500, 9), (499, 9), (498, 9), (497, 9), (496, 9), (495, 9), (494, 9)}
  {
    SampleSegments();
    var p1 := SamplePaths()[1];
    assert PathRocks(p1, 1) == {(502, 4), (503, 4)};
    assert PathRocks(p1, 2) == {(503, 4), (502, 4), (502, 5), (502, 6), (502, 7), (502, 8), (502, 9)};
  }

  /** The rock of two valid paths is the rock of each. */
  lemma TwoPaths(paths: seq<seq<Point>>)
    requires |paths| == 2 && ValidPath(paths[0]) && ValidPath(paths[1])
    ensures RockPoints(paths) == Some(PathRocks(paths[0], |paths[0]| - 1) + PathRocks(paths[1], |paths[1]| - 1))
  {
    RocksStep(paths, 0);
    RocksStep(paths, 1);
    assert paths[..0] == [];
    assert Rocks(paths[..1]) == PathRocks(paths[0], |paths[0]| - 1);
    assert paths[..2] == paths;
    assert forall i :: 0 <= i < |paths| ==> ValidPath(paths[i]);
  }

  /** The sample's rock is the five points of its first path and the fifteen of its second. */
  lemma SampleRocks()
    ensures RockPoints(SamplePaths()) == Some({(498, 4), (498, 5), (498, 6), (497, 6), (496, 6)} + {
      (503, 4), (502, 4), (502, 5), (502, 6), (502, 7), (502, 8), (502, 9),
      (501, 9), (500, 9), (499, 9), (498, 9), (497, 9), (496, 9), (495, 9), (494, 9)})
  {
    SampleFirstPath();
    SampleSecondPath();
    TwoPaths(SamplePaths());
  }
}
