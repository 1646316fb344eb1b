// Hydrothermal vents (2021, day 5): the points covered by a line of vents.
// Horizontal and vertical lines are expanded by `get_points_on_straight_line`;
// `get_points_on_straight_or_diagonal_lines` falls back to walking a
// diagonal one step at a time in `u32` arithmetic.

module HydrothermalVenture {
  import opened Wrappers

  const U32_MAX: int := 0xFFFF_FFFF

  /** A `u32` coordinate. */
  type U32 = x: int | 0 <= x <= U32_MAX

  type Point = (U32, U32)

  function Min(a: int, b: int): int { if a <= b then a else b }
  function Max(a: int, b: int): int { if a <= b then b else a }
  function Dist(a: int, b: int): nat { if a <= b then b - a else a - b }

  // Straight lines

  /** The points `(x, lo)`, `(x, lo + 1)`, ..., `(x, hi)`. */
  function Column(x: U32, lo: U32, hi: U32): (r: seq<Point>)
    requires lo <= hi
    ensures |r| == hi - lo + 1
    ensures forall k :: 0 <= k < |r| ==> r[k] == (x, lo + k)
  {
    seq(hi - lo + 1, k requires 0 <= k < hi - lo + 1 => (x, lo + k))
  }

  /** The points `(lo, y)`, `(lo + 1, y)`, ..., `(hi, y)`. */
  function Row(y: U32, lo: U32, hi: U32): (r: seq<Point>)
    requires lo <= hi
    ensures |r| == hi - lo + 1
    ensures forall k :: 0 <= k < |r| ==> r[k] == (lo + k, y)
  {
    seq(hi - lo + 1, k requires 0 <= k < hi - lo + 1 => (lo + k, y))
  }

  /**
   * `get_points_on_straight_line`: a vertical line lists its points from the
   * lower `y` up, a horizontal line from the lower `x` up, and any other line
   * is `None`.
   */
  function GetPointsOnStraightLine(p: Point, q: Point): Option<seq<Point>>
  {
    var ((x1, y1), (x2, y2)) := (p, q);
    if x1 == x2 then
      Some(if y2 >= y1 then Column(x1, y1, y2) else Column(x1, y2, y1))
    else if y1 == y2 then
      Some(if x2 >= x1 then Row(y1, x1, x2) else Row(y1, x2, x1))
    else
      None
  }

  /** `pt` lies in the box spanned by `p` and `q`, edges included. */
  predicate InBox(p: Point, q: Point, pt: Point)
  {
    Min(p.0, q.0) <= pt.0 <= Max(p.0, q.0) && Min(p.1, q.1) <= pt.1 <= Max(p.1, q.1)
  }

  /** `a` comes before `b` in the order of the tuples. */
  predicate Before(a: Point, b: Point)
  {
    a.0 < b.0 || (a.0 == b.0 && a.1 < b.1)
  }

  /** A line is expanded exactly when it is vertical or horizontal. */
  lemma StraightLineDefined(p: Point, q: Point)
    ensures GetPointsOnStraightLine(p, q).Some? <==> p.0 == q.0 || p.1 == q.1
  {
  }

  /**
   * A straight line expands to every integer point between its ends, ends
   * included, each once and in ascending order: one more point than the
   * distance between the ends.
   */
  lemma StraightLineMeaning(p: Point, q: Point)
    requires p.0 == q.0 || p.1 == q.1
    ensures var r := GetPointsOnStraightLine(p, q).value;
      |r| == Dist(p.0, q.0) + Dist(p.1, q.1) + 1 &&
      (forall pt :: pt in r <==> InBox(p, q, pt)) &&
      (forall k, l :: 0 <= k < l < |r| ==> Before(r[k], r[l]))
  {
    var r := GetPointsOnStraightLine(p, q).value;
    forall pt: Point | InBox(p, q, pt)
      ensures pt in r
    {
      if p.0 == q.0 {
        assert r[pt.1 - Min(p.1, q.1)] == pt;
      } else {
        assert r[pt.0 - Min(p.0, q.0)] == pt;
      }
    }
  }

  /** Swapping the ends of a line does not change its points. */
  lemma StraightLineSymmetric(p: Point, q: Point)
    ensures GetPointsOnStraightLine(p, q) == GetPointsOnStraightLine(q, p)
  {
  }

  // Diagonal lines

  /** The coordinate `i` steps from `a` toward `b` (away from `a` in the same direction past `b`). */
  function Toward(a: U32, b: U32, i: nat): int
  {
    if a <= b then a + i else a - i
  }

  /** The number of steps the walk takes: it stops once either coordinate reaches its end. */
  function Steps(p: Point, q: Point): nat
  {
    Min(Dist(p.0, q.0), Dist(p.1, q.1))
  }

  /** The point `i` diagonal steps from `p` toward `q`. */
  function WalkPoint(p: Point, q: Point, i: nat): (pt: Point)
    requires i <= Steps(p, q)
    ensures InBox(p, q, pt)
  {
    (Toward(p.0, q.0, i), Toward(p.1, q.1, i))
  }

  /** The first `k` points of the diagonal walk from `p` toward `q`. */
  function Walk(p: Point, q: Point, k: nat): (r: seq<Point>)
    requires k <= Steps(p, q) + 1
    ensures |r| == k
    ensures forall i :: 0 <= i < k ==> r[i] == WalkPoint(p, q, i)
  {
    seq(k, i requires 0 <= i < k => WalkPoint(p, q, i))
  }

  /** The whole walk: from `p` until a coordinate of `q` is reached. */
  function FullWalk(p: Point, q: Point): seq<Point>
  {
    Walk(p, q, Steps(p, q) + 1)
  }

  /**
   * The step the source takes after pushing the last point leaves the `u32`
   * range: the walk ends on coordinate 0 moving down, or on `u32::MAX`
   * moving up.
   */
  predicate LastStepOverflows(p: Point, q: Point)
  {
    var n := Steps(p, q) + 1;
    !(0 <= Toward(p.0, q.0, n) <= U32_MAX) || !(0 <= Toward(p.1, q.1, n) <= U32_MAX)
  }

  /** The diagonal walk as the source writes it: `None` is the panic on `u32` overflow. */
  function DiagonalAsWritten(p: Point, q: Point): Option<seq<Point>>
  {
    if LastStepOverflows(p, q) then None else Some(FullWalk(p, q))
  }

  /** The state of one walking loop after `i` points: `v` holds them and `(x, y)` is the next. */
  ghost predicate Walked(p: Point, q: Point, i: nat, x: int, y: int, v: seq<Point>)
  {
    i <= Steps(p, q) + 1 && x == Toward(p.0, q.0, i) && y == Toward(p.1, q.1, i) && v == Walk(p, q, i)
  }

  /** Pushing `(x, y)` and stepping once more keeps `Walked`. */
  lemma WalkedStep(p: Point, q: Point, i: nat, x: int, y: int, v: seq<Point>)
    requires Walked(p, q, i, x, y, v) && i <= Steps(p, q)
    ensures Walked(p, q, i + 1, Toward(p.0, q.0, i + 1), Toward(p.1, q.1, i + 1), v + [WalkPoint(p, q, i)])
  {
    assert Walk(p, q, i + 1) == Walk(p, q, i) + [WalkPoint(p, q, i)];
  }

  /**
   * The loops of `get_points_on_straight_or_diagonal_lines` as written: one
   * per direction, each pushing the current point and then stepping both
   * coordinates, so the step after the last point can leave the `u32` range.
   */
  method DiagonalLoopsAsWritten(p: Point, q: Point) returns (r: Option<seq<Point>>)
    requires p.0 != q.0 && p.1 != q.1
    ensures r == DiagonalAsWritten(p, q)
  {
    var ((x1, y1), (x2, y2)) := (p, q);
    var v: seq<Point> := [];
    var x: U32 := x1;
    var y: U32 := y1;
    ghost var i := 0;
    if x1 < x2 && y1 < y2 {
      while x <= x2 && y <= y2
        invariant Walked(p, q, i, x, y, v)
        decreases x2 - x
      {
        WalkedStep(p, q, i, x, y, v);
        v := v + [(x, y)];
        if x == U32_MAX { return None; }
        x := x + 1;
        if y == U32_MAX { return None; }
        y := y + 1;
        i := i + 1;
      }
    } else if x1 < x2 && y1 > y2 {
      while x <= x2 && y >= y2
        invariant Walked(p, q, i, x, y, v)
        decreases x2 - x
      {
        WalkedStep(p, q, i, x, y, v);
        v := v + [(x, y)];
        if x == U32_MAX { return None; }
        x := x + 1;
        if y == 0 { return None; }
        y := y - 1;
        i := i + 1;
      }
    } else if x1 > x2 && y1 < y2 {
      while x >= x2 && y <= y2
        invariant Walked(p, q, i, x, y, v)
        decreases x - x2
      {
        WalkedStep(p, q, i, x, y, v);
        v := v + [(x, y)];
        if x == 0 { return None; }
        x := x - 1;
        if y == U32_MAX { return None; }
        y := y + 1;
        i := i + 1;
      }
    } else {
      while x >= x2 && y >= y2
        invariant Walked(p, q, i, x, y, v)
        decreases x - x2
      {
        WalkedStep(p, q, i, x, y, v);
        v := v + [(x, y)];
        if x == 0 { return None; }
        x := x - 1;
        if y == 0 { return None; }
        y := y - 1;
        i := i + 1;
      }
    }
    r := Some(v);
  }

  /**
   * The same walk stopping after the point where a coordinate reaches its
   * end, so it never steps past it.
   */
  method DiagonalLoop(p: Point, q: Point) returns (v: seq<Point>)
    requires p.0 != q.0 && p.1 != q.1
    ensures v == FullWalk(p, q)
  {
    var x: U32 := p.0;
    var y: U32 := p.1;
    v := [];
    ghost var i := 0;
    while true
      invariant Walked(p, q, i, x, y, v) && i <= Steps(p, q)
      decreases Steps(p, q) - i
    {
      WalkedStep(p, q, i, x, y, v);
      v := v + [(x, y)];
      if x == q.0 || y == q.1 {
        return;
      }
      x := if p.0 < q.0 then x + 1 else x - 1;
      y := if p.1 < q.1 then y + 1 else y - 1;
      i := i + 1;
    }
  }

  /**
   * `get_points_on_straight_or_diagonal_lines` with the walk corrected:
   * a straight line's points, or else the diagonal walk from the first point,
   * which is what the loops as written give wherever they do not overflow.
   */
  method GetPointsOnStraightOrDiagonalLines(p: Point, q: Point) returns (r: seq<Point>)
    ensures r == (if p.0 == q.0 || p.1 == q.1 then GetPointsOnStraightLine(p, q).value else FullWalk(p, q))
    ensures p.0 != q.0 && p.1 != q.1 && !LastStepOverflows(p, q) ==> DiagonalAsWritten(p, q) == Some(r)
  {
    var straight := GetPointsOnStraightLine(p, q);
    if straight.Some? {
      r := straight.value;
    } else {
      r := DiagonalLoop(p, q);
    }
  }

  /**
   * The walk starts at the first point, moves one step in each coordinate
   * toward the second point at a time, stays in the box the two points span
   * and ends where one coordinate meets the second point's.
   */
  lemma FullWalkMeaning(p: Point, q: Point)
    requires p.0 != q.0 && p.1 != q.1
    ensures var r := FullWalk(p, q);
      r[0] == p &&
      (forall i :: 0 <= i < |r| ==> InBox(p, q, r[i])) &&
      (forall i :: 0 < i < |r| ==> Dist(r[i - 1].0, r[i].0) == 1 == Dist(r[i - 1].1, r[i].1)) &&
      (r[|r| - 1].0 == q.0 || r[|r| - 1].1 == q.1)
  {
  }

  /** On a line at 45 degrees the walk ends exactly at the second point and covers the whole line. */
  lemma FullWalkReachesEnd(p: Point, q: Point)
    requires Dist(p.0, q.0) == Dist(p.1, q.1) > 0
    ensures var r := FullWalk(p, q);
      |r| == Dist(p.0, q.0) + 1 && r[|r| - 1] == q &&
      forall pt :: pt in r <==> InBox(p, q, pt) && Dist(pt.0, p.0) == Dist(pt.1, p.1)
  {
    var r := FullWalk(p, q);
    forall pt: Point | InBox(p, q, pt) && Dist(pt.0, p.0) == Dist(pt.1, p.1)
      ensures pt in r
    {
      assert r[Dist(pt.0, p.0)] == pt;
    }
  }

  /** Where the source's walk does not overflow, it is the corrected walk. */
  lemma AsWrittenAgrees(p: Point, q: Point)
    requires !LastStepOverflows(p, q)
    ensures DiagonalAsWritten(p, q) == Some(FullWalk(p, q))
  {
  }

  /**
   * The source's walk overflows exactly when it ends on coordinate 0 moving
   * down or on `u32::MAX` moving up, in a coordinate that reaches its end.
   */
  lemma LastStepOverflowsMeaning(p: Point, q: Point)
    requires p.0 != q.0 && p.1 != q.1
    ensures LastStepOverflows(p, q) <==>
      (Dist(p.0, q.0) == Steps(p, q) && ((q.0 == 0 && p.0 > 0) || (q.0 == U32_MAX && p.0 < U32_MAX))) ||
      (Dist(p.1, q.1) == Steps(p, q) && ((q.1 == 0 && p.1 > 0) || (q.1 == U32_MAX && p.1 < U32_MAX)))
  {
  }

  /** The line `8,0 -> 0,8` of the example input: the source's walk underflows after `(0, 8)`. */
  lemma AsWrittenUnderflows()
    ensures DiagonalAsWritten((8, 0), (0, 8)).None?
  {
    assert Steps((8, 0), (0, 8)) == 8;
  }

  /** The corrected walk on that line lists its nine points, ending at `(0, 8)`. */
  lemma CorrectedWalkReachesEnd()
    ensures FullWalk((8, 0), (0, 8)) ==
      [(8, 0), (7, 1), (6, 2), (5, 3), (4, 4), (3, 5), (2, 6), (1, 7), (0, 8)]
  {
    FullWalkReachesEnd((8, 0), (0, 8));
    assert Steps((8, 0), (0, 8)) == 8;
  }

  // The examples of the tests

  /** The three straight-line examples of the tests. */
  lemma SampleStraightLines()
    ensures GetPointsOnStraightLine((0, 9), (5, 9)) == Some([(0, 9), (1, 9), (2, 9), (3, 9), (4, 9), (5, 9)])
    ensures GetPointsOnStraightLine((7, 0), (7, 4)) == Some([(7, 0), (7, 1), (7, 2), (7, 3), (7, 4)])
    ensures GetPointsOnStraightLine((5, 5), (8, 2)) == None
  {
    var row, column := Row(9, 0, 5), Column(7, 0, 4);
    assert forall k :: 0 <= k < 6 ==> row[k] == [(0, 9), (1, 9), (2, 9), (3, 9), (4, 9), (5, 9)][k];
    assert row == [(0, 9), (1, 9), (2, 9), (3, 9), (4, 9), (5, 9)];
    assert forall k :: 0 <= k < 5 ==> column[k] == [(7, 0), (7, 1), (7, 2), (7, 3), (7, 4)][k];
    assert column == [(7, 0), (7, 1), (7, 2), (7, 3), (7, 4)];
  }

  /** The two diagonal examples of the tests, which the source's walk also gives. */
  lemma SampleDiagonals()
    ensures DiagonalAsWritten((1, 1), (3, 3)) == Some([(1, 1), (2, 2), (3, 3)])
    ensures DiagonalAsWritten((9, 7), (7, 9)) == Some([(9, 7), (8, 8), (7, 9)])
  {
    assert Steps((1, 1), (3, 3)) == 2 && Steps((9, 7), (7, 9)) == 2;
    var up, across := FullWalk((1, 1), (3, 3)), FullWalk((9, 7), (7, 9));
    assert forall k :: 0 <= k < 3 ==> up[k] == [(1, 1), (2, 2), (3, 3)][k];
    assert forall k :: 0 <= k < 3 ==> across[k] == [(9, 7), (8, 8), (7, 9)][k];
    assert up == [(1, 1), (2, 2), (3, 3)] && across == [(9, 7), (8, 8), (7, 9)];
  }
}
