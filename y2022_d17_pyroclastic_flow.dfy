// Falling rocks in a narrow chamber (2022, day 17).
//
// The chamber is seven cells wide. Five rock shapes fall in a fixed cycle; each
// appears with its left edge two cells from the left wall and its bottom three
// rows above the highest rock (or the floor). It is then alternately pushed one
// cell sideways by the next jet of a repeating jet pattern and moved one row
// down, until it would move into the floor or another rock, where it stays.

module PyroclasticFlow {
  import opened Wrappers

  /** `(x, y)` with the origin at the bottom left of the chamber. */
  datatype Point = Point(x: nat, y: nat)

  /** The order of `Ord for Point`: by row first, then from left to right. */
  predicate Below(p: Point, q: Point)
  {
    p.y < q.y || (p.y == q.y && p.x < q.x)
  }

  /** The order is strict and total, as a `BTreeSet` needs. */
  lemma BelowIsTotal(p: Point, q: Point, r: Point)
    ensures !Below(p, p)
    ensures p == q || Below(p, q) || Below(q, p)
    ensures Below(p, q) && Below(q, r) ==> Below(p, r)
  {
  }

  /** A non-empty set of points has a last element in that order. */
  lemma {:induction false} HasLast(s: set<Point>)
    requires s != {}
    ensures exists p :: p in s && forall q :: q in s && q != p ==> Below(q, p)
  {
    var x :| x in s;
    var rest := s - {x};
    if rest == {} {
      assert s == {x};
    } else {
      HasLast(rest);
      var m :| m in rest && forall q :: q in rest && q != m ==> Below(q, m);
      if Below(m, x) {
        forall q | q in s && q != x
          ensures Below(q, x)
        {
          if q != m {
            BelowIsTotal(q, m, x);
          }
        }
      } else {
        forall q | q in s && q != m
          ensures Below(q, m)
        {
        }
      }
    }
  }

  /** `BTreeSet::last`: the greatest cell in the order, `None` for an empty set. */
  function Last(s: set<Point>): (r: Option<Point>)
    ensures r.None? <==> s == {}
    ensures r.Some? ==> r.value in s && forall q :: q in s && q != r.value ==> Below(q, r.value)
  {
    if s == {} then None
    else
      HasLast(s);
      var p :| p in s && forall q :: q in s && q != p ==> Below(q, p);
      Some(p)
  }

  /** `Chamber::max_height`: the row of the last cell in the order, which is the highest occupied row. */
  function MaxHeight(cells: set<Point>): (r: Option<nat>)
    ensures r.None? <==> cells == {}
    ensures r.Some? ==> (exists c :: c in cells && c.y == r.value) && forall c :: c in cells ==> c.y <= r.value
  {
    match Last(cells)
    case None => None
    case Some(p) => Some(p.y)
  }

  datatype Direction = Left | Right

  /** `parse_directions`: `<` and `>` become jets, every other character is skipped. */
  function ParseDirections(s: string): seq<Direction>
  {
    if s == [] then []
    else
      ParseDirections(s[..|s| - 1]) +
        match s[|s| - 1]
        case '<' => [Left]
        case '>' => [Right]
        case _ => []
  }

  /** Parsing works character by character: a split input parses to the two parts' jets. */
  lemma {:induction false} ParseAppend(s: string, t: string)
    ensures ParseDirections(s + t) == ParseDirections(s) + ParseDirections(t)
    decreases |t|
  {
    if t == [] {
      assert s + t == s;
    } else {
      var n := |t| - 1;
      assert (s + t)[..|s + t| - 1] == s + t[..n];
      ParseAppend(s, t[..n]);
    }
  }

  /** A pattern made only of `<` and `>` has one jet per character, in order. */
  lemma {:induction false} ParseJetsOnly(s: string)
    requires forall i :: 0 <= i < |s| ==> s[i] == '<' || s[i] == '>'
    ensures |ParseDirections(s)| == |s|
    ensures forall i :: 0 <= i < |s| ==> ParseDirections(s)[i] == (if s[i] == '<' then Left else Right)
  {
    if s != [] {
      ParseJetsOnly(s[..|s| - 1]);
    }
  }

  datatype RockShape = Horizontal | Plus | LShape | Vertical | Square

  /** `RockShape::next_shape`. */
  function NextShape(s: RockShape): RockShape
  {
    match s
    case Horizontal => Plus
    case Plus => LShape
    case LShape => Vertical
    case Vertical => Square
    case Square => Horizontal
  }

  /** The place of a shape in the falling order. */
  function ShapeIndex(s: RockShape): nat
  {
    match s
    case Horizontal => 0
    case Plus => 1
    case LShape => 2
    case Vertical => 3
    case Square => 4
  }

  /** The shape after `n` more rocks. */
  function Iterate(s: RockShape, n: nat): RockShape
  {
    if n == 0 then s else NextShape(Iterate(s, n - 1))
  }

  /** After `n` rocks the shape has moved `n` places round the cycle of five. */
  lemma {:induction false} ShapesCycle(s: RockShape, n: nat)
    ensures ShapeIndex(Iterate(s, n)) == (ShapeIndex(s) + n) % 5
  {
    if n > 0 {
      ShapesCycle(s, n - 1);
    }
  }

  /** The shapes repeat with period exactly five. */
  lemma ShapesPeriod(s: RockShape, n: nat)
    ensures Iterate(s, n) == s <==> n % 5 == 0
  {
    ShapesCycle(s, n);
  }

  /** `RockShape::points`: the cells of a shape, relative to the bottom left of its bounding box. */
  function Points(s: RockShape): (r: seq<Point>)
    ensures |r| >= 4
  {
    match s
    case Horizontal => [Point(0, 0), Point(1, 0), Point(2, 0), Point(3, 0)]
    case Plus => [Point(1, 0), Point(0, 1), Point(1, 1), Point(2, 1), Point(1, 2)]
    case LShape => [Point(0, 0), Point(1, 0), Point(2, 0), Point(2, 1), Point(2, 2)]
    case Vertical => [Point(0, 0), Point(0, 1), Point(0, 2), Point(0, 3)]
    case Square => [Point(0, 0), Point(1, 0), Point(0, 1), Point(1, 1)]
  }

  /**
   * Each shape has four or five distinct cells inside a four-by-four box, and
   * touches the box's left and bottom edges, so the origin is its bottom left.
   */
  lemma ShapeBox(s: RockShape)
    ensures var r := Points(s);
      && |r| <= 5
      && (forall i, j :: 0 <= i < j < |r| ==> r[i] != r[j])
      && (forall i :: 0 <= i < |r| ==> r[i].x <= 3 && r[i].y <= 3)
      && (exists i :: 0 <= i < |r| && r[i].x == 0)
      && (exists i :: 0 <= i < |r| && r[i].y == 0)
  {
    var r := Points(s);
    match s
    case Horizontal => assert r[0].x == 0 && r[0].y == 0;
    case Plus => assert r[1].x == 0 && r[0].y == 0;
    case LShape => assert r[0].x == 0 && r[0].y == 0;
    case Vertical => assert r[0].x == 0 && r[0].y == 0;
    case Square => assert r[0].x == 0 && r[0].y == 0;
  }

  /** `Point + Vec<Point>`: every cell moved by `p`. */
  function Offset(p: Point, pts: seq<Point>): seq<Point>
  {
    seq(|pts|, i requires 0 <= i < |pts| => Point(p.x + pts[i].x, p.y + pts[i].y))
  }

  /** `Chamber::get_start_point`: two cells from the left wall, four rows above the highest rock or row 3 of an empty chamber. */
  function StartPoint(cells: set<Point>): Point
  {
    Point(2, match MaxHeight(cells) case Some(n) => n + 4 case None => 3)
  }

  /** The cells of a new rock of shape `shape`. */
  function StartRock(cells: set<Point>, shape: RockShape): seq<Point>
  {
    Offset(StartPoint(cells), Points(shape))
  }

  /** Every cell of the rock is inside the chamber's walls. */
  predicate InWalls(rock: seq<Point>)
  {
    forall i :: 0 <= i < |rock| ==> rock[i].x <= 6
  }

  /** Some cell of the rock is already occupied. */
  predicate Hits(cells: set<Point>, rock: seq<Point>)
  {
    exists i :: 0 <= i < |rock| && rock[i] in cells
  }

  /** Some cell of the rock is on the floor row. */
  predicate Grounded(rock: seq<Point>)
  {
    exists i :: 0 <= i < |rock| && rock[i].y == 0
  }

  /** The rock moved one cell sideways, ignoring the walls. */
  function Moved(rock: seq<Point>, d: Direction): seq<Point>
    requires d.Left? ==> forall i :: 0 <= i < |rock| ==> rock[i].x > 0
  {
    seq(|rock|, i requires 0 <= i < |rock| =>
      Point(if d.Left? then rock[i].x - 1 else rock[i].x + 1, rock[i].y))
  }

  /** The walls let the rock move one cell in direction `d`. */
  predicate WallsAllow(rock: seq<Point>, d: Direction)
  {
    match d
    case Left => forall i :: 0 <= i < |rock| ==> rock[i].x > 0
    case Right => forall i :: 0 <= i < |rock| ==> rock[i].x < 6
  }

  /** The jet's `next_points`: the moved rock if the walls allow it, the rock itself if not. */
  function Shifted(rock: seq<Point>, d: Direction): seq<Point>
  {
    if WallsAllow(rock, d) then Moved(rock, d) else rock
  }

  /** One jet push: the shifted rock unless it overlaps occupied cells. */
  function Push(cells: set<Point>, rock: seq<Point>, d: Direction): seq<Point>
  {
    var next := Shifted(rock, d);
    if Hits(cells, next) then rock else next
  }

  /** The rock moved one row down. */
  function Lowered(rock: seq<Point>): seq<Point>
    requires !Grounded(rock)
  {
    seq(|rock|, i requires 0 <= i < |rock| => Point(rock[i].x, rock[i].y - 1))
  }

  /**
   * A push either does nothing or moves the rock one cell in the jet's direction,
   * and it moves it exactly when the walls allow it and the moved rock overlaps
   * nothing; a rock inside the walls and clear of the other rocks stays so.
   */
  lemma PushMeaning(cells: set<Point>, rock: seq<Point>, d: Direction)
    ensures var r := Push(cells, rock, d);
      && |r| == |rock|
      && (forall i :: 0 <= i < |rock| ==> r[i].y == rock[i].y)
      && (r == rock || (WallsAllow(rock, d) && r == Moved(rock, d)))
      && (rock != [] ==> (r != rock <==> WallsAllow(rock, d) && !Hits(cells, Moved(rock, d))))
      && (InWalls(rock) && !Hits(cells, rock) ==> InWalls(r) && !Hits(cells, r))
  {
    var r := Push(cells, rock, d);
    if rock != [] && WallsAllow(rock, d) && r == Moved(rock, d) {
      assert r[0].x != rock[0].x;
    }
  }

  /** A push keeps the rock's size and the row of its first cell. */
  lemma PushKeepsRow(cells: set<Point>, rock: seq<Point>, d: Direction)
    requires rock != []
    ensures |Push(cells, rock, d)| == |rock| && Push(cells, rock, d)[0].y == rock[0].y
  {
  }

  /** The cells, relative to the first one. */
  predicate SameShape(a: seq<Point>, b: seq<Point>)
  {
    |a| == |b| && a != [] &&
    forall i :: 0 <= i < |a| ==> a[i].x + b[0].x == b[i].x + a[0].x && a[i].y + b[0].y == b[i].y + a[0].y
  }

  /**
   * The loop of `drop_rock` on values: push by the next jet, stop on the floor,
   * otherwise move down unless that overlaps, and stop there. Gives the cells
   * where the rock stays and the position of the next jet in the cycle.
   */
  function Fall(cells: set<Point>, jets: seq<Direction>, j: nat, rock: seq<Point>): (seq<Point>, nat)
    requires j < |jets| && rock != []
    decreases rock[0].y
  {
    var pushed := Push(cells, rock, jets[j]);
    PushKeepsRow(cells, rock, jets[j]);
    var next := (j + 1) % |jets|;
    if Grounded(pushed) then (pushed, next)
    else
      var down := Lowered(pushed);
      if Hits(cells, down) then (pushed, next) else Fall(cells, jets, next, down)
  }

  /** Sideways and downward moves keep the rock's shape. */
  lemma MovesKeepShape(cells: set<Point>, rock: seq<Point>, d: Direction)
    requires rock != []
    ensures SameShape(rock, Push(cells, rock, d))
    ensures !Grounded(Push(cells, rock, d)) ==> SameShape(rock, Lowered(Push(cells, rock, d)))
  {
    PushMeaning(cells, rock, d);
  }

  /**
   * Where a rock stays: inside the walls, clear of the other rocks, with its
   * shape, no higher than it started, and resting on the floor or on a rock
   * right below it. The next jet is still inside the pattern.
   */
  lemma {:induction false} FallMeaning(cells: set<Point>, jets: seq<Direction>, j: nat, rock: seq<Point>)
    requires j < |jets| && rock != []
    requires InWalls(rock) && !Hits(cells, rock)
    ensures var (r, next) := Fall(cells, jets, j, rock);
      && next < |jets|
      && SameShape(rock, r)
      && InWalls(r)
      && !Hits(cells, r)
      && r[0].y <= rock[0].y
      && (Grounded(r) || Hits(cells, Lowered(r)))
    decreases rock[0].y
  {
    var pushed := Push(cells, rock, jets[j]);
    PushMeaning(cells, rock, jets[j]);
    MovesKeepShape(cells, rock, jets[j]);
    var next := (j + 1) % |jets|;
    if !Grounded(pushed) {
      var down := Lowered(pushed);
      if !Hits(cells, down) {
        FallMeaning(cells, jets, next, down);
      }
    }
  }

  /** The points of a list, as a set: what `BTreeSet::extend` adds. */
  function Elements(points: seq<Point>): (r: set<Point>)
    ensures forall p :: p in r <==> p in points
  {
    set p | p in points
  }

  /**
   * A new rock starts inside the walls with its left edge at column 2 and its
   * bottom row three empty rows above the highest rock (row 3 in an empty
   * chamber), so it overlaps nothing.
   */
  lemma StartRockMeaning(cells: set<Point>, shape: RockShape)
    ensures var rock := StartRock(cells, shape);
      var bottom := StartPoint(cells).y;
      && |rock| == |Points(shape)|
      && InWalls(rock)
      && (forall i :: 0 <= i < |rock| ==> rock[i].x >= 2 && rock[i].y >= bottom)
      && (exists i :: 0 <= i < |rock| && rock[i].x == 2)
      && (exists i :: 0 <= i < |rock| && rock[i].y == bottom)
      && (forall i, c :: 0 <= i < |rock| && c in cells ==> c.y + 4 <= rock[i].y)
      && !Hits(cells, rock)
      && (cells == {} ==> bottom == 3)
  {
    var rock := StartRock(cells, shape);
    ShapeBox(shape);
    var pts := Points(shape);
    var a :| 0 <= a < |pts| && pts[a].x == 0;
    var b :| 0 <= b < |pts| && pts[b].y == 0;
    assert rock[a].x == 2 && rock[b].y == StartPoint(cells).y;
  }

  /** All occupied cells are inside the chamber's walls. */
  predicate InChamber(cells: set<Point>)
  {
    forall c :: c in cells ==> c.x <= 6
  }

  /** `Chamber::drop_rock` on values: the occupied cells, the next shape and the next jet afterwards. */
  function Dropped(cells: set<Point>, shape: RockShape, jets: seq<Direction>, j: nat): (set<Point>, RockShape, nat)
    requires j < |jets|
  {
    var (rock, next) := Fall(cells, jets, j, StartRock(cells, shape));
    (cells + Elements(rock), NextShape(shape), next)
  }

  /** Shapes compose: the same shape as the same shape. */
  lemma SameShapeTrans(a: seq<Point>, b: seq<Point>, c: seq<Point>)
    requires SameShape(a, b) && SameShape(b, c)
    ensures SameShape(a, c)
  {
  }

  /** A new rock of shape `shape` stays with that shape, inside the walls, clear of the other rocks and resting. */
  lemma Landing(cells: set<Point>, shape: RockShape, jets: seq<Direction>, j: nat)
    requires j < |jets|
    ensures var (rock, next) := Fall(cells, jets, j, StartRock(cells, shape));
      && next < |jets|
      && SameShape(Points(shape), rock)
      && InWalls(rock)
      && !Hits(cells, rock)
      && (Grounded(rock) || Hits(cells, Lowered(rock)))
  {
    var start := StartRock(cells, shape);
    StartRockMeaning(cells, shape);
    FallMeaning(cells, jets, j, start);
    var rock := Fall(cells, jets, j, start).0;
    assert SameShape(Points(shape), start);
    SameShapeTrans(Points(shape), start, rock);
  }

  /**
   * A dropped rock adds its cells, all new and inside the walls, and the shape
   * advances; the highest rock never gets lower.
   */
  lemma DropMeaning(cells: set<Point>, shape: RockShape, jets: seq<Direction>, j: nat)
    requires j < |jets| && InChamber(cells)
    ensures var (after, nextShape, next) := Dropped(cells, shape, jets, j);
      && next < |jets|
      && nextShape == NextShape(shape)
      && cells <= after
      && InChamber(after)
      && MaxHeight(after).Some?
      && (MaxHeight(cells).Some? ==> MaxHeight(cells).value <= MaxHeight(after).value)
      && exists rock ::
        && SameShape(Points(shape), rock)
        && Elements(rock) !! cells
        && after == cells + Elements(rock)
        && (Grounded(rock) || Hits(cells, Lowered(rock)))
  {
    Landing(cells, shape, jets, j);
    var rock := Fall(cells, jets, j, StartRock(cells, shape)).0;
    assert rock[0] in Elements(rock);
    var after := cells + Elements(rock);
    if MaxHeight(cells).Some? {
      var c :| c in cells && c.y == MaxHeight(cells).value;
      assert c in after;
    }
  }

  /** The chamber: the occupied cells, the shape of the next rock and the jet pattern with its position. */
  class Chamber {
    var occupiedCells: set<Point>
    var currentRockShape: RockShape
    var directions: seq<Direction>
    var nextJet: nat

    /** `Chamber::new`: an empty chamber, the flat shape first, the jets from their start. */
    constructor (directions: seq<Direction>)
      ensures occupiedCells == {} && currentRockShape == Horizontal
      ensures this.directions == directions && nextJet == 0
    {
      occupiedCells := {};
      currentRockShape := Horizontal;
      this.directions := directions;
      nextJet := 0;
    }

    /**
     * `Chamber::drop_rock`: let one rock fall from its start point, alternately
     * pushed by the next jet and moved down, until it stays; then add its cells
     * and advance the shape.
     */
    method DropRock()
      requires nextJet < |directions|
      modifies this
      ensures directions == old(directions)
      ensures (occupiedCells, currentRockShape, nextJet) ==
        Dropped(old(occupiedCells), old(currentRockShape), directions, old(nextJet))
    {
      var rockPoints := Offset(StartPoint(occupiedCells), Points(currentRockShape));
      ghost var start, first := rockPoints, nextJet;
      while true
        invariant directions == old(directions) && occupiedCells == old(occupiedCells)
        invariant currentRockShape == old(currentRockShape)
        invariant nextJet < |directions| && rockPoints != []
        invariant Fall(occupiedCells, directions, nextJet, rockPoints) == Fall(occupiedCells, directions, first, start)
        decreases rockPoints[0].y
      {
        ghost var before := rockPoints;
        var d := directions[nextJet];
        nextJet := (nextJet + 1) % |directions|;
        var nextPoints := Shifted(rockPoints, d);
        if !Hits(occupiedCells, nextPoints) {
          rockPoints := nextPoints;
        }
        PushMeaning(occupiedCells, before, d);
        if Grounded(rockPoints) {
          break;
        }
        var down := Lowered(rockPoints);
        if Hits(occupiedCells, down) {
          break;
        }
        rockPoints := down;
      }
      occupiedCells := occupiedCells + Elements(rockPoints);
      currentRockShape := NextShape(currentRockShape);
    }
  }

  /** A rock that is pushed and then moves down goes on falling from one row lower with the next jet. */
  lemma FallGoesOn(cells: set<Point>, jets: seq<Direction>, j: nat, rock: seq<Point>, pushed: seq<Point>, down: seq<Point>)
    requires j + 1 < |jets| && rock != []
    requires Push(cells, rock, jets[j]) == pushed && !Grounded(pushed)
    requires Lowered(pushed) == down && !Hits(cells, down)
    ensures Fall(cells, jets, j, rock) == Fall(cells, jets, j + 1, down)
  {
    assert (j + 1) % |jets| == j + 1;
  }

  /** The jets `>>><` start the sample pattern. */
  predicate SampleStart(jets: seq<Direction>)
  {
    |jets| > 4 && jets[0] == Right && jets[1] == Right && jets[2] == Right && jets[3] == Left
  }

  /** The first push of the sample moves the new flat rock one column right. */
  lemma SampleFirstPush()
    ensures Push({}, [Point(2, 3), Point(3, 3), Point(4, 3), Point(5, 3)], Right) ==
      [Point(3, 3), Point(4, 3), Point(5, 3), Point(6, 3)]
  {
    var at3 := [Point(2, 3), Point(3, 3), Point(4, 3), Point(5, 3)];
    assert WallsAllow(at3, Right);
    assert Moved(at3, Right) == [Point(3, 3), Point(4, 3), Point(5, 3), Point(6, 3)];
  }

  /** First jet of the sample: the flat rock moves right, then down to row 2. */
  lemma SampleStep0(jets: seq<Direction>)
    requires SampleStart(jets)
    ensures Fall({}, jets, 0, [Point(2, 3), Point(3, 3), Point(4, 3), Point(5, 3)]) ==
      Fall({}, jets, 1, [Point(3, 2), Point(4, 2), Point(5, 2), Point(6, 2)])
  {
    var at3 := [Point(2, 3), Point(3, 3), Point(4, 3), Point(5, 3)];
    var right3 := [Point(3, 3), Point(4, 3), Point(5, 3), Point(6, 3)];
    SampleFirstPush();
    var right2 := [Point(3, 2), Point(4, 2), Point(5, 2), Point(6, 2)];
    assert !Grounded(right3);
    assert Lowered(right3) == right2;
    FallGoesOn({}, jets, 0, at3, right3, right2);
  }

  /** Second jet: the wall stops the push, and the rock moves down to row 1. */
  lemma SampleStep1(jets: seq<Direction>)
    requires SampleStart(jets)
    ensures Fall({}, jets, 1, [Point(3, 2), Point(4, 2), Point(5, 2), Point(6, 2)]) ==
      Fall({}, jets, 2, [Point(3, 1), Point(4, 1), Point(5, 1), Point(6, 1)])
  {
    var right2 := [Point(3, 2), Point(4, 2), Point(5, 2), Point(6, 2)];
    var right1 := [Point(3, 1), Point(4, 1), Point(5, 1), Point(6, 1)];
    assert !WallsAllow(right2, Right) by { assert right2[3].x == 6; }
    assert Lowered(right2) == right1;
    FallGoesOn({}, jets, 1, right2, right2, right1);
  }

  /** Third jet: the wall stops the push again, and the rock moves down to the floor. */
  lemma SampleStep2(jets: seq<Direction>)
    requires SampleStart(jets)
    ensures Fall({}, jets, 2, [Point(3, 1), Point(4, 1), Point(5, 1), Point(6, 1)]) ==
      Fall({}, jets, 3, [Point(3, 0), Point(4, 0), Point(5, 0), Point(6, 0)])
  {
    var right1 := [Point(3, 1), Point(4, 1), Point(5, 1), Point(6, 1)];
    var right0 := [Point(3, 0), Point(4, 0), Point(5, 0), Point(6, 0)];
    assert !WallsAllow(right1, Right) by { assert right1[3].x == 6; }
    assert Lowered(right1) == right0;
    FallGoesOn({}, jets, 2, right1, right1, right0);
  }

  /** Fourth jet: the rock moves left on the floor and stays there. */
  lemma SampleStep3(jets: seq<Direction>)
    requires SampleStart(jets)
    ensures Fall({}, jets, 3, [Point(3, 0), Point(4, 0), Point(5, 0), Point(6, 0)]) ==
      ([Point(2, 0), Point(3, 0), Point(4, 0), Point(5, 0)], 4)
  {
    var right0 := [Point(3, 0), Point(4, 0), Point(5, 0), Point(6, 0)];
    assert Push({}, right0, Left) == [Point(2, 0), Point(3, 0), Point(4, 0), Point(5, 0)];
    assert (3 + 1) % |jets| == 4;
  }

  /** The first rock's fall in the sample: right three times on the way to the floor (the last two blocked by the wall), then left. */
  lemma SampleFall(jets: seq<Direction>)
    requires SampleStart(jets)
    ensures Fall({}, jets, 0, [Point(2, 3), Point(3, 3), Point(4, 3), Point(5, 3)]) ==
      ([Point(2, 0), Point(3, 0), Point(4, 0), Point(5, 0)], 4)
  {
    SampleStep0(jets);
    SampleStep1(jets);
    SampleStep2(jets);
    SampleStep3(jets);
  }

  /** A drop adds the cells where the fall ends. */
  lemma DroppedAfterFall(cells: set<Point>, shape: RockShape, jets: seq<Direction>, j: nat, rock: seq<Point>, next: nat)
    requires j < |jets| && Fall(cells, jets, j, StartRock(cells, shape)) == (rock, next)
    ensures Dropped(cells, shape, jets, j) == (cells + Elements(rock), NextShape(shape), next)
  {
  }

  /** In the empty chamber the flat rock appears in columns 2 to 5 of row 3. */
  lemma SampleStartRock()
    ensures StartRock({}, Horizontal) == [Point(2, 3), Point(3, 3), Point(4, 3), Point(5, 3)]
  {
    assert StartPoint({}) == Point(2, 3);
  }

  /**
   * With the sample's jets `>>><...`, the first rock appears at row 3 and comes
   * to rest in columns 2 to 5 of row 0; the next rock is the plus and the next
   * jet the fifth.
   */
  lemma SampleFirstRock(jets: seq<Direction>)
    requires SampleStart(jets)
    ensures Dropped({}, Horizontal, jets, 0) ==
      ({Point(2, 0), Point(3, 0), Point(4, 0), Point(5, 0)}, Plus, 4)
  {
    var rest := [Point(2, 0), Point(3, 0), Point(4, 0), Point(5, 0)];
    SampleFall(jets);
    SampleStartRock();
    var cells: set<Point> := {};
    DroppedAfterFall(cells, Horizontal, jets, 0, rest, 4);
    assert cells + Elements(rest) == {Point(2, 0), Point(3, 0), Point(4, 0), Point(5, 0)};
  }
}
