// The patrolling guard (2024, day 6).
//
// A guard walks over a rectangular map: the guard steps forward in the direction
// it faces, turns right in place when an obstacle is ahead, and leaves the map
// when the step ahead falls outside it. A map "has a loop" when the guard's
// position and direction repeat, so that the patrol goes on forever.

module GuardGallivant {
  import opened Wrappers

  datatype Direction = North | East | South | West

  /** A position on the map: column `x`, row `y`, both counted from 0. */
  datatype Coord = Coord(x: nat, y: nat)

  datatype Guard = Guard(position: Coord, direction: Direction)

  /** The unit step of a direction, with `y` growing downwards. */
  function Delta(d: Direction): (int, int)
  {
    match d
    case North => (0, -1)
    case East => (1, 0)
    case South => (0, 1)
    case West => (-1, 0)
  }

  /** `(x, y)` lies on a map of `bounds.0` columns and `bounds.1` rows. */
  predicate InBounds(x: int, y: int, bounds: (nat, nat))
  {
    0 <= x < bounds.0 && 0 <= y < bounds.1
  }

  /** `Direction::turn_right`: the step turns a quarter clockwise. */
  function TurnRight(d: Direction): (r: Direction)
    ensures r != d
    ensures Delta(r) == (-Delta(d).1, Delta(d).0)
  {
    match d
    case North => East
    case East => South
    case South => West
    case West => North
  }

  /** Four right turns face the guard the way it started; two never do. */
  lemma FourTurns(d: Direction)
    ensures TurnRight(TurnRight(TurnRight(TurnRight(d)))) == d
    ensures TurnRight(TurnRight(d)) != d
  {
  }

  /**
   * `Direction::next_position`: the adjacent position in the direction, or none
   * when that step leaves the map. North and West only refuse to go below 0, as
   * `checked_sub` does.
   */
  function NextPosition(d: Direction, p: Coord, bounds: (nat, nat)): (r: Option<Coord>)
    ensures r.Some? ==> r.value.x == p.x + Delta(d).0 && r.value.y == p.y + Delta(d).1
    ensures InBounds(p.x, p.y, bounds) ==>
      (r.Some? <==> InBounds(p.x + Delta(d).0, p.y + Delta(d).1, bounds))
  {
    match d
    case North => if p.y == 0 then None else Some(Coord(p.x, p.y - 1))
    case East => if p.x + 1 >= bounds.0 then None else Some(Coord(p.x + 1, p.y))
    case South => if p.y + 1 >= bounds.1 then None else Some(Coord(p.x, p.y + 1))
    case West => if p.x == 0 then None else Some(Coord(p.x - 1, p.y))
  }

  /**
   * `Guard::take_step`: none when the step ahead leaves the map, a right turn in
   * place when an obstacle is ahead, otherwise one step forward.
   */
  function TakeStep(g: Guard, bounds: (nat, nat), obstacles: seq<Coord>): Option<Guard>
  {
    match NextPosition(g.direction, g.position, bounds)
    case None => None
    case Some(ahead) =>
      if ahead in obstacles then Some(g.(direction := TurnRight(g.direction)))
      else Some(g.(position := ahead))
  }

  /**
   * What a step does: the guard leaves exactly when the position ahead is off
   * the map; before an obstacle the guard keeps its place and turns right;
   * otherwise it keeps its direction and moves one step along it.
   */
  lemma TakeStepMeaning(g: Guard, bounds: (nat, nat), obstacles: seq<Coord>)
    requires InBounds(g.position.x, g.position.y, bounds)
    ensures var d := Delta(g.direction);
      var ax, ay := g.position.x + d.0, g.position.y + d.1;
      var r := TakeStep(g, bounds, obstacles);
      (r.None? <==> !InBounds(ax, ay, bounds)) &&
      (r.Some? && ax >= 0 && ay >= 0 && Coord(ax, ay) in obstacles ==>
        r.value == Guard(g.position, TurnRight(g.direction))) &&
      (r.Some? && ax >= 0 && ay >= 0 && Coord(ax, ay) !in obstacles ==>
        r.value == Guard(Coord(ax, ay), g.direction))
  {
  }

  /** A guard on the map stays on the map and never steps onto an obstacle. */
  lemma TakeStepKeepsGuardOnMap(g: Guard, bounds: (nat, nat), obstacles: seq<Coord>)
    requires InBounds(g.position.x, g.position.y, bounds)
    requires g.position !in obstacles
    requires TakeStep(g, bounds, obstacles).Some?
    ensures var n := TakeStep(g, bounds, obstacles).value;
      InBounds(n.position.x, n.position.y, bounds) && n.position !in obstacles
  {
  }

  /** The guard after `n` steps from `g`, or none once the guard has left the map. */
  function Walk(bounds: (nat, nat), obstacles: seq<Coord>, g: Guard, n: nat): Option<Guard>
    decreases n
  {
    if n == 0 then Some(g)
    else
      match TakeStep(g, bounds, obstacles)
      case None => None
      case Some(h) => Walk(bounds, obstacles, h, n - 1)
  }

  /** Some state of the walk repeats: the guard patrols a loop. */
  ghost predicate Repeats(bounds: (nat, nat), obstacles: seq<Coord>, g: Guard)
  {
    exists i: nat, j: nat :: i < j && Walk(bounds, obstacles, g, j).Some? &&
      Walk(bounds, obstacles, g, i) == Walk(bounds, obstacles, g, j)
  }

  /** The guard leaves the map at some step. */
  ghost predicate Exits(bounds: (nat, nat), obstacles: seq<Coord>, g: Guard)
  {
    exists n: nat :: Walk(bounds, obstacles, g, n).None?
  }

  /** Walking `i + k` steps is walking `k` steps from where `i` steps lead. */
  lemma {:induction false} WalkSplit(bounds: (nat, nat), obstacles: seq<Coord>, g: Guard, i: nat, k: nat)
    requires Walk(bounds, obstacles, g, i).Some?
    ensures Walk(bounds, obstacles, g, i + k) == Walk(bounds, obstacles, Walk(bounds, obstacles, g, i).value, k)
    decreases i
  {
    if i > 0 {
      var h := TakeStep(g, bounds, obstacles).value;
      WalkSplit(bounds, obstacles, h, i - 1, k);
      assert i + k - 1 == (i - 1) + k;
    }
  }

  /** One more step from where `n` steps lead. */
  lemma WalkLast(bounds: (nat, nat), obstacles: seq<Coord>, g: Guard, n: nat)
    requires Walk(bounds, obstacles, g, n).Some?
    ensures Walk(bounds, obstacles, g, n + 1) == TakeStep(Walk(bounds, obstacles, g, n).value, bounds, obstacles)
  {
    WalkSplit(bounds, obstacles, g, n, 1);
  }

  /** Once the guard has left, it stays gone. */
  lemma {:induction false} GoneForGood(bounds: (nat, nat), obstacles: seq<Coord>, g: Guard, n: nat, m: nat)
    requires n <= m && Walk(bounds, obstacles, g, n).None?
    ensures Walk(bounds, obstacles, g, m).None?
    decreases n
  {
    var next := TakeStep(g, bounds, obstacles);
    if next.Some? {
      GoneForGood(bounds, obstacles, next.value, n - 1, m - 1);
    }
  }

  /**
   * A repeated state makes the walk periodic from there on, so a guard in a loop
   * never leaves the map.
   */
  lemma {:induction false} LoopNeverExits(bounds: (nat, nat), obstacles: seq<Coord>, g: Guard, i: nat, j: nat, n: nat)
    requires i < j && Walk(bounds, obstacles, g, j).Some?
    requires Walk(bounds, obstacles, g, i) == Walk(bounds, obstacles, g, j)
    ensures Walk(bounds, obstacles, g, n).Some?
    decreases n
  {
    if n <= j {
      if Walk(bounds, obstacles, g, n).None? {
        GoneForGood(bounds, obstacles, g, n, j);
      }
    } else {
      var p := j - i;
      var s := Walk(bounds, obstacles, g, i).value;
      LoopNeverExits(bounds, obstacles, g, i, j, n - p);
      WalkSplit(bounds, obstacles, g, i, n - j);
      WalkSplit(bounds, obstacles, g, j, n - j);
      assert n - p == i + (n - j);
    }
  }

  /** A loop and an exit exclude each other. */
  lemma LoopOrExit(bounds: (nat, nat), obstacles: seq<Coord>, g: Guard)
    ensures !(Repeats(bounds, obstacles, g) && Exits(bounds, obstacles, g))
  {
    if Repeats(bounds, obstacles, g) && Exits(bounds, obstacles, g) {
      var i: nat, j: nat :| i < j && Walk(bounds, obstacles, g, j).Some? &&
        Walk(bounds, obstacles, g, i) == Walk(bounds, obstacles, g, j);
      var n: nat :| Walk(bounds, obstacles, g, n).None?;
      LoopNeverExits(bounds, obstacles, g, i, j, n);
    }
  }

  /** The states with `x <= mx` and `y <= my`: a finite set the walk never leaves. */
  function Box(mx: nat, my: nat): (r: set<Guard>)
    ensures forall g: Guard :: g.position.x <= mx && g.position.y <= my ==> g in r
  {
    set x: nat, y: nat, d: Direction | x <= mx && y <= my :: Guard(Coord(x, y), d)
  }

  /** Steps never take the guard past column `mx` or row `my` once both bound the map. */
  lemma StepStaysInBox(g: Guard, bounds: (nat, nat), obstacles: seq<Coord>, mx: nat, my: nat)
    requires bounds.0 <= mx && bounds.1 <= my
    requires g.position.x <= mx && g.position.y <= my
    requires TakeStep(g, bounds, obstacles).Some?
    ensures var h := TakeStep(g, bounds, obstacles).value;
      h.position.x <= mx && h.position.y <= my
  {
  }

  /** `visited` holds exactly the states of the first `n` steps, all on the map. */
  ghost predicate Seen(visited: set<Guard>, bounds: (nat, nat), obstacles: seq<Coord>, start: Guard, n: nat)
  {
    (forall k: nat :: k <= n ==>
      Walk(bounds, obstacles, start, k).Some? && Walk(bounds, obstacles, start, k).value in visited) &&
    (forall v :: v in visited ==> exists k: nat :: k <= n && Walk(bounds, obstacles, start, k) == Some(v))
  }

  /** Recording the state after one more step keeps the record exact. */
  lemma SeenExtend(visited: set<Guard>, bounds: (nat, nat), obstacles: seq<Coord>, start: Guard, n: nat, g: Guard)
    requires Seen(visited, bounds, obstacles, start, n)
    requires Walk(bounds, obstacles, start, n + 1) == Some(g)
    ensures Seen(visited + {g}, bounds, obstacles, start, n + 1)
  {
    forall v | v in visited + {g}
      ensures exists k: nat :: k <= n + 1 && Walk(bounds, obstacles, start, k) == Some(v)
    {
      if v == g {
        assert Walk(bounds, obstacles, start, n + 1) == Some(v);
      }
    }
  }

  /** A state after `n + 1` steps already in the record is a repeat. */
  lemma SeenAgain(visited: set<Guard>, bounds: (nat, nat), obstacles: seq<Coord>, start: Guard, n: nat, g: Guard)
    requires Seen(visited, bounds, obstacles, start, n)
    requires Walk(bounds, obstacles, start, n + 1) == Some(g) && g in visited
    ensures Repeats(bounds, obstacles, start)
  {
    var k: nat :| k <= n && Walk(bounds, obstacles, start, k) == Some(g);
    assert k < n + 1;
  }

  /** Adding a new state of the box leaves fewer states of the box unvisited. */
  lemma FewerUnvisited(box: set<Guard>, visited: set<Guard>, g: Guard)
    requires g in box && g !in visited
    ensures |box - (visited + {g})| < |box - visited|
  {
    assert box - visited == (box - (visited + {g})) + {g};
  }

  /**
   * `map_has_loop`: walk the guard, remembering every state, until the guard leaves
   * (no loop) or comes back to a state already seen (a loop).
   */
  method MapHasLoop(bounds: (nat, nat), obstacles: seq<Coord>, start: Guard) returns (r: bool)
    ensures r == Repeats(bounds, obstacles, start)
    ensures r == !Exits(bounds, obstacles, start)
  {
    var mx := if start.position.x < bounds.0 then bounds.0 else start.position.x;
    var my := if start.position.y < bounds.1 then bounds.1 else start.position.y;
    ghost var box := Box(mx, my);
    var guard := start;
    var visited := {guard};
    ghost var n: nat := 0;
    assert Walk(bounds, obstacles, start, 0) == Some(start);
    assert Seen(visited, bounds, obstacles, start, 0);
    while true
      invariant Walk(bounds, obstacles, start, n) == Some(guard)
      invariant guard.position.x <= mx && guard.position.y <= my
      invariant visited <= box
      invariant Seen(visited, bounds, obstacles, start, n)
      decreases |box - visited|
    {
      var next := TakeStep(guard, bounds, obstacles);
      WalkLast(bounds, obstacles, start, n);
      if next.None? {
        LoopOrExit(bounds, obstacles, start);
        return false;
      }
      StepStaysInBox(guard, bounds, obstacles, mx, my);
      guard := next.value;
      if guard in visited {
        SeenAgain(visited, bounds, obstacles, start, n, guard);
        LoopOrExit(bounds, obstacles, start);
        return true;
      }
      SeenExtend(visited, bounds, obstacles, start, n, guard);
      FewerUnvisited(box, visited, guard);
      visited := visited + {guard};
      n := n + 1;
    }
  }

  // ---- Reading the map ----

  /** The map after it is read: its bounds, its obstacles in reading order, and the guard. */
  datatype Parsed = Parsed(bounds: (nat, nat), obstacles: seq<Coord>, guard: Guard)

  /** The direction a guard character faces, if the character is one. */
  function GuardChar(c: char): (r: Option<Direction>)
    ensures r.Some? <==> c in {'^', '>', 'v', '<'}
  {
    match c
    case '^' => Some(North)
    case '>' => Some(East)
    case 'v' => Some(South)
    case '<' => Some(West)
    case _ => None
  }

  /** The characters a map may hold. */
  predicate ValidChar(c: char)
  {
    c == '#' || c == '.' || GuardChar(c).Some?
  }

  /** Every character of every row is one a map may hold. */
  predicate AllValid(lines: seq<string>)
  {
    forall y, x :: 0 <= y < |lines| && 0 <= x < |lines[y]| ==> ValidChar(lines[y][x])
  }

  /** The obstacles of row `y`, left to right. */
  function RowObstacles(row: string, y: nat): seq<Coord>
  {
    if row == [] then []
    else
      var x := |row| - 1;
      RowObstacles(row[..x], y) + (if row[x] == '#' then [Coord(x, y)] else [])
  }

  /** The obstacles of the map, row by row. */
  function Obstacles(lines: seq<string>): seq<Coord>
  {
    if lines == [] then []
    else
      var y := |lines| - 1;
      Obstacles(lines[..y]) + RowObstacles(lines[y], y)
  }

  /** The later of two sightings of the guard: a new one replaces an old one. */
  function Latest(old_: Option<Guard>, new_: Option<Guard>): Option<Guard>
  {
    if new_.Some? then new_ else old_
  }

  /** The last guard character of row `y`. */
  function RowGuard(row: string, y: nat): Option<Guard>
  {
    if row == [] then None
    else
      var x := |row| - 1;
      Latest(RowGuard(row[..x], y),
        match GuardChar(row[x]) case Some(d) => Some(Guard(Coord(x, y), d)) case None => None)
  }

  /** The last guard character of the map in reading order. */
  function GuardIn(lines: seq<string>): Option<Guard>
  {
    if lines == [] then None
    else
      var y := |lines| - 1;
      Latest(GuardIn(lines[..y]), RowGuard(lines[y], y))
  }

  /**
   * What `parse_map` returns, with `None` where it panics: on an empty map, on a
   * character that is none of `#.^>v<`, and when no guard is found. The bounds
   * are the length of the first row and the number of rows.
   */
  function Parse(lines: seq<string>): Option<Parsed>
  {
    if lines == [] || !AllValid(lines) then None
    else
      match GuardIn(lines)
      case None => None
      case Some(g) => Some(Parsed((|lines[0]|, |lines|), Obstacles(lines), g))
  }

  /** An obstacle of row `y` is exactly a `#` in it. */
  lemma {:induction false} RowObstaclesMeaning(row: string, y: nat, c: Coord)
    ensures c in RowObstacles(row, y) <==> c.y == y && c.x < |row| && row[c.x] == '#'
  {
    if row != [] {
      RowObstaclesMeaning(row[..|row| - 1], y, c);
    }
  }

  /** Every obstacle of the map is a `#` and every `#` is an obstacle. */
  lemma {:induction false} ObstaclesMeaning(lines: seq<string>, c: Coord)
    ensures c in Obstacles(lines) <==> c.y < |lines| && c.x < |lines[c.y]| && lines[c.y][c.x] == '#'
  {
    if lines != [] {
      var y := |lines| - 1;
      ObstaclesMeaning(lines[..y], c);
      RowObstaclesMeaning(lines[y], y, c);
    }
  }

  /** `a` comes strictly before `b` in reading order. */
  predicate Before(a: Coord, b: Coord)
  {
    a.y < b.y || (a.y == b.y && a.x < b.x)
  }

  /** The obstacles of a row are listed left to right, all within the row. */
  lemma {:induction false} RowObstaclesOrdered(row: string, y: nat)
    ensures forall i :: 0 <= i < |RowObstacles(row, y)| ==>
      RowObstacles(row, y)[i].y == y && RowObstacles(row, y)[i].x < |row|
    ensures forall i, j :: 0 <= i < j < |RowObstacles(row, y)| ==>
      Before(RowObstacles(row, y)[i], RowObstacles(row, y)[j])
  {
    if row != [] {
      RowObstaclesOrdered(row[..|row| - 1], y);
    }
  }

  /** The obstacles of the map are listed in reading order, without repeats. */
  lemma {:induction false} ObstaclesOrdered(lines: seq<string>)
    ensures forall i :: 0 <= i < |Obstacles(lines)| ==> Obstacles(lines)[i].y < |lines|
    ensures forall i, j :: 0 <= i < j < |Obstacles(lines)| ==>
      Before(Obstacles(lines)[i], Obstacles(lines)[j])
  {
    if lines != [] {
      var y := |lines| - 1;
      ObstaclesOrdered(lines[..y]);
      RowObstaclesOrdered(lines[y], y);
    }
  }

  /** The guard of a row stands on a guard character, and no guard character is right of it. */
  lemma {:induction false} RowGuardMeaning(row: string, y: nat)
    ensures RowGuard(row, y).None? <==> forall x :: 0 <= x < |row| ==> GuardChar(row[x]).None?
    ensures RowGuard(row, y).Some? ==>
      var g := RowGuard(row, y).value;
      g.position.y == y && g.position.x < |row| &&
      GuardChar(row[g.position.x]) == Some(g.direction) &&
      forall x :: g.position.x < x < |row| ==> GuardChar(row[x]).None?
  {
    if row != [] {
      var x := |row| - 1;
      RowGuardMeaning(row[..x], y);
      assert forall i :: 0 <= i < x ==> row[..x][i] == row[i];
    }
  }

  /**
   * The guard of the map stands on a guard character, no guard character comes
   * after it in reading order, and there is no guard exactly when the map holds
   * no guard character.
   */
  lemma {:induction false} GuardInMeaning(lines: seq<string>)
    ensures GuardIn(lines).None? <==>
      forall y, x :: 0 <= y < |lines| && 0 <= x < |lines[y]| ==> GuardChar(lines[y][x]).None?
    ensures GuardIn(lines).Some? ==>
      var g := GuardIn(lines).value;
      g.position.y < |lines| && g.position.x < |lines[g.position.y]| &&
      GuardChar(lines[g.position.y][g.position.x]) == Some(g.direction) &&
      forall y, x :: 0 <= y < |lines| && 0 <= x < |lines[y]| && Before(g.position, Coord(x, y)) ==>
        GuardChar(lines[y][x]).None?
  {
    if lines != [] {
      var y := |lines| - 1;
      GuardInMeaning(lines[..y]);
      RowGuardMeaning(lines[y], y);
    }
  }

  /**
   * `parse_map`: scan the rows top to bottom and each row left to right,
   * collecting obstacles and keeping the last guard seen.
   */
  method ParseMap(lines: seq<string>) returns (r: Option<Parsed>)
    ensures r == Parse(lines)
  {
    if |lines| == 0 {
      return None;
    }
    var obstacles: seq<Coord> := [];
    var guard: Option<Guard> := None;
    for y := 0 to |lines|
      invariant obstacles == Obstacles(lines[..y])
      invariant guard == GuardIn(lines[..y])
      invariant AllValid(lines[..y])
    {
      var row := lines[y];
      for x := 0 to |row|
        invariant obstacles == Obstacles(lines[..y]) + RowObstacles(row[..x], y)
        invariant guard == Latest(GuardIn(lines[..y]), RowGuard(row[..x], y))
        invariant forall i :: 0 <= i < x ==> ValidChar(row[i])
      {
        assert row[..x + 1][..x] == row[..x];
        var c := row[x];
        match c
        case '#' => obstacles := obstacles + [Coord(x, y)];
        case '^' => guard := Some(Guard(Coord(x, y), North));
        case '>' => guard := Some(Guard(Coord(x, y), East));
        case 'v' => guard := Some(Guard(Coord(x, y), South));
        case '<' => guard := Some(Guard(Coord(x, y), West));
        case '.' =>
        case _ =>
          assert !ValidChar(lines[y][x]);
          return None;
      }
      assert row[..|row|] == row;
      assert lines[..y + 1][..y] == lines[..y];
    }
    assert lines[..|lines|] == lines;
    match guard
    case None => return None;
    case Some(g) => return Some(Parsed((|lines[0]|, |lines|), obstacles, g));
  }


  /** One more character of a row adds at most one obstacle and at most one new guard sighting. */
  lemma RowStep(row: string, y: nat, x: nat)
    requires x < |row|
    ensures RowObstacles(row[..x + 1], y) ==
      RowObstacles(row[..x], y) + (if row[x] == '#' then [Coord(x, y)] else [])
    ensures RowGuard(row[..x + 1], y) == Latest(RowGuard(row[..x], y),
      match GuardChar(row[x]) case Some(d) => Some(Guard(Coord(x, y), d)) case None => None)
  {
    assert row[..x + 1][..x] == row[..x];
  }

  /** Characters that are not `#` add no obstacle. */
  lemma {:induction false} RowObstaclesSkip(row: string, y: nat, a: nat, b: nat)
    requires a <= b <= |row|
    requires forall x :: a <= x < b ==> row[x] != '#'
    ensures RowObstacles(row[..b], y) == RowObstacles(row[..a], y)
    decreases b - a
  {
    if a < b {
      RowStep(row, y, b - 1);
      RowObstaclesSkip(row, y, a, b - 1);
    }
  }

  /** Characters that are not guard characters leave the guard sighting as it was. */
  lemma {:induction false} RowGuardSkip(row: string, y: nat, a: nat, b: nat)
    requires a <= b <= |row|
    requires forall x :: a <= x < b ==> GuardChar(row[x]).None?
    ensures RowGuard(row[..b], y) == RowGuard(row[..a], y)
    decreases b - a
  {
    if a < b {
      RowStep(row, y, b - 1);
      RowGuardSkip(row, y, a, b - 1);
    }
  }

  /** One more row adds its obstacles after the earlier ones, and its guard over any earlier one. */
  lemma MapStep(lines: seq<string>, y: nat)
    requires y < |lines|
    ensures Obstacles(lines[..y + 1]) == Obstacles(lines[..y]) + RowObstacles(lines[y], y)
    ensures GuardIn(lines[..y + 1]) == Latest(GuardIn(lines[..y]), RowGuard(lines[y], y))
  {
    assert lines[..y + 1][..y] == lines[..y];
  }

  /** The sample map of the puzzle. */
  function SampleMap(): seq<string>
  {
    ["....#.....",
     ".........#",
     "..........",
     "..#.......",
     ".......#..",
     "..........",
     ".#..^.....",
     "........#.",
     "#.........",
     "......#..."]
  }

  lemma SampleRow0()
    ensures RowObstacles(SampleMap()[0], 0) == [Coord(4, 0)]
    ensures RowGuard(SampleMap()[0], 0) == None
  {
    var r := SampleMap()[0];
    assert r == "....#.....";
    assert r[..0] == [];
    RowObstaclesSkip(r, 0, 0, 4);
    RowStep(r, 0, 4);
    RowObstaclesSkip(r, 0, 5, 10);
    RowGuardSkip(r, 0, 0, 10);
    assert r[..10] == r;
  }

  lemma SampleRow1()
    ensures RowObstacles(SampleMap()[1], 1) == [Coord(9, 1)]
    ensures RowGuard(SampleMap()[1], 1) == None
  {
    var r := SampleMap()[1];
    assert r == ".........#";
    assert r[..0] == [];
    RowObstaclesSkip(r, 1, 0, 9);
    RowStep(r, 1, 9);
    RowObstaclesSkip(r, 1, 10, 10);
    RowGuardSkip(r, 1, 0, 10);
    assert r[..10] == r;
  }

  lemma SampleRow2()
    ensures RowObstacles(SampleMap()[2], 2) == []
    ensures RowGuard(SampleMap()[2], 2) == None
  {
    var r := SampleMap()[2];
    assert r == "..........";
    assert r[..0] == [];
    RowObstaclesSkip(r, 2, 0, 10);
    RowGuardSkip(r, 2, 0, 10);
    assert r[..10] == r;
  }

  lemma SampleRow3()
    ensures RowObstacles(SampleMap()[3], 3) == [Coord(2, 3)]
    ensures RowGuard(SampleMap()[3], 3) == None
  {
    var r := SampleMap()[3];
    assert r == "..#.......";
    assert r[..0] == [];
    RowObstaclesSkip(r, 3, 0, 2);
    RowStep(r, 3, 2);
    RowObstaclesSkip(r, 3, 3, 10);
    RowGuardSkip(r, 3, 0, 10);
    assert r[..10] == r;
  }

  lemma SampleRow4()
    ensures RowObstacles(SampleMap()[4], 4) == [Coord(7, 4)]
    ensures RowGuard(SampleMap()[4], 4) == None
  {
    var r := SampleMap()[4];
    assert r == ".......#..";
    assert r[..0] == [];
    RowObstaclesSkip(r, 4, 0, 7);
    RowStep(r, 4, 7);
    RowObstaclesSkip(r, 4, 8, 10);
    RowGuardSkip(r, 4, 0, 10);
    assert r[..10] == r;
  }

  lemma SampleRow5()
    ensures RowObstacles(SampleMap()[5], 5) == []
    ensures RowGuard(SampleMap()[5], 5) == None
  {
    var r := SampleMap()[5];
    assert r == "..........";
    assert r[..0] == [];
    RowObstaclesSkip(r, 5, 0, 10);
    RowGuardSkip(r, 5, 0, 10);
    assert r[..10] == r;
  }

  lemma SampleRow6()
    ensures RowObstacles(SampleMap()[6], 6) == [Coord(1, 6)]
    ensures RowGuard(SampleMap()[6], 6) == Some(Guard(Coord(4, 6), North))
  {
    var r := SampleMap()[6];
    assert r == ".#..^.....";
    assert r[..0] == [];
    RowObstaclesSkip(r, 6, 0, 1);
    RowStep(r, 6, 1);
    RowObstaclesSkip(r, 6, 2, 10);
    RowGuardSkip(r, 6, 0, 4);
    RowStep(r, 6, 4);
    RowGuardSkip(r, 6, 5, 10);
    assert r[..10] == r;
  }

  lemma SampleRow7()
    ensures RowObstacles(SampleMap()[7], 7) == [Coord(8, 7)]
    ensures RowGuard(SampleMap()[7], 7) == None
  {
    var r := SampleMap()[7];
    assert r == "........#.";
    assert r[..0] == [];
    RowObstaclesSkip(r, 7, 0, 8);
    RowStep(r, 7, 8);
    RowObstaclesSkip(r, 7, 9, 10);
    RowGuardSkip(r, 7, 0, 10);
    assert r[..10] == r;
  }

  lemma SampleRow8()
    ensures RowObstacles(SampleMap()[8], 8) == [Coord(0, 8)]
    ensures RowGuard(SampleMap()[8], 8) == None
  {
    var r := SampleMap()[8];
    assert r == "#.........";
    assert r[..0] == [];
    RowObstaclesSkip(r, 8, 0, 0);
    RowStep(r, 8, 0);
    RowObstaclesSkip(r, 8, 1, 10);
    RowGuardSkip(r, 8, 0, 10);
    assert r[..10] == r;
  }

  lemma SampleRow9()
    ensures RowObstacles(SampleMap()[9], 9) == [Coord(6, 9)]
    ensures RowGuard(SampleMap()[9], 9) == None
  {
    var r := SampleMap()[9];
    assert r == "......#...";
    assert r[..0] == [];
    RowObstaclesSkip(r, 9, 0, 6);
    RowStep(r, 9, 6);
    RowObstaclesSkip(r, 9, 7, 10);
    RowGuardSkip(r, 9, 0, 10);
    assert r[..10] == r;
  }

  /** The sample map holds only map characters. */
  lemma SampleValid()
    ensures AllValid(SampleMap())
  {
    var m := SampleMap();
    assert m[0] == "....#.....";
    assert m[1] == ".........#";
    assert m[2] == "..........";
    assert m[3] == "..#.......";
    assert m[4] == ".......#..";
    assert m[5] == "..........";
    assert m[6] == ".#..^.....";
    assert m[7] == "........#.";
    assert m[8] == "#.........";
    assert m[9] == "......#...";
  }

  /** The obstacles of the sample's top five rows. */
  lemma SampleObstaclesTop()
    ensures Obstacles(SampleMap()[..5]) == [Coord(4, 0), Coord(9, 1), Coord(2, 3), Coord(7, 4)]
  {
    var m := SampleMap();
    SampleRow0();
    SampleRow1();
    SampleRow2();
    SampleRow3();
    SampleRow4();
    assert m[..0] == [];
    MapStep(m, 0);
    assert Obstacles(m[..1]) == [Coord(4, 0)];
    MapStep(m, 1);
    assert Obstacles(m[..2]) == [Coord(4, 0), Coord(9, 1)];
    MapStep(m, 2);
    assert Obstacles(m[..3]) == [Coord(4, 0), Coord(9, 1)];
    MapStep(m, 3);
    assert Obstacles(m[..4]) == [Coord(4, 0), Coord(9, 1), Coord(2, 3)];
    MapStep(m, 4);
    assert Obstacles(m[..5]) == [Coord(4, 0), Coord(9, 1), Coord(2, 3), Coord(7, 4)];
  }

  /** The sample's obstacles, in reading order. */
  lemma SampleObstacles()
    ensures Obstacles(SampleMap()) == [Coord(4, 0), Coord(9, 1), Coord(2, 3), Coord(7, 4), Coord(1, 6), Coord(8, 7), Coord(0, 8), Coord(6, 9)]
  {
    var m := SampleMap();
    SampleObstaclesTop();
    SampleRow5();
    SampleRow6();
    SampleRow7();
    SampleRow8();
    SampleRow9();
    MapStep(m, 5);
    assert Obstacles(m[..6]) == [Coord(4, 0), Coord(9, 1), Coord(2, 3), Coord(7, 4)];
    MapStep(m, 6);
    assert Obstacles(m[..7]) == [Coord(4, 0), Coord(9, 1), Coord(2, 3), Coord(7, 4), Coord(1, 6)];
    MapStep(m, 7);
    assert Obstacles(m[..8]) == [Coord(4, 0), Coord(9, 1), Coord(2, 3), Coord(7, 4), Coord(1, 6), Coord(8, 7)];
    MapStep(m, 8);
    assert Obstacles(m[..9]) == [Coord(4, 0), Coord(9, 1), Coord(2, 3), Coord(7, 4), Coord(1, 6), Coord(8, 7), Coord(0, 8)];
    MapStep(m, 9);
    assert Obstacles(m[..10]) == [Coord(4, 0), Coord(9, 1), Coord(2, 3), Coord(7, 4), Coord(1, 6), Coord(8, 7), Coord(0, 8), Coord(6, 9)];
    assert m[..10] == m;
  }

  /** The sample's guard faces north at (4, 6). */
  lemma SampleGuard()
    ensures GuardIn(SampleMap()) == Some(Guard(Coord(4, 6), North))
  {
    var m := SampleMap();
    SampleRow0();
    SampleRow1();
    SampleRow2();
    SampleRow3();
    SampleRow4();
    SampleRow5();
    SampleRow6();
    SampleRow7();
    SampleRow8();
    SampleRow9();
    assert m[..0] == [];
    MapStep(m, 0);
    assert GuardIn(m[..1]) == None;
    MapStep(m, 1);
    assert GuardIn(m[..2]) == None;
    MapStep(m, 2);
    assert GuardIn(m[..3]) == None;
    MapStep(m, 3);
    assert GuardIn(m[..4]) == None;
    MapStep(m, 4);
    assert GuardIn(m[..5]) == None;
    MapStep(m, 5);
    assert GuardIn(m[..6]) == None;
    MapStep(m, 6);
    assert GuardIn(m[..7]) == Some(Guard(Coord(4, 6), North));
    MapStep(m, 7);
    assert GuardIn(m[..8]) == Some(Guard(Coord(4, 6), North));
    MapStep(m, 8);
    assert GuardIn(m[..9]) == Some(Guard(Coord(4, 6), North));
    MapStep(m, 9);
    assert GuardIn(m[..10]) == Some(Guard(Coord(4, 6), North));
    assert m[..10] == m;
  }

  /** The sample map reads as ten by ten, with eight obstacles and the guard facing north at (4, 6). */
  lemma SampleParse()
    ensures Parse(SampleMap()) == Some(Parsed((10, 10), [Coord(4, 0), Coord(9, 1), Coord(2, 3), Coord(7, 4), Coord(1, 6), Coord(8, 7), Coord(0, 8), Coord(6, 9)], Guard(Coord(4, 6), North)))
  {
    SampleValid();
    SampleObstacles();
    SampleGuard();
  }
}
