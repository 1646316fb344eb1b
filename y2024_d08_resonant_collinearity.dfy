// Antennas on a roof (2024, day 8): the map lists antennas by frequency; two
// antennas of one frequency create antinodes along their line, either the
// two points twice as far from one antenna as from the other (simple) or
// every point of the line in steps of their difference (complex), kept only
// within the map.

module ResonantCollinearity {
  import opened Wrappers

  /** `(x, y)`: column, then row. */
  type Coord = (int, int)

  /** The frequencies: ASCII digits and letters. */
  predicate IsAntenna(c: char)
  {
    '0' <= c <= '9' || 'a' <= c <= 'z' || 'A' <= c <= 'Z'
  }

  /** The list kept under `c`, empty when `c` has no entry. */
  function Lookup(m: map<char, seq<Coord>>, c: char): seq<Coord>
  {
    if c in m then m[c] else []
  }

  /** `entry(c).and_modify(push).or_insert(vec![p])`: `p` goes at the end of `c`'s list. */
  function Record(m: map<char, seq<Coord>>, c: char, p: Coord): map<char, seq<Coord>>
  {
    m[c := Lookup(m, c) + [p]]
  }

  /** The map after scanning `row`, the `y`-th line, left to right. */
  function RowAntennas(m: map<char, seq<Coord>>, row: string, y: int): map<char, seq<Coord>>
  {
    if row == [] then m
    else
      var x := |row| - 1;
      var before := RowAntennas(m, row[..x], y);
      if IsAntenna(row[x]) then Record(before, row[x], (x, y)) else before
  }

  /** The map after scanning all the lines top to bottom. */
  function Antennas(lines: seq<string>): map<char, seq<Coord>>
  {
    if lines == [] then map[]
    else
      var y := |lines| - 1;
      RowAntennas(Antennas(lines[..y]), lines[y], y)
  }

  /** `parse_map`: the bounds (first line's length, number of lines) and the antennas; `None` is the panic on no lines. */
  function Parse(lines: seq<string>): Option<((nat, nat), map<char, seq<Coord>>)>
  {
    if lines == [] then None else Some(((|lines[0]|, |lines|), Antennas(lines)))
  }

  /** The map shows `c` at `p`. */
  predicate At(lines: seq<string>, c: char, p: Coord)
  {
    0 <= p.1 < |lines| && 0 <= p.0 < |lines[p.1]| && lines[p.1][p.0] == c
  }

  /** `p` comes strictly before `q` in reading order. */
  predicate Before(p: Coord, q: Coord)
  {
    p.1 < q.1 || (p.1 == q.1 && p.0 < q.0)
  }

  /** A list in strictly increasing reading order. */
  predicate Ordered(s: seq<Coord>)
  {
    forall i, j :: 0 <= i < j < |s| ==> Before(s[i], s[j])
  }

  /** A list without repeats. */
  predicate Distinct(s: seq<Coord>)
  {
    forall i, j :: 0 <= i < j < |s| ==> s[i] != s[j]
  }

  /** Scanning a row adds to `c`'s list exactly the places of `c` in that row, and a key exactly for each frequency it shows. */
  lemma {:induction false} RowAntennasMeaning(m: map<char, seq<Coord>>, row: string, y: int, c: char, p: Coord)
    ensures p in Lookup(RowAntennas(m, row, y), c) <==>
      p in Lookup(m, c) || (IsAntenna(c) && p.1 == y && 0 <= p.0 < |row| && row[p.0] == c)
    ensures c in RowAntennas(m, row, y) <==> c in m || (IsAntenna(c) && c in row)
  {
    if row != [] {
      var x := |row| - 1;
      RowAntennasMeaning(m, row[..x], y, c, p);
      assert row == row[..x] + [row[x]];
    }
  }

  /** Every listed place of `c` shows `c`, every place showing an antenna `c` is listed, and `c` has a key exactly when it appears. */
  lemma {:induction false} AntennasMeaning(lines: seq<string>, c: char, p: Coord)
    ensures p in Lookup(Antennas(lines), c) <==> IsAntenna(c) && At(lines, c, p)
    ensures c in Antennas(lines) <==> IsAntenna(c) && exists y :: 0 <= y < |lines| && c in lines[y]
  {
    if lines != [] {
      var y := |lines| - 1;
      AntennasMeaning(lines[..y], c, p);
      RowAntennasMeaning(Antennas(lines[..y]), lines[y], y, c, p);
      if c in Antennas(lines[..y]) {
        var y' :| 0 <= y' < y && c in lines[..y][y'];
        assert c in lines[y'];
      }
      if IsAntenna(c) && exists y' :: 0 <= y' < |lines| && c in lines[y'] {
        var y' :| 0 <= y' < |lines| && c in lines[y'];
        if y' < y {
          assert c in lines[..y][y'];
        }
      }
    }
  }

  /** Scanning a row after rows above it keeps each list in reading order and within the rows scanned. */
  lemma {:induction false} RowAntennasOrdered(m: map<char, seq<Coord>>, row: string, y: int, c: char)
    requires Ordered(Lookup(m, c)) && forall i :: 0 <= i < |Lookup(m, c)| ==> Lookup(m, c)[i].1 < y
    ensures Ordered(Lookup(RowAntennas(m, row, y), c))
    ensures forall i :: 0 <= i < |Lookup(RowAntennas(m, row, y), c)| ==>
      Before(Lookup(RowAntennas(m, row, y), c)[i], (|row|, y))
  {
    if row != [] {
      var x := |row| - 1;
      RowAntennasOrdered(m, row[..x], y, c);
    }
  }

  /** Every list of the map is in reading order, hence without repeats. */
  lemma {:induction false} AntennasOrdered(lines: seq<string>, c: char)
    ensures Ordered(Lookup(Antennas(lines), c)) && Distinct(Lookup(Antennas(lines), c))
    ensures forall i :: 0 <= i < |Lookup(Antennas(lines), c)| ==> Lookup(Antennas(lines), c)[i].1 < |lines|
  {
    if lines != [] {
      var y := |lines| - 1;
      AntennasOrdered(lines[..y], c);
      RowAntennasOrdered(Antennas(lines[..y]), lines[y], y, c);
    }
  }

  /** `parse_map` scans the lines and each line's characters, recording antennas as it goes. */
  method ParseMap(lines: seq<string>) returns (r: Option<((nat, nat), map<char, seq<Coord>>)>)
    ensures r == Parse(lines)
  {
    if |lines| == 0 {
      return None;
    }
    var symbols: map<char, seq<Coord>> := map[];
    for y := 0 to |lines|
      invariant symbols == Antennas(lines[..y])
    {
      var row := lines[y];
      for x := 0 to |row|
        invariant symbols == RowAntennas(Antennas(lines[..y]), row[..x], y)
      {
        assert row[..x + 1][..x] == row[..x];
        var c := row[x];
        if IsAntenna(c) {
          symbols := symbols[c := (if c in symbols then symbols[c] else []) + [(x, y)]];
        }
      }
      assert row[..|row|] == row;
      assert lines[..y + 1][..y] == lines[..y];
    }
    assert lines[..|lines|] == lines;
    return Some(((|lines[0]|, |lines|), symbols));
  }

  // Antinodes

  /** `(0..w).contains(x) && (0..h).contains(y)`: the point lies on the map. */
  predicate InBounds(bounds: (nat, nat), p: Coord)
  {
    0 <= p.0 < bounds.0 && 0 <= p.1 < bounds.1
  }

  /** `a` moved `k` times by `d`. */
  function Step(a: Coord, d: Coord, k: int): Coord
  {
    (a.0 + k * d.0, a.1 + k * d.1)
  }

  /** The antinodes of the pair `a`, `b` of the first part: `a - (b - a)` and `b + (b - a)`, each if on the map. */
  function SimplePair(bounds: (nat, nat), a: Coord, b: Coord): set<Coord>
  {
    var (dx, dy) := (b.0 - a.0, b.1 - a.1);
    var nodeA := (a.0 - dx, a.1 - dy);
    var nodeB := (b.0 + dx, b.1 + dy);
    (if InBounds(bounds, nodeA) then {nodeA} else {}) + (if InBounds(bounds, nodeB) then {nodeB} else {})
  }

  /**
   * A simple antinode is exactly a point on the map, in line with the two
   * antennas, that is twice as far from one of them as from the other, on
   * the same side.
   */
  lemma SimplePairMeaning(bounds: (nat, nat), a: Coord, b: Coord, p: Coord)
    ensures p in SimplePair(bounds, a, b) <==>
      InBounds(bounds, p) &&
      ((p.0 - b.0, p.1 - b.1) == (2 * (p.0 - a.0), 2 * (p.1 - a.1)) ||
       (p.0 - a.0, p.1 - a.1) == (2 * (p.0 - b.0), 2 * (p.1 - b.1)))
  {
  }

  /** The order of the two antennas does not matter. */
  lemma SimplePairSymmetric(bounds: (nat, nat), a: Coord, b: Coord)
    ensures SimplePair(bounds, a, b) == SimplePair(bounds, b, a)
  {
    forall p
      ensures p in SimplePair(bounds, a, b) <==> p in SimplePair(bounds, b, a)
    {
      SimplePairMeaning(bounds, a, b, p);
      SimplePairMeaning(bounds, b, a, p);
    }
  }

  /** The largest step count a run from `a` can reach while staying on the map. */
  function RunLimit(bounds: (nat, nat), a: Coord): nat
  {
    Abs(a.0) + Abs(a.1) + bounds.0 + bounds.1
  }

  /** A nonzero step leaves the map after at most `RunLimit` steps. */
  lemma RunBound(bounds: (nat, nat), a: Coord, d: Coord, k: int)
    requires k >= 1 && d != (0, 0) && InBounds(bounds, Step(a, d, k))
    ensures k <= RunLimit(bounds, a)
  {
    if d.0 != 0 {
      MulAtLeast(Abs(d.0), k);
      assert Abs(k * d.0) == Abs(d.0) * k;
    } else {
      MulAtLeast(Abs(d.1), k);
      assert Abs(k * d.1) == Abs(d.1) * k;
    }
  }

  /**
   * The points `a + k*d`, `a + (k+1)*d`, ... up to the first one off the
   * map, which ends the source's `loop`; a zero step, for which that loop
   * never ends, gives nothing.
   */
  function Run(bounds: (nat, nat), a: Coord, d: Coord, k: int): set<Coord>
    requires k >= 1
    decreases RunLimit(bounds, a) - k
  {
    if d == (0, 0) || !InBounds(bounds, Step(a, d, k)) then {}
    else
      RunBound(bounds, a, d, k);
      {Step(a, d, k)} + Run(bounds, a, d, k + 1)
  }

  /** A run holds exactly the points `a + m*d`, `m >= k`, for which every step from `k` to `m` stays on the map. */
  lemma {:induction false} RunMeaning(bounds: (nat, nat), a: Coord, d: Coord, k: int, p: Coord)
    requires k >= 1 && d != (0, 0)
    ensures p in Run(bounds, a, d, k) <==>
      exists m :: k <= m && p == Step(a, d, m) && forall l :: k <= l <= m ==> InBounds(bounds, Step(a, d, l))
    decreases RunLimit(bounds, a) - k
  {
    if InBounds(bounds, Step(a, d, k)) {
      RunBound(bounds, a, d, k);
      RunMeaning(bounds, a, d, k + 1, p);
      if exists m :: k <= m && p == Step(a, d, m) && forall l :: k <= l <= m ==> InBounds(bounds, Step(a, d, l)) {
        var m :| k <= m && p == Step(a, d, m) && forall l :: k <= l <= m ==> InBounds(bounds, Step(a, d, l));
        if m > k {
          assert forall l :: k + 1 <= l <= m ==> InBounds(bounds, Step(a, d, l));
        }
      }
      if p in Run(bounds, a, d, k + 1) {
        var m :| k + 1 <= m && p == Step(a, d, m) && forall l :: k + 1 <= l <= m ==> InBounds(bounds, Step(a, d, l));
        assert forall l :: k <= l <= m ==> InBounds(bounds, Step(a, d, l));
      }
    }
  }

  /** The antinodes of the pair `a`, `b` of the second part: both antennas and every point of the two runs outward. */
  function ComplexPair(bounds: (nat, nat), a: Coord, b: Coord): set<Coord>
  {
    var d := (b.0 - a.0, b.1 - a.1);
    {a, b} + Run(bounds, a, (-d.0, -d.1), 1) + Run(bounds, b, d, 1)
  }

  /** The first part's rule for one pair of antennas. */
  function SimpleRule(bounds: (nat, nat)): (Coord, Coord) -> set<Coord>
  {
    (a, b) => SimplePair(bounds, a, b)
  }

  /** The second part's rule for one pair of antennas. */
  function ComplexRule(bounds: (nat, nat)): (Coord, Coord) -> set<Coord>
  {
    (a, b) => ComplexPair(bounds, a, b)
  }

  /** `acc` together with `rule(coords[i], coords[k])` for `i < k < j`, added in the order of `k`. */
  function Row(acc: set<Coord>, coords: seq<Coord>, i: nat, j: nat, rule: (Coord, Coord) -> set<Coord>): set<Coord>
    requires i < |coords| && j <= |coords|
  {
    if j <= i + 1 then acc else Row(acc, coords, i, j - 1, rule) + rule(coords[i], coords[j - 1])
  }

  /** The union of `rule` over the pairs whose first index is below `n`, in the order the source's two loops visit them. */
  function Pairs(coords: seq<Coord>, n: nat, rule: (Coord, Coord) -> set<Coord>): set<Coord>
    requires n <= |coords|
  {
    if n == 0 then {} else Row(Pairs(coords, n - 1, rule), coords, n - 1, |coords|, rule)
  }

  lemma {:induction false} RowMeaning(acc: set<Coord>, coords: seq<Coord>, i: nat, j: nat,
                                      rule: (Coord, Coord) -> set<Coord>, p: Coord)
    requires i < |coords| && j <= |coords|
    ensures p in Row(acc, coords, i, j, rule) <==> p in acc || exists k :: i < k < j && p in rule(coords[i], coords[k])
  {
    if j > i + 1 {
      RowMeaning(acc, coords, i, j - 1, rule, p);
    }
  }

  /** A point is collected exactly when it is produced by some pair of antennas, the first listed before the second. */
  lemma {:induction false} PairsMeaning(coords: seq<Coord>, n: nat, rule: (Coord, Coord) -> set<Coord>, p: Coord)
    requires n <= |coords|
    ensures p in Pairs(coords, n, rule) <==>
      exists i, j :: 0 <= i < n && i < j < |coords| && p in rule(coords[i], coords[j])
  {
    if n > 0 {
      PairsMeaning(coords, n - 1, rule, p);
      RowMeaning(Pairs(coords, n - 1, rule), coords, n - 1, |coords|, rule, p);
    }
  }

  /** The first part's antinodes of one frequency. */
  function SimpleAntinodes(bounds: (nat, nat), coords: seq<Coord>): set<Coord>
  {
    Pairs(coords, |coords|, SimpleRule(bounds))
  }

  /** The second part's antinodes of one frequency. */
  function ComplexAntinodes(bounds: (nat, nat), coords: seq<Coord>): set<Coord>
  {
    Pairs(coords, |coords|, ComplexRule(bounds))
  }

  /** The body of the inner loop of the first part: the node beyond each antenna, if on the map. */
  method AddSimplePair(bounds: (nat, nat), a: Coord, b: Coord, antinodes0: set<Coord>) returns (antinodes: set<Coord>)
    ensures antinodes == antinodes0 + SimpleRule(bounds)(a, b)
  {
    antinodes := antinodes0;
    var aToB := (b.0 - a.0, b.1 - a.1);
    var nodeA := (a.0 - aToB.0, a.1 - aToB.1);
    if InBounds(bounds, nodeA) {
      antinodes := antinodes + {nodeA};
    }
    var nodeB := (b.0 + aToB.0, b.1 + aToB.1);
    if InBounds(bounds, nodeB) {
      antinodes := antinodes + {nodeB};
    }
  }

  /** `find_all_simple_antinodes_in_bounds_for_one_symbol`: both nodes of every pair `idx < j`, each if on the map. */
  method FindSimpleAntinodes(bounds: (nat, nat), coords: seq<Coord>) returns (antinodes: set<Coord>)
    ensures antinodes == SimpleAntinodes(bounds, coords)
  {
    antinodes := {};
    for idx := 0 to |coords|
      invariant antinodes == Pairs(coords, idx, SimpleRule(bounds))
    {
      for j := idx + 1 to |coords|
        invariant antinodes == Row(Pairs(coords, idx, SimpleRule(bounds)), coords, idx, j, SimpleRule(bounds))
      {
        antinodes := AddSimplePair(bounds, coords[idx], coords[j], antinodes);
      }
    }
  }

  /** The source's stepping `loop`: add `a + i*d` for `i = 1, 2, ...` until a point falls off the map. */
  method AddRun(bounds: (nat, nat), a: Coord, d: Coord, antinodes0: set<Coord>) returns (antinodes: set<Coord>)
    requires d != (0, 0)
    ensures antinodes == antinodes0 + Run(bounds, a, d, 1)
  {
    antinodes := antinodes0;
    var i := 1;
    while true
      invariant i >= 1 && antinodes + Run(bounds, a, d, i) == antinodes0 + Run(bounds, a, d, 1)
      decreases RunLimit(bounds, a) - i
    {
      var node := (a.0 + i * d.0, a.1 + i * d.1);
      if InBounds(bounds, node) {
        RunBound(bounds, a, d, i);
        antinodes := antinodes + {node};
        i := i + 1;
      } else {
        break;
      }
    }
  }

  /** The body of the inner loop of the second part: both antennas, then the steps outward from each. */
  method AddComplexPair(bounds: (nat, nat), a: Coord, b: Coord, antinodes0: set<Coord>) returns (antinodes: set<Coord>)
    requires a != b
    ensures antinodes == antinodes0 + ComplexRule(bounds)(a, b)
  {
    var aToB := (b.0 - a.0, b.1 - a.1);
    antinodes := antinodes0 + {a, b};
    antinodes := AddRun(bounds, a, (-aToB.0, -aToB.1), antinodes);
    antinodes := AddRun(bounds, b, aToB, antinodes);
  }

  /**
   * `find_all_complex_antinodes_in_bounds_for_one_symbol`: for every pair
   * both antennas, then the steps outward from each. Two equal coordinates
   * would make a stepping loop run forever, so the list has no repeats, as
   * `parse_map` guarantees.
   */
  method FindComplexAntinodes(bounds: (nat, nat), coords: seq<Coord>) returns (antinodes: set<Coord>)
    requires Distinct(coords)
    ensures antinodes == ComplexAntinodes(bounds, coords)
  {
    antinodes := {};
    for idx := 0 to |coords|
      invariant antinodes == Pairs(coords, idx, ComplexRule(bounds))
    {
      for j := idx + 1 to |coords|
        invariant antinodes == Row(Pairs(coords, idx, ComplexRule(bounds)), coords, idx, j, ComplexRule(bounds))
      {
        antinodes := AddComplexPair(bounds, coords[idx], coords[j], antinodes);
      }
    }
  }

  // What the antinodes are

  /** The puzzle's simple antinode: a point on the map, in line with `a` and `b`, twice as far from one as from the other. */
  predicate SimpleAntinode(bounds: (nat, nat), a: Coord, b: Coord, p: Coord)
  {
    InBounds(bounds, p) &&
    ((p.0 - b.0, p.1 - b.1) == (2 * (p.0 - a.0), 2 * (p.1 - a.1)) ||
     (p.0 - a.0, p.1 - a.1) == (2 * (p.0 - b.0), 2 * (p.1 - b.1)))
  }

  /** The first part collects exactly the simple antinodes of the pairs of the list. */
  lemma SimpleAntinodesMeaning(bounds: (nat, nat), coords: seq<Coord>, p: Coord)
    ensures p in SimpleAntinodes(bounds, coords) <==>
      exists i, j :: 0 <= i < j < |coords| && SimpleAntinode(bounds, coords[i], coords[j], p)
  {
    PairsMeaning(coords, |coords|, SimpleRule(bounds), p);
    forall i, j | 0 <= i < j < |coords|
      ensures p in SimpleRule(bounds)(coords[i], coords[j]) <==> SimpleAntinode(bounds, coords[i], coords[j], p)
    {
      SimplePairMeaning(bounds, coords[i], coords[j], p);
    }
  }

  /** `p` is `a` plus a whole multiple of `b - a`. */
  ghost predicate OnLine(a: Coord, b: Coord, p: Coord)
  {
    exists m :: p == Step(a, Delta(a, b), m)
  }

  /** `b - a`, the source's `a_to_b`. */
  function Delta(a: Coord, b: Coord): Coord
  {
    (b.0 - a.0, b.1 - a.1)
  }

  /** A point between `a` and `a + m*d` on the segment lies on the map when both ends do. */
  lemma Between(bounds: (nat, nat), a: Coord, d: Coord, m: int, l: int)
    requires InBounds(bounds, a) && InBounds(bounds, Step(a, d, m))
    requires 0 <= l <= m || m <= l <= 0
    ensures InBounds(bounds, Step(a, d, l))
  {
    MulBetween(l, m, d.0);
    MulBetween(l, m, d.1);
  }

  /** `l*x` lies between `0` and `m*x` when `l` lies between `0` and `m`. */
  lemma MulBetween(l: int, m: int, x: int)
    requires 0 <= l <= m || m <= l <= 0
    ensures (0 <= l * x <= m * x) || (m * x <= l * x <= 0)
  {
    if 0 <= l <= m {
      assert (m - l) * x == m * x - l * x;
      if x >= 0 {
        assert (m - l) * x >= 0;
      } else {
        assert (m - l) * (-x) >= 0 && l * (-x) >= 0;
      }
    } else {
      assert (l - m) * x == l * x - m * x;
      if x >= 0 {
        assert (l - m) * x >= 0 && (-l) * x >= 0;
      } else {
        assert (l - m) * (-x) >= 0 && (-l) * (-x) >= 0;
      }
    }
  }

  /** `k` steps of `-d` from `a` are `-k` steps of `d`; `k` steps of `d` from `a + d` are `k + 1` steps from `a`. */
  lemma StepShift(a: Coord, d: Coord, k: int)
    ensures Step(a, (-d.0, -d.1), k) == Step(a, d, -k)
    ensures Step((a.0 + d.0, a.1 + d.1), d, k) == Step(a, d, k + 1)
  {
    assert k * (-d.0) == (-k) * d.0 && k * (-d.1) == (-k) * d.1;
    assert (k + 1) * d.0 == k * d.0 + d.0 && (k + 1) * d.1 == k * d.1 + d.1;
  }

  /** Every antinode of the second part lies on the line through the two antennas, at a whole multiple of their difference. */
  lemma ComplexPairOnLine(bounds: (nat, nat), a: Coord, b: Coord, p: Coord)
    requires a != b && p in ComplexPair(bounds, a, b)
    ensures OnLine(a, b, p)
  {
    var d := Delta(a, b);
    var nd := (-d.0, -d.1);
    if p == a {
      assert p == Step(a, d, 0);
    } else if p == b {
      assert p == Step(a, d, 1);
    } else if p in Run(bounds, a, nd, 1) {
      RunMeaning(bounds, a, nd, 1, p);
      var m :| 1 <= m && p == Step(a, nd, m) && forall l :: 1 <= l <= m ==> InBounds(bounds, Step(a, nd, l));
      StepShift(a, d, m);
      assert p == Step(a, d, -m);
    } else {
      RunMeaning(bounds, b, d, 1, p);
      var m :| 1 <= m && p == Step(b, d, m) && forall l :: 1 <= l <= m ==> InBounds(bounds, Step(b, d, l));
      StepShift(a, d, m);
      assert p == Step(a, d, m + 1);
    }
  }

  /** With both antennas on the map, every point of the map at a whole multiple of their difference is an antinode of the second part. */
  lemma ComplexPairComplete(bounds: (nat, nat), a: Coord, b: Coord, m: int)
    requires a != b && InBounds(bounds, a) && InBounds(bounds, b)
    requires InBounds(bounds, Step(a, (b.0 - a.0, b.1 - a.1), m))
    ensures Step(a, (b.0 - a.0, b.1 - a.1), m) in ComplexPair(bounds, a, b)
  {
    var d := (b.0 - a.0, b.1 - a.1);
    var nd := (-d.0, -d.1);
    var p := Step(a, d, m);
    if m == 0 {
      assert p == a;
    } else if m == 1 {
      assert p == b;
    } else if m < 0 {
      forall l | 1 <= l <= -m
        ensures InBounds(bounds, Step(a, nd, l))
      {
        StepShift(a, d, l);
        Between(bounds, a, d, m, -l);
      }
      StepShift(a, d, -m);
      RunMeaning(bounds, a, nd, 1, p);
    } else {
      forall l | 1 <= l <= m - 1
        ensures InBounds(bounds, Step(b, d, l))
      {
        StepShift(a, d, l);
        Between(bounds, a, d, m, l + 1);
      }
      StepShift(a, d, m - 1);
      RunMeaning(bounds, b, d, 1, p);
    }
  }

  /** With both antennas on the map, the second part's antinodes of the pair are exactly the points of the map on their line. */
  lemma ComplexPairMeaning(bounds: (nat, nat), a: Coord, b: Coord, p: Coord)
    requires a != b && InBounds(bounds, a) && InBounds(bounds, b)
    ensures p in ComplexPair(bounds, a, b) <==> InBounds(bounds, p) && OnLine(a, b, p)
  {
    var d := (b.0 - a.0, b.1 - a.1);
    if p in ComplexPair(bounds, a, b) {
      ComplexPairOnLine(bounds, a, b, p);
      if p != a && p != b {
        if p in Run(bounds, a, (-d.0, -d.1), 1) {
          RunMeaning(bounds, a, (-d.0, -d.1), 1, p);
        } else {
          RunMeaning(bounds, b, d, 1, p);
        }
      }
    }
    if InBounds(bounds, p) && OnLine(a, b, p) {
      var m :| p == Step(a, d, m);
      ComplexPairComplete(bounds, a, b, m);
    }
  }

  /**
   * With every antenna on the map and none repeated, the second part
   * collects exactly the points of the map on a line through two antennas
   * of the list, at a whole multiple of their difference.
   */
  lemma ComplexAntinodesMeaning(bounds: (nat, nat), coords: seq<Coord>, p: Coord)
    requires Distinct(coords) && forall k :: 0 <= k < |coords| ==> InBounds(bounds, coords[k])
    ensures p in ComplexAntinodes(bounds, coords) <==>
      InBounds(bounds, p) && exists i, j :: 0 <= i < j < |coords| && OnLine(coords[i], coords[j], p)
  {
    PairsMeaning(coords, |coords|, ComplexRule(bounds), p);
    forall i, j | 0 <= i < j < |coords|
      ensures p in ComplexRule(bounds)(coords[i], coords[j]) <==>
        InBounds(bounds, p) && OnLine(coords[i], coords[j], p)
    {
      ComplexPairMeaning(bounds, coords[i], coords[j], p);
    }
  }

  /** On a map whose lines all have the first line's length, every parsed antenna lies within the parsed bounds. */
  lemma ParsedWithinBounds(lines: seq<string>, c: char, p: Coord)
    requires lines != [] && forall y :: 0 <= y < |lines| ==> |lines[y]| == |lines[0]|
    requires p in Lookup(Antennas(lines), c)
    ensures InBounds(Parse(lines).value.0, p)
  {
    AntennasMeaning(lines, c, p);
  }
}
