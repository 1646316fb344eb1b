// A word search (2024, day 4): count the places and directions in which
// XMAS is spelled in a grid of letters, and the X-shaped pairs of MAS
// centred on an A.

module CeresSearch {
  import opened Wrappers

  datatype Direction = North | NorthEast | East | SouthEast | South | SouthWest | West | NorthWest

  /** `Direction::all`: the eight directions, clockwise from north. */
  const AllDirections: seq<Direction> := [North, NorthEast, East, SouthEast, South, SouthWest, West, NorthWest]

  /** `offset`: the `(dx, dy)` step of a direction, with `y` growing southward. */
  function Offset(d: Direction): (int, int)
  {
    match d
    case North => (0, -1)
    case NorthEast => (1, -1)
    case East => (1, 0)
    case SouthEast => (1, 1)
    case South => (0, 1)
    case SouthWest => (-1, 1)
    case West => (-1, 0)
    case NorthWest => (-1, -1)
  }

  /** The offsets are exactly the eight nonzero steps of at most one in each coordinate, one per direction. */
  lemma OffsetMeaning(dx: int, dy: int)
    ensures (exists d :: Offset(d) == (dx, dy)) <==> -1 <= dx <= 1 && -1 <= dy <= 1 && (dx, dy) != (0, 0)
    ensures forall d, e :: Offset(d) == Offset(e) ==> d == e
  {
    if -1 <= dx <= 1 && -1 <= dy <= 1 && (dx, dy) != (0, 0) {
      var d :=
        if dy == -1 then (if dx == -1 then NorthWest else if dx == 0 then North else NorthEast)
        else if dy == 0 then (if dx == -1 then West else East)
        else (if dx == -1 then SouthWest else if dx == 0 then South else SouthEast);
      assert Offset(d) == (dx, dy);
    }
  }

  /** `Direction::all` lists every direction once. */
  lemma AllDirectionsComplete()
    ensures forall d :: d in AllDirections
    ensures forall i, j :: 0 <= i < j < |AllDirections| ==> AllDirections[i] != AllDirections[j]
  {
    forall d
      ensures d in AllDirections
    {
      var i := match d
        case North => 0 case NorthEast => 1 case East => 2 case SouthEast => 3
        case South => 4 case SouthWest => 5 case West => 6 case NorthWest => 7;
      assert AllDirections[i] == d;
    }
  }

  /** The grid as `parse_grid` returns it: rows of characters, not necessarily of one length. */
  type Grid = seq<seq<char>>

  /**
   * `grid.get(y)?.get(x)?`: the character at `(x, y)`, `None` off the grid.
   * A coordinate of -1 becomes a huge index under the source's `as usize`,
   * which `get` rejects like any other index past the end.
   */
  function Cell(grid: Grid, x: int, y: int): Option<char>
  {
    if 0 <= y < |grid| && 0 <= x < |grid[y]| then Some(grid[y][x]) else None
  }

  /** The cell `k` steps from `(x, y)` along `d`: the source's `(y + k * dy, x + k * dx)`. */
  function Along(grid: Grid, x: nat, y: nat, d: Direction, k: nat): Option<char>
  {
    Cell(grid, x + k * Offset(d).0, y + k * Offset(d).1)
  }

  /** `scan_for_xmas_starting_here`: the four cells from `(x, y)` along `d` exist and read `XMAS`; `true` is the source's `Some(())`. */
  function ScanXmas(grid: Grid, x: nat, y: nat, d: Direction): bool
  {
    match (Along(grid, x, y, d, 0), Along(grid, x, y, d, 1), Along(grid, x, y, d, 2), Along(grid, x, y, d, 3))
    case (Some(c1), Some(c2), Some(c3), Some(c4)) => (c1, c2, c3, c4) == ('X', 'M', 'A', 'S')
    case _ => false
  }

  /** A scan succeeds exactly when the `k`-th cell along `d`, for `k` from 0 to 3, holds the `k`-th letter of `XMAS`. */
  lemma ScanXmasMeaning(grid: Grid, x: nat, y: nat, d: Direction)
    ensures ScanXmas(grid, x, y, d) <==> forall k :: 0 <= k < 4 ==> Along(grid, x, y, d, k) == Some("XMAS"[k])
  {
    if forall k :: 0 <= k < 4 ==> Along(grid, x, y, d, k) == Some("XMAS"[k]) {
      assert Along(grid, x, y, d, 0) == Some('X') && Along(grid, x, y, d, 1) == Some('M');
      assert Along(grid, x, y, d, 2) == Some('A') && Along(grid, x, y, d, 3) == Some('S');
    }
    if ScanXmas(grid, x, y, d) {
      forall k | 0 <= k < 4
        ensures Along(grid, x, y, d, k) == Some("XMAS"[k])
      {
        assert k == 0 || k == 1 || k == 2 || k == 3;
      }
    }
  }

  /** An XMAS starts on an `X` of the grid. */
  lemma ScanXmasStart(grid: Grid, x: nat, y: nat, d: Direction)
    requires ScanXmas(grid, x, y, d)
    ensures y < |grid| && x < |grid[y]| && grid[y][x] == 'X'
  {
  }

  /** An XMAS found, with its place and direction. */
  type Found = ((nat, nat), Direction)

  /** The `filter_map` over `ds`: each direction in which an XMAS starts at `(x, y)`, with that place, in the order of `ds`. */
  function Matches(grid: Grid, x: nat, y: nat, ds: seq<Direction>): seq<Found>
  {
    if ds == [] then []
    else
      var d := ds[|ds| - 1];
      Matches(grid, x, y, ds[..|ds| - 1]) + (if ScanXmas(grid, x, y, d) then [((x, y), d)] else [])
  }

  /** The XMASes found in the first `n` cells of row `y`, scanning only from `X` cells. */
  function RowXmases(grid: Grid, y: nat, n: nat): seq<Found>
    requires y < |grid| && n <= |grid[y]|
  {
    if n == 0 then []
    else RowXmases(grid, y, n - 1) + (if grid[y][n - 1] == 'X' then Matches(grid, n - 1, y, AllDirections) else [])
  }

  /** The XMASes found in the first `m` rows. */
  function Xmases(grid: Grid, m: nat): seq<Found>
    requires m <= |grid|
  {
    if m == 0 then [] else Xmases(grid, m - 1) + RowXmases(grid, m - 1, |grid[m - 1]|)
  }

  /** `find_all_xmases_in_grid`: row by row, cell by cell, every direction from each `X`. */
  method FindAllXmases(grid: Grid) returns (all: seq<Found>)
    ensures all == Xmases(grid, |grid|)
  {
    all := [];
    for y := 0 to |grid|
      invariant all == Xmases(grid, y)
    {
      var row := grid[y];
      for x := 0 to |row|
        invariant all == Xmases(grid, y) + RowXmases(grid, y, x)
      {
        if row[x] == 'X' {
          all := all + Matches(grid, x, y, AllDirections);
        }
      }
    }
  }

  /** A list without repeats. */
  predicate Distinct<T(==)>(s: seq<T>)
  {
    forall i, j :: 0 <= i < j < |s| ==> s[i] != s[j]
  }

  /** Two lists without repeats and without a common element join into one without repeats. */
  lemma DistinctConcat<T>(a: seq<T>, b: seq<T>)
    requires Distinct(a) && Distinct(b) && forall x :: x in a ==> x !in b
    ensures Distinct(a + b)
  {
    forall i, j | 0 <= i < j < |a + b|
      ensures (a + b)[i] != (a + b)[j]
    {
      if i < |a| && j >= |a| {
        assert (a + b)[i] in a && (a + b)[j] == b[j - |a|];
      }
    }
  }

  /** The matches at `(x, y)` are exactly the directions of `ds` in which an XMAS starts there, each once if `ds` has no repeats. */
  lemma {:induction false} MatchesMeaning(grid: Grid, x: nat, y: nat, ds: seq<Direction>)
    ensures forall e: Found :: e in Matches(grid, x, y, ds) <==> e.0 == (x, y) && e.1 in ds && ScanXmas(grid, x, y, e.1)
    ensures Distinct(ds) ==> Distinct(Matches(grid, x, y, ds))
  {
    if ds != [] {
      var front := ds[..|ds| - 1];
      var d := ds[|ds| - 1];
      MatchesMeaning(grid, x, y, front);
      assert ds == front + [d];
      if Distinct(ds) {
        assert Distinct(front);
        DistinctConcat(Matches(grid, x, y, front), if ScanXmas(grid, x, y, d) then [((x, y), d)] else []);
      }
    }
  }

  /** Row `y` reports exactly the XMASes starting in its first `n` cells, each once. */
  lemma {:induction false} RowXmasesMeaning(grid: Grid, y: nat, n: nat)
    requires y < |grid| && n <= |grid[y]|
    ensures forall e: Found :: e in RowXmases(grid, y, n) <==> e.0.1 == y && e.0.0 < n && ScanXmas(grid, e.0.0, y, e.1)
    ensures Distinct(RowXmases(grid, y, n))
  {
    if n > 0 {
      RowXmasesMeaning(grid, y, n - 1);
      AllDirectionsComplete();
      MatchesMeaning(grid, n - 1, y, AllDirections);
      var here := if grid[y][n - 1] == 'X' then Matches(grid, n - 1, y, AllDirections) else [];
      forall e: Found | e in RowXmases(grid, y, n)
        ensures e.0.1 == y && e.0.0 < n && ScanXmas(grid, e.0.0, y, e.1)
      {
      }
      forall e: Found | e.0.1 == y && e.0.0 < n && ScanXmas(grid, e.0.0, y, e.1)
        ensures e in RowXmases(grid, y, n)
      {
        if e.0.0 == n - 1 {
          ScanXmasStart(grid, e.0.0, y, e.1);
        }
      }
      DistinctConcat(RowXmases(grid, y, n - 1), here);
    }
  }

  /** The first `m` rows report exactly the XMASes starting in them, each once. */
  lemma {:induction false} XmasesPrefixMeaning(grid: Grid, m: nat)
    requires m <= |grid|
    ensures forall e: Found :: e in Xmases(grid, m) <==> e.0.1 < m && ScanXmas(grid, e.0.0, e.0.1, e.1)
    ensures Distinct(Xmases(grid, m))
  {
    if m > 0 {
      XmasesPrefixMeaning(grid, m - 1);
      RowXmasesMeaning(grid, m - 1, |grid[m - 1]|);
      forall e: Found | e.0.1 < m && ScanXmas(grid, e.0.0, e.0.1, e.1)
        ensures e in Xmases(grid, m)
      {
        ScanXmasStart(grid, e.0.0, e.0.1, e.1);
      }
      DistinctConcat(Xmases(grid, m - 1), RowXmases(grid, m - 1, |grid[m - 1]|));
    }
  }

  /** `find_all_xmases_in_grid` reports every place and direction of an XMAS, and each exactly once. */
  lemma XmasesMeaning(grid: Grid)
    ensures forall e: Found :: e in Xmases(grid, |grid|) <==> ScanXmas(grid, e.0.0, e.0.1, e.1)
    ensures Distinct(Xmases(grid, |grid|))
  {
    XmasesPrefixMeaning(grid, |grid|);
    forall e: Found | ScanXmas(grid, e.0.0, e.0.1, e.1)
      ensures e.0.1 < |grid|
    {
      ScanXmasStart(grid, e.0.0, e.0.1, e.1);
    }
  }

  // X-MAS

  /** One diagonal of an X-MAS: an `M` at one end and an `S` at the other, either way round. */
  predicate MasPair(a: char, b: char)
  {
    (a == 'M' && b == 'S') || (a == 'S' && b == 'M')
  }

  /** `scan_for_x_mas_centred_here`: the centre and the four diagonal neighbours exist, the centre is `A` and both diagonals read `MAS` one way or the other. */
  function ScanXMas(grid: Grid, x: nat, y: nat): bool
  {
    match (Cell(grid, x, y), Cell(grid, x - 1, y - 1), Cell(grid, x + 1, y - 1), Cell(grid, x - 1, y + 1), Cell(grid, x + 1, y + 1))
    case (Some(c), Some(tl), Some(tr), Some(bl), Some(br)) => c == 'A' && MasPair(tl, br) && MasPair(tr, bl)
    case _ => false
  }

  /** An X-MAS centre has a row above and below it and a column on each side. */
  lemma ScanXMasInterior(grid: Grid, x: nat, y: nat)
    requires ScanXMas(grid, x, y)
    ensures 1 <= y && y + 1 < |grid| && 1 <= x && x < |grid[y]| && grid[y][x] == 'A'
    ensures x + 1 < |grid[y - 1]| && x + 1 < |grid[y + 1]|
  {
  }

  /** Turning the X a quarter (swapping the roles of the two diagonals' ends) keeps an X-MAS an X-MAS: reading each diagonal the other way round does not matter. */
  lemma MasPairSymmetric(a: char, b: char)
    ensures MasPair(a, b) <==> MasPair(b, a)
    ensures MasPair(a, b) ==> a != b && a in "MS" && b in "MS"
  {
  }

  /** The X-MAS centres among the first `n` cells of row `y`. */
  function RowXMases(grid: Grid, y: nat, n: nat): seq<(nat, nat)>
    requires y < |grid| && n <= |grid[y]|
  {
    if n == 0 then [] else RowXMases(grid, y, n - 1) + (if ScanXMas(grid, n - 1, y) then [(n - 1, y)] else [])
  }

  /** The X-MAS centres of the first `m` rows. */
  function XMases(grid: Grid, m: nat): seq<(nat, nat)>
    requires m <= |grid|
  {
    if m == 0 then [] else XMases(grid, m - 1) + RowXMases(grid, m - 1, |grid[m - 1]|)
  }

  /** `find_all_x_mases_in_grid`: every cell, in reading order, that centres an X-MAS. */
  method FindAllXMases(grid: Grid) returns (all: seq<(nat, nat)>)
    ensures all == XMases(grid, |grid|)
  {
    all := [];
    for y := 0 to |grid|
      invariant all == XMases(grid, y)
    {
      var row := grid[y];
      for x := 0 to |row|
        invariant all == XMases(grid, y) + RowXMases(grid, y, x)
      {
        if ScanXMas(grid, x, y) {
          all := all + [(x, y)];
        }
      }
    }
  }

  /** `p` comes strictly before `q` in reading order. */
  predicate Before(p: (nat, nat), q: (nat, nat))
  {
    p.1 < q.1 || (p.1 == q.1 && p.0 < q.0)
  }

  /** Row `y` reports exactly the X-MAS centres among its first `n` cells, left to right. */
  lemma {:induction false} RowXMasesMeaning(grid: Grid, y: nat, n: nat)
    requires y < |grid| && n <= |grid[y]|
    ensures forall p: (nat, nat) :: p in RowXMases(grid, y, n) <==> p.1 == y && p.0 < n && ScanXMas(grid, p.0, y)
    ensures forall i, j :: 0 <= i < j < |RowXMases(grid, y, n)| ==> Before(RowXMases(grid, y, n)[i], RowXMases(grid, y, n)[j])
  {
    if n > 0 {
      RowXMasesMeaning(grid, y, n - 1);
    }
  }

  /** The first `m` rows report exactly their X-MAS centres, in reading order. */
  lemma {:induction false} XMasesPrefixMeaning(grid: Grid, m: nat)
    requires m <= |grid|
    ensures forall p: (nat, nat) :: p in XMases(grid, m) <==> p.1 < m && ScanXMas(grid, p.0, p.1)
    ensures forall i, j :: 0 <= i < j < |XMases(grid, m)| ==> Before(XMases(grid, m)[i], XMases(grid, m)[j])
  {
    if m > 0 {
      XMasesPrefixMeaning(grid, m - 1);
      RowXMasesMeaning(grid, m - 1, |grid[m - 1]|);
      var (a, b) := (XMases(grid, m - 1), RowXMases(grid, m - 1, |grid[m - 1]|));
      forall i, j | 0 <= i < j < |a + b|
        ensures Before((a + b)[i], (a + b)[j])
      {
        if i < |a| && j >= |a| {
          assert (a + b)[i] in a && (a + b)[j] in b;
        }
      }
      forall p: (nat, nat) | p.1 < m && ScanXMas(grid, p.0, p.1)
        ensures p in XMases(grid, m)
      {
        ScanXMasInterior(grid, p.0, p.1);
      }
    }
  }

  /** `find_all_x_mases_in_grid` reports every X-MAS centre, once, in reading order. */
  lemma XMasesMeaning(grid: Grid)
    ensures forall p: (nat, nat) :: p in XMases(grid, |grid|) <==> ScanXMas(grid, p.0, p.1)
    ensures forall i, j :: 0 <= i < j < |XMases(grid, |grid|)| ==> Before(XMases(grid, |grid|)[i], XMases(grid, |grid|)[j])
  {
    XMasesPrefixMeaning(grid, |grid|);
    forall p: (nat, nat) | ScanXMas(grid, p.0, p.1)
      ensures p.1 < |grid|
    {
      ScanXMasInterior(grid, p.0, p.1);
    }
  }
}
