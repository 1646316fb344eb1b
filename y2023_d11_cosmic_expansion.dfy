// Galaxies in an image (2023, day 11): parse the image into rows of
// galaxy flags, find the rows and columns without a galaxy (the ones the
// universe's expansion doubles), and measure distances on the grid.

module CosmicExpansion {
  import opened Wrappers

  /** `Universe`: one row of flags per image line, `true` where a galaxy is. */
  type Universe = seq<seq<bool>>

  // Parsing

  /** A character the row pattern `[.#]` accepts. */
  predicate IsCell(c: char)
  {
    c == '.' || c == '#'
  }

  /** The length of the longest prefix of `s` made of `.` and `#`. */
  function Run(s: string): (n: nat)
    ensures n <= |s|
  {
    if s != [] && IsCell(s[0]) then 1 + Run(s[1..]) else 0
  }

  /** The flags of a matched row: `#` is a galaxy, `.` empty space. */
  function RowOf(t: string): seq<bool>
  {
    seq(|t|, i requires 0 <= i < |t| => t[i] == '#')
  }

  /** Where `separated_list1` stops: no row starts here, nor after a single newline. */
  predicate Stops(rest: string)
  {
    Run(rest) == 0 && !(|rest| > 1 && rest[0] == '\n' && IsCell(rest[1]))
  }

  /**
   * `separated_list1(newline, parse_row)` once a first row is known to match:
   * the rows and the unconsumed input. A newline not followed by a row is
   * left in the input.
   */
  function ParseRows(s: string): (Universe, string)
    requires Run(s) > 0
    decreases |s|
  {
    var n := Run(s);
    var row := RowOf(s[..n]);
    var rest := s[n..];
    if |rest| > 1 && rest[0] == '\n' && Run(rest[1..]) > 0 then
      var (rows, tail) := ParseRows(rest[1..]);
      ([row] + rows, tail)
    else
      ([row], rest)
  }

  /** `parse_universe`: `None` is nom's error when the input does not start with a row; otherwise the rest of the input and the rows. */
  function ParseUniverse(input: string): Option<(string, Universe)>
  {
    if Run(input) == 0 then None
    else
      var (u, rest) := ParseRows(input);
      Some((rest, u))
  }

  /** A row as the image shows it. */
  function ShowRow(row: seq<bool>): string
  {
    seq(|row|, i requires 0 <= i < |row| => if row[i] then '#' else '.')
  }

  /** The image of a universe: its rows joined by newlines. */
  function Render(u: Universe): string
    requires u != []
  {
    ShowRow(u[0]) + if |u| == 1 then [] else "\n" + Render(u[1..])
  }

  /** A universe the parser can produce: at least one row, and no empty row. */
  predicate WellFormed(u: Universe)
  {
    u != [] && forall r :: 0 <= r < |u| ==> u[r] != []
  }

  /** `Run` measures the cells of a shown row and then goes on into what follows. */
  lemma {:induction false} RunShowRow(row: seq<bool>, rest: string)
    ensures Run(ShowRow(row) + rest) == |row| + Run(rest)
    decreases |row|
  {
    if row != [] {
      assert (ShowRow(row) + rest)[1..] == ShowRow(row[1..]) + rest;
      RunShowRow(row[1..], rest);
    } else {
      assert ShowRow(row) + rest == rest;
    }
  }

  /** The prefix that `Run` measures is all cells, and it ends at the end of `s` or before a character that is not a cell. */
  lemma {:induction false} RunMeaning(s: string)
    ensures forall i :: 0 <= i < Run(s) ==> IsCell(s[i])
    ensures Run(s) == |s| || !IsCell(s[Run(s)])
    decreases |s|
  {
    if s != [] && IsCell(s[0]) {
      RunMeaning(s[1..]);
    }
  }

  /** Showing the rows a parser read gives back the text it consumed. */
  lemma RowOfShowRow(t: string)
    requires forall i :: 0 <= i < |t| ==> IsCell(t[i])
    ensures ShowRow(RowOf(t)) == t
  {
  }

  /** The rows parser takes a shown row off the front and goes on after it. */
  lemma ParseRowsShown(row: seq<bool>, after: string)
    requires row != [] && Run(after) == 0
    ensures Run(ShowRow(row) + after) == |row|
    ensures ParseRows(ShowRow(row) + after) ==
      if |after| > 1 && after[0] == '\n' && Run(after[1..]) > 0 then
        ([row] + ParseRows(after[1..]).0, ParseRows(after[1..]).1)
      else ([row], after)
  {
    var s := ShowRow(row) + after;
    RunShowRow(row, after);
    assert s[..|row|] == ShowRow(row) && s[|row|..] == after;
    assert RowOf(ShowRow(row)) == row;
  }

  /** A single shown row, followed by a rest at which the parser stops, parses to that row alone. */
  lemma ParseOneRowRender(row: seq<bool>, rest: string)
    requires row != [] && Stops(rest)
    ensures Run(ShowRow(row) + rest) == |row|
    ensures ParseRows(ShowRow(row) + rest) == ([row], rest)
  {
    ParseRowsShown(row, rest);
    if |rest| > 1 && Run(rest[1..]) > 0 {
      assert IsCell(rest[1]);
    }
  }

  /** A shown row, a newline and more rows parse to that row followed by the rows parsed after the newline. */
  lemma ParseRowsNext(row: seq<bool>, t: string)
    requires row != [] && Run(t) > 0
    ensures Run(ShowRow(row) + "\n" + t) == |row|
    ensures ParseRows(ShowRow(row) + "\n" + t) == ([row] + ParseRows(t).0, ParseRows(t).1)
  {
    var after := "\n" + t;
    assert ShowRow(row) + "\n" + t == ShowRow(row) + after;
    assert after[1..] == t;
    ParseRowsShown(row, after);
  }

  /** The image of two or more rows is the first row, a newline and the image of the others. */
  lemma RenderNext(u: Universe, rest: string)
    requires |u| > 1
    ensures Render(u) + rest == ShowRow(u[0]) + "\n" + (Render(u[1..]) + rest)
  {
  }

  /** The rows parser reads a well-formed universe back from its image and stops at the rest. */
  lemma {:induction false} ParseRowsRender(u: Universe, rest: string)
    requires WellFormed(u) && Stops(rest)
    ensures Run(Render(u) + rest) == |u[0]| > 0
    ensures ParseRows(Render(u) + rest) == (u, rest)
    decreases |u|
  {
    if |u| == 1 {
      ParseOneRowRender(u[0], rest);
      assert Render(u) + rest == ShowRow(u[0]) + rest;
      assert [u[0]] == u;
    } else {
      var r1 := u[1..];
      assert WellFormed(r1) by {
        forall r | 0 <= r < |r1|
          ensures r1[r] != []
        {
          assert r1[r] == u[r + 1];
        }
      }
      ParseRowsRender(r1, rest);
      RenderNext(u, rest);
      ParseRowsNext(u[0], Render(r1) + rest);
      assert [u[0]] + r1 == u;
    }
  }

  /** Round trip: the parser reads back every well-formed universe from its image, leaving any rest at which it stops. */
  lemma ParseRender(u: Universe, rest: string)
    requires WellFormed(u) && Stops(rest)
    ensures ParseUniverse(Render(u) + rest) == Some((rest, u))
  {
    ParseRowsRender(u, rest);
  }

  /** Putting a row in front of a well-formed universe keeps it well-formed and puts the row and a newline in front of its image. */
  lemma RenderCons(row: seq<bool>, rows: Universe, tail: string)
    requires row != [] && WellFormed(rows)
    ensures WellFormed([row] + rows)
    ensures Render([row] + rows) + tail == ShowRow(row) + "\n" + (Render(rows) + tail)
  {
    var u := [row] + rows;
    assert u[1..] == rows;
    RenderNext(u, tail);
    forall r | 0 <= r < |u|
      ensures u[r] != []
    {
      if r > 0 {
        assert u[r] == rows[r - 1];
      }
    }
  }

  /** The first row the parser reads is the run of cells at the front, shown back as the text it read; what follows does not start with a cell. */
  lemma ParseRowsFront(s: string)
    requires Run(s) > 0
    ensures s == ShowRow(RowOf(s[..Run(s)])) + s[Run(s)..]
    ensures RowOf(s[..Run(s)]) != [] && Run(s[Run(s)..]) == 0
  {
    var n := Run(s);
    RunMeaning(s);
    RowOfShowRow(s[..n]);
    if n < |s| {
      assert s[n..][0] == s[n];
    }
  }

  /** Where the parser reads no further row, it has read one well-formed row and stops. */
  lemma LastRow(row: seq<bool>, after: string)
    requires row != [] && Run(after) == 0
    requires !(|after| > 1 && after[0] == '\n' && Run(after[1..]) > 0)
    ensures WellFormed([row]) && Stops(after) && ShowRow(row) + after == Render([row]) + after
  {
    if |after| > 1 && IsCell(after[1]) {
      assert Run(after[1..]) > 0;
    }
  }

  /** Every parse result is a well-formed universe followed by a rest at which the parser stops, and it consumed exactly the universe's image. */
  lemma {:induction false} ParseRowsMeaning(s: string)
    requires Run(s) > 0
    ensures WellFormed(ParseRows(s).0) && Stops(ParseRows(s).1)
    ensures s == Render(ParseRows(s).0) + ParseRows(s).1
    decreases |s|
  {
    var n := Run(s);
    var row := RowOf(s[..n]);
    var after := s[n..];
    ParseRowsFront(s);
    ParseRowsShown(row, after);
    if |after| > 1 && after[0] == '\n' && Run(after[1..]) > 0 {
      var t := after[1..];
      ParseRowsMeaning(t);
      assert after == "\n" + t;
      RenderCons(row, ParseRows(t).0, ParseRows(t).1);
    } else {
      LastRow(row, after);
    }
  }

  /** `parse_universe` fails exactly when the input does not start with `.` or `#`; a success is described by ParseRowsMeaning. */
  lemma ParseUniverseMeaning(input: string)
    ensures ParseUniverse(input) == None <==> input == [] || !IsCell(input[0])
    ensures ParseUniverse(input) != None ==>
      var (rest, u) := ParseUniverse(input).value;
      WellFormed(u) && Stops(rest) && input == Render(u) + rest
  {
    if Run(input) > 0 {
      ParseRowsMeaning(input);
    }
  }

  /** A two-by-two image with a trailing newline parses to its two rows, leaving the newline, as the tests expect of the larger example. */
  lemma ParseSample()
    ensures ParseUniverse("#.\n.#\n") == Some(("\n", [[true, false], [false, true]]))
  {
    var u: Universe := [[true, false], [false, true]];
    assert WellFormed(u);
    assert Render(u) == "#.\n.#" by {
      assert ShowRow(u[0]) == "#." && ShowRow(u[1]) == ".#";
      assert u[1..] == [[false, true]];
    }
    assert Stops("\n");
    ParseRender(u, "\n");
    assert "#.\n.#\n" == Render(u) + "\n";
  }

  // Empty rows and columns

  /** `row.iter().all(|x| !x)`: the row holds no galaxy. */
  predicate EmptyRow(row: seq<bool>)
  {
    forall x :: x in row ==> !x
  }

  /**
   * `universe.iter().all(|row| !row[c])`: rows are tried in order and the
   * first galaxy in column `c` stops the scan; reaching a row too short for
   * column `c` first is the panic of an index out of bounds (`None`).
   */
  function ColumnEmpty(u: Universe, c: nat): Option<bool>
  {
    if u == [] then Some(true)
    else if c >= |u[0]| then None
    else if u[0][c] then Some(false)
    else ColumnEmpty(u[1..], c)
  }

  /** No row has a galaxy in column `c`, and every row reaches it. */
  predicate EmptyColumn(u: Universe, c: nat)
  {
    forall r :: 0 <= r < |u| ==> c < |u[r]| && !u[r][c]
  }

  /** A column scan answers `true` exactly for an empty column, answers at all whenever every row reaches the column, and answers `false` only on a galaxy. */
  lemma {:induction false} ColumnEmptyMeaning(u: Universe, c: nat)
    ensures ColumnEmpty(u, c) == Some(true) <==> EmptyColumn(u, c)
    ensures (forall r :: 0 <= r < |u| ==> c < |u[r]|) ==> ColumnEmpty(u, c) != None
    ensures ColumnEmpty(u, c) == Some(false) ==> exists r :: 0 <= r < |u| && c < |u[r]| && u[r][c]
    decreases |u|
  {
    if u != [] && c < |u[0]| && !u[0][c] {
      ColumnEmptyMeaning(u[1..], c);
      if ColumnEmpty(u, c) == Some(false) {
        var r :| 0 <= r < |u[1..]| && c < |u[1..][r]| && u[1..][r][c];
        assert u[r + 1] == u[1..][r];
      }
      if EmptyColumn(u, c) {
        assert forall r :: 0 <= r < |u[1..]| ==> u[1..][r] == u[r + 1];
      }
      if ColumnEmpty(u, c) == Some(true) {
        forall r | 0 <= r < |u|
          ensures c < |u[r]| && !u[r][c]
        {
          if r > 0 {
            assert u[r] == u[1..][r - 1];
          }
        }
      }
      if forall r :: 0 <= r < |u| ==> c < |u[r]| {
        assert forall r :: 0 <= r < |u[1..]| ==> u[1..][r] == u[r + 1];
      }
    } else if u != [] && c < |u[0]| {
      assert u[0][c];
    }
  }

  /** The empty columns among `0..w`, in order, or `None` if any of those column scans panics. */
  function Columns(u: Universe, w: nat): Option<seq<nat>>
  {
    if w == 0 then Some([])
    else
      match Columns(u, w - 1)
      case None => None
      case Some(cols) =>
        match ColumnEmpty(u, w - 1)
        case None => None
        case Some(empty) => Some(cols + if empty then [w - 1] else [])
  }

  /** Appending an element above every element keeps a list increasing. */
  lemma AppendIncreasing(a: seq<nat>, x: nat)
    requires Increasing(a) && forall y :: y in a ==> y < x
    ensures Increasing(a + [x])
  {
    assert forall k :: 0 <= k < |a| ==> a[k] in a;
  }

  /** The column list is increasing and holds exactly the empty columns below `w`, and it exists whenever every row is `w` wide. */
  lemma {:induction false} ColumnsMeaning(u: Universe, w: nat)
    ensures Columns(u, w) != None ==>
      Increasing(Columns(u, w).value) && forall c: nat :: c in Columns(u, w).value <==> c < w && EmptyColumn(u, c)
    ensures (forall r :: 0 <= r < |u| ==> w <= |u[r]|) ==> Columns(u, w) != None
    decreases w
  {
    if w > 0 {
      ColumnsMeaning(u, w - 1);
      ColumnEmptyMeaning(u, w - 1);
      if Columns(u, w) != None {
        var cols := Columns(u, w - 1).value;
        var empty := ColumnEmpty(u, w - 1).value;
        assert Columns(u, w).value == cols + if empty then [w - 1] else [];
        if empty {
          AppendIncreasing(cols, w - 1);
        }
      }
    }
  }

  /**
   * `rows_cols_to_copy`: the indices of the rows and of the columns without
   * a galaxy. The columns counted are those of the first row; `None` is the
   * panic of `first().unwrap()` on an empty universe or of a row too short
   * for a column being scanned.
   */
  function RowsColsToCopy(u: Universe): Option<(seq<nat>, seq<nat>)>
  {
    if u == [] then None
    else
      match Columns(u, |u[0]|)
      case None => None
      case Some(cols) => Some((FilterIndices(u, EmptyRow), cols))
  }

  /** Both index lists are increasing and name exactly the empty rows and the empty columns; a non-empty universe whose rows are as wide as the first always succeeds. */
  lemma RowsColsToCopyMeaning(u: Universe)
    ensures RowsColsToCopy(u) == None <==> u == [] || Columns(u, |u[0]|) == None
    ensures u != [] && (forall r :: 0 <= r < |u| ==> |u[r]| == |u[0]|) ==> RowsColsToCopy(u) != None
    ensures RowsColsToCopy(u) != None ==>
      var (rows, cols) := RowsColsToCopy(u).value;
      Increasing(rows) && (forall i: nat :: i in rows <==> i < |u| && EmptyRow(u[i])) &&
      Increasing(cols) && (forall c: nat :: c in cols <==> c < |u[0]| && EmptyColumn(u, c))
  {
    if u != [] {
      ColumnsMeaning(u, |u[0]|);
      FilterMeaning(u, EmptyRow);
      var rows := FilterIndices(u, EmptyRow);
      forall i: nat | i in rows
        ensures i < |u|
      {
        var k :| 0 <= k < |rows| && rows[k] == i;
      }
    }
  }

  // Distances

  /** `manhattan_distance`: the difference of the columns plus that of the rows. */
  function ManhattanDistance(p: (nat, nat), q: (nat, nat)): nat
  {
    Abs(p.0 - q.0) + Abs(p.1 - q.1)
  }

  /** The distance is a metric on grid points: zero exactly between equal points, symmetric, and obeying the triangle inequality. */
  lemma ManhattanMetric(p: (nat, nat), q: (nat, nat), r: (nat, nat))
    ensures ManhattanDistance(p, q) == 0 <==> p == q
    ensures ManhattanDistance(p, q) == ManhattanDistance(q, p)
    ensures ManhattanDistance(p, r) <= ManhattanDistance(p, q) + ManhattanDistance(q, r)
  {
  }

  /** Each step to a neighbouring cell changes the distance to a fixed point by exactly one. */
  lemma ManhattanStep(p: (nat, nat), q: (nat, nat))
    ensures ManhattanDistance(p, (q.0 + 1, q.1)) - ManhattanDistance(p, q) in {-1, 1}
    ensures ManhattanDistance(p, (q.0, q.1 + 1)) - ManhattanDistance(p, q) in {-1, 1}
  {
  }

  /** The distances the tests check between galaxies of the expanded example. */
  lemma ManhattanSamples()
    ensures ManhattanDistance((6, 1), (11, 5)) == 9
    ensures ManhattanDistance((0, 4), (10, 9)) == 15
    ensures ManhattanDistance((2, 0), (7, 12)) == 17
    ensures ManhattanDistance((11, 0), (11, 5)) == 5
  {
  }
}
