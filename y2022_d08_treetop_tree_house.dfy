// Treetop tree house (2022, day 8).
//
// A square grid of tree heights. A tree is visible from outside the grid when,
// looking from it in at least one of the four directions, every tree up to the
// edge is strictly shorter. Its scenic score multiplies, over the four
// directions, how many trees it sees before its view is blocked by a tree at
// least as tall, counting that tree.

module TreetopTreeHouse {
  import opened Wrappers

  /** A grid of heights, row by row. */
  type Heights = seq<seq<nat>>

  /** `n` rows of `n` cells each, as the source's `[[u8; N]; N]`. */
  predicate Square<T>(g: seq<seq<T>>, n: nat)
  {
    |g| == n && forall r :: 0 <= r < n ==> |g[r]| == n
  }

  /** The contents of a two-dimensional array, row by row. */
  function Cells<T>(a: array2<T>): (g: seq<seq<T>>)
    reads a
    ensures |g| == a.Length0 && forall r :: 0 <= r < |g| ==> |g[r]| == a.Length1
    ensures forall r, c :: 0 <= r < a.Length0 && 0 <= c < a.Length1 ==> g[r][c] == a[r, c]
  {
    seq(a.Length0, r requires 0 <= r < a.Length0 reads a =>
      seq(a.Length1, c requires 0 <= c < a.Length1 reads a => a[r, c]))
  }

  /** The sequence back to front. */
  function Reversed<T>(s: seq<T>): (r: seq<T>)
    ensures |r| == |s| && forall i :: 0 <= i < |s| ==> r[i] == s[|s| - 1 - i]
  {
    seq(|s|, i requires 0 <= i < |s| => s[|s| - 1 - i])
  }

  // The four lines of sight, as the source slices them

  /** The trees to the left, from the edge towards the tree. */
  function LeftOf(h: Heights, n: nat, row: nat, column: nat): (l: seq<nat>)
    requires Square(h, n) && row < n && column < n
    ensures |l| == column && forall i :: 0 <= i < column ==> l[i] == h[row][i]
  {
    h[row][..column]
  }

  /** The trees to the right, from the tree towards the edge. */
  function RightOf(h: Heights, n: nat, row: nat, column: nat): (l: seq<nat>)
    requires Square(h, n) && row < n && column < n
    ensures |l| == n - column - 1 && forall i :: 0 <= i < |l| ==> l[i] == h[row][column + 1 + i]
  {
    h[row][column + 1..]
  }

  /** The trees above, from the edge towards the tree. */
  function AboveOf(h: Heights, n: nat, row: nat, column: nat): (l: seq<nat>)
    requires Square(h, n) && row < n && column < n
    ensures |l| == row && forall i :: 0 <= i < row ==> l[i] == h[i][column]
  {
    seq(row, i requires 0 <= i < row => h[i][column])
  }

  /** The trees below, from the tree towards the edge. */
  function BelowOf(h: Heights, n: nat, row: nat, column: nat): (l: seq<nat>)
    requires Square(h, n) && row < n && column < n
    ensures |l| == n - row - 1 && forall i :: 0 <= i < |l| ==> l[i] == h[row + 1 + i][column]
  {
    seq(n - row - 1, i requires 0 <= i < n - row - 1 => h[row + 1 + i][column])
  }

  /** On the outer ring of the grid. */
  predicate IsEdge(n: nat, row: nat, column: nat)
  {
    row == 0 || column == 0 || row + 1 == n || column + 1 == n
  }

  // Visibility

  /** `filter(|n| n >= height).count()`: the trees in a line at least as tall as `height`. */
  function CountAtLeast(line: seq<nat>, height: nat): nat
  {
    if line == [] then 0
    else CountAtLeast(line[..|line| - 1], height) + (if line[|line| - 1] >= height then 1 else 0)
  }

  /** No tree in the line is as tall exactly when every tree is strictly shorter. */
  lemma {:induction false} CountAtLeastZero(line: seq<nat>, height: nat)
    ensures CountAtLeast(line, height) == 0 <==> forall i :: 0 <= i < |line| ==> line[i] < height
  {
    if line != [] {
      var front := line[..|line| - 1];
      CountAtLeastZero(front, height);
      assert forall i :: 0 <= i < |front| ==> front[i] == line[i];
    }
  }

  /**
   * The source's verdict for one tree: an edge tree is visible (the result
   * grid starts all `true` and only interior cells are overwritten); an
   * interior tree is visible when some line of sight has no tree at least as
   * tall.
   */
  predicate Visible(h: Heights, n: nat, row: nat, column: nat)
    requires Square(h, n) && row < n && column < n
  {
    var height := h[row][column];
    IsEdge(n, row, column) ||
    CountAtLeast(LeftOf(h, n, row, column), height) == 0 ||
    CountAtLeast(RightOf(h, n, row, column), height) == 0 ||
    CountAtLeast(AboveOf(h, n, row, column), height) == 0 ||
    CountAtLeast(BelowOf(h, n, row, column), height) == 0
  }

  /**
   * An interior tree is visible exactly when, in some direction, every tree
   * between it and the edge is strictly shorter.
   */
  lemma VisibleMeaning(h: Heights, n: nat, row: nat, column: nat)
    requires Square(h, n) && row < n && column < n && !IsEdge(n, row, column)
    ensures Visible(h, n, row, column) <==>
      var height := h[row][column];
      (forall c :: 0 <= c < column ==> h[row][c] < height) ||
      (forall c :: column < c < n ==> h[row][c] < height) ||
      (forall r :: 0 <= r < row ==> h[r][column] < height) ||
      (forall r :: row < r < n ==> h[r][column] < height)
  {
    var height := h[row][column];
    var left, right := LeftOf(h, n, row, column), RightOf(h, n, row, column);
    var above, below := AboveOf(h, n, row, column), BelowOf(h, n, row, column);
    CountAtLeastZero(left, height);
    CountAtLeastZero(right, height);
    CountAtLeastZero(above, height);
    CountAtLeastZero(below, height);
    assert (forall i :: 0 <= i < |right| ==> right[i] < height) <==> (forall c :: column < c < n ==> h[row][c] < height) by {
      if forall c :: column < c < n ==> h[row][c] < height {
        assert forall i :: 0 <= i < |right| ==> right[i] == h[row][column + 1 + i];
      }
      if forall i :: 0 <= i < |right| ==> right[i] < height {
        forall c | column < c < n
          ensures h[row][c] < height
        {
          assert right[c - column - 1] == h[row][c];
        }
      }
    }
    assert (forall i :: 0 <= i < |below| ==> below[i] < height) <==> (forall r :: row < r < n ==> h[r][column] < height) by {
      if forall r :: row < r < n ==> h[r][column] < height {
        assert forall i :: 0 <= i < |below| ==> below[i] == h[row + 1 + i][column];
      }
      if forall i :: 0 <= i < |below| ==> below[i] < height {
        forall r | row < r < n
          ensures h[r][column] < height
        {
          assert below[r - row - 1] == h[r][column];
        }
      }
    }
  }

  /** The tallest tree of the grid is visible from outside. */
  lemma TallestVisible(h: Heights, n: nat, row: nat, column: nat)
    requires Square(h, n) && row < n && column < n
    requires forall r, c :: 0 <= r < n && 0 <= c < n && (r, c) != (row, column) ==> h[r][c] < h[row][column]
    ensures Visible(h, n, row, column)
  {
    if !IsEdge(n, row, column) {
      VisibleMeaning(h, n, row, column);
      assert forall c :: 0 <= c < column ==> (row, c) != (row, column);
    }
  }

  /** The closure's verdict for one interior tree: does some line of sight hold no tree as tall? */
  method ClearSight(h: Heights, n: nat, row: nat, column: nat) returns (clear: bool)
    requires Square(h, n) && 0 < row < n - 1 && 0 < column < n - 1
    ensures clear == Visible(h, n, row, column)
  {
    var height := h[row][column];
    var left := h[row][..column];
    var right := h[row][column + 1..];
    var above := seq(row, i requires 0 <= i < row => h[i][column]);
    var below := seq(n - row - 1, i requires 0 <= i < n - row - 1 => h[row + 1 + i][column]);
    assert left == LeftOf(h, n, row, column) && right == RightOf(h, n, row, column);
    assert above == AboveOf(h, n, row, column) && below == BelowOf(h, n, row, column);
    clear := CountAtLeast(left, height) == 0 || CountAtLeast(right, height) == 0 ||
      CountAtLeast(above, height) == 0 || CountAtLeast(below, height) == 0;
  }

  /**
   * The result grid after the loops have reached (`row`, `column`): the
   * cells before it, row by row, hold their verdict, and the others still
   * hold the initial `true`.
   */
  ghost predicate VisibleFilled(visible: array2<bool>, h: Heights, n: nat, row: nat, column: nat)
    requires Square(h, n)
    reads visible
  {
    visible.Length0 == n && visible.Length1 == n &&
    forall r, c :: 0 <= r < n && 0 <= c < n ==>
      visible[r, c] == if r < row || (r == row && c < column) then Visible(h, n, r, c) else true
  }

  /**
   * `check_if_visible_from_outside`: a grid that starts all `true`, whose
   * interior cells are set row by row to whether some line of sight is clear.
   * The source works on a fixed `N` by `N` array and underflows `N - 1` for
   * an empty grid, so the grid has at least one row.
   */
  method CheckIfVisibleFromOutside(h: Heights, n: nat) returns (visible: array2<bool>)
    requires Square(h, n) && n >= 1
    ensures fresh(visible) && visible.Length0 == n && visible.Length1 == n
    ensures forall r, c :: 0 <= r < n && 0 <= c < n ==> visible[r, c] == Visible(h, n, r, c)
  {
    visible := new bool[n, n]((_, _) => true);
    var row := 1;
    assert VisibleFilled(visible, h, n, row, 0);
    while row < n - 1
      invariant 1 <= row <= if n >= 2 then n - 1 else 1
      invariant VisibleFilled(visible, h, n, row, 0)
    {
      FillVisibleRow(visible, h, n, row);
      row := row + 1;
    }
    assert VisibleFilled(visible, h, n, row, 0);
    forall r, c | 0 <= r < n && 0 <= c < n
      ensures visible[r, c] == Visible(h, n, r, c)
    {
      if r >= row {
        assert IsEdge(n, r, c);
      }
    }
  }

  /** The inner loop of `check_if_visible_from_outside`: the interior cells of one row. */
  method FillVisibleRow(visible: array2<bool>, h: Heights, n: nat, row: nat)
    requires Square(h, n) && 0 < row < n - 1
    requires VisibleFilled(visible, h, n, row, 0)
    modifies visible
    ensures VisibleFilled(visible, h, n, row + 1, 0)
  {
    var column := 1;
    assert VisibleFilled(visible, h, n, row, column);
    while column < n - 1
      invariant 1 <= column <= n - 1
      invariant VisibleFilled(visible, h, n, row, column)
    {
      var clear := ClearSight(h, n, row, column);
      visible[row, column] := clear;
      column := column + 1;
    }
  }

  /** How many `true` cells a grid holds. */
  function CountTrue(g: seq<seq<bool>>): nat
  {
    if g == [] then 0
    else CountTrue(g[..|g| - 1]) + CountRow(g[|g| - 1])
  }

  /** How many `true` cells a row holds. */
  function CountRow(row: seq<bool>): nat
  {
    if row == [] then 0
    else CountRow(row[..|row| - 1]) + (if row[|row| - 1] then 1 else 0)
  }

  /** The source's visibility grid. */
  function VisibilityGrid(h: Heights, n: nat): (v: seq<seq<bool>>)
    requires Square(h, n)
    ensures Square(v, n) && forall r, c :: 0 <= r < n && 0 <= c < n ==> v[r][c] == Visible(h, n, r, c)
  {
    seq(n, r requires 0 <= r < n => seq(n, c requires 0 <= c < n => Visible(h, n, r, c)))
  }

  /** A row never has more `true` cells than cells. */
  lemma {:induction false} CountRowBound(row: seq<bool>)
    ensures CountRow(row) <= |row|
    ensures (forall i :: 0 <= i < |row| ==> row[i]) ==> CountRow(row) == |row|
  {
    if row != [] {
      CountRowBound(row[..|row| - 1]);
    }
  }

  /** A row's `true` cells include its two ends when both are `true`. */
  lemma CountRowEnds(row: seq<bool>)
    requires |row| >= 2 && row[0] && row[|row| - 1]
    ensures CountRow(row) >= 2
  {
    var front := row[..|row| - 1];
    assert front[0] == row[0];
    CountRowAtLeastOne(front, 0);
  }

  /** A row holding a `true` cell counts at least one. */
  lemma {:induction false} CountRowAtLeastOne(row: seq<bool>, i: nat)
    requires i < |row| && row[i]
    ensures CountRow(row) >= 1
  {
    if i < |row| - 1 {
      CountRowAtLeastOne(row[..|row| - 1], i);
    }
  }

  /**
   * Every tree on the edge is visible, so an `n` by `n` grid with `n >= 2`
   * has at least its `4 * (n - 1)` edge trees visible.
   */
  lemma {:induction false} EdgeTreesCounted(h: Heights, n: nat, rows: nat)
    requires Square(h, n) && n >= 2 && 1 <= rows <= n
    ensures CountTrue(VisibilityGrid(h, n)[..rows]) >= n + 2 * (rows - 1) + (if rows == n then n - 2 else 0)
    decreases rows
  {
    var v := VisibilityGrid(h, n);
    var last := v[rows - 1];
    assert v[..rows][..rows - 1] == v[..rows - 1];
    if rows == 1 || rows == n {
      CountRowBound(last);
    } else {
      CountRowEnds(last);
    }
    if rows > 1 {
      EdgeTreesCounted(h, n, rows - 1);
    }
  }

  /** At least the `4 * (n - 1)` edge trees are counted. */
  lemma VisibleCountLowerBound(h: Heights, n: nat)
    requires Square(h, n) && n >= 2
    ensures CountTrue(VisibilityGrid(h, n)) >= 4 * (n - 1)
  {
    EdgeTreesCounted(h, n, n);
    assert VisibilityGrid(h, n)[..n] == VisibilityGrid(h, n);
  }

  /** `count_visible_trees`: how many trees are visible from outside the grid. */
  method CountVisibleTrees(h: Heights, n: nat) returns (count: nat)
    requires Square(h, n) && n >= 1
    ensures count == CountTrue(VisibilityGrid(h, n))
  {
    var visible := CheckIfVisibleFromOutside(h, n);
    forall r | 0 <= r < n
      ensures Cells(visible)[r] == VisibilityGrid(h, n)[r]
    {
    }
    assert Cells(visible) == VisibilityGrid(h, n);
    count := CountTrue(Cells(visible));
  }

  // Scenic scores

  /**
   * The source's fold over a line of sight: each tree adds one to the count
   * until a tree at least as tall as `height` has been passed.
   */
  function Sight(line: seq<nat>, height: nat, blocked: bool, acc: nat): (r: (bool, nat))
    decreases |line|
  {
    if line == [] then (blocked, acc)
    else
      var score := if blocked then acc else acc + 1;
      Sight(line[1..], height, blocked || line[0] >= height, score)
  }

  /** `fold((false, 0), ...).1`: how many trees the tree at `height` sees along the line. */
  function ViewingDistance(line: seq<nat>, height: nat): nat
  {
    Sight(line, height, false, 0).1
  }

  /** Once the view is blocked, the count stays where it is. */
  lemma {:induction false} SightBlocked(line: seq<nat>, height: nat, acc: nat)
    ensures Sight(line, height, true, acc) == (true, acc)
    decreases |line|
  {
    if line != [] {
      SightBlocked(line[1..], height, acc);
    }
  }

  /** While the view is clear, the count only adds to what came before. */
  lemma {:induction false} SightShift(line: seq<nat>, height: nat, acc: nat)
    ensures Sight(line, height, false, acc).1 == acc + ViewingDistance(line, height)
    decreases |line|
  {
    if line != [] {
      var blocked := line[0] >= height;
      if blocked {
        SightBlocked(line[1..], height, acc + 1);
        SightBlocked(line[1..], height, 1);
      } else {
        SightShift(line[1..], height, acc + 1);
        SightShift(line[1..], height, 1);
      }
    }
  }

  /** One step of the view: the first tree is always seen, and blocks the rest when it is as tall. */
  lemma ViewingDistanceStep(line: seq<nat>, height: nat)
    requires line != []
    ensures ViewingDistance(line, height) == 1 + if line[0] >= height then 0 else ViewingDistance(line[1..], height)
  {
    if line[0] >= height {
      SightBlocked(line[1..], height, 1);
    } else {
      SightShift(line[1..], height, 1);
    }
  }

  /**
   * The view reaches the first tree at least as tall, counting it, or the
   * edge when there is none: every tree before the last one seen is shorter,
   * and the view stops short of the edge only at a tree as tall.
   */
  lemma {:induction false} ViewingDistanceMeaning(line: seq<nat>, height: nat)
    ensures ViewingDistance(line, height) <= |line|
    ensures line != [] ==> ViewingDistance(line, height) >= 1
    ensures forall j :: 0 <= j < ViewingDistance(line, height) - 1 ==> line[j] < height
    ensures ViewingDistance(line, height) < |line| ==> line[ViewingDistance(line, height) - 1] >= height
    decreases |line|
  {
    if line != [] {
      ViewingDistanceStep(line, height);
      var d := ViewingDistance(line, height);
      if line[0] < height {
        var rest := line[1..];
        ViewingDistanceMeaning(rest, height);
        forall j | 0 <= j < d - 1
          ensures line[j] < height
        {
          if j > 0 {
            assert line[j] == rest[j - 1];
          }
        }
        if d < |line| {
          assert line[d - 1] == rest[d - 2];
        }
      }
    }
  }

  /**
   * The score of one tree: zero on the edge (the result grid starts at zero
   * and only interior cells are overwritten), otherwise the product of its
   * viewing distances looking left, right, up and down.
   */
  function ScenicScore(h: Heights, n: nat, row: nat, column: nat): nat
    requires Square(h, n) && row < n && column < n
  {
    if IsEdge(n, row, column) then 0
    else
      var height := h[row][column];
      ViewingDistance(Reversed(LeftOf(h, n, row, column)), height) *
      ViewingDistance(RightOf(h, n, row, column), height) *
      ViewingDistance(Reversed(AboveOf(h, n, row, column)), height) *
      ViewingDistance(BelowOf(h, n, row, column), height)
  }

  /** Edge trees score zero; every interior tree sees at least one tree each way and scores at least one. */
  lemma ScenicScoreSign(h: Heights, n: nat, row: nat, column: nat)
    requires Square(h, n) && row < n && column < n
    ensures ScenicScore(h, n, row, column) == 0 <==> IsEdge(n, row, column)
  {
    if !IsEdge(n, row, column) {
      var height := h[row][column];
      var a := ViewingDistance(Reversed(LeftOf(h, n, row, column)), height);
      var b := ViewingDistance(RightOf(h, n, row, column), height);
      var c := ViewingDistance(Reversed(AboveOf(h, n, row, column)), height);
      var d := ViewingDistance(BelowOf(h, n, row, column), height);
      ViewingDistanceMeaning(Reversed(LeftOf(h, n, row, column)), height);
      ViewingDistanceMeaning(RightOf(h, n, row, column), height);
      ViewingDistanceMeaning(Reversed(AboveOf(h, n, row, column)), height);
      ViewingDistanceMeaning(BelowOf(h, n, row, column), height);
      MulAtLeast(a, b);
      MulAtLeast(a * b, c);
      MulAtLeast(a * b * c, d);
    }
  }

  /** The score grid after the loops have reached (`row`, `column`), as `VisibleFilled`. */
  ghost predicate ScoresFilled(scores: array2<nat>, h: Heights, n: nat, row: nat, column: nat)
    requires Square(h, n)
    reads scores
  {
    scores.Length0 == n && scores.Length1 == n &&
    forall r, c :: 0 <= r < n && 0 <= c < n ==>
      scores[r, c] == if r < row || (r == row && c < column) then ScenicScore(h, n, r, c) else 0
  }

  /**
   * `find_scenic_scores`: a grid that starts at zero, whose interior cells are
   * set row by row to the tree's scenic score.
   */
  method FindScenicScores(h: Heights, n: nat) returns (scores: array2<nat>)
    requires Square(h, n) && n >= 1
    ensures fresh(scores) && scores.Length0 == n && scores.Length1 == n
    ensures forall r, c :: 0 <= r < n && 0 <= c < n ==> scores[r, c] == ScenicScore(h, n, r, c)
  {
    scores := new nat[n, n]((_, _) => 0);
    var row := 1;
    assert ScoresFilled(scores, h, n, row, 0);
    while row < n - 1
      invariant 1 <= row <= if n >= 2 then n - 1 else 1
      invariant ScoresFilled(scores, h, n, row, 0)
    {
      FillScoreRow(scores, h, n, row);
      row := row + 1;
    }
    assert ScoresFilled(scores, h, n, row, 0);
    forall r, c | 0 <= r < n && 0 <= c < n
      ensures scores[r, c] == ScenicScore(h, n, r, c)
    {
      if r >= row {
        assert IsEdge(n, r, c);
      }
    }
  }

  /** The inner loop of `find_scenic_scores`: the interior cells of one row. */
  method FillScoreRow(scores: array2<nat>, h: Heights, n: nat, row: nat)
    requires Square(h, n) && 0 < row < n - 1
    requires ScoresFilled(scores, h, n, row, 0)
    modifies scores
    ensures ScoresFilled(scores, h, n, row + 1, 0)
  {
    var column := 1;
    assert ScoresFilled(scores, h, n, row, column);
    while column < n - 1
      invariant 1 <= column <= n - 1
      invariant ScoresFilled(scores, h, n, row, column)
    {
      var score := SceneAt(h, n, row, column);
      scores[row, column] := score;
      column := column + 1;
    }
  }

  /** The closure's score for one interior tree: the product of its four viewing distances. */
  method SceneAt(h: Heights, n: nat, row: nat, column: nat) returns (score: nat)
    requires Square(h, n) && 0 < row < n - 1 && 0 < column < n - 1
    ensures score == ScenicScore(h, n, row, column)
  {
    var height := h[row][column];
    var left := seq(column, i requires 0 <= i < column => h[row][column - 1 - i]);
    var right := h[row][column + 1..];
    var above := seq(row, i requires 0 <= i < row => h[row - 1 - i][column]);
    var below := seq(n - row - 1, i requires 0 <= i < n - row - 1 => h[row + 1 + i][column]);
    assert left == Reversed(LeftOf(h, n, row, column)) && above == Reversed(AboveOf(h, n, row, column));
    assert right == RightOf(h, n, row, column) && below == BelowOf(h, n, row, column);
    score := ViewingDistance(left, height) * ViewingDistance(right, height) *
      ViewingDistance(above, height) * ViewingDistance(below, height);
  }

  // The example grid of the tests

  function SampleGrid(): Heights
  {
    [[3, 0, 3, 7, 3],
     [2, 5, 5, 1, 2],
     [6, 5, 3, 3, 2],
     [3, 3, 5, 4, 9],
     [3, 5, 3, 9, 0]]
  }

  lemma SampleCell11()
    ensures Square(SampleGrid(), 5)
    ensures Visible(SampleGrid(), 5, 1, 1) && ScenicScore(SampleGrid(), 5, 1, 1) == 1
  {
  }

  lemma SampleCell12()
    ensures Square(SampleGrid(), 5)
    ensures Visible(SampleGrid(), 5, 1, 2) && ScenicScore(SampleGrid(), 5, 1, 2) == 4
  {
  }

  lemma SampleCell13()
    ensures Square(SampleGrid(), 5)
    ensures !Visible(SampleGrid(), 5, 1, 3) && ScenicScore(SampleGrid(), 5, 1, 3) == 1
  {
  }

  lemma SampleCell21()
    ensures Square(SampleGrid(), 5)
    ensures Visible(SampleGrid(), 5, 2, 1) && ScenicScore(SampleGrid(), 5, 2, 1) == 6
  {
  }

  lemma SampleCell22()
    ensures Square(SampleGrid(), 5)
    ensures !Visible(SampleGrid(), 5, 2, 2) && ScenicScore(SampleGrid(), 5, 2, 2) == 1
  {
  }

  lemma SampleCell23()
    ensures Square(SampleGrid(), 5)
    ensures Visible(SampleGrid(), 5, 2, 3) && ScenicScore(SampleGrid(), 5, 2, 3) == 2
  {
  }

  lemma SampleCell31()
    ensures Square(SampleGrid(), 5)
    ensures !Visible(SampleGrid(), 5, 3, 1) && ScenicScore(SampleGrid(), 5, 3, 1) == 1
  {
  }

  lemma SampleCell32()
    ensures Square(SampleGrid(), 5)
    ensures Visible(SampleGrid(), 5, 3, 2) && ScenicScore(SampleGrid(), 5, 3, 2) == 8
  {
  }

  lemma SampleCell33()
    ensures Square(SampleGrid(), 5)
    ensures !Visible(SampleGrid(), 5, 3, 3) && ScenicScore(SampleGrid(), 5, 3, 3) == 3
  {
    var g := SampleGrid();
    assert [3, 3, 5][..2] == [3, 3] && [3, 3][..1] == [3];
    assert LeftOf(g, 5, 3, 3) == [3, 3, 5] && CountAtLeast([3, 3, 5], 4) == 1;
    assert RightOf(g, 5, 3, 3) == [9] && BelowOf(g, 5, 3, 3) == [9] && CountAtLeast([9], 4) == 1;
    assert AboveOf(g, 5, 3, 3) == [7, 1, 3] && CountAtLeast([7, 1, 3], 4) == 1;
  }

  /** The visibility grid the test expects. */
  function SampleVisibleTable(): seq<seq<bool>>
  {
    [[true, true, true, true, true],
     [true, true, true, false, true],
     [true, true, false, true, true],
     [true, false, true, false, true],
     [true, true, true, true, true]]
  }

  /** The score grid the test expects. */
  function SampleScoreTable(): seq<seq<nat>>
  {
    [[0, 0, 0, 0, 0],
     [0, 1, 4, 1, 0],
     [0, 6, 1, 2, 0],
     [0, 1, 8, 3, 0],
     [0, 0, 0, 0, 0]]
  }

  /** The visibility test on the example grid: every verdict is the expected one. */
  lemma SampleVisibilityGrid()
    ensures Square(SampleGrid(), 5)
    ensures VisibilityGrid(SampleGrid(), 5) == SampleVisibleTable()
  {
    var v := VisibilityGrid(SampleGrid(), 5);
    forall r, c | 0 <= r < 5 && 0 <= c < 5
      ensures v[r][c] == SampleVisibleTable()[r][c]
    {
      SampleCell(r, c);
    }
    forall r | 0 <= r < 5
      ensures v[r] == SampleVisibleTable()[r]
    {
    }
  }

  /** The score test on the example grid: every score is the expected one. */
  lemma SampleScoreGrid()
    ensures Square(SampleGrid(), 5)
    ensures forall r, c :: 0 <= r < 5 && 0 <= c < 5 ==> ScenicScore(SampleGrid(), 5, r, c) == SampleScoreTable()[r][c]
  {
    forall r, c | 0 <= r < 5 && 0 <= c < 5
      ensures ScenicScore(SampleGrid(), 5, r, c) == SampleScoreTable()[r][c]
    {
      SampleCell(r, c);
    }
  }

  /** The outer ring of the example is visible and scores zero, as the expected tables say. */
  lemma SampleEdge(r: nat, c: nat)
    requires r < 5 && c < 5 && IsEdge(5, r, c)
    ensures SampleVisibleTable()[r][c] && SampleScoreTable()[r][c] == 0
  {
    if r == 0 {
    } else if r == 4 {
    } else if c == 0 {
    } else {
      assert c == 4;
    }
  }

  /** One cell of the example, by cases. */
  lemma SampleCell(r: nat, c: nat)
    requires r < 5 && c < 5
    ensures Square(SampleGrid(), 5)
    ensures Visible(SampleGrid(), 5, r, c) == SampleVisibleTable()[r][c]
    ensures ScenicScore(SampleGrid(), 5, r, c) == SampleScoreTable()[r][c]
  {
    if IsEdge(5, r, c) {
      SampleEdge(r, c);
    } else if r == 1 {
      SampleRow1(c);
    } else if r == 2 {
      SampleRow2(c);
    } else {
      SampleRow3(c);
    }
  }

  /** The interior cells of rows 1, 2 and 3 of the example, one lemma per row. */
  lemma SampleRow1(c: nat)
    requires 1 <= c <= 3
    ensures Square(SampleGrid(), 5)
    ensures Visible(SampleGrid(), 5, 1, c) == SampleVisibleTable()[1][c]
    ensures ScenicScore(SampleGrid(), 5, 1, c) == SampleScoreTable()[1][c]
  {
    if c == 1 { SampleCell11(); } else if c == 2 { SampleCell12(); } else { SampleCell13(); }
  }

  lemma SampleRow2(c: nat)
    requires 1 <= c <= 3
    ensures Square(SampleGrid(), 5)
    ensures Visible(SampleGrid(), 5, 2, c) == SampleVisibleTable()[2][c]
    ensures ScenicScore(SampleGrid(), 5, 2, c) == SampleScoreTable()[2][c]
  {
    if c == 1 { SampleCell21(); } else if c == 2 { SampleCell22(); } else { SampleCell23(); }
  }

  lemma SampleRow3(c: nat)
    requires 1 <= c <= 3
    ensures Square(SampleGrid(), 5)
    ensures Visible(SampleGrid(), 5, 3, c) == SampleVisibleTable()[3][c]
    ensures ScenicScore(SampleGrid(), 5, 3, c) == SampleScoreTable()[3][c]
  {
    if c == 1 { SampleCell31(); } else if c == 2 { SampleCell32(); } else { SampleCell33(); }
  }
}
