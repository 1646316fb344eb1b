// Toboggan trajectory (2020, day 3).
//
// The map is a grid of open squares and trees that repeats to the right
// without end. A toboggan starts at the top left and moves by a fixed slope,
// `across` to the right and `down` rows down, until it passes the bottom; the
// answer is the number of trees it lands on.

module TobogganTrajectory {
  import opened Wrappers

  /** `Map`: one row per line, `true` where the line has a tree. */
  type Map = seq<seq<bool>>

  /** `k` moves of `d` each: `k * d`, written as repeated addition like the loop. */
  function Moved(k: nat, d: nat): nat
  {
    if k == 0 then 0 else Moved(k - 1, d) + d
  }

  /** Going down by at least one each step, step `k` is at least `k` rows down. */
  lemma {:induction false} MovedAtLeast(k: nat, d: nat)
    requires d >= 1
    ensures Moved(k, d) >= k
  {
    if k > 0 {
      MovedAtLeast(k - 1, d);
    }
  }

  /** Later steps are never higher up. */
  lemma {:induction false} MovedMonotone(k: nat, j: nat, d: nat)
    requires k <= j
    ensures Moved(k, d) <= Moved(j, d)
  {
    if k < j {
      MovedMonotone(k, j - 1, d);
    }
  }

  /** Whether step `k` of the slope still lands on a row of the grid. */
  predicate Visits(grid: Map, slope: (nat, nat), k: nat)
  {
    Moved(k, slope.1) < |grid|
  }

  /** The column of step `k`, wrapped to the width of the first row. */
  function Column(grid: Map, slope: (nat, nat), k: nat): nat
    requires grid != [] && |grid[0]| > 0
  {
    Moved(k, slope.0) % |grid[0]|
  }

  /** Step `k` lands on a row and finds its wrapped column in that row. */
  predicate Lands(grid: Map, slope: (nat, nat), k: nat)
  {
    grid != [] && |grid[0]| > 0 && Visits(grid, slope, k) && Column(grid, slope, k) < |grid[Moved(k, slope.1)]|
  }

  /**
   * Every step that lands on a row finds its wrapped column there: the
   * width is taken from the first row, so a shorter row further down can be
   * indexed past its end.
   */
  predicate Reachable(grid: Map, slope: (nat, nat))
  {
    grid != [] && forall k: nat | k < |grid| && Visits(grid, slope, k) :: Lands(grid, slope, k)
  }

  /** Whether step `k` lands on a tree. */
  predicate TreeAt(grid: Map, slope: (nat, nat), k: nat)
  {
    Lands(grid, slope, k) && grid[Moved(k, slope.1)][Column(grid, slope, k)]
  }

  /** The steps that land on a tree; step `k` is at most row `k`, as `down >= 1`. */
  function TreeSteps(grid: Map, slope: (nat, nat)): set<nat>
  {
    set k: nat | k < |grid| && TreeAt(grid, slope, k)
  }

  /** The steps before step `k` that land on a tree. */
  function TreesBefore(grid: Map, slope: (nat, nat), k: nat): set<nat>
  {
    set j: nat | j < k && TreeAt(grid, slope, j)
  }

  /** One more step adds itself to the trees exactly when it lands on one. */
  lemma TreesBeforeNext(grid: Map, slope: (nat, nat), k: nat)
    requires Lands(grid, slope, k)
    ensures |TreesBefore(grid, slope, k + 1)|
      == |TreesBefore(grid, slope, k)| + (if grid[Moved(k, slope.1)][Column(grid, slope, k)] then 1 else 0)
  {
    if TreeAt(grid, slope, k) {
      assert TreesBefore(grid, slope, k + 1) == TreesBefore(grid, slope, k) + {k};
    } else {
      assert TreesBefore(grid, slope, k + 1) == TreesBefore(grid, slope, k);
    }
  }

  /** The steps that land on the grid at all. */
  function VisitedSteps(grid: Map, slope: (nat, nat)): set<nat>
  {
    set k: nat | k < |grid| && Visits(grid, slope, k)
  }

  /** The count is bounded by the steps that land on the grid, which are at most the rows. */
  lemma TreeStepsBound(grid: Map, slope: (nat, nat))
    ensures |TreeSteps(grid, slope)| <= |VisitedSteps(grid, slope)| <= |grid|
  {
    var all := set k: nat | k < |grid| && Below(k, |grid|);
    SubsetCard(TreeSteps(grid, slope), VisitedSteps(grid, slope));
    SubsetCard(VisitedSteps(grid, slope), all);
    RangeCard(|grid|);
  }

  /** A subset is no larger than the set it is taken from. */
  lemma {:induction false} SubsetCard<T>(a: set<T>, b: set<T>)
    requires a <= b
    ensures |a| <= |b|
    decreases |a|
  {
    if a != {} {
      var x :| x in a;
      SubsetCard(a - {x}, b - {x});
    }
  }

  predicate Below(k: nat, n: nat)
  {
    k < n
  }

  /** There are `n` naturals below `n`. */
  lemma {:induction false} RangeCard(n: nat)
    ensures |set k: nat | k < n && Below(k, n)| == n
  {
    if n > 0 {
      var m := n - 1;
      RangeCard(m);
      assert (set k: nat | k < n && Below(k, n)) == (set k: nat | k < m && Below(k, m)) + {m};
    }
  }

  /**
   * `count_collisions`. `None` where the source panics: on an empty grid
   * (`map[0]`), on an empty first row (the remainder by a zero width) and on
   * a row too short for the wrapped column. A slope with `down == 0` makes
   * the source loop forever and is excluded.
   */
  method CountCollisions(grid: Map, slope: (nat, nat)) returns (r: Option<nat>)
    requires slope.1 >= 1
    ensures r.None? <==> !Reachable(grid, slope)
    ensures r.Some? ==> r.value == |TreeSteps(grid, slope)|
  {
    if grid == [] {
      return None;
    }
    var across, down := 0, 0;
    var count := 0;
    var rowWidth := |grid[0]|;
    ghost var k: nat := 0;
    while true
      invariant across == Moved(k, slope.0) && down == Moved(k, slope.1)
      invariant k <= |grid|
      invariant rowWidth == |grid[0]|
      invariant forall j: nat | j < k :: Lands(grid, slope, j)
      invariant count == |TreesBefore(grid, slope, k)|
      decreases |grid| - down
    {
      if down >= |grid| {
        break;
      }
      if rowWidth == 0 || across % rowWidth >= |grid[down]| {
        MovedAtLeast(k, slope.1);
        assert !Lands(grid, slope, k);
        return None;
      }
      if grid[down][across % rowWidth] {
        count := count + 1;
      }
      MovedAtLeast(k, slope.1);
      assert Lands(grid, slope, k);
      TreesBeforeNext(grid, slope, k);
      across, down := across + slope.0, down + slope.1;
      k := k + 1;
    }
    assert Lands(grid, slope, 0) by {
      MovedAtLeast(k, slope.1);
    }
    forall j: nat | j < |grid| && Visits(grid, slope, j)
      ensures j < k
    {
      if j >= k {
        MovedMonotone(k, j, slope.1);
      }
    }
    assert TreeSteps(grid, slope) == TreesBefore(grid, slope, k);
    return Some(count);
  }
}
