// Sonar sweep (2021, day 1).
//
// The report is a list of sea-floor depths. Part one counts how often a depth
// is larger than the one before it; part two does the same with the sums of
// each window of three consecutive depths.

module SonarSweep {
  import opened Wrappers

  /** The largest `u32` plus one. */
  const U32_LIMIT: nat := 0x1_0000_0000

  type U32 = x: nat | x < U32_LIMIT

  /** Whether the value `k` places after position `i` is larger than the one at `i`. */
  predicate GapAt(v: seq<nat>, k: nat, i: int)
  {
    0 <= i < |v| - k && v[i + k] > v[i]
  }

  /** The number of positions `i` whose value `k` places on is larger. */
  function Gaps(v: seq<nat>, k: nat): nat
  {
    if |v| <= k then 0
    else Gaps(v[..|v| - 1], k) + (if v[|v| - 1] > v[|v| - 1 - k] then 1 else 0)
  }

  /** `Gaps` counts exactly the positions `i` with `v[i + k] > v[i]`. */
  lemma {:induction false} GapsMeaning(v: seq<nat>, k: nat)
    ensures Gaps(v, k) == |set i | 0 <= i < |v| && GapAt(v, k, i)|
  {
    if |v| <= k {
      assert (set i | 0 <= i < |v| && GapAt(v, k, i)) == {};
    } else {
      var n := |v| - 1;
      var front := v[..n];
      GapsMeaning(front, k);
      var a := set i | 0 <= i < |front| && GapAt(front, k, i);
      var b := set i | 0 <= i < |v| && GapAt(v, k, i);
      forall i | 0 <= i < n - k
        ensures GapAt(v, k, i) == GapAt(front, k, i)
      {
        assert v[i + k] == front[i + k] && v[i] == front[i];
      }
      if v[n] > v[n - k] {
        assert b == a + {n - k};
      } else {
        assert b == a;
      }
    }
  }

  /**
   * The fold of `count_increases_in_vec` over the elements after the first:
   * the count so far and the previous element are carried along.
   */
  function Fold(count: nat, previous: nat, rest: seq<nat>): nat
    decreases |rest|
  {
    if rest == [] then count
    else Fold(if rest[0] > previous then count + 1 else count, rest[0], rest[1..])
  }

  /**
   * `count_increases_in_vec`; `None` where `vec.get(0).unwrap()` panics on
   * an empty vector.
   */
  function CountIncreasesInVec(v: seq<nat>): (r: Option<nat>)
  {
    if v == [] then None else Some(Fold(0, v[0], v[1..]))
  }

  /** Folding over one more element adds one exactly when it is larger than the last. */
  lemma {:induction false} FoldSnoc(count: nat, previous: nat, rest: seq<nat>, x: nat)
    ensures Fold(count, previous, rest + [x])
      == Fold(count, previous, rest) + (if x > Last([previous] + rest) then 1 else 0)
    decreases |rest|
  {
    if rest != [] {
      assert (rest + [x])[1..] == rest[1..] + [x];
      FoldSnoc(if rest[0] > previous then count + 1 else count, rest[0], rest[1..], x);
      assert Last([rest[0]] + rest[1..]) == Last([previous] + rest);
    }
  }

  function Last(v: seq<nat>): nat
    requires v != []
  {
    v[|v| - 1]
  }

  /** The fold counts the increases: the answer panics only on no depths at all. */
  lemma {:induction false} CountIncreasesMeaning(v: seq<nat>)
    ensures CountIncreasesInVec(v).None? <==> v == []
    ensures v != [] ==> CountIncreasesInVec(v) == Some(Gaps(v, 1))
  {
    if |v| >= 2 {
      var n := |v| - 1;
      CountIncreasesMeaning(v[..n]);
      assert v[..n][1..] + [v[n]] == v[1..];
      assert [v[0]] + v[..n][1..] == v[..n];
      FoldSnoc(0, v[0], v[..n][1..], v[n]);
    }
  }

  /** The sum of the window of three depths starting at `i`. */
  function Triple(v: seq<U32>, i: nat): nat
    requires i + 2 < |v|
  {
    v[i] as nat + v[i + 1] as nat + v[i + 2] as nat
  }

  /**
   * `windows(3)` summed: one sum per window of three consecutive depths, and
   * none when there are fewer than three. `None` when a sum overflows `u32`,
   * where the source's `sum` panics.
   */
  function WindowSums(v: seq<U32>): (r: Option<seq<nat>>)
  {
    if |v| < 3 then Some([])
    else
      match WindowSums(v[..|v| - 1])
      case None => None
      case Some(front) =>
        var s := Triple(v, |v| - 3);
        if s < U32_LIMIT then Some(front + [s]) else None
  }

  /**
   * The window sums are the sums of consecutive triples, one for each window;
   * they are missing exactly when some triple overflows `u32`.
   */
  lemma {:induction false} WindowSumsMeaning(v: seq<U32>)
    ensures WindowSums(v).None? <==> exists i :: 0 <= i < |v| - 2 && Triple(v, i) >= U32_LIMIT
    ensures WindowSums(v).Some? ==>
      |WindowSums(v).value| == (if |v| < 3 then 0 else |v| - 2) &&
      forall i :: 0 <= i < |WindowSums(v).value| ==> WindowSums(v).value[i] == Triple(v, i)
  {
    if |v| >= 3 {
      var n := |v| - 1;
      var front := v[..n];
      WindowSumsMeaning(front);
      if WindowSums(front).None? {
        var i :| 0 <= i < |front| - 2 && Triple(front, i) >= U32_LIMIT;
        assert Triple(v, i) >= U32_LIMIT;
      } else if Triple(v, n - 2) < U32_LIMIT {
        forall i | 0 <= i < |v| - 2
          ensures Triple(v, i) < U32_LIMIT
        {
          if i < n - 2 {
            assert Triple(front, i) < U32_LIMIT;
          }
        }
      }
    }
  }

  /**
   * A window sum grows exactly when the depth entering the window is larger
   * than the one leaving it, because the two middle depths are shared; so
   * the window sums increase as often as depths three apart do.
   */
  lemma {:induction false} WindowGaps(v: seq<U32>)
    requires WindowSums(v).Some?
    ensures Gaps(WindowSums(v).value, 1) == Gaps(v, 3)
  {
    if |v| >= 3 {
      var n := |v| - 1;
      var front := v[..n];
      WindowGaps(front);
      WindowSumsMeaning(front);
      WindowSumsMeaning(v);
      var sums := WindowSums(v).value;
      assert sums[..|sums| - 1] == WindowSums(front).value;
    }
  }

  /** `count_increasing_depth_differences` on the parsed depths. */
  function CountIncreasingDepthDifferences(v: seq<U32>): Option<nat>
  {
    CountIncreasesInVec(v)
  }

  /**
   * Part one panics exactly on an empty report; otherwise it counts the
   * positions `i >= 1` whose depth exceeds the one before.
   */
  lemma CountDepthsMeaning(v: seq<U32>)
    ensures CountIncreasingDepthDifferences(v).None? <==> v == []
    ensures v != [] ==> CountIncreasingDepthDifferences(v).value == |set i | 0 <= i < |v| && GapAt(v, 1, i)|
  {
    CountIncreasesMeaning(v);
    GapsMeaning(v, 1);
  }

  /**
   * `count_increasing_window_sums` on the parsed depths: `None` when a sum
   * overflows, and also when there are fewer than three depths, because the
   * empty list of window sums makes `count_increases_in_vec` panic.
   */
  function CountIncreasingWindowSums(v: seq<U32>): (r: Option<nat>)
  {
    match WindowSums(v)
    case None => None
    case Some(sums) => CountIncreasesInVec(sums)
  }

  /**
   * Part two panics exactly on fewer than three depths or an overflowing
   * window; otherwise it counts the positions `i` whose depth `v[i + 3]`
   * exceeds `v[i]`.
   */
  lemma CountWindowsMeaning(v: seq<U32>)
    ensures CountIncreasingWindowSums(v).None? <==>
      |v| < 3 || exists i :: 0 <= i < |v| - 2 && Triple(v, i) >= U32_LIMIT
    ensures CountIncreasingWindowSums(v).Some? ==>
      CountIncreasingWindowSums(v).value == |set i | 0 <= i < |v| && GapAt(v, 3, i)|
  {
    WindowSumsMeaning(v);
    if WindowSums(v).Some? {
      CountIncreasesMeaning(WindowSums(v).value);
      WindowGaps(v);
      GapsMeaning(v, 3);
    }
  }
}
