// The treachery of whales (2021, day 7).
//
// Crabs sit at horizontal positions and must all move to one position.
// Moving `n` steps costs `n` fuel in part one and `1 + 2 + ... + n` in part
// two. Both parts try every position from the leftmost to the rightmost crab
// and keep the cheapest total.

module TreacheryOfWhales {
  import opened Wrappers

  /** The largest `u32` plus one. */
  const U32_LIMIT: nat := 0x1_0000_0000

  type U32 = x: nat | x < U32_LIMIT

  /** The fuel rate of each part: one per step, or one more for each further step. */
  datatype Rate = Constant | Increasing

  /** `n * (n + 1) / 2`, the formula of part two. */
  function Triangle(n: nat): nat
  {
    n * (n + 1) / 2
  }

  /** The fuel for `n` steps when each step costs one more than the one before. */
  function StepCosts(n: nat): nat
  {
    if n == 0 then 0 else StepCosts(n - 1) + n
  }

  /** The formula of part two is the sum `1 + 2 + ... + n`. */
  lemma {:induction false} TriangleSteps(n: nat)
    ensures Triangle(n) == StepCosts(n)
  {
    if n > 0 {
      TriangleSteps(n - 1);
      assert n * (n + 1) == (n - 1) * n + 2 * n;
    }
  }

  /** The fuel one crab spends to move `n` steps. */
  function Fuel(rate: Rate, n: nat): nat
  {
    match rate
    case Constant => n
    case Increasing => Triangle(n)
  }

  /** More steps never cost less fuel. */
  lemma FuelMonotone(rate: Rate, m: nat, n: nat)
    requires m <= n
    ensures Fuel(rate, m) <= Fuel(rate, n)
  {
    if rate == Increasing {
      TriangleSteps(m);
      TriangleSteps(n);
      StepCostsMonotone(m, n);
    }
  }

  lemma {:induction false} StepCostsMonotone(m: nat, n: nat)
    requires m <= n
    ensures StepCosts(m) <= StepCosts(n)
    decreases n
  {
    if m < n {
      StepCostsMonotone(m, n - 1);
    }
  }

  /** `abs_diff`. */
  function Steps(x: nat, pos: nat): nat
  {
    Abs(x - pos)
  }

  /** The fuel all crabs spend to move to `pos`, without the `u32` bound. */
  function Total(positions: seq<U32>, rate: Rate, pos: nat): nat
  {
    if positions == [] then 0
    else Total(positions[..|positions| - 1], rate, pos) + Fuel(rate, Steps(positions[|positions| - 1], pos))
  }

  /**
   * The `u32` arithmetic of one candidate does not overflow: in part two
   * `n * (n + 1)` fits for every crab, and the sum fits (its partial sums
   * only grow, so the total fitting is enough).
   */
  predicate Fits(positions: seq<U32>, rate: Rate, pos: nat)
  {
    (rate == Increasing ==>
      forall i :: 0 <= i < |positions| ==> Steps(positions[i], pos) * (Steps(positions[i], pos) + 1) < U32_LIMIT) &&
    Total(positions, rate, pos) < U32_LIMIT
  }

  /** `iter().min().unwrap()`. */
  function SeqMin(s: seq<U32>): (m: U32)
    requires s != []
    ensures m in s && forall i :: 0 <= i < |s| ==> m <= s[i]
  {
    if |s| == 1 then s[0]
    else
      var m := SeqMin(s[1..]);
      assert forall i :: 1 <= i < |s| ==> s[i] == s[1..][i - 1];
      if s[0] <= m then s[0] else m
  }

  /** `iter().max().unwrap()`. */
  function SeqMax(s: seq<U32>): (m: U32)
    requires s != []
    ensures m in s && forall i :: 0 <= i < |s| ==> s[i] <= m
  {
    if |s| == 1 then s[0]
    else
      var m := SeqMax(s[1..]);
      assert forall i :: 1 <= i < |s| ==> s[i] == s[1..][i - 1];
      if s[0] >= m then s[0] else m
  }

  /** The least total over the candidates `lo..=hi`, as `Iterator::min` finds it. */
  function MinTotal(positions: seq<U32>, rate: Rate, lo: nat, hi: nat): nat
    requires lo <= hi
    decreases hi - lo
  {
    if lo == hi then Total(positions, rate, lo)
    else
      var rest := MinTotal(positions, rate, lo + 1, hi);
      if Total(positions, rate, lo) <= rest then Total(positions, rate, lo) else rest
  }

  /** The least total over `lo..=hi` is the total of one candidate and no more than any other's. */
  lemma {:induction false} MinTotalMeaning(positions: seq<U32>, rate: Rate, lo: nat, hi: nat)
    requires lo <= hi
    ensures exists p: nat :: lo <= p <= hi && MinTotal(positions, rate, lo, hi) == Total(positions, rate, p)
    ensures forall p: nat :: lo <= p <= hi ==> MinTotal(positions, rate, lo, hi) <= Total(positions, rate, p)
    decreases hi - lo
  {
    if lo == hi {
      assert MinTotal(positions, rate, lo, hi) == Total(positions, rate, lo);
    } else {
      MinTotalMeaning(positions, rate, lo + 1, hi);
      if Total(positions, rate, lo) <= MinTotal(positions, rate, lo + 1, hi) {
        assert MinTotal(positions, rate, lo, hi) == Total(positions, rate, lo);
      } else {
        var p: nat :| lo + 1 <= p <= hi && MinTotal(positions, rate, lo + 1, hi) == Total(positions, rate, p);
        assert MinTotal(positions, rate, lo, hi) == Total(positions, rate, p);
      }
    }
  }

  /**
   * `brute_force_optimal_fuel_cost` (rate `Constant`) and
   * `brute_force_optimal_fuel_cost_part_2` (rate `Increasing`). `None` where
   * the source panics: an empty input (`min().unwrap()`), or a candidate
   * whose `u32` arithmetic overflows.
   */
  function OptimalFuelCost(positions: seq<U32>, rate: Rate): Option<nat>
  {
    if positions == [] then None
    else
      var lo, hi := SeqMin(positions), SeqMax(positions);
      if exists p: nat | lo <= p <= hi :: !Fits(positions, rate, p) then None
      else Some(MinTotal(positions, rate, lo, hi))
  }

  /** Moving away from every crab costs every crab at least as much. */
  lemma {:induction false} TotalFartherAway(positions: seq<U32>, rate: Rate, near: nat, far: nat)
    requires forall i :: 0 <= i < |positions| ==> Steps(positions[i], near) <= Steps(positions[i], far)
    ensures Total(positions, rate, near) <= Total(positions, rate, far)
    decreases |positions|
  {
    if positions != [] {
      var front := positions[..|positions| - 1];
      assert forall i :: 0 <= i < |front| ==> front[i] == positions[i];
      TotalFartherAway(front, rate, near, far);
      FuelMonotone(rate, Steps(positions[|positions| - 1], near), Steps(positions[|positions| - 1], far));
    }
  }

  /**
   * Limiting the candidates to `min..=max` loses nothing: any position
   * left of every crab costs at least the leftmost crab's position, and any
   * position right of every crab at least the rightmost's.
   */
  lemma OutsideNoCheaper(positions: seq<U32>, rate: Rate, pos: nat)
    requires positions != []
    ensures pos < SeqMin(positions) ==> Total(positions, rate, SeqMin(positions)) <= Total(positions, rate, pos)
    ensures pos > SeqMax(positions) ==> Total(positions, rate, SeqMax(positions)) <= Total(positions, rate, pos)
  {
    var lo, hi := SeqMin(positions), SeqMax(positions);
    if pos < lo {
      TotalFartherAway(positions, rate, lo, pos);
    }
    if pos > hi {
      TotalFartherAway(positions, rate, hi, pos);
    }
  }

  /**
   * The optimal cost is missing exactly when there are no crabs or some
   * candidate overflows; otherwise it is the total of a candidate between
   * the leftmost and the rightmost crab, and no position at all, inside or
   * outside that range, costs less.
   */
  lemma OptimalMeaning(positions: seq<U32>, rate: Rate)
    ensures OptimalFuelCost(positions, rate).None? <==>
      positions == [] ||
      exists p: nat | SeqMin(positions) <= p <= SeqMax(positions) :: !Fits(positions, rate, p)
    ensures OptimalFuelCost(positions, rate).Some? ==>
      (exists p: nat :: SeqMin(positions) <= p <= SeqMax(positions) &&
        OptimalFuelCost(positions, rate).value == Total(positions, rate, p)) &&
      forall p: nat :: OptimalFuelCost(positions, rate).value <= Total(positions, rate, p)
  {
    if OptimalFuelCost(positions, rate).Some? {
      var lo, hi := SeqMin(positions), SeqMax(positions);
      var r := OptimalFuelCost(positions, rate).value;
      MinTotalMeaning(positions, rate, lo, hi);
      forall p: nat
        ensures r <= Total(positions, rate, p)
      {
        OutsideNoCheaper(positions, rate, p);
      }
    }
  }
}
