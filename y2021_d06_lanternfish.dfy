// Lanternfish population growth (2021, day 6).
//
// Each fish carries a timer. Every day the timer of each fish drops by one; a fish
// whose timer is already 0 instead resets it to 6 and spawns a new fish whose timer
// starts at 8. The population is simulated either fish by fish in a growing vector
// or as nine counters, one per timer value.

module Lanternfish {
  import opened Wrappers

  /** `LanternFish::new`: the timer of a newborn fish. */
  const NewbornTimer: nat := 8
  /** The timer a fish returns to after spawning. */
  const ResetTimer: nat := 6

  /** `LanternFish::tick`: the fish's next timer and whether it spawned. */
  function Tick(timer: nat): (r: (nat, bool))
    ensures r.1 <==> timer == 0
    ensures r.0 == if timer == 0 then ResetTimer else timer - 1
  {
    if timer == 0 then (6, true) else (timer - 1, false)
  }

  /** Every fish's timer after its tick. */
  function Ticked(fish: seq<nat>): (r: seq<nat>)
    ensures |r| == |fish|
  {
    if fish == [] then [] else Ticked(fish[..|fish| - 1]) + [Tick(fish[|fish| - 1]).0]
  }

  /** How many fish have timer `k`. */
  function Count(fish: seq<nat>, k: nat): (n: nat)
    ensures n <= |fish|
  {
    if fish == [] then 0 else Count(fish[..|fish| - 1], k) + (if fish[|fish| - 1] == k then 1 else 0)
  }

  /** One day of the vector simulation: every fish ticks, then one newborn per spawn joins the end. */
  function Day(fish: seq<nat>): seq<nat>
  {
    Ticked(fish) + seq(Count(fish, 0), _ => NewbornTimer)
  }

  /** The population after `days` days. */
  function Simulate(fish: seq<nat>, days: nat): seq<nat>
  {
    if days == 0 then fish else Day(Simulate(fish, days - 1))
  }

  lemma {:induction false} TickedAt(fish: seq<nat>)
    ensures forall i :: 0 <= i < |fish| ==> Ticked(fish)[i] == Tick(fish[i]).0
  {
    if fish != [] {
      TickedAt(fish[..|fish| - 1]);
    }
  }

  /** Each day the population grows by exactly the number of fish whose timer was 0. */
  lemma DayGrowth(fish: seq<nat>)
    ensures |Day(fish)| == |fish| + Count(fish, 0)
  {
  }

  /**
   * `simulate_lanternfish_with_vec`: tick every fish in place, counting spawns, then
   * append one newborn per spawn; the answer is the final number of fish.
   */
  method SimulateWithVec(fish0: seq<nat>, days: nat) returns (n: nat)
    ensures n == |Simulate(fish0, days)|
  {
    var fish := fish0;
    for d := 0 to days
      invariant fish == Simulate(fish0, d)
    {
      var ticked, newFish := TickAll(fish);
      fish := ticked + seq(newFish, _ => NewbornTimer);
    }
    n := |fish|;
  }

  /** The inner loop of each simulated day: tick every fish in place, counting the spawns. */
  method TickAll(fish0: seq<nat>) returns (fish: seq<nat>, newFish: nat)
    ensures fish == Ticked(fish0) && newFish == Count(fish0, 0)
  {
    fish := fish0;
    newFish := 0;
    for i := 0 to |fish|
      invariant |fish| == |fish0|
      invariant fish[..i] == Ticked(fish0[..i]) && fish[i..] == fish0[i..]
      invariant newFish == Count(fish0[..i], 0)
    {
      var (t, spawned) := Tick(fish[i]);
      assert fish0[..i + 1][..i] == fish0[..i] && fish0[i] == fish[i];
      fish := fish[i := t];
      assert fish[..i + 1] == fish[..i] + [t];
      if spawned {
        newFish := newFish + 1;
      }
    }
    assert fish0[..|fish0|] == fish0 && fish[..|fish|] == fish;
  }

  /** The counters after one day: timer 0 moves to both 6 and 8, every other timer k to k - 1. */
  function StepCounts(c: seq<nat>): (r: seq<nat>)
    requires |c| == 9
    ensures |r| == 9
  {
    [c[1], c[2], c[3], c[4], c[5], c[6], c[7] + c[0], c[8], c[0]]
  }

  function SimulateCounts(c: seq<nat>, days: nat): (r: seq<nat>)
    requires |c| == 9
    ensures |r| == 9
  {
    if days == 0 then c else StepCounts(SimulateCounts(c, days - 1))
  }

  /** The nine counters of a population: how many fish have each timer from 0 to 8. */
  function Counts(fish: seq<nat>): (c: seq<nat>)
    ensures |c| == 9 && forall k :: 0 <= k < 9 ==> c[k] == Count(fish, k)
  {
    seq(9, k requires 0 <= k < 9 => Count(fish, k))
  }

  lemma SumNine(c: seq<nat>)
    requires |c| == 9
    ensures Sum(c) == c[0] + c[1] + c[2] + c[3] + c[4] + c[5] + c[6] + c[7] + c[8]
  {
    assert c[..8][..7] == c[..7] && c[..7][..6] == c[..6] && c[..6][..5] == c[..5];
    assert c[..5][..4] == c[..4] && c[..4][..3] == c[..3] && c[..3][..2] == c[..2];
    assert c[..2][..1] == c[..1] && c[..1][..0] == [] && c[..9] == c;
    assert Sum(c[..1]) == c[0];
    assert Sum(c[..2]) == Sum(c[..1]) + c[1];
    assert Sum(c[..3]) == Sum(c[..2]) + c[2];
    assert Sum(c[..4]) == Sum(c[..3]) + c[3];
    assert Sum(c[..5]) == Sum(c[..4]) + c[4];
    assert Sum(c[..6]) == Sum(c[..5]) + c[5];
    assert Sum(c[..7]) == Sum(c[..6]) + c[6];
    assert Sum(c[..8]) == Sum(c[..7]) + c[7];
  }

  /** Each day the counted total grows by exactly the count at timer 0. */
  lemma StepCountsGrowth(c: seq<nat>)
    requires |c| == 9
    ensures Sum(StepCounts(c)) == Sum(c) + c[0]
  {
    SumNine(c);
    SumNine(StepCounts(c));
  }

  /** Every timer is one of the nine values the counters cover. */
  predicate Timers(fish: seq<nat>)
  {
    forall i :: 0 <= i < |fish| ==> fish[i] <= 8
  }

  lemma {:induction false} CountAppend(a: seq<nat>, b: seq<nat>, k: nat)
    ensures Count(a + b, k) == Count(a, k) + Count(b, k)
    decreases |b|
  {
    if b != [] {
      assert (a + b)[..|a + b| - 1] == a + b[..|b| - 1];
      assert (a + b)[|a + b| - 1] == b[|b| - 1];
      CountAppend(a, b[..|b| - 1], k);
    } else {
      assert a + b == a;
    }
  }

  lemma {:induction false} CountNewborns(n: nat, k: nat)
    ensures Count(seq(n, _ => NewbornTimer), k) == if k == NewbornTimer then n else 0
  {
    if n > 0 {
      assert seq(n, _ => NewbornTimer)[..n - 1] == seq(n - 1, _ => NewbornTimer);
      CountNewborns(n - 1, k);
    }
  }

  /** After ticking, timer k is held by the fish that had k + 1, and timer 6 also by those that had 0. */
  lemma {:induction false} CountTicked(fish: seq<nat>, k: nat)
    requires Timers(fish)
    ensures Count(Ticked(fish), k) ==
              (if k < 8 then Count(fish, k + 1) else 0) + (if k == ResetTimer then Count(fish, 0) else 0)
  {
    if fish != [] {
      var n := |fish| - 1;
      CountTicked(fish[..n], k);
    }
  }

  lemma DayTimers(fish: seq<nat>)
    requires Timers(fish)
    ensures Timers(Day(fish))
  {
    TickedAt(fish);
  }

  /** The counters of the next day's population are the stepped counters of today's. */
  lemma DayCounts(fish: seq<nat>)
    requires Timers(fish)
    ensures Counts(Day(fish)) == StepCounts(Counts(fish))
  {
    forall k | 0 <= k < 9 ensures Count(Day(fish), k) == StepCounts(Counts(fish))[k] {
      DayCount(fish, k);
    }
  }

  lemma DayCount(fish: seq<nat>, k: nat)
    requires Timers(fish)
    ensures Count(Day(fish), k) ==
              (if k < 8 then Count(fish, k + 1) else 0) + (if k == ResetTimer then Count(fish, 0) else 0) +
              (if k == NewbornTimer then Count(fish, 0) else 0)
  {
    CountAppend(Ticked(fish), seq(Count(fish, 0), _ => NewbornTimer), k);
    CountNewborns(Count(fish, 0), k);
    CountTicked(fish, k);
  }

  /** With every timer at most 8, the counters add up to the population. */
  lemma {:induction false} CountsTotal(fish: seq<nat>)
    requires Timers(fish)
    ensures Sum(Counts(fish)) == |fish|
  {
    SumNine(Counts(fish));
    if fish != [] {
      var n := |fish| - 1;
      CountsTotal(fish[..n]);
      SumNine(Counts(fish[..n]));
    }
  }

  /** The counters follow the population day by day. */
  lemma {:induction false} SimulateCountsTracks(fish: seq<nat>, days: nat)
    requires Timers(fish)
    ensures Timers(Simulate(fish, days))
    ensures SimulateCounts(Counts(fish), days) == Counts(Simulate(fish, days))
  {
    if days > 0 {
      SimulateCountsTracks(fish, days - 1);
      DayTimers(Simulate(fish, days - 1));
      DayCounts(Simulate(fish, days - 1));
    }
  }

  /** Both simulations give the same population for any input whose timers are at most 8. */
  lemma SimulationsAgree(fish: seq<nat>, days: nat)
    requires Timers(fish)
    ensures Sum(SimulateCounts(Counts(fish), days)) == |Simulate(fish, days)|
  {
    SimulateCountsTracks(fish, days);
    CountsTotal(Simulate(fish, days));
  }

  /** The `counts()` table read at timers 0 to 8; any larger timer is not read. */
  method CountTimers(fish: seq<nat>) returns (counts: array<nat>)
    ensures fresh(counts) && counts.Length == 9 && counts[..] == Counts(fish)
  {
    counts := new nat[9](_ => 0);
    for i := 0 to |fish|
      invariant forall k :: 0 <= k < 9 ==> counts[k] == Count(fish[..i], k)
    {
      assert fish[..i + 1][..i] == fish[..i];
      if fish[i] <= 8 {
        counts[fish[i]] := counts[fish[i]] + 1;
      }
    }
    assert fish[..|fish|] == fish;
  }

  /**
   * `simulate_lanternfish_with_map`: count the fish per timer, then each day build a
   * fresh array of counters from the old one and copy it back; the answer is their sum.
   */
  method SimulateWithMap(fish: seq<nat>, days: nat) returns (n: nat)
    ensures n == Sum(SimulateCounts(Counts(fish), days))
  {
    var counts := CountTimers(fish);
    for d := 0 to days
      invariant counts.Length == 9 && counts[..] == SimulateCounts(Counts(fish), d)
    {
      var newCounts := NextCounts(counts);
      forall k | 0 <= k < 9 {
        counts[k] := newCounts[k];
      }
    }
    SumNine(counts[..]);
    n := Sum(counts[..]);
  }

  /** The body of each simulated day: fresh counters, a value like the source's `[usize; 9]`, built from yesterday's. */
  method NextCounts(counts: array<nat>) returns (newCounts: seq<nat>)
    requires counts.Length == 9
    ensures newCounts == StepCounts(counts[..])
  {
    newCounts := [0, 0, 0, 0, 0, 0, 0, 0, 0];
    newCounts := newCounts[8 := newCounts[8] + counts[0]];
    newCounts := newCounts[6 := newCounts[6] + counts[0]];
    newCounts := newCounts[0 := newCounts[0] + counts[1]];
    newCounts := newCounts[1 := newCounts[1] + counts[2]];
    newCounts := newCounts[2 := newCounts[2] + counts[3]];
    newCounts := newCounts[3 := newCounts[3] + counts[4]];
    newCounts := newCounts[4 := newCounts[4] + counts[5]];
    newCounts := newCounts[5 := newCounts[5] + counts[6]];
    newCounts := newCounts[6 := newCounts[6] + counts[7]];
    newCounts := newCounts[7 := newCounts[7] + counts[8]];
  }

  /** The sample school `3,4,3,1,2` as counters: one fish at timers 1, 2 and 4, two at timer 3. */
  lemma SampleCounts()
    ensures Counts([3, 4, 3, 1, 2]) == [0, 1, 1, 2, 1, 0, 0, 0, 0]
  {
    var s: seq<nat> := [3, 4, 3, 1, 2];
    assert s[..4] == [3, 4, 3, 1] && s[..4][..3] == [3, 4, 3] && s[..4][..3][..2] == [3, 4];
    assert s[..4][..3][..2][..1] == [3] && [3][..0] == [];
    forall k | 0 <= k < 9 ensures Count(s, k) == [0, 1, 1, 2, 1, 0, 0, 0, 0][k] {
      assert Count([3], k) == if k == 3 then 1 else 0;
      assert Count([3, 4], k) == Count([3], k) + if k == 4 then 1 else 0;
      assert Count([3, 4, 3], k) == Count([3, 4], k) + if k == 3 then 1 else 0;
      assert Count([3, 4, 3, 1], k) == Count([3, 4, 3], k) + if k == 1 then 1 else 0;
      assert Count(s, k) == Count([3, 4, 3, 1], k) + if k == 2 then 1 else 0;
    }
  }

  /** Running `a + b` days is running `a` days and then `b` more. */
  lemma {:induction false} SimulateCountsSplit(c: seq<nat>, a: nat, b: nat)
    requires |c| == 9
    ensures SimulateCounts(c, a + b) == SimulateCounts(SimulateCounts(c, a), b)
  {
    if b > 0 {
      SimulateCountsSplit(c, a, b - 1);
    }
  }

  /** Ten days of counters, one day at a time. */
  lemma SampleDays0To10()
    ensures SimulateCounts([0, 1, 1, 2, 1, 0, 0, 0, 0], 10) == [3, 2, 2, 1, 0, 1, 1, 1, 1]
  {
    assert SimulateCounts([0, 1, 1, 2, 1, 0, 0, 0, 0], 1) == [1, 1, 2, 1, 0, 0, 0, 0, 0];
    assert SimulateCounts([0, 1, 1, 2, 1, 0, 0, 0, 0], 2) == [1, 2, 1, 0, 0, 0, 1, 0, 1];
    assert SimulateCounts([0, 1, 1, 2, 1, 0, 0, 0, 0], 3) == [2, 1, 0, 0, 0, 1, 1, 1, 1];
    assert SimulateCounts([0, 1, 1, 2, 1, 0, 0, 0, 0], 4) == [1, 0, 0, 0, 1, 1, 3, 1, 2];
    assert SimulateCounts([0, 1, 1, 2, 1, 0, 0, 0, 0], 5) == [0, 0, 0, 1, 1, 3, 2, 2, 1];
    assert SimulateCounts([0, 1, 1, 2, 1, 0, 0, 0, 0], 6) == [0, 0, 1, 1, 3, 2, 2, 1, 0];
    assert SimulateCounts([0, 1, 1, 2, 1, 0, 0, 0, 0], 7) == [0, 1, 1, 3, 2, 2, 1, 0, 0];
    assert SimulateCounts([0, 1, 1, 2, 1, 0, 0, 0, 0], 8) == [1, 1, 3, 2, 2, 1, 0, 0, 0];
    assert SimulateCounts([0, 1, 1, 2, 1, 0, 0, 0, 0], 9) == [1, 3, 2, 2, 1, 0, 1, 0, 1];
  }

  lemma SampleDays10To20()
    ensures SimulateCounts([3, 2, 2, 1, 0, 1, 1, 1, 1], 10) == [3, 2, 2, 1, 5, 4, 9, 3, 5]
  {
    assert SimulateCounts([3, 2, 2, 1, 0, 1, 1, 1, 1], 1) == [2, 2, 1, 0, 1, 1, 4, 1, 3];
    assert SimulateCounts([3, 2, 2, 1, 0, 1, 1, 1, 1], 2) == [2, 1, 0, 1, 1, 4, 3, 3, 2];
    assert SimulateCounts([3, 2, 2, 1, 0, 1, 1, 1, 1], 3) == [1, 0, 1, 1, 4, 3, 5, 2, 2];
    assert SimulateCounts([3, 2, 2, 1, 0, 1, 1, 1, 1], 4) == [0, 1, 1, 4, 3, 5, 3, 2, 1];
    assert SimulateCounts([3, 2, 2, 1, 0, 1, 1, 1, 1], 5) == [1, 1, 4, 3, 5, 3, 2, 1, 0];
    assert SimulateCounts([3, 2, 2, 1, 0, 1, 1, 1, 1], 6) == [1, 4, 3, 5, 3, 2, 2, 0, 1];
    assert SimulateCounts([3, 2, 2, 1, 0, 1, 1, 1, 1], 7) == [4, 3, 5, 3, 2, 2, 1, 1, 1];
    assert SimulateCounts([3, 2, 2, 1, 0, 1, 1, 1, 1], 8) == [3, 5, 3, 2, 2, 1, 5, 1, 4];
    assert SimulateCounts([3, 2, 2, 1, 0, 1, 1, 1, 1], 9) == [5, 3, 2, 2, 1, 5, 4, 4, 3];
  }

  lemma SampleDays20To30()
    ensures SimulateCounts([3, 2, 2, 1, 5, 4, 9, 3, 5], 10) == [3, 7, 5, 14, 10, 16, 11, 7, 5]
  {
    assert SimulateCounts([3, 2, 2, 1, 5, 4, 9, 3, 5], 1) == [2, 2, 1, 5, 4, 9, 6, 5, 3];
    assert SimulateCounts([3, 2, 2, 1, 5, 4, 9, 3, 5], 2) == [2, 1, 5, 4, 9, 6, 7, 3, 2];
    assert SimulateCounts([3, 2, 2, 1, 5, 4, 9, 3, 5], 3) == [1, 5, 4, 9, 6, 7, 5, 2, 2];
    assert SimulateCounts([3, 2, 2, 1, 5, 4, 9, 3, 5], 4) == [5, 4, 9, 6, 7, 5, 3, 2, 1];
    assert SimulateCounts([3, 2, 2, 1, 5, 4, 9, 3, 5], 5) == [4, 9, 6, 7, 5, 3, 7, 1, 5];
    assert SimulateCounts([3, 2, 2, 1, 5, 4, 9, 3, 5], 6) == [9, 6, 7, 5, 3, 7, 5, 5, 4];
    assert SimulateCounts([3, 2, 2, 1, 5, 4, 9, 3, 5], 7) == [6, 7, 5, 3, 7, 5, 14, 4, 9];
    assert SimulateCounts([3, 2, 2, 1, 5, 4, 9, 3, 5], 8) == [7, 5, 3, 7, 5, 14, 10, 9, 6];
    assert SimulateCounts([3, 2, 2, 1, 5, 4, 9, 3, 5], 9) == [5, 3, 7, 5, 14, 10, 16, 6, 7];
  }

  lemma SampleDays30To40()
    ensures SimulateCounts([3, 7, 5, 14, 10, 16, 11, 7, 5], 10) == [21, 15, 30, 21, 26, 23, 18, 12, 8]
  {
    assert SimulateCounts([3, 7, 5, 14, 10, 16, 11, 7, 5], 1) == [7, 5, 14, 10, 16, 11, 10, 5, 3];
    assert SimulateCounts([3, 7, 5, 14, 10, 16, 11, 7, 5], 2) == [5, 14, 10, 16, 11, 10, 12, 3, 7];
    assert SimulateCounts([3, 7, 5, 14, 10, 16, 11, 7, 5], 3) == [14, 10, 16, 11, 10, 12, 8, 7, 5];
    assert SimulateCounts([3, 7, 5, 14, 10, 16, 11, 7, 5], 4) == [10, 16, 11, 10, 12, 8, 21, 5, 14];
    assert SimulateCounts([3, 7, 5, 14, 10, 16, 11, 7, 5], 5) == [16, 11, 10, 12, 8, 21, 15, 14, 10];
    assert SimulateCounts([3, 7, 5, 14, 10, 16, 11, 7, 5], 6) == [11, 10, 12, 8, 21, 15, 30, 10, 16];
    assert SimulateCounts([3, 7, 5, 14, 10, 16, 11, 7, 5], 7) == [10, 12, 8, 21, 15, 30, 21, 16, 11];
    assert SimulateCounts([3, 7, 5, 14, 10, 16, 11, 7, 5], 8) == [12, 8, 21, 15, 30, 21, 26, 11, 10];
    assert SimulateCounts([3, 7, 5, 14, 10, 16, 11, 7, 5], 9) == [8, 21, 15, 30, 21, 26, 23, 10, 12];
  }

  lemma SampleDays40To50()
    ensures SimulateCounts([21, 15, 30, 21, 26, 23, 18, 12, 8], 10) == [36, 56, 44, 44, 56, 41, 84, 23, 51]
  {
    assert SimulateCounts([21, 15, 30, 21, 26, 23, 18, 12, 8], 1) == [15, 30, 21, 26, 23, 18, 33, 8, 21];
    assert SimulateCounts([21, 15, 30, 21, 26, 23, 18, 12, 8], 2) == [30, 21, 26, 23, 18, 33, 23, 21, 15];
    assert SimulateCounts([21, 15, 30, 21, 26, 23, 18, 12, 8], 3) == [21, 26, 23, 18, 33, 23, 51, 15, 30];
    assert SimulateCounts([21, 15, 30, 21, 26, 23, 18, 12, 8], 4) == [26, 23, 18, 33, 23, 51, 36, 30, 21];
    assert SimulateCounts([21, 15, 30, 21, 26, 23, 18, 12, 8], 5) == [23, 18, 33, 23, 51, 36, 56, 21, 26];
    assert SimulateCounts([21, 15, 30, 21, 26, 23, 18, 12, 8], 6) == [18, 33, 23, 51, 36, 56, 44, 26, 23];
    assert SimulateCounts([21, 15, 30, 21, 26, 23, 18, 12, 8], 7) == [33, 23, 51, 36, 56, 44, 44, 23, 18];
    assert SimulateCounts([21, 15, 30, 21, 26, 23, 18, 12, 8], 8) == [23, 51, 36, 56, 44, 44, 56, 18, 33];
    assert SimulateCounts([21, 15, 30, 21, 26, 23, 18, 12, 8], 9) == [51, 36, 56, 44, 44, 56, 41, 33, 23];
  }

  lemma SampleDays50To60()
    ensures SimulateCounts([36, 56, 44, 44, 56, 41, 84, 23, 51], 10) == [100, 100, 85, 140, 100, 191, 139, 107, 80]
  {
    assert SimulateCounts([36, 56, 44, 44, 56, 41, 84, 23, 51], 1) == [56, 44, 44, 56, 41, 84, 59, 51, 36];
    assert SimulateCounts([36, 56, 44, 44, 56, 41, 84, 23, 51], 2) == [44, 44, 56, 41, 84, 59, 107, 36, 56];
    assert SimulateCounts([36, 56, 44, 44, 56, 41, 84, 23, 51], 3) == [44, 56, 41, 84, 59, 107, 80, 56, 44];
    assert SimulateCounts([36, 56, 44, 44, 56, 41, 84, 23, 51], 4) == [56, 41, 84, 59, 107, 80, 100, 44, 44];
    assert SimulateCounts([36, 56, 44, 44, 56, 41, 84, 23, 51], 5) == [41, 84, 59, 107, 80, 100, 100, 44, 56];
    assert SimulateCounts([36, 56, 44, 44, 56, 41, 84, 23, 51], 6) == [84, 59, 107, 80, 100, 100, 85, 56, 41];
    assert SimulateCounts([36, 56, 44, 44, 56, 41, 84, 23, 51], 7) == [59, 107, 80, 100, 100, 85, 140, 41, 84];
    assert SimulateCounts([36, 56, 44, 44, 56, 41, 84, 23, 51], 8) == [107, 80, 100, 100, 85, 140, 100, 84, 59];
    assert SimulateCounts([36, 56, 44, 44, 56, 41, 84, 23, 51], 9) == [80, 100, 100, 85, 140, 100, 191, 59, 107];
  }

  lemma SampleDays60To70()
    ensures SimulateCounts([100, 100, 85, 140, 100, 191, 139, 107, 80], 10) == [240, 185, 331, 239, 398, 319, 392, 180, 185]
  {
    assert SimulateCounts([100, 100, 85, 140, 100, 191, 139, 107, 80], 1) == [100, 85, 140, 100, 191, 139, 207, 80, 100];
    assert SimulateCounts([100, 100, 85, 140, 100, 191, 139, 107, 80], 2) == [85, 140, 100, 191, 139, 207, 180, 100, 100];
    assert SimulateCounts([100, 100, 85, 140, 100, 191, 139, 107, 80], 3) == [140, 100, 191, 139, 207, 180, 185, 100, 85];
    assert SimulateCounts([100, 100, 85, 140, 100, 191, 139, 107, 80], 4) == [100, 191, 139, 207, 180, 185, 240, 85, 140];
    assert SimulateCounts([100, 100, 85, 140, 100, 191, 139, 107, 80], 5) == [191, 139, 207, 180, 185, 240, 185, 140, 100];
    assert SimulateCounts([100, 100, 85, 140, 100, 191, 139, 107, 80], 6) == [139, 207, 180, 185, 240, 185, 331, 100, 191];
    assert SimulateCounts([100, 100, 85, 140, 100, 191, 139, 107, 80], 7) == [207, 180, 185, 240, 185, 331, 239, 191, 139];
    assert SimulateCounts([100, 100, 85, 140, 100, 191, 139, 107, 80], 8) == [180, 185, 240, 185, 331, 239, 398, 139, 207];
    assert SimulateCounts([100, 100, 85, 140, 100, 191, 139, 107, 80], 9) == [185, 240, 185, 331, 239, 398, 319, 207, 180];
  }

  lemma SampleDays70To80()
    ensures SimulateCounts([240, 185, 331, 239, 398, 319, 392, 180, 185], 10) == [424, 729, 558, 790, 739, 762, 991, 370, 571]
  {
    assert SimulateCounts([240, 185, 331, 239, 398, 319, 392, 180, 185], 1) == [185, 331, 239, 398, 319, 392, 420, 185, 240];
    assert SimulateCounts([240, 185, 331, 239, 398, 319, 392, 180, 185], 2) == [331, 239, 398, 319, 392, 420, 370, 240, 185];
    assert SimulateCounts([240, 185, 331, 239, 398, 319, 392, 180, 185], 3) == [239, 398, 319, 392, 420, 370, 571, 185, 331];
    assert SimulateCounts([240, 185, 331, 239, 398, 319, 392, 180, 185], 4) == [398, 319, 392, 420, 370, 571, 424, 331, 239];
    assert SimulateCounts([240, 185, 331, 239, 398, 319, 392, 180, 185], 5) == [319, 392, 420, 370, 571, 424, 729, 239, 398];
    assert SimulateCounts([240, 185, 331, 239, 398, 319, 392, 180, 185], 6) == [392, 420, 370, 571, 424, 729, 558, 398, 319];
    assert SimulateCounts([240, 185, 331, 239, 398, 319, 392, 180, 185], 7) == [420, 370, 571, 424, 729, 558, 790, 319, 392];
    assert SimulateCounts([240, 185, 331, 239, 398, 319, 392, 180, 185], 8) == [370, 571, 424, 729, 558, 790, 739, 392, 420];
    assert SimulateCounts([240, 185, 331, 239, 398, 319, 392, 180, 185], 9) == [571, 424, 729, 558, 790, 739, 762, 420, 370];
  }

  lemma SampleAfter20Days()
    ensures SimulateCounts([0, 1, 1, 2, 1, 0, 0, 0, 0], 20) == [3, 2, 2, 1, 5, 4, 9, 3, 5]
  {
    SampleDays0To10();
    SimulateCountsSplit([0, 1, 1, 2, 1, 0, 0, 0, 0], 10, 10);
    SampleDays10To20();
  }

  lemma SampleAfter30Days()
    ensures SimulateCounts([0, 1, 1, 2, 1, 0, 0, 0, 0], 30) == [3, 7, 5, 14, 10, 16, 11, 7, 5]
  {
    SampleAfter20Days();
    SimulateCountsSplit([0, 1, 1, 2, 1, 0, 0, 0, 0], 20, 10);
    SampleDays20To30();
  }

  lemma SampleAfter40Days()
    ensures SimulateCounts([0, 1, 1, 2, 1, 0, 0, 0, 0], 40) == [21, 15, 30, 21, 26, 23, 18, 12, 8]
  {
    SampleAfter30Days();
    SimulateCountsSplit([0, 1, 1, 2, 1, 0, 0, 0, 0], 30, 10);
    SampleDays30To40();
  }

  lemma SampleAfter50Days()
    ensures SimulateCounts([0, 1, 1, 2, 1, 0, 0, 0, 0], 50) == [36, 56, 44, 44, 56, 41, 84, 23, 51]
  {
    SampleAfter40Days();
    SimulateCountsSplit([0, 1, 1, 2, 1, 0, 0, 0, 0], 40, 10);
    SampleDays40To50();
  }

  lemma SampleAfter60Days()
    ensures SimulateCounts([0, 1, 1, 2, 1, 0, 0, 0, 0], 60) == [100, 100, 85, 140, 100, 191, 139, 107, 80]
  {
    SampleAfter50Days();
    SimulateCountsSplit([0, 1, 1, 2, 1, 0, 0, 0, 0], 50, 10);
    SampleDays50To60();
  }

  lemma SampleAfter70Days()
    ensures SimulateCounts([0, 1, 1, 2, 1, 0, 0, 0, 0], 70) == [240, 185, 331, 239, 398, 319, 392, 180, 185]
  {
    SampleAfter60Days();
    SimulateCountsSplit([0, 1, 1, 2, 1, 0, 0, 0, 0], 60, 10);
    SampleDays60To70();
  }

  lemma SampleAfter80Days()
    ensures SimulateCounts([0, 1, 1, 2, 1, 0, 0, 0, 0], 80) == [424, 729, 558, 790, 739, 762, 991, 370, 571]
  {
    SampleAfter70Days();
    SimulateCountsSplit([0, 1, 1, 2, 1, 0, 0, 0, 0], 70, 10);
    SampleDays70To80();
  }

  /** The sample school grows to 5934 fish in 80 days, counted either way. */
  lemma Sample80Days()
    ensures Sum(SimulateCounts([0, 1, 1, 2, 1, 0, 0, 0, 0], 80)) == 5934
    ensures |Simulate([3, 4, 3, 1, 2], 80)| == 5934
  {
    SampleAfter80Days();
    SumNine(SimulateCounts([0, 1, 1, 2, 1, 0, 0, 0, 0], 80));
    SampleCounts();
    SimulationsAgree([3, 4, 3, 1, 2], 80);
  }
}
