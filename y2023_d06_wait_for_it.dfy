// Wait for it (2023, day 6).
//
// In a boat race of `time` milliseconds, holding the button for `h`
// milliseconds gives the boat a speed of `h` for the remaining `time - h`
// milliseconds. The ways to win a race are the hold times that travel
// further than the record distance.

module WaitForIt {
  import opened Wrappers

  /** The largest `u64` plus one. */
  const U64_LIMIT: nat := 0x1_0000_0000_0000_0000

  type U64 = x: nat | x < U64_LIMIT

  /** `Race`. */
  datatype Race = Race(time: U64, recordDistance: U64)

  /** The distance travelled after holding the button for `h` milliseconds. */
  function Distance(time: nat, h: nat): nat
    requires h <= time
  {
    h * (time - h)
  }

  /** Holding for `h` beats the record. */
  predicate Wins(race: Race, h: nat)
    requires h <= race.time
  {
    Distance(race.time, h) > race.recordDistance
  }

  /** Some hold time gives a distance too large for a `u64`, which panics. */
  predicate Overflows(race: Race)
  {
    exists h: nat | h <= race.time :: Distance(race.time, h) >= U64_LIMIT
  }

  /** The hold times `0..=time`. */
  function HoldTimes(time: nat): (r: seq<nat>)
    ensures |r| == time + 1 && forall i :: 0 <= i < |r| ==> r[i] == i
  {
    seq(time + 1, i requires 0 <= i <= time => i)
  }

  /** The test of the `filter_map`: a hold time within the race that wins. */
  function Winner(race: Race): nat -> bool
  {
    (h: nat) => h <= race.time && Wins(race, h)
  }

  /**
   * `ways_to_win`: the hold times, in increasing order, that beat the
   * record; `None` where collecting them panics on a `u64` overflow of the
   * distance.
   */
  function WaysToWin(race: Race): Option<seq<nat>>
  {
    if Overflows(race) then None
    else Some(Filter(HoldTimes(race.time), Winner(race)))
  }

  /**
   * The ways to win are exactly the winning hold times up to the race time,
   * each once and in increasing order.
   */
  lemma WaysToWinMeaning(race: Race)
    ensures WaysToWin(race).None? <==> Overflows(race)
    ensures WaysToWin(race).Some? ==>
      Increasing(WaysToWin(race).value) &&
      forall h: nat :: h in WaysToWin(race).value <==> h <= race.time && Wins(race, h)
  {
    if !Overflows(race) {
      var s := HoldTimes(race.time);
      var p := Winner(race);
      FilterMeaning(s, p);
      var f, ix := Filter(s, p), FilterIndices(s, p);
      assert forall k :: 0 <= k < |f| ==> f[k] == ix[k];
      forall h: nat
        ensures h in f <==> h <= race.time && Wins(race, h)
      {
        FilterMembers(s, p, h);
        if h <= race.time {
          assert s[h] == h;
        }
      }
    }
  }

  /** A hold time wins exactly when the complementary hold time does. */
  lemma WinsSymmetric(race: Race, h: nat)
    requires h <= race.time
    ensures Wins(race, h) <==> Wins(race, race.time - h)
  {
  }

  /** Holding for no time, or for the whole race, travels nowhere and never wins. */
  lemma EndsNeverWin(race: Race)
    ensures !Wins(race, 0) && !Wins(race, race.time)
  {
  }

  /** The distance grows with the hold time up to half the race. */
  lemma DistanceMonotone(time: nat, h: nat, k: nat)
    requires h <= k && h + k <= time
    ensures Distance(time, h) <= Distance(time, k)
  {
    assert Distance(time, k) - Distance(time, h) == (k - h) * (time - k - h);
    MulNonNegative(k - h, time - k - h);
  }

  lemma MulNonNegative(a: nat, b: nat)
    ensures a * b >= 0
  {
  }

  /**
   * The winning hold times form an interval symmetric around half the race:
   * when `lo` is the first winning hold time, the winners are exactly
   * `lo..=time - lo`.
   */
  lemma WinsInterval(race: Race, lo: nat)
    requires 2 * lo <= race.time && Wins(race, lo)
    requires lo == 0 || !Wins(race, lo - 1)
    ensures forall h: nat :: h <= race.time ==> (Wins(race, h) <==> lo <= h <= race.time - lo)
  {
    var t := race.time;
    forall h: nat | h <= t
      ensures Wins(race, h) <==> lo <= h <= t - lo
    {
      var g := if 2 * h <= t then h else t - h;
      assert Wins(race, h) <==> Wins(race, g) by {
        WinsSymmetric(race, h);
      }
      if g < lo {
        DistanceMonotone(t, g, lo - 1);
      } else {
        DistanceMonotone(t, lo, g);
      }
    }
  }

  /** No distance of a race overflows when the race time is below 2^32. */
  lemma SmallRaceFits(race: Race)
    requires race.time < 0x1_0000_0000
    ensures !Overflows(race)
  {
    forall h: nat | h <= race.time
      ensures Distance(race.time, h) < U64_LIMIT
    {
      MulBound(h, race.time - h, 0x1_0000_0000);
    }
  }

  lemma MulBound(a: nat, b: nat, m: nat)
    requires a < m && b < m
    ensures a * b < m * m
  {
    MulNonNegative(a, m - b);
    assert a * b <= a * m;
    assert a * m < m * m by {
      MulNonNegative(m - a, m);
      assert (m - a) * m >= m;
    }
  }

  /** The ways to win are the interval of the winners, written out. */
  lemma WaysToWinInterval(race: Race, lo: nat, ways: seq<nat>)
    requires race.time < 0x1_0000_0000
    requires 2 * lo <= race.time && Wins(race, lo)
    requires lo == 0 || !Wins(race, lo - 1)
    requires Increasing(ways) && forall h: nat :: h in ways <==> lo <= h <= race.time - lo
    ensures WaysToWin(race) == Some(ways)
  {
    SmallRaceFits(race);
    WaysToWinMeaning(race);
    WinsInterval(race, lo);
    IncreasingUnique(WaysToWin(race).value, ways);
  }

  /** The first race of the tests: time 7, record 9. */
  lemma FirstSample()
    ensures WaysToWin(Race(7, 9)) == Some([2, 3, 4, 5])
  {
    WaysToWinInterval(Race(7, 9), 2, [2, 3, 4, 5]);
  }

  /** The second race of the tests: time 15, record 40. */
  lemma SecondSample()
    ensures WaysToWin(Race(15, 40)) == Some([4, 5, 6, 7, 8, 9, 10, 11])
  {
    WaysToWinInterval(Race(15, 40), 4, [4, 5, 6, 7, 8, 9, 10, 11]);
  }

  /** The third race of the tests: time 30, record 200. */
  lemma ThirdSample()
    ensures WaysToWin(Race(30, 200)) == Some([11, 12, 13, 14, 15, 16, 17, 18, 19])
  {
    WaysToWinInterval(Race(30, 200), 11, [11, 12, 13, 14, 15, 16, 17, 18, 19]);
  }
}
