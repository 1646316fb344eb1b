// Red-nosed reports (2024, day 2).
//
// A report is a list of levels. It is safe when the levels only rise or only
// fall, each step by one to three. The problem dampener also accepts a
// report that becomes safe once a single level is taken out.

module RedNosedReports {
  import opened Wrappers

  /** How many neighbouring pairs `array_windows::<2>` yields: none for fewer than two levels. */
  function Pairs(r: seq<int>): nat
  {
    if r == [] then 0 else |r| - 1
  }

  /** The `cmp` of two neighbouring levels as the source scores it: 1 rising, 0 equal, -1 falling. */
  function Sign(a: int, b: int): int
  {
    if a < b then 1 else if a == b then 0 else -1
  }

  /** The score of every neighbouring pair, in order. */
  function Signs(r: seq<int>): (s: seq<int>)
    ensures |s| == Pairs(r)
  {
    seq(Pairs(r), i requires 0 <= i < Pairs(r) => Sign(r[i], r[i + 1]))
  }

  /**
   * `is_report_safe`: the scores add up to plus or minus the number of pairs,
   * and every step differs by one to three.
   */
  function IsReportSafe(r: seq<int>): bool
  {
    Abs(Sum(Signs(r))) == Pairs(r) && ReasonableSteps(r)
  }

  /** Every neighbouring pair differs by one to three. */
  predicate ReasonableSteps(r: seq<int>)
  {
    forall i :: 0 <= i < Pairs(r) ==> 1 <= Abs(r[i] - r[i + 1]) <= 3
  }

  /** Every step rises by one to three. */
  predicate Increasing(r: seq<int>)
  {
    forall i :: 0 <= i < |r| - 1 ==> r[i] < r[i + 1] <= r[i] + 3
  }

  /** Every step falls by one to three. */
  predicate Decreasing(r: seq<int>)
  {
    forall i :: 0 <= i < |r| - 1 ==> r[i] - 3 <= r[i + 1] < r[i]
  }

  /** The puzzle's notion of a safe report. */
  predicate Safe(r: seq<int>)
  {
    Increasing(r) || Decreasing(r)
  }

  /** Every element is a pair's score. */
  predicate Scores(s: seq<int>)
  {
    forall i :: 0 <= i < |s| ==> -1 <= s[i] <= 1
  }

  /** Scores add up to at most their number, and reach it only when every one is 1. */
  lemma {:induction false} ScoreSumTop(s: seq<int>)
    requires Scores(s)
    ensures Sum(s) <= |s|
    ensures Sum(s) == |s| <==> forall i :: 0 <= i < |s| ==> s[i] == 1
    decreases |s|
  {
    if s != [] {
      var front := s[..|s| - 1];
      ScoreSumTop(front);
      if forall i :: 0 <= i < |s| ==> s[i] == 1 {
        assert forall i :: 0 <= i < |front| ==> front[i] == 1 by {
          forall i | 0 <= i < |front| ensures front[i] == 1 {
            assert front[i] == s[i];
          }
        }
      }
      if Sum(s) == |s| {
        forall i | 0 <= i < |s| ensures s[i] == 1 {
          if i < |front| {
            assert front[i] == s[i];
          }
        }
      }
    }
  }

  /** Scores add up to at least minus their number, and reach it only when every one is -1. */
  lemma {:induction false} ScoreSumBottom(s: seq<int>)
    requires Scores(s)
    ensures Sum(s) >= -|s|
    ensures Sum(s) == -|s| <==> forall i :: 0 <= i < |s| ==> s[i] == -1
    decreases |s|
  {
    if s != [] {
      var front := s[..|s| - 1];
      ScoreSumBottom(front);
      if forall i :: 0 <= i < |s| ==> s[i] == -1 {
        assert forall i :: 0 <= i < |front| ==> front[i] == -1 by {
          forall i | 0 <= i < |front| ensures front[i] == -1 {
            assert front[i] == s[i];
          }
        }
      }
      if Sum(s) == -|s| {
        forall i | 0 <= i < |s| ensures s[i] == -1 {
          if i < |front| {
            assert front[i] == s[i];
          }
        }
      }
    }
  }

  /**
   * The scoring trick is right: a report passes `is_report_safe` exactly
   * when its levels only rise or only fall, each step by one to three.
   */
  lemma IsReportSafeMeaning(r: seq<int>)
    ensures IsReportSafe(r) <==> Safe(r)
  {
    var s := Signs(r);
    assert Scores(s);
    ScoreSumTop(s);
    ScoreSumBottom(s);
    RisingMeaning(r);
    FallingMeaning(r);
  }

  /** A pair scoring 1 or -1 with a step of one to three is a rise or a fall by one to three. */
  lemma PairMeaning(a: int, b: int)
    ensures Sign(a, b) == 1 && 1 <= Abs(a - b) <= 3 <==> a < b <= a + 3
    ensures Sign(a, b) == -1 && 1 <= Abs(a - b) <= 3 <==> a - 3 <= b < a
  {
  }

  /** Rising by one to three is every pair scoring 1 with a reasonable step. */
  lemma RisingMeaning(r: seq<int>)
    ensures Increasing(r) <==> (forall i :: 0 <= i < |Signs(r)| ==> Signs(r)[i] == 1) && ReasonableSteps(r)
  {
    var s := Signs(r);
    forall i | 0 <= i < |s|
      ensures s[i] == 1 && 1 <= Abs(r[i] - r[i + 1]) <= 3 <==> r[i] < r[i + 1] <= r[i] + 3
    {
      PairMeaning(r[i], r[i + 1]);
    }
  }

  /** Falling by one to three is every pair scoring -1 with a reasonable step. */
  lemma FallingMeaning(r: seq<int>)
    ensures Decreasing(r) <==> (forall i :: 0 <= i < |Signs(r)| ==> Signs(r)[i] == -1) && ReasonableSteps(r)
  {
    var s := Signs(r);
    forall i | 0 <= i < |s|
      ensures s[i] == -1 && 1 <= Abs(r[i] - r[i + 1]) <= 3 <==> r[i] - 3 <= r[i + 1] < r[i]
    {
      PairMeaning(r[i], r[i + 1]);
    }
  }

  /** A report of fewer than two levels has no pairs and is safe. */
  lemma ShortReportsSafe(r: seq<int>)
    requires |r| < 2
    ensures IsReportSafe(r) && Safe(r)
  {
    assert Signs(r) == [];
  }

  /** The report with the level at `k` taken out. */
  function Without(r: seq<int>, k: nat): seq<int>
    requires k < |r|
  {
    r[..k] + r[k + 1..]
  }

  /** Safe as it is, or safe once some one level is taken out. */
  predicate DampenedSafe(r: seq<int>)
  {
    IsReportSafe(r) || exists k :: 0 <= k < |r| && IsReportSafe(Without(r, k))
  }

  /** No report with one of the first `n` levels taken out is safe. */
  predicate NoneSafeBefore(r: seq<int>, n: nat)
    requires n <= |r|
  {
    forall k :: 0 <= k < n ==> !IsReportSafe(Without(r, k))
  }

  /** Pushing the level at `i` onto a buffer that skips `omitted` extends the right slice. */
  lemma BufferStep(r: seq<int>, omitted: nat, i: nat)
    requires i < |r|
    ensures i < omitted ==> r[..i + 1] == r[..i] + [r[i]]
    ensures omitted < i ==> r[omitted + 1..i + 1] == r[omitted + 1..i] + [r[i]]
    ensures i == omitted ==> r[..i + 1][..omitted] == r[..omitted] && r[omitted + 1..i + 1] == []
  {
  }

  /** Once every level has been seen, the buffer skipping `omitted` holds the report without it. */
  lemma BufferFull(r: seq<int>, omitted: nat)
    requires omitted < |r|
    ensures r[..omitted] + r[omitted + 1..|r|] == Without(r, omitted)
  {
  }

  /**
   * `is_report_safe_with_problem_dampener`: true at once for a safe report;
   * otherwise, for each level in turn, the other levels are copied into a
   * buffer, checked, and the buffer cleared.
   */
  method IsReportSafeWithProblemDampener(report: seq<int>) returns (safe: bool)
    ensures safe == DampenedSafe(report)
  {
    if IsReportSafe(report) {
      return true;
    }
    var vec: seq<int> := [];
    for omitted := 0 to |report|
      invariant vec == []
      invariant NoneSafeBefore(report, omitted)
    {
      for i := 0 to |report|
        invariant i <= omitted ==> vec == report[..i]
        invariant omitted < i ==> vec == report[..omitted] + report[omitted + 1..i]
      {
        BufferStep(report, omitted, i);
        if i != omitted {
          vec := vec + [report[i]];
        }
      }
      BufferFull(report, omitted);
      if IsReportSafe(vec) {
        return true;
      }
      assert NoneSafeBefore(report, omitted + 1);
      vec := [];
    }
    return false;
  }

  /** Safe reports are dampened-safe. */
  lemma SafeIsDampenedSafe(r: seq<int>)
    requires Safe(r)
    ensures DampenedSafe(r)
  {
    IsReportSafeMeaning(r);
  }

  /** Taking the first level out of a safe report leaves it safe. */
  lemma SafeWithoutFirst(r: seq<int>)
    requires Safe(r) && r != []
    ensures Safe(Without(r, 0))
  {
    var t := Without(r, 0);
    assert t == r[1..];
    if Increasing(r) {
      assert Increasing(t) by {
        forall i | 0 <= i < |t| - 1 ensures t[i] < t[i + 1] <= t[i] + 3 {
          assert t[i] == r[i + 1] && t[i + 1] == r[i + 2];
        }
      }
    } else {
      assert Decreasing(t) by {
        forall i | 0 <= i < |t| - 1 ensures t[i] - 3 <= t[i + 1] < t[i] {
          assert t[i] == r[i + 1] && t[i + 1] == r[i + 2];
        }
      }
    }
  }

  /**
   * For a report with any levels, dampened safety is exactly being safe once
   * some one level is taken out: the first check is only a shortcut.
   */
  lemma DampenedSafeMeaning(r: seq<int>)
    requires r != []
    ensures DampenedSafe(r) <==> exists k :: 0 <= k < |r| && Safe(Without(r, k))
  {
    IsReportSafeMeaning(r);
    if Safe(r) {
      SafeWithoutFirst(r);
      IsReportSafeMeaning(Without(r, 0));
    }
    forall k | 0 <= k < |r| ensures IsReportSafe(Without(r, k)) <==> Safe(Without(r, k)) {
      IsReportSafeMeaning(Without(r, k));
    }
  }

  /** A report is unsafe when one step does not rise by one to three and one step does not fall by one to three. */
  lemma Unsafe(r: seq<int>, i: nat, j: nat)
    requires i < |r| - 1 && j < |r| - 1
    requires !(r[i] < r[i + 1] <= r[i] + 3)
    requires !(r[j] - 3 <= r[j + 1] < r[j])
    ensures !IsReportSafe(r)
  {
    IsReportSafeMeaning(r);
  }

  /** `7 6 4 2 1` is safe: it falls by 1 or 2. */
  lemma SampleFirst(r: seq<int>)
    requires r == [7, 6, 4, 2, 1]
    ensures IsReportSafe(r) && DampenedSafe(r)
  {
    assert Decreasing(r);
    IsReportSafeMeaning(r);
  }

  /** `1 2 7 8 9` is unsafe, even with one level taken out: a rise of 5 always remains. */
  lemma SampleSecond(r: seq<int>)
    requires r == [1, 2, 7, 8, 9]
    ensures !IsReportSafe(r) && !DampenedSafe(r)
  {
    Unsafe(r, 1, 0);
    assert !IsReportSafe(Without(r, 0)) by {
      assert Without(r, 0) == [2, 7, 8, 9];
      Unsafe(Without(r, 0), 0, 0);
    }
    assert !IsReportSafe(Without(r, 1)) by {
      assert Without(r, 1) == [1, 7, 8, 9];
      Unsafe(Without(r, 1), 0, 0);
    }
    assert !IsReportSafe(Without(r, 2)) by {
      assert Without(r, 2) == [1, 2, 8, 9];
      Unsafe(Without(r, 2), 1, 0);
    }
    assert !IsReportSafe(Without(r, 3)) by {
      assert Without(r, 3) == [1, 2, 7, 9];
      Unsafe(Without(r, 3), 1, 0);
    }
    assert !IsReportSafe(Without(r, 4)) by {
      assert Without(r, 4) == [1, 2, 7, 8];
      Unsafe(Without(r, 4), 1, 0);
    }
  }

  /** `9 7 6 2 1` is unsafe, even with one level taken out: a fall of 4 always remains. */
  lemma SampleThird(r: seq<int>)
    requires r == [9, 7, 6, 2, 1]
    ensures !IsReportSafe(r) && !DampenedSafe(r)
  {
    Unsafe(r, 0, 2);
    assert !IsReportSafe(Without(r, 0)) by {
      assert Without(r, 0) == [7, 6, 2, 1];
      Unsafe(Without(r, 0), 0, 1);
    }
    assert !IsReportSafe(Without(r, 1)) by {
      assert Without(r, 1) == [9, 6, 2, 1];
      Unsafe(Without(r, 1), 0, 1);
    }
    assert !IsReportSafe(Without(r, 2)) by {
      assert Without(r, 2) == [9, 7, 2, 1];
      Unsafe(Without(r, 2), 0, 1);
    }
    assert !IsReportSafe(Without(r, 3)) by {
      assert Without(r, 3) == [9, 7, 6, 1];
      Unsafe(Without(r, 3), 0, 2);
    }
    assert !IsReportSafe(Without(r, 4)) by {
      assert Without(r, 4) == [9, 7, 6, 2];
      Unsafe(Without(r, 4), 0, 2);
    }
  }

  /** `1 3 2 4 5` is unsafe, but safe once the 3 is taken out. */
  lemma SampleFourth(r: seq<int>)
    requires r == [1, 3, 2, 4, 5]
    ensures !IsReportSafe(r) && DampenedSafe(r)
  {
    Unsafe(r, 1, 0);
    assert Without(r, 1) == [1, 2, 4, 5];
    assert Increasing(Without(r, 1));
    IsReportSafeMeaning(Without(r, 1));
  }

  /** `8 6 4 4 1` is unsafe, but safe once a 4 is taken out. */
  lemma SampleFifth(r: seq<int>)
    requires r == [8, 6, 4, 4, 1]
    ensures !IsReportSafe(r) && DampenedSafe(r)
  {
    Unsafe(r, 0, 2);
    assert Without(r, 2) == [8, 6, 4, 1];
    assert Decreasing(Without(r, 2));
    IsReportSafeMeaning(Without(r, 2));
  }

  /** `1 3 6 7 9` is safe: it rises by 1 to 3. */
  lemma SampleSixth(r: seq<int>)
    requires r == [1, 3, 6, 7, 9]
    ensures IsReportSafe(r) && DampenedSafe(r)
  {
    assert Increasing(r);
    IsReportSafeMeaning(r);
  }
}
