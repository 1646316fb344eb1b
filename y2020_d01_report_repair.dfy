// Report repair (2020, day 1).
//
// The expense report is a list of numbers. Part one looks for two entries,
// part two for three entries at increasing positions, that sum to 2020; the
// entries are tried in the order of nested loops over their positions.

module ReportRepair {
  import opened Wrappers
  import Text

  /** The largest `u32` plus one. */
  const U32_LIMIT: nat := 0x1_0000_0000

  const TARGET: nat := 2020

  type U32 = x: nat | x < U32_LIMIT

  /** The entries of the lines that parse as a `u32`, in order; other lines are skipped. */
  function ParseLines(lines: seq<string>): (r: seq<U32>)
    ensures |r| <= |lines|
  {
    if lines == [] then []
    else
      match Text.ParseUnsigned(lines[0], U32_LIMIT)
      case Some(v) => [v as U32] + ParseLines(lines[1..])
      case None => ParseLines(lines[1..])
  }

  /** `parse_nums`: the text split on newlines, keeping the pieces that parse. */
  function ParseNums(input: string): seq<U32>
  {
    ParseLines(Text.Split(input, '\n'))
  }

  /** The decimal text of each entry. */
  function ShowAll(nums: seq<U32>): (r: seq<string>)
    ensures |r| == |nums| && forall i :: 0 <= i < |r| ==> r[i] == Text.Show(nums[i])
  {
    if nums == [] then [] else [Text.Show(nums[0])] + ShowAll(nums[1..])
  }

  /** Parsing the lines of a list written one entry per line reads back the entries. */
  lemma {:induction false} ParseShowAll(nums: seq<U32>)
    ensures ParseLines(ShowAll(nums) + [""]) == nums
  {
    if nums != [] {
      Text.ParseShow(nums[0], U32_LIMIT);
      assert (ShowAll(nums) + [""])[1..] == ShowAll(nums[1..]) + [""];
      ParseShowAll(nums[1..]);
    }
  }

  /**
   * A report written one entry per line, each line ended by a newline as
   * in the tests, parses back to its entries.
   */
  lemma ParseNumsRoundTrip(nums: seq<U32>)
    ensures ParseNums(Text.Join(ShowAll(nums) + [""], '\n')) == nums
  {
    var lines := ShowAll(nums) + [""];
    forall i | 0 <= i < |lines|
      ensures '\n' !in lines[i]
    {
      if i < |nums| {
        Text.ShowLacks(nums[i], '\n');
      }
    }
    Text.SplitJoin(lines, '\n');
    ParseShowAll(nums);
  }

  /** The sum of the entries at positions `i` and `j`. */
  function PairSum(nums: seq<U32>, i: nat, j: nat): nat
    requires i < |nums| && j < |nums|
  {
    nums[i] as nat + nums[j] as nat
  }

  /**
   * The loops stop at the pair `(i, j)`: its `u32` sum overflows (a panic)
   * or is 2020 (the answer).
   */
  predicate PairStops(nums: seq<U32>, i: nat, j: nat)
    requires i < |nums| && j < |nums|
  {
    PairSum(nums, i, j) >= U32_LIMIT || PairSum(nums, i, j) == TARGET
  }

  /** `(i, j)` comes before `(i2, j2)` in the order of the nested loops. */
  predicate PairBefore(i: nat, j: nat, i2: nat, j2: nat)
  {
    i < i2 || (i == i2 && j < j2)
  }

  /** `(i, j)` is the first pair of positions at which the loops stop. */
  predicate FirstPair(nums: seq<U32>, i: nat, j: nat)
  {
    i < j < |nums| && PairStops(nums, i, j) &&
    forall i2: nat, j2: nat :: i2 < j2 < |nums| && PairBefore(i2, j2, i, j) ==> !PairStops(nums, i2, j2)
  }

  /** Some pair stops the loops, so a first one does. */
  lemma {:induction false} FirstPairExists(nums: seq<U32>, i: nat, j: nat)
    requires i < j < |nums| && PairStops(nums, i, j)
    ensures exists i2: nat, j2: nat :: FirstPair(nums, i2, j2)
    decreases i, j
  {
    if !FirstPair(nums, i, j) {
      var i2: nat, j2: nat :| i2 < j2 < |nums| && PairBefore(i2, j2, i, j) && PairStops(nums, i2, j2);
      FirstPairExists(nums, i2, j2);
    }
  }

  /** There is only one first pair. */
  lemma FirstPairUnique(nums: seq<U32>, i: nat, j: nat, i2: nat, j2: nat)
    requires FirstPair(nums, i, j) && FirstPair(nums, i2, j2)
    ensures i == i2 && j == j2
  {
    if PairBefore(i, j, i2, j2) {
      assert false;
    } else if PairBefore(i2, j2, i, j) {
      assert false;
    }
  }

  /**
   * `find_pair`: the entries of the first pair of positions, in loop order,
   * whose sum is 2020. `None` where the source panics: no pair sums to
   * 2020, or a sum overflows `u32` before one is found.
   */
  method FindPair(nums: seq<U32>) returns (r: Option<(U32, U32)>)
    ensures r.Some? ==>
      exists i: nat, j: nat :: FirstPair(nums, i, j) && PairSum(nums, i, j) == TARGET && r.value == (nums[i], nums[j])
    ensures r.None? ==>
      (forall i, j :: 0 <= i < j < |nums| ==> !PairStops(nums, i, j)) ||
      exists i: nat, j: nat :: FirstPair(nums, i, j) && PairSum(nums, i, j) >= U32_LIMIT
  {
    for i := 0 to |nums|
      invariant forall i2: nat, j2: nat :: i2 < j2 < |nums| && i2 < i ==> !PairStops(nums, i2, j2)
    {
      for j := i + 1 to |nums|
        invariant forall i2: nat, j2: nat :: i2 < j2 < |nums| && PairBefore(i2, j2, i, j) ==> !PairStops(nums, i2, j2)
      {
        if nums[i] as nat + nums[j] as nat >= U32_LIMIT {
          assert FirstPair(nums, i, j);
          return None;
        }
        if nums[i] + nums[j] == TARGET {
          assert FirstPair(nums, i, j);
          return Some((nums[i], nums[j]));
        }
      }
    }
    return None;
  }

  /**
   * With entries small enough that no two overflow, as in the puzzle
   * input, the first pair that sums to 2020 exists exactly when some pair
   * does.
   */
  lemma PairFoundWhenSmall(nums: seq<U32>)
    requires forall k :: 0 <= k < |nums| ==> nums[k] < U32_LIMIT / 2
    ensures (exists i: nat, j: nat :: FirstPair(nums, i, j) && PairSum(nums, i, j) == TARGET) <==>
      exists i: nat, j: nat :: i < j < |nums| && PairSum(nums, i, j) == TARGET
  {
    if exists i: nat, j: nat :: i < j < |nums| && PairSum(nums, i, j) == TARGET {
      var i: nat, j: nat :| i < j < |nums| && PairSum(nums, i, j) == TARGET;
      FirstPairExists(nums, i, j);
      var i2: nat, j2: nat :| FirstPair(nums, i2, j2);
      assert PairSum(nums, i2, j2) < U32_LIMIT;
    }
  }

  /** The sum of the entries at positions `i`, `j` and `k`. */
  function TripleSum(nums: seq<U32>, i: nat, j: nat, k: nat): nat
    requires i < |nums| && j < |nums| && k < |nums|
  {
    nums[i] as nat + nums[j] as nat + nums[k] as nat
  }

  /**
   * The loops stop at `(i, j, k)`: the `u32` sum overflows (the partial sum
   * of the first two entries overflows only if the whole sum does) or is
   * 2020.
   */
  predicate TripleStops(nums: seq<U32>, i: nat, j: nat, k: nat)
    requires i < |nums| && j < |nums| && k < |nums|
  {
    TripleSum(nums, i, j, k) >= U32_LIMIT || TripleSum(nums, i, j, k) == TARGET
  }

  /** `(i, j, k)` comes before `(i2, j2, k2)` in the order of the nested loops. */
  predicate TripleBefore(i: nat, j: nat, k: nat, i2: nat, j2: nat, k2: nat)
  {
    i < i2 || (i == i2 && (j < j2 || (j == j2 && k < k2)))
  }

  /** `(i, j, k)` is the first triple of positions at which the loops stop. */
  predicate FirstTriple(nums: seq<U32>, i: nat, j: nat, k: nat)
  {
    i < j < k < |nums| && TripleStops(nums, i, j, k) &&
    forall i2: nat, j2: nat, k2: nat :: i2 < j2 < k2 < |nums| && TripleBefore(i2, j2, k2, i, j, k) ==>
      !TripleStops(nums, i2, j2, k2)
  }

  /** Some triple stops the loops, so a first one does. */
  lemma {:induction false} FirstTripleExists(nums: seq<U32>, i: nat, j: nat, k: nat)
    requires i < j < k < |nums| && TripleStops(nums, i, j, k)
    ensures exists i2: nat, j2: nat, k2: nat :: FirstTriple(nums, i2, j2, k2)
    decreases i, j, k
  {
    if !FirstTriple(nums, i, j, k) {
      var i2: nat, j2: nat, k2: nat :| i2 < j2 < k2 < |nums| && TripleBefore(i2, j2, k2, i, j, k) &&
        TripleStops(nums, i2, j2, k2);
      FirstTripleExists(nums, i2, j2, k2);
    }
  }

  /** There is only one first triple. */
  lemma FirstTripleUnique(nums: seq<U32>, i: nat, j: nat, k: nat, i2: nat, j2: nat, k2: nat)
    requires FirstTriple(nums, i, j, k) && FirstTriple(nums, i2, j2, k2)
    ensures i == i2 && j == j2 && k == k2
  {
    if TripleBefore(i, j, k, i2, j2, k2) {
      assert false;
    } else if TripleBefore(i2, j2, k2, i, j, k) {
      assert false;
    }
  }

  /**
   * `find_triplet`: the entries of the first triple of positions, in loop
   * order, whose sum is 2020. `None` where the source panics: no triple
   * sums to 2020, or a sum overflows `u32` before one is found.
   */
  method FindTriplet(nums: seq<U32>) returns (r: Option<(U32, U32, U32)>)
    ensures r.Some? ==>
      exists i: nat, j: nat, k: nat :: FirstTriple(nums, i, j, k) && TripleSum(nums, i, j, k) == TARGET &&
        r.value == (nums[i], nums[j], nums[k])
    ensures r.None? ==>
      (forall i, j, k :: 0 <= i < j < k < |nums| ==> !TripleStops(nums, i, j, k)) ||
      exists i: nat, j: nat, k: nat :: FirstTriple(nums, i, j, k) && TripleSum(nums, i, j, k) >= U32_LIMIT
  {
    for i := 0 to |nums|
      invariant forall i2: nat, j2: nat, k2: nat :: i2 < j2 < k2 < |nums| && i2 < i ==> !TripleStops(nums, i2, j2, k2)
    {
      for j := i + 1 to |nums|
        invariant forall i2: nat, j2: nat, k2: nat :: i2 < j2 < k2 < |nums| && TripleBefore(i2, j2, 0, i, j, 0) ==>
          !TripleStops(nums, i2, j2, k2)
      {
        for k := j + 1 to |nums|
          invariant forall i2: nat, j2: nat, k2: nat :: i2 < j2 < k2 < |nums| && TripleBefore(i2, j2, k2, i, j, k) ==>
            !TripleStops(nums, i2, j2, k2)
        {
          if nums[i] as nat + nums[j] as nat + nums[k] as nat >= U32_LIMIT {
            assert FirstTriple(nums, i, j, k);
            return None;
          }
          if nums[i] + nums[j] + nums[k] == TARGET {
            assert FirstTriple(nums, i, j, k);
            return Some((nums[i], nums[j], nums[k]));
          }
        }
      }
    }
    return None;
  }

  /**
   * With entries small enough that no three overflow, the first triple
   * that sums to 2020 exists exactly when some triple does.
   */
  lemma TripleFoundWhenSmall(nums: seq<U32>)
    requires forall x :: 0 <= x < |nums| ==> nums[x] < U32_LIMIT / 4
    ensures (exists i: nat, j: nat, k: nat :: FirstTriple(nums, i, j, k) && TripleSum(nums, i, j, k) == TARGET) <==>
      exists i: nat, j: nat, k: nat :: i < j < k < |nums| && TripleSum(nums, i, j, k) == TARGET
  {
    if exists i: nat, j: nat, k: nat :: i < j < k < |nums| && TripleSum(nums, i, j, k) == TARGET {
      var i: nat, j: nat, k: nat :| i < j < k < |nums| && TripleSum(nums, i, j, k) == TARGET;
      FirstTripleExists(nums, i, j, k);
      var i2: nat, j2: nat, k2: nat :| FirstTriple(nums, i2, j2, k2);
      assert TripleSum(nums, i2, j2, k2) < U32_LIMIT;
    }
  }

  /** The report of the tests: its first pair is 1721 and 299, at positions 0 and 3. */
  lemma PairSample(nums: seq<U32>)
    requires nums == [1721, 979, 366, 299, 675, 1456]
    ensures FirstPair(nums, 0, 3) && PairSum(nums, 0, 3) == TARGET && (nums[0], nums[3]) == (1721, 299)
  {
    forall i2: nat, j2: nat | i2 < j2 < |nums| && PairBefore(i2, j2, 0, 3)
      ensures !PairStops(nums, i2, j2)
    {
      assert i2 == 0 && (j2 == 1 || j2 == 2);
    }
  }
}
