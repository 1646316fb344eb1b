// Binary diagnostic (2021, day 3).
//
// The report is a list of equally long binary numbers, most significant bit
// first. The gamma rate takes the most common bit of each column and the
// epsilon rate its complement. The oxygen and CO2 ratings filter the list
// column by column, keeping the most or the least common bit, until one
// number is left.

module BinaryDiagnostic {
  import opened Wrappers

  /** Two to the power `e`. */
  function Pow2(e: nat): (p: nat)
    ensures p >= 1
  {
    if e == 0 then 1 else 2 * Pow2(e - 1)
  }

  /** The value of a bit array read big-endian: the first bit is the most significant. */
  function BitsValue(bits: seq<bool>): nat
    decreases |bits|
  {
    if bits == [] then 0 else 2 * BitsValue(bits[..|bits| - 1]) + (if bits[|bits| - 1] then 1 else 0)
  }

  /** A bit array of `n` bits has a value below `2^n`. */
  lemma {:induction false} BitsValueBound(bits: seq<bool>)
    ensures BitsValue(bits) < Pow2(|bits|)
    decreases |bits|
  {
    if bits != [] {
      BitsValueBound(bits[..|bits| - 1]);
    }
  }

  /** A leading bit is worth `2^k` over the `k` bits after it. */
  lemma {:induction false} BitsValueCons(b: bool, rest: seq<bool>)
    ensures BitsValue([b] + rest) == (if b then Pow2(|rest|) else 0) + BitsValue(rest)
    decreases |rest|
  {
    if rest != [] {
      var s := [b] + rest;
      var front := rest[..|rest| - 1];
      assert s[..|s| - 1] == [b] + front;
      BitsValueCons(b, front);
    }
  }

  /**
   * `bit_array_to_number`: walks the bits from the last, adding `2^idx` for
   * every set bit `idx` places from the end.
   */
  method BitArrayToNumber(bits: seq<bool>) returns (num: nat)
    ensures num == BitsValue(bits)
  {
    num := 0;
    var n := |bits|;
    for idx := 0 to n
      invariant num == BitsValue(bits[n - idx..])
    {
      var val := bits[n - 1 - idx];
      assert bits[n - 1 - idx..] == [val] + bits[n - idx..];
      BitsValueCons(val, bits[n - idx..]);
      if val {
        num := num + Pow2(idx);
      }
    }
    assert bits[n - n..] == bits;
  }

  /** The numeric value of one bit. */
  function Bit(b: bool): nat
  {
    if b then 1 else 0
  }

  /** Appending a bit doubles the value and adds the bit. */
  lemma ValueSnoc(s: seq<bool>, b: bool)
    ensures BitsValue(s + [b]) == 2 * BitsValue(s) + Bit(b)
  {
    assert (s + [b])[..|s|] == s;
  }

  /** A five-bit array's value, bit by bit. */
  lemma FiveBits(x0: bool, x1: bool, x2: bool, x3: bool, x4: bool)
    ensures BitsValue([x0, x1, x2, x3, x4]) == 16 * Bit(x0) + 8 * Bit(x1) + 4 * Bit(x2) + 2 * Bit(x3) + Bit(x4)
  {
    assert BitsValue([x0]) == Bit(x0) by { ValueSnoc([], x0); assert [] + [x0] == [x0]; }
    assert BitsValue([x0, x1]) == 2 * Bit(x0) + Bit(x1) by { ValueSnoc([x0], x1); assert [x0] + [x1] == [x0, x1]; }
    assert BitsValue([x0, x1, x2]) == 4 * Bit(x0) + 2 * Bit(x1) + Bit(x2) by { ValueSnoc([x0, x1], x2); assert [x0, x1] + [x2] == [x0, x1, x2]; }
    assert BitsValue([x0, x1, x2, x3]) == 8 * Bit(x0) + 4 * Bit(x1) + 2 * Bit(x2) + Bit(x3) by { ValueSnoc([x0, x1, x2], x3); assert [x0, x1, x2] + [x3] == [x0, x1, x2, x3]; }
    ValueSnoc([x0, x1, x2, x3], x4);
    assert [x0, x1, x2, x3] + [x4] == [x0, x1, x2, x3, x4];
  }

  /** The sample rows `00100`, `11110` and `10110` read as 4, 30 and 22. */
  lemma SampleNumbers(a: seq<bool>, b: seq<bool>, c: seq<bool>)
    requires a == [false, false, true, false, false]
    requires b == [true, true, true, true, false]
    requires c == [true, false, true, true, false]
    ensures BitsValue(a) == 4 && BitsValue(b) == 30 && BitsValue(c) == 22
  {
    FiveBits(false, false, true, false, false);
    FiveBits(true, true, true, true, false);
    FiveBits(true, false, true, true, false);
  }

  /** Every row has `n` bits, as the type `[bool; N]` guarantees. */
  predicate Rows(arrays: seq<seq<bool>>, n: nat)
  {
    forall row :: row in arrays ==> |row| == n
  }

  /** Bit `i` of a row; rows are `n` bits long, so any `i < n` is in range. */
  function BitAt(row: seq<bool>, i: nat): bool
  {
    i < |row| && row[i]
  }

  /** How many rows have bit `i` set. */
  function CountOnes(arrays: seq<seq<bool>>, i: nat): (c: nat)
    ensures c <= |arrays|
    decreases |arrays|
  {
    if arrays == [] then 0
    else CountOnes(arrays[..|arrays| - 1], i) + (if BitAt(arrays[|arrays| - 1], i) then 1 else 0)
  }

  /** The gamma bits: bit `i` is set when more than half the rows (rounded down) have it set. */
  function GammaBits(arrays: seq<seq<bool>>, n: nat): (g: seq<bool>)
    ensures |g| == n
  {
    seq(n, i requires 0 <= i < n => CountOnes(arrays, i) > |arrays| / 2)
  }

  /** A gamma bit is set exactly when the ones in that column are a strict majority. */
  lemma GammaMajority(arrays: seq<seq<bool>>, n: nat, i: nat)
    requires i < n
    ensures GammaBits(arrays, n)[i] <==> 2 * CountOnes(arrays, i) > |arrays|
  {
  }

  /** Every bit flipped. */
  function Complement(bits: seq<bool>): (c: seq<bool>)
    ensures |c| == |bits|
  {
    seq(|bits|, i requires 0 <= i < |bits| => !bits[i])
  }

  /** `n` set bits. */
  function AllOnes(n: nat): (r: seq<bool>)
    ensures |r| == n
  {
    seq(n, i requires 0 <= i < n => true)
  }

  /** Bitwise exclusive or of two naturals, as `^` on `u32`. */
  function Xor(a: nat, b: nat): nat
    decreases a + b
  {
    if a == 0 && b == 0 then 0 else 2 * Xor(a / 2, b / 2) + (a % 2 + b % 2) % 2
  }

  /** Exclusive or of two bit arrays of one length, bit by bit. */
  function XorBits(a: seq<bool>, b: seq<bool>): (r: seq<bool>)
    requires |a| == |b|
    ensures |r| == |a|
  {
    seq(|a|, i requires 0 <= i < |a| => a[i] != b[i])
  }

  /** Halving a number whose last bit is known. */
  lemma HalfOf(x: nat, p: nat)
    requires p < 2
    ensures (2 * x + p) / 2 == x && (2 * x + p) % 2 == p
  {
    ModUnique(2 * x + p, 2, x, p);
  }

  /** `^` on the values of two bit arrays of one length is the value of their bitwise exclusive or. */
  lemma {:induction false} XorValue(a: seq<bool>, b: seq<bool>)
    requires |a| == |b|
    ensures Xor(BitsValue(a), BitsValue(b)) == BitsValue(XorBits(a, b))
    decreases |a|
  {
    if a != [] {
      var a', b' := a[..|a| - 1], b[..|b| - 1];
      var p, q := Bit(a[|a| - 1]), Bit(b[|b| - 1]);
      var x := XorBits(a, b);
      assert x[..|a| - 1] == XorBits(a', b');
      assert BitsValue(x) == 2 * BitsValue(XorBits(a', b')) + (p + q) % 2;
      XorValue(a', b');
      XorStep(BitsValue(a'), BitsValue(b'), p, q);
    }
  }

  /** `^` on two numbers, split into their halves and their last bits. */
  lemma XorStep(x: nat, y: nat, p: nat, q: nat)
    requires p < 2 && q < 2
    ensures Xor(2 * x + p, 2 * y + q) == 2 * Xor(x, y) + (p + q) % 2
  {
    if 2 * x + p != 0 || 2 * y + q != 0 {
      HalfOf(x, p);
      HalfOf(y, q);
    }
  }

  /** The complement of a bit array is its exclusive or with all ones. */
  lemma XorAllOnes(bits: seq<bool>)
    ensures XorBits(bits, AllOnes(|bits|)) == Complement(bits)
  {
  }

  /** A bit array and its complement add up to all ones: `2^n - 1`. */
  lemma {:induction false} ComplementValue(bits: seq<bool>)
    ensures BitsValue(bits) + BitsValue(Complement(bits)) == Pow2(|bits|) - 1
    decreases |bits|
  {
    if bits != [] {
      var front := bits[..|bits| - 1];
      assert Complement(bits)[..|bits| - 1] == Complement(front);
      ComplementValue(front);
    }
  }

  /** The epsilon rate: gamma's value exclusive-or `n` ones. */
  function Epsilon(gamma: nat, n: nat): nat
  {
    Xor(gamma, BitsValue(AllOnes(n)))
  }

  /** A product of naturals is natural. */
  lemma NatProduct(a: nat, b: nat)
    ensures a * b >= 0
  {
    if a > 0 && b > 0 {
      MulAtLeast(a, b);
    }
  }

  /**
   * `find_power_consumption`: the gamma bits are filled in column by column,
   * and the result is gamma times gamma exclusive-or `n` ones.
   */
  method FindPowerConsumption(arrays: seq<seq<bool>>, n: nat) returns (power: nat)
    requires Rows(arrays, n)
    ensures power == BitsValue(GammaBits(arrays, n)) * Epsilon(BitsValue(GammaBits(arrays, n)), n)
  {
    var arr := new bool[n](i => false);
    for i := 0 to n
      invariant forall k :: 0 <= k < i ==> arr[k] == GammaBits(arrays, n)[k]
    {
      var truthCount := CountOnes(arrays, i);
      arr[i] := truthCount > |arrays| / 2;
    }
    assert arr[..] == GammaBits(arrays, n);
    var gammaRate := BitArrayToNumber(arr[..]);
    var allOnes := BitArrayToNumber(AllOnes(n));
    var epsilonRate := Xor(gammaRate, allOnes);
    NatProduct(gammaRate, epsilonRate);
    power := gammaRate * epsilonRate;
  }

  /**
   * Epsilon is gamma's `n`-bit complement: its bits are gamma's flipped, and
   * the two rates add up to `2^n - 1`.
   */
  lemma EpsilonIsComplement(arrays: seq<seq<bool>>, n: nat)
    requires Rows(arrays, n)
    ensures Epsilon(BitsValue(GammaBits(arrays, n)), n) == BitsValue(Complement(GammaBits(arrays, n)))
    ensures BitsValue(GammaBits(arrays, n)) + Epsilon(BitsValue(GammaBits(arrays, n)), n) == Pow2(n) - 1
  {
    var g := GammaBits(arrays, n);
    XorValue(g, AllOnes(n));
    XorAllOnes(g);
    ComplementValue(g);
  }

  /** Which bit a rating keeps in each column. */
  datatype Rating = Oxygen | Co2

  /** The oxygen filter's most common bit: 1 on a tie, else whether ones are more than half (rounded down). */
  function MostCommon(vec: seq<seq<bool>>, i: nat): bool
  {
    var truthCount := CountOnes(vec, i);
    if truthCount * 2 == |vec| then true else truthCount > |vec| / 2
  }

  /** The CO2 filter's least common bit: 0 on a tie, else whether ones are at most half (rounded down). */
  function LeastCommon(vec: seq<seq<bool>>, i: nat): bool
  {
    var truthCount := CountOnes(vec, i);
    if truthCount * 2 == |vec| then false else truthCount <= |vec| / 2
  }

  /** The most common bit is 1 exactly when ones are at least half the rows. */
  lemma MostCommonMeaning(vec: seq<seq<bool>>, i: nat)
    ensures MostCommon(vec, i) <==> 2 * CountOnes(vec, i) >= |vec|
  {
  }

  /** The least common bit is 1 exactly when ones are fewer than half the rows. */
  lemma LeastCommonMeaning(vec: seq<seq<bool>>, i: nat)
    ensures LeastCommon(vec, i) <==> 2 * CountOnes(vec, i) < |vec|
  {
  }

  /** The bit a rating keeps in column `i`. */
  function KeptBit(rating: Rating, vec: seq<seq<bool>>, i: nat): bool
  {
    match rating
    case Oxygen => MostCommon(vec, i)
    case Co2 => LeastCommon(vec, i)
  }

  /** The rows whose bit `i` is `b`, in order. */
  function KeepBit(vec: seq<seq<bool>>, i: nat, b: bool): (r: seq<seq<bool>>)
    ensures |r| <= |vec|
    ensures forall row :: row in r ==> row in vec && BitAt(row, i) == b
    decreases |vec|
  {
    if vec == [] then []
    else
      var front := KeepBit(vec[..|vec| - 1], i, b);
      if BitAt(vec[|vec| - 1], i) == b then front + [vec[|vec| - 1]] else front
  }

  /** The filter keeps exactly the rows with bit `i` equal to `b`. */
  lemma {:induction false} KeepBitMembers(vec: seq<seq<bool>>, i: nat, b: bool)
    ensures forall row :: row in KeepBit(vec, i, b) <==> row in vec && BitAt(row, i) == b
    decreases |vec|
  {
    if vec != [] {
      var front := vec[..|vec| - 1];
      KeepBitMembers(front, i, b);
      assert vec == front + [vec[|vec| - 1]];
    }
  }

  /** The filter keeps as many rows as have bit `i` set when `b` is 1, and the rest when it is 0. */
  lemma {:induction false} KeepBitCount(vec: seq<seq<bool>>, i: nat, b: bool)
    ensures |KeepBit(vec, i, b)| == if b then CountOnes(vec, i) else |vec| - CountOnes(vec, i)
    decreases |vec|
  {
    if vec != [] {
      KeepBitCount(vec[..|vec| - 1], i, b);
    }
  }

  /** The rows left after filtering columns `i` onwards, stopping as soon as one row is left. */
  function RatingFrom(rating: Rating, vec: seq<seq<bool>>, i: nat, n: nat): seq<seq<bool>>
    decreases n - i
  {
    if i >= n then vec
    else
      var next := KeepBit(vec, i, KeptBit(rating, vec, i));
      if |next| == 1 then next else RatingFrom(rating, next, i + 1, n)
  }

  /** The rating's value, or `None` where `assert!(vec.len() == 1)` fails. */
  function RatingValue(rating: Rating, arrays: seq<seq<bool>>, n: nat): Option<nat>
  {
    var left := RatingFrom(rating, arrays, 0, n);
    if |left| == 1 then Some(BitsValue(left[0])) else None
  }

  /** `find_oxygen_generator_rating_as_bit_array`. */
  method FindOxygenGeneratorRating(arrays: seq<seq<bool>>, n: nat) returns (r: Option<nat>)
    requires Rows(arrays, n)
    ensures r == RatingValue(Oxygen, arrays, n)
  {
    var vec := arrays;
    for i := 0 to n
      invariant RatingFrom(Oxygen, vec, i, n) == RatingFrom(Oxygen, arrays, 0, n)
    {
      var truthCount := CountOnes(vec, i);
      var mostCommon := if truthCount * 2 == |vec| then true else truthCount > |vec| / 2;
      vec := KeepBit(vec, i, mostCommon);
      if |vec| == 1 {
        break;
      }
    }
    if |vec| != 1 {
      return None;
    }
    var value := BitArrayToNumber(vec[0]);
    return Some(value);
  }

  /** `find_co2_scrubber_rating`. */
  method FindCo2ScrubberRating(arrays: seq<seq<bool>>, n: nat) returns (r: Option<nat>)
    requires Rows(arrays, n)
    ensures r == RatingValue(Co2, arrays, n)
  {
    var vec := arrays;
    for i := 0 to n
      invariant RatingFrom(Co2, vec, i, n) == RatingFrom(Co2, arrays, 0, n)
    {
      var truthCount := CountOnes(vec, i);
      var leastCommon := if truthCount * 2 == |vec| then false else truthCount <= |vec| / 2;
      vec := KeepBit(vec, i, leastCommon);
      if |vec| == 1 {
        break;
      }
    }
    if |vec| != 1 {
      return None;
    }
    var value := BitArrayToNumber(vec[0]);
    return Some(value);
  }

  /** One round of filtering: keep the rows with the kept bit, and stop if one is left. */
  lemma RatingStep(rating: Rating, vec: seq<seq<bool>>, i: nat, n: nat, b: bool, next: seq<seq<bool>>)
    requires i < n
    requires b == KeptBit(rating, vec, i) && next == KeepBit(vec, i, b)
    ensures RatingFrom(rating, vec, i, n) == if |next| == 1 then next else RatingFrom(rating, next, i + 1, n)
  {
  }

  /** The rows a rating keeps all come from the report. */
  lemma {:induction false} RatingFromInput(rating: Rating, vec: seq<seq<bool>>, i: nat, n: nat)
    ensures forall row :: row in RatingFrom(rating, vec, i, n) ==> row in vec
    decreases n - i
  {
    if i < n {
      var next := KeepBit(vec, i, KeptBit(rating, vec, i));
      if |next| != 1 {
        RatingFromInput(rating, next, i + 1, n);
      }
    }
  }

  /** The oxygen filter keeps at least half the rows, and the CO2 filter at most half. */
  lemma KeepsHalf(vec: seq<seq<bool>>, i: nat)
    ensures 2 * |KeepBit(vec, i, MostCommon(vec, i))| >= |vec|
    ensures 2 * |KeepBit(vec, i, LeastCommon(vec, i))| <= |vec|
  {
    KeepBitCount(vec, i, MostCommon(vec, i));
    KeepBitCount(vec, i, LeastCommon(vec, i));
  }

  /** Oxygen filtering never empties a nonempty report. */
  lemma {:induction false} OxygenNonempty(vec: seq<seq<bool>>, i: nat, n: nat)
    requires vec != []
    ensures RatingFrom(Oxygen, vec, i, n) != []
    decreases n - i
  {
    if i < n {
      var next := KeepBit(vec, i, MostCommon(vec, i));
      KeepsHalf(vec, i);
      if |next| != 1 {
        OxygenNonempty(next, i + 1, n);
      }
    }
  }

  /** No row appears twice. */
  predicate Distinct(vec: seq<seq<bool>>)
  {
    forall j, k :: 0 <= j < k < |vec| ==> vec[j] != vec[k]
  }

  /** Filtering keeps distinct rows distinct. */
  lemma {:induction false} KeepBitDistinct(vec: seq<seq<bool>>, i: nat, b: bool)
    requires Distinct(vec)
    ensures Distinct(KeepBit(vec, i, b))
    decreases |vec|
  {
    if vec != [] {
      var front := vec[..|vec| - 1];
      var last := vec[|vec| - 1];
      KeepBitDistinct(front, i, b);
      if BitAt(last, i) == b {
        var kept := KeepBit(front, i, b);
        assert last !in front;
        var r := kept + [last];
        forall j, k | 0 <= j < k < |r|
          ensures r[j] != r[k]
        {
          if k == |r| - 1 {
            assert r[j] in kept;
          }
        }
      }
    }
  }

  /** All rows agree on the bits before column `i`. */
  predicate AgreeBefore(vec: seq<seq<bool>>, i: nat)
  {
    forall x, y, c :: x in vec && y in vec && 0 <= c < i ==> BitAt(x, c) == BitAt(y, c)
  }

  /** Rows of `n` bits that agree on all `n` columns are the same row. */
  lemma SameBits(x: seq<bool>, y: seq<bool>, n: nat)
    requires |x| == n && |y| == n
    requires forall c :: 0 <= c < n ==> BitAt(x, c) == BitAt(y, c)
    ensures x == y
  {
    assert forall c :: 0 <= c < n ==> x[c] == y[c] by {
      forall c | 0 <= c < n
        ensures x[c] == y[c]
      {
        assert BitAt(x, c) == BitAt(y, c);
      }
    }
  }

  /** Distinct rows of `n` bits that agree on every column are at most one row. */
  lemma AgreeAllAtMostOne(vec: seq<seq<bool>>, n: nat)
    requires Rows(vec, n) && Distinct(vec) && AgreeBefore(vec, n)
    ensures |vec| <= 1
  {
    if |vec| >= 2 {
      assert vec[0] != vec[1];
      SameBits(vec[0], vec[1], n);
    }
  }

  /**
   * On distinct rows of `n` bits, the oxygen filter always ends with exactly
   * one row: it never empties the report, and rows that agree on every column
   * are equal.
   */
  lemma {:induction false} OxygenSingle(vec: seq<seq<bool>>, i: nat, n: nat)
    requires vec != [] && i <= n
    requires Rows(vec, n) && Distinct(vec) && AgreeBefore(vec, i)
    ensures |RatingFrom(Oxygen, vec, i, n)| == 1
    decreases n - i
  {
    if i == n {
      AgreeAllAtMostOne(vec, n);
    } else {
      var b := MostCommon(vec, i);
      var next := KeepBit(vec, i, b);
      KeepsHalf(vec, i);
      if |next| != 1 {
        KeepBitDistinct(vec, i, b);
        assert AgreeBefore(next, i + 1) by {
          forall x, y, c | x in next && y in next && 0 <= c < i + 1
            ensures BitAt(x, c) == BitAt(y, c)
          {
          }
        }
        OxygenSingle(next, i + 1, n);
      }
    }
  }

  /** A nonempty report of distinct `n`-bit rows always has an oxygen generator rating. */
  lemma OxygenSucceeds(arrays: seq<seq<bool>>, n: nat)
    requires arrays != [] && Rows(arrays, n) && Distinct(arrays)
    ensures RatingValue(Oxygen, arrays, n).Some?
  {
    OxygenSingle(arrays, 0, n);
  }

  /**
   * The CO2 filter can empty the report: on `00` and `01` no row has a 1 in
   * the first column, so 1 is the least common bit there and no row is kept.
   */
  lemma Co2CanEmpty(arrays: seq<seq<bool>>)
    requires arrays == [[false, false], [false, true]]
    ensures RatingFrom(Co2, arrays, 0, 2) == []
    ensures RatingValue(Co2, arrays, 2) == None
  {
    assert arrays[..1] == [[false, false]];
    assert CountOnes(arrays, 0) == 0;
    assert KeepBit(arrays, 0, true) == [];
  }

  /** `find_life_support_rating`: the oxygen generator rating times the CO2 scrubber rating. */
  function LifeSupportRating(arrays: seq<seq<bool>>, n: nat): (r: Option<nat>)
    ensures r.Some? <==> RatingValue(Oxygen, arrays, n).Some? && RatingValue(Co2, arrays, n).Some?
  {
    match (RatingValue(Oxygen, arrays, n), RatingValue(Co2, arrays, n))
    case (Some(oxygen), Some(co2)) => NatProduct(oxygen, co2); Some(oxygen * co2)
    case _ => None
  }

  // The sample report of twelve rows. Each filtering round is proved on rows
  // known only by their bits, one column per lemma.

  /** Round 0 of the oxygen filter on the sample: 7 of 12 rows have bit 0 set, and the rows with bit 0 set stay. */
  lemma SampleOxygenRound0(r1: seq<bool>, r2: seq<bool>, r3: seq<bool>, r4: seq<bool>, r5: seq<bool>, r6: seq<bool>, r7: seq<bool>, r8: seq<bool>, r9: seq<bool>, r10: seq<bool>, r11: seq<bool>, r12: seq<bool>)
    requires !BitAt(r1, 0) && BitAt(r2, 0) && BitAt(r3, 0) && BitAt(r4, 0) && BitAt(r5, 0) && !BitAt(r6, 0) && !BitAt(r7, 0) && BitAt(r8, 0) && BitAt(r9, 0) && BitAt(r10, 0) && !BitAt(r11, 0) && !BitAt(r12, 0)
    ensures CountOnes([r1] + [r2] + [r3] + [r4] + [r5] + [r6] + [r7] + [r8] + [r9] + [r10] + [r11] + [r12], 0) == 7
    ensures KeepBit([r1] + [r2] + [r3] + [r4] + [r5] + [r6] + [r7] + [r8] + [r9] + [r10] + [r11] + [r12], 0, true) == [r2] + [r3] + [r4] + [r5] + [r8] + [r9] + [r10]
  {
    assert CountOnes([r1] + [r2], 0) == 1 && KeepBit([r1] + [r2], 0, true) == [r2];
    assert CountOnes([r1] + [r2] + [r3] + [r4], 0) == 3 && KeepBit([r1] + [r2] + [r3] + [r4], 0, true) == [r2] + [r3] + [r4];
    assert CountOnes([r1] + [r2] + [r3] + [r4] + [r5] + [r6], 0) == 4 && KeepBit([r1] + [r2] + [r3] + [r4] + [r5] + [r6], 0, true) == [r2] + [r3] + [r4] + [r5];
    assert CountOnes([r1] + [r2] + [r3] + [r4] + [r5] + [r6] + [r7] + [r8], 0) == 5 && KeepBit([r1] + [r2] + [r3] + [r4] + [r5] + [r6] + [r7] + [r8], 0, true) == [r2] + [r3] + [r4] + [r5] + [r8];
    assert CountOnes([r1] + [r2] + [r3] + [r4] + [r5] + [r6] + [r7] + [r8] + [r9] + [r10], 0) == 7 && KeepBit([r1] + [r2] + [r3] + [r4] + [r5] + [r6] + [r7] + [r8] + [r9] + [r10], 0, true) == [r2] + [r3] + [r4] + [r5] + [r8] + [r9] + [r10];
  }

  /** Round 1 of the oxygen filter on the sample: 3 of 7 rows have bit 1 set, and the rows with bit 1 clear stay. */
  lemma SampleOxygenRound1(r2: seq<bool>, r3: seq<bool>, r4: seq<bool>, r5: seq<bool>, r8: seq<bool>, r9: seq<bool>, r10: seq<bool>)
    requires BitAt(r2, 1) && !BitAt(r3, 1) && !BitAt(r4, 1) && !BitAt(r5, 1) && BitAt(r8, 1) && !BitAt(r9, 1) && BitAt(r10, 1)
    ensures CountOnes([r2] + [r3] + [r4] + [r5] + [r8] + [r9] + [r10], 1) == 3
    ensures KeepBit([r2] + [r3] + [r4] + [r5] + [r8] + [r9] + [r10], 1, false) == [r3] + [r4] + [r5] + [r9]
  {
    assert CountOnes([r2] + [r3], 1) == 1 && KeepBit([r2] + [r3], 1, false) == [r3];
    assert CountOnes([r2] + [r3] + [r4] + [r5], 1) == 1 && KeepBit([r2] + [r3] + [r4] + [r5], 1, false) == [r3] + [r4] + [r5];
    assert CountOnes([r2] + [r3] + [r4] + [r5] + [r8] + [r9], 1) == 2 && KeepBit([r2] + [r3] + [r4] + [r5] + [r8] + [r9], 1, false) == [r3] + [r4] + [r5] + [r9];
  }

  /** Round 2 of the oxygen filter on the sample: 3 of 4 rows have bit 2 set, and the rows with bit 2 set stay. */
  lemma SampleOxygenRound2(r3: seq<bool>, r4: seq<bool>, r5: seq<bool>, r9: seq<bool>)
    requires BitAt(r3, 2) && BitAt(r4, 2) && BitAt(r5, 2) && !BitAt(r9, 2)
    ensures CountOnes([r3] + [r4] + [r5] + [r9], 2) == 3
    ensures KeepBit([r3] + [r4] + [r5] + [r9], 2, true) == [r3] + [r4] + [r5]
  {
    assert CountOnes([r3] + [r4], 2) == 2 && KeepBit([r3] + [r4], 2, true) == [r3] + [r4];
  }

  /** Round 3 of the oxygen filter on the sample: 2 of 3 rows have bit 3 set, and the rows with bit 3 set stay. */
  lemma SampleOxygenRound3(r3: seq<bool>, r4: seq<bool>, r5: seq<bool>)
    requires BitAt(r3, 3) && BitAt(r4, 3) && !BitAt(r5, 3)
    ensures CountOnes([r3] + [r4] + [r5], 3) == 2
    ensures KeepBit([r3] + [r4] + [r5], 3, true) == [r3] + [r4]
  {
    assert CountOnes([r3] + [r4], 3) == 2 && KeepBit([r3] + [r4], 3, true) == [r3] + [r4];
  }

  /** Round 4 of the oxygen filter on the sample: 1 of 2 rows have bit 4 set, and the rows with bit 4 set stay. */
  lemma SampleOxygenRound4(r3: seq<bool>, r4: seq<bool>)
    requires !BitAt(r3, 4) && BitAt(r4, 4)
    ensures CountOnes([r3] + [r4], 4) == 1
    ensures KeepBit([r3] + [r4], 4, true) == [r4]
  {
  }

  /** Round 0 of the CO2 filter on the sample: 7 of 12 rows have bit 0 set, and the rows with bit 0 clear stay. */
  lemma SampleCo2Round0(r1: seq<bool>, r2: seq<bool>, r3: seq<bool>, r4: seq<bool>, r5: seq<bool>, r6: seq<bool>, r7: seq<bool>, r8: seq<bool>, r9: seq<bool>, r10: seq<bool>, r11: seq<bool>, r12: seq<bool>)
    requires !BitAt(r1, 0) && BitAt(r2, 0) && BitAt(r3, 0) && BitAt(r4, 0) && BitAt(r5, 0) && !BitAt(r6, 0) && !BitAt(r7, 0) && BitAt(r8, 0) && BitAt(r9, 0) && BitAt(r10, 0) && !BitAt(r11, 0) && !BitAt(r12, 0)
    ensures CountOnes([r1] + [r2] + [r3] + [r4] + [r5] + [r6] + [r7] + [r8] + [r9] + [r10] + [r11] + [r12], 0) == 7
    ensures KeepBit([r1] + [r2] + [r3] + [r4] + [r5] + [r6] + [r7] + [r8] + [r9] + [r10] + [r11] + [r12], 0, false) == [r1] + [r6] + [r7] + [r11] + [r12]
  {
    assert CountOnes([r1] + [r2], 0) == 1 && KeepBit([r1] + [r2], 0, false) == [r1];
    assert CountOnes([r1] + [r2] + [r3] + [r4], 0) == 3 && KeepBit([r1] + [r2] + [r3] + [r4], 0, false) == [r1];
    assert CountOnes([r1] + [r2] + [r3] + [r4] + [r5] + [r6], 0) == 4 && KeepBit([r1] + [r2] + [r3] + [r4] + [r5] + [r6], 0, false) == [r1] + [r6];
    assert CountOnes([r1] + [r2] + [r3] + [r4] + [r5] + [r6] + [r7] + [r8], 0) == 5 && KeepBit([r1] + [r2] + [r3] + [r4] + [r5] + [r6] + [r7] + [r8], 0, false) == [r1] + [r6] + [r7];
    assert CountOnes([r1] + [r2] + [r3] + [r4] + [r5] + [r6] + [r7] + [r8] + [r9] + [r10], 0) == 7 && KeepBit([r1] + [r2] + [r3] + [r4] + [r5] + [r6] + [r7] + [r8] + [r9] + [r10], 0, false) == [r1] + [r6] + [r7];
  }

  /** Round 1 of the CO2 filter on the sample: 2 of 5 rows have bit 1 set, and the rows with bit 1 set stay. */
  lemma SampleCo2Round1(r1: seq<bool>, r6: seq<bool>, r7: seq<bool>, r11: seq<bool>, r12: seq<bool>)
    requires !BitAt(r1, 1) && BitAt(r6, 1) && !BitAt(r7, 1) && !BitAt(r11, 1) && BitAt(r12, 1)
    ensures CountOnes([r1] + [r6] + [r7] + [r11] + [r12], 1) == 2
    ensures KeepBit([r1] + [r6] + [r7] + [r11] + [r12], 1, true) == [r6] + [r12]
  {
    assert CountOnes([r1] + [r6], 1) == 1 && KeepBit([r1] + [r6], 1, true) == [r6];
    assert CountOnes([r1] + [r6] + [r7] + [r11], 1) == 1 && KeepBit([r1] + [r6] + [r7] + [r11], 1, true) == [r6];
  }

  /** Round 2 of the CO2 filter on the sample: 1 of 2 rows have bit 2 set, and the rows with bit 2 clear stay. */
  lemma SampleCo2Round2(r6: seq<bool>, r12: seq<bool>)
    requires BitAt(r6, 2) && !BitAt(r12, 2)
    ensures CountOnes([r6] + [r12], 2) == 1
    ensures KeepBit([r6] + [r12], 2, false) == [r12]
  {
  }

  /** The oxygen generator rating of the twelve-row sample is `10111`, that is 23. */
  lemma SampleOxygenSurvivor(r1: seq<bool>, r2: seq<bool>, r3: seq<bool>, r4: seq<bool>, r5: seq<bool>, r6: seq<bool>, r7: seq<bool>, r8: seq<bool>, r9: seq<bool>, r10: seq<bool>, r11: seq<bool>, r12: seq<bool>)
    requires !BitAt(r1, 0) && !BitAt(r1, 1) && BitAt(r1, 2) && !BitAt(r1, 3) && !BitAt(r1, 4)
    requires BitAt(r2, 0) && BitAt(r2, 1) && BitAt(r2, 2) && BitAt(r2, 3) && !BitAt(r2, 4)
    requires BitAt(r3, 0) && !BitAt(r3, 1) && BitAt(r3, 2) && BitAt(r3, 3) && !BitAt(r3, 4)
    requires BitAt(r4, 0) && !BitAt(r4, 1) && BitAt(r4, 2) && BitAt(r4, 3) && BitAt(r4, 4)
    requires BitAt(r5, 0) && !BitAt(r5, 1) && BitAt(r5, 2) && !BitAt(r5, 3) && BitAt(r5, 4)
    requires !BitAt(r6, 0) && BitAt(r6, 1) && BitAt(r6, 2) && BitAt(r6, 3) && BitAt(r6, 4)
    requires !BitAt(r7, 0) && !BitAt(r7, 1) && BitAt(r7, 2) && BitAt(r7, 3) && BitAt(r7, 4)
    requires BitAt(r8, 0) && BitAt(r8, 1) && BitAt(r8, 2) && !BitAt(r8, 3) && !BitAt(r8, 4)
    requires BitAt(r9, 0) && !BitAt(r9, 1) && !BitAt(r9, 2) && !BitAt(r9, 3) && !BitAt(r9, 4)
    requires BitAt(r10, 0) && BitAt(r10, 1) && !BitAt(r10, 2) && !BitAt(r10, 3) && BitAt(r10, 4)
    requires !BitAt(r11, 0) && !BitAt(r11, 1) && !BitAt(r11, 2) && BitAt(r11, 3) && !BitAt(r11, 4)
    requires !BitAt(r12, 0) && BitAt(r12, 1) && !BitAt(r12, 2) && BitAt(r12, 3) && !BitAt(r12, 4)
    ensures RatingFrom(Oxygen, [r1] + [r2] + [r3] + [r4] + [r5] + [r6] + [r7] + [r8] + [r9] + [r10] + [r11] + [r12], 0, 5) == [r4]
  {
    SampleOxygenRound0(r1, r2, r3, r4, r5, r6, r7, r8, r9, r10, r11, r12);
    RatingStep(Oxygen, [r1] + [r2] + [r3] + [r4] + [r5] + [r6] + [r7] + [r8] + [r9] + [r10] + [r11] + [r12], 0, 5, true, [r2] + [r3] + [r4] + [r5] + [r8] + [r9] + [r10]);
    SampleOxygenRound1(r2, r3, r4, r5, r8, r9, r10);
    RatingStep(Oxygen, [r2] + [r3] + [r4] + [r5] + [r8] + [r9] + [r10], 1, 5, false, [r3] + [r4] + [r5] + [r9]);
    SampleOxygenRound2(r3, r4, r5, r9);
    RatingStep(Oxygen, [r3] + [r4] + [r5] + [r9], 2, 5, true, [r3] + [r4] + [r5]);
    SampleOxygenRound3(r3, r4, r5);
    RatingStep(Oxygen, [r3] + [r4] + [r5], 3, 5, true, [r3] + [r4]);
    SampleOxygenRound4(r3, r4);
    RatingStep(Oxygen, [r3] + [r4], 4, 5, true, [r4]);
  }

  /** The CO2 scrubber rating of the twelve-row sample is `01010`, that is 10. */
  lemma SampleCo2Survivor(r1: seq<bool>, r2: seq<bool>, r3: seq<bool>, r4: seq<bool>, r5: seq<bool>, r6: seq<bool>, r7: seq<bool>, r8: seq<bool>, r9: seq<bool>, r10: seq<bool>, r11: seq<bool>, r12: seq<bool>)
    requires !BitAt(r1, 0) && !BitAt(r1, 1) && BitAt(r1, 2) && !BitAt(r1, 3) && !BitAt(r1, 4)
    requires BitAt(r2, 0) && BitAt(r2, 1) && BitAt(r2, 2) && BitAt(r2, 3) && !BitAt(r2, 4)
    requires BitAt(r3, 0) && !BitAt(r3, 1) && BitAt(r3, 2) && BitAt(r3, 3) && !BitAt(r3, 4)
    requires BitAt(r4, 0) && !BitAt(r4, 1) && BitAt(r4, 2) && BitAt(r4, 3) && BitAt(r4, 4)
    requires BitAt(r5, 0) && !BitAt(r5, 1) && BitAt(r5, 2) && !BitAt(r5, 3) && BitAt(r5, 4)
    requires !BitAt(r6, 0) && BitAt(r6, 1) && BitAt(r6, 2) && BitAt(r6, 3) && BitAt(r6, 4)
    requires !BitAt(r7, 0) && !BitAt(r7, 1) && BitAt(r7, 2) && BitAt(r7, 3) && BitAt(r7, 4)
    requires BitAt(r8, 0) && BitAt(r8, 1) && BitAt(r8, 2) && !BitAt(r8, 3) && !BitAt(r8, 4)
    requires BitAt(r9, 0) && !BitAt(r9, 1) && !BitAt(r9, 2) && !BitAt(r9, 3) && !BitAt(r9, 4)
    requires BitAt(r10, 0) && BitAt(r10, 1) && !BitAt(r10, 2) && !BitAt(r10, 3) && BitAt(r10, 4)
    requires !BitAt(r11, 0) && !BitAt(r11, 1) && !BitAt(r11, 2) && BitAt(r11, 3) && !BitAt(r11, 4)
    requires !BitAt(r12, 0) && BitAt(r12, 1) && !BitAt(r12, 2) && BitAt(r12, 3) && !BitAt(r12, 4)
    ensures RatingFrom(Co2, [r1] + [r2] + [r3] + [r4] + [r5] + [r6] + [r7] + [r8] + [r9] + [r10] + [r11] + [r12], 0, 5) == [r12]
  {
    SampleCo2Round0(r1, r2, r3, r4, r5, r6, r7, r8, r9, r10, r11, r12);
    RatingStep(Co2, [r1] + [r2] + [r3] + [r4] + [r5] + [r6] + [r7] + [r8] + [r9] + [r10] + [r11] + [r12], 0, 5, false, [r1] + [r6] + [r7] + [r11] + [r12]);
    SampleCo2Round1(r1, r6, r7, r11, r12);
    RatingStep(Co2, [r1] + [r6] + [r7] + [r11] + [r12], 1, 5, true, [r6] + [r12]);
    SampleCo2Round2(r6, r12);
    RatingStep(Co2, [r6] + [r12], 2, 5, false, [r12]);
  }

  /** The oxygen generator rating of the twelve-row sample is `10111`, that is 23. */
  lemma SampleOxygenRating(r1: seq<bool>, r2: seq<bool>, r3: seq<bool>, r4: seq<bool>, r5: seq<bool>, r6: seq<bool>, r7: seq<bool>, r8: seq<bool>, r9: seq<bool>, r10: seq<bool>, r11: seq<bool>, r12: seq<bool>)
    requires r1 == [false, false, true, false, false] && r2 == [true, true, true, true, false] && r3 == [true, false, true, true, false]
    requires r4 == [true, false, true, true, true] && r5 == [true, false, true, false, true] && r6 == [false, true, true, true, true]
    requires r7 == [false, false, true, true, true] && r8 == [true, true, true, false, false] && r9 == [true, false, false, false, false]
    requires r10 == [true, true, false, false, true] && r11 == [false, false, false, true, false] && r12 == [false, true, false, true, false]
    ensures RatingValue(Oxygen, [r1] + [r2] + [r3] + [r4] + [r5] + [r6] + [r7] + [r8] + [r9] + [r10] + [r11] + [r12], 5) == Some(23)
  {
    SampleOxygenSurvivor(r1, r2, r3, r4, r5, r6, r7, r8, r9, r10, r11, r12);
    FiveBits(true, false, true, true, true);
  }

  /** The CO2 scrubber rating of the twelve-row sample is `01010`, that is 10. */
  lemma SampleCo2Rating(r1: seq<bool>, r2: seq<bool>, r3: seq<bool>, r4: seq<bool>, r5: seq<bool>, r6: seq<bool>, r7: seq<bool>, r8: seq<bool>, r9: seq<bool>, r10: seq<bool>, r11: seq<bool>, r12: seq<bool>)
    requires r1 == [false, false, true, false, false] && r2 == [true, true, true, true, false] && r3 == [true, false, true, true, false]
    requires r4 == [true, false, true, true, true] && r5 == [true, false, true, false, true] && r6 == [false, true, true, true, true]
    requires r7 == [false, false, true, true, true] && r8 == [true, true, true, false, false] && r9 == [true, false, false, false, false]
    requires r10 == [true, true, false, false, true] && r11 == [false, false, false, true, false] && r12 == [false, true, false, true, false]
    ensures RatingValue(Co2, [r1] + [r2] + [r3] + [r4] + [r5] + [r6] + [r7] + [r8] + [r9] + [r10] + [r11] + [r12], 5) == Some(10)
  {
    SampleCo2Survivor(r1, r2, r3, r4, r5, r6, r7, r8, r9, r10, r11, r12);
    FiveBits(false, true, false, true, false);
  }

  /** The life support rating of the twelve-row sample is 23 times 10. */
  lemma SampleLifeSupportRating(r1: seq<bool>, r2: seq<bool>, r3: seq<bool>, r4: seq<bool>, r5: seq<bool>, r6: seq<bool>, r7: seq<bool>, r8: seq<bool>, r9: seq<bool>, r10: seq<bool>, r11: seq<bool>, r12: seq<bool>)
    requires r1 == [false, false, true, false, false] && r2 == [true, true, true, true, false] && r3 == [true, false, true, true, false]
    requires r4 == [true, false, true, true, true] && r5 == [true, false, true, false, true] && r6 == [false, true, true, true, true]
    requires r7 == [false, false, true, true, true] && r8 == [true, true, true, false, false] && r9 == [true, false, false, false, false]
    requires r10 == [true, true, false, false, true] && r11 == [false, false, false, true, false] && r12 == [false, true, false, true, false]
    ensures LifeSupportRating([r1] + [r2] + [r3] + [r4] + [r5] + [r6] + [r7] + [r8] + [r9] + [r10] + [r11] + [r12], 5) == Some(230)
  {
    SampleOxygenRating(r1, r2, r3, r4, r5, r6, r7, r8, r9, r10, r11, r12);
    SampleCo2Rating(r1, r2, r3, r4, r5, r6, r7, r8, r9, r10, r11, r12);
  }
}
