// Bridge repair (2024, day 7).
//
// A calibration equation is a test value and a list of numbers. Operators go
// between the numbers and are evaluated strictly from left to right; the
// equation is solved by a choice of operators whose result is the test value.
// The first part allows adding and multiplying; the second also allows
// concatenating, which writes the digits of the next number after those of
// the running value.

module BridgeRepair {
  import opened Wrappers

  datatype Operator = Add | Multiply | Concatenate

  /** The operators of the first part, in the order the builder places them in front. */
  function SimpleOps(): seq<Operator>
  {
    [Add, Multiply]
  }

  /** The operators of the second part, in the order the builder places them in front. */
  function ConcatOps(): seq<Operator>
  {
    [Add, Multiply, Concatenate]
  }

  function Power(b: nat, n: nat): nat
  {
    if n == 0 then 1 else b * Power(b, n - 1)
  }

  /** No element occurs twice. */
  predicate Distinct<T(==)>(s: seq<T>)
  {
    forall i, j :: 0 <= i < j < |s| ==> s[i] != s[j]
  }

  /** Every operator of the sequence is one of the alphabet's. */
  predicate Over(alpha: seq<Operator>, p: seq<Operator>)
  {
    forall i :: 0 <= i < |p| ==> p[i] in alpha
  }

  /** Each operator of the alphabet in front of one shorter sequence, in the alphabet's order. */
  function Prefixed(alpha: seq<Operator>, perm: seq<Operator>): seq<seq<Operator>>
  {
    seq(|alpha|, k requires 0 <= k < |alpha| => [alpha[k]] + perm)
  }

  /** The shorter sequences in their order, each followed by its prefixed copies. */
  function Extend(alpha: seq<Operator>, prev: seq<seq<Operator>>): seq<seq<Operator>>
  {
    if prev == [] then [] else Extend(alpha, prev[..|prev| - 1]) + Prefixed(alpha, prev[|prev| - 1])
  }

  /** The operator sequences of a length over an alphabet, in the order the permutation builders produce them. */
  function Perms(alpha: seq<Operator>, length: nat): seq<seq<Operator>>
  {
    if length == 0 then [[]] else Extend(alpha, Perms(alpha, length - 1))
  }

  /** Extending one more shorter sequence appends its prefixed copies. */
  lemma ExtendSnoc(alpha: seq<Operator>, prev: seq<seq<Operator>>, x: seq<Operator>)
    ensures Extend(alpha, prev + [x]) == Extend(alpha, prev) + Prefixed(alpha, x)
  {
    assert (prev + [x])[..|prev|] == prev;
  }

  lemma PrefixedSimple(perm: seq<Operator>)
    ensures Prefixed(SimpleOps(), perm) == [[Add] + perm, [Multiply] + perm]
  {
  }

  lemma PrefixedConcat(perm: seq<Operator>)
    ensures Prefixed(ConcatOps(), perm) == [[Add] + perm, [Multiply] + perm, [Concatenate] + perm]
  {
  }

  lemma {:induction false} ExtendLength(alpha: seq<Operator>, prev: seq<seq<Operator>>)
    ensures |Extend(alpha, prev)| == |prev| * |alpha|
    decreases |prev|
  {
    if prev != [] {
      var front := prev[..|prev| - 1];
      ExtendLength(alpha, front);
      assert |Prefixed(alpha, prev[|prev| - 1])| == |alpha|;
      assert |prev| * |alpha| == |front| * |alpha| + |alpha| by {
        assert |prev| == |front| + 1;
      }
    }
  }

  /** There are `|alpha|^n` operator sequences of length `n`. */
  lemma {:induction false} PermsLength(alpha: seq<Operator>, length: nat)
    ensures |Perms(alpha, length)| == Power(|alpha|, length)
  {
    if length > 0 {
      PermsLength(alpha, length - 1);
      ExtendLength(alpha, Perms(alpha, length - 1));
    }
  }

  lemma PrefixedMembers(alpha: seq<Operator>, perm: seq<Operator>, x: seq<Operator>)
    ensures x in Prefixed(alpha, perm) <==> |x| >= 1 && x[0] in alpha && x[1..] == perm
  {
    if |x| >= 1 && x[0] in alpha && x[1..] == perm {
      var k :| 0 <= k < |alpha| && alpha[k] == x[0];
      assert Prefixed(alpha, perm)[k] == x;
    }
  }

  /** A sequence is among the extended ones exactly when it is an operator of the alphabet in front of one of the shorter ones. */
  lemma {:induction false} ExtendMembers(alpha: seq<Operator>, prev: seq<seq<Operator>>, x: seq<Operator>)
    ensures x in Extend(alpha, prev) <==> |x| >= 1 && x[0] in alpha && x[1..] in prev
    decreases |prev|
  {
    if prev != [] {
      var front, last := prev[..|prev| - 1], prev[|prev| - 1];
      ExtendMembers(alpha, front, x);
      PrefixedMembers(alpha, last, x);
      assert prev == front + [last];
    }
  }

  /** The operator sequences of length `n` are exactly the sequences of `n` operators of the alphabet. */
  lemma {:induction false} PermsMembers(alpha: seq<Operator>, length: nat, p: seq<Operator>)
    ensures p in Perms(alpha, length) <==> |p| == length && Over(alpha, p)
  {
    if length == 0 {
      assert |p| == 0 ==> p == [];
    } else {
      ExtendMembers(alpha, Perms(alpha, length - 1), p);
      if |p| >= 1 {
        PermsMembers(alpha, length - 1, p[1..]);
        if Over(alpha, p[1..]) && p[0] in alpha {
          forall i | 0 <= i < |p| ensures p[i] in alpha {
            if i > 0 {
              assert p[i] == p[1..][i - 1];
            }
          }
        }
      }
    }
  }

  lemma DistinctConcat<T>(s: seq<T>, t: seq<T>)
    requires Distinct(s) && Distinct(t)
    requires forall x :: x in s ==> x !in t
    ensures Distinct(s + t)
  {
    forall i, j | 0 <= i < j < |s + t| ensures (s + t)[i] != (s + t)[j] {
      if i < |s| && j >= |s| {
        assert (s + t)[i] in s && (s + t)[j] == t[j - |s|];
      }
    }
  }

  lemma {:induction false} ExtendDistinct(alpha: seq<Operator>, prev: seq<seq<Operator>>)
    requires Distinct(alpha) && Distinct(prev)
    ensures Distinct(Extend(alpha, prev))
    decreases |prev|
  {
    if prev != [] {
      var front, last := prev[..|prev| - 1], prev[|prev| - 1];
      ExtendDistinct(alpha, front);
      assert Distinct(Prefixed(alpha, last)) by {
        forall i, j | 0 <= i < j < |alpha| ensures Prefixed(alpha, last)[i] != Prefixed(alpha, last)[j] {
          assert Prefixed(alpha, last)[i][0] == alpha[i];
        }
      }
      forall x | x in Extend(alpha, front) ensures x !in Prefixed(alpha, last) {
        ExtendMembers(alpha, front, x);
        PrefixedMembers(alpha, last, x);
        var k :| 0 <= k < |front| && front[k] == x[1..];
        assert prev[k] == front[k];
      }
      DistinctConcat(Extend(alpha, front), Prefixed(alpha, last));
    }
  }

  /** Over an alphabet without repeats, no operator sequence is produced twice. */
  lemma {:induction false} PermsDistinct(alpha: seq<Operator>, length: nat)
    requires Distinct(alpha)
    ensures Distinct(Perms(alpha, length))
  {
    if length > 0 {
      PermsDistinct(alpha, length - 1);
      ExtendDistinct(alpha, Perms(alpha, length - 1));
    }
  }

  /**
   * `operator_permutations_simple`: the sequences one shorter, each with an
   * `Add` and then a `Multiply` placed in front: `2^n` sequences.
   */
  method OperatorPermutationsSimple(length: nat) returns (r: seq<seq<Operator>>)
    ensures r == Perms(SimpleOps(), length)
    ensures |r| == Power(2, length)
    decreases length
  {
    if length == 0 {
      r := [[]];
    } else {
      var prev := OperatorPermutationsSimple(length - 1);
      r := [];
      for i := 0 to |prev|
        invariant r == Extend(SimpleOps(), prev[..i])
      {
        var v := [Add] + prev[i];
        r := r + [v];
        v := v[0 := Multiply];
        assert v == [Multiply] + prev[i];
        r := r + [v];
        assert r == Extend(SimpleOps(), prev[..i + 1]) by {
          assert prev[..i + 1] == prev[..i] + [prev[i]];
          ExtendSnoc(SimpleOps(), prev[..i], prev[i]);
          PrefixedSimple(prev[i]);
        }
      }
      assert prev[..|prev|] == prev;
    }
    assert |r| == Power(2, length) by {
      PermsLength(SimpleOps(), length);
    }
  }

  /**
   * `operator_permutations_with_concat`: the sequences one shorter, each with
   * an `Add`, a `Multiply` and a `Concatenate` placed in front: `3^n`
   * sequences.
   */
  method OperatorPermutationsWithConcat(length: nat) returns (r: seq<seq<Operator>>)
    ensures r == Perms(ConcatOps(), length)
    ensures |r| == Power(3, length)
    decreases length
  {
    if length == 0 {
      r := [[]];
    } else {
      var prev := OperatorPermutationsWithConcat(length - 1);
      r := [];
      for i := 0 to |prev|
        invariant r == Extend(ConcatOps(), prev[..i])
      {
        var v := [Add] + prev[i];
        r := r + [v];
        v := v[0 := Multiply];
        assert v == [Multiply] + prev[i];
        r := r + [v];
        v := v[0 := Concatenate];
        assert v == [Concatenate] + prev[i];
        r := r + [v];
        assert r == Extend(ConcatOps(), prev[..i + 1]) by {
          assert prev[..i + 1] == prev[..i] + [prev[i]];
          ExtendSnoc(ConcatOps(), prev[..i], prev[i]);
          PrefixedConcat(prev[i]);
        }
      }
      assert prev[..|prev|] == prev;
    }
    assert |r| == Power(3, length) by {
      PermsLength(ConcatOps(), length);
    }
  }

  /** The first part's builder order for up to two operators, as listed in its tests. */
  lemma PermsSamplesSimple()
    ensures Perms(SimpleOps(), 0) == [[]]
    ensures Perms(SimpleOps(), 1) == [[Add], [Multiply]]
    ensures Perms(SimpleOps(), 2) == [[Add, Add], [Multiply, Add], [Add, Multiply], [Multiply, Multiply]]
  {
    var one := [[Add], [Multiply]];
    assert Perms(SimpleOps(), 1) == one by {
      var empty: seq<Operator> := [];
      assert Perms(SimpleOps(), 1) == Extend(SimpleOps(), [empty]);
      assert [empty] == [] + [empty];
      ExtendSnoc(SimpleOps(), [], empty);
      PrefixedSimple(empty);
      assert [Add] + empty == [Add] && [Multiply] + empty == [Multiply];
    }
    assert Perms(SimpleOps(), 2) == Extend(SimpleOps(), one);
    assert Extend(SimpleOps(), [[Add]]) == [[Add, Add], [Multiply, Add]] by {
      var none: seq<seq<Operator>> := [];
      assert [[Add]] == none + [[Add]];
      assert Extend(SimpleOps(), none) == [];
      ExtendSnoc(SimpleOps(), none, [Add]);
      assert [Add] + [Add] == [Add, Add] && [Multiply] + [Add] == [Multiply, Add];
      PrefixedSimple([Add]);
    }
    assert one == [[Add]] + [[Multiply]];
    ExtendSnoc(SimpleOps(), [[Add]], [Multiply]);
    PrefixedSimple([Multiply]);
    assert [Add] + [Multiply] == [Add, Multiply] && [Multiply] + [Multiply] == [Multiply, Multiply];
  }

  /** The second part's builder order for up to two operators, as listed in its tests. */
  lemma PermsSamplesConcat()
    ensures Perms(ConcatOps(), 0) == [[]]
    ensures Perms(ConcatOps(), 1) == [[Add], [Multiply], [Concatenate]]
    ensures Perms(ConcatOps(), 2) == [
      [Add, Add], [Multiply, Add], [Concatenate, Add],
      [Add, Multiply], [Multiply, Multiply], [Concatenate, Multiply],
      [Add, Concatenate], [Multiply, Concatenate], [Concatenate, Concatenate]]
  {
    var one := [[Add], [Multiply], [Concatenate]];
    assert Perms(ConcatOps(), 1) == one by {
      var empty: seq<Operator> := [];
      assert Perms(ConcatOps(), 1) == Extend(ConcatOps(), [empty]);
      assert [empty] == [] + [empty];
      ExtendSnoc(ConcatOps(), [], empty);
      PrefixedConcat(empty);
      assert [Add] + empty == [Add] && [Multiply] + empty == [Multiply] && [Concatenate] + empty == [Concatenate];
    }
    assert Perms(ConcatOps(), 2) == Extend(ConcatOps(), one);
    assert Extend(ConcatOps(), [[Add]]) == [[Add, Add], [Multiply, Add], [Concatenate, Add]] by {
      var none: seq<seq<Operator>> := [];
      assert [[Add]] == none + [[Add]];
      assert Extend(ConcatOps(), none) == [];
      ExtendSnoc(ConcatOps(), none, [Add]);
      assert [Add] + [Add] == [Add, Add] && [Multiply] + [Add] == [Multiply, Add] && [Concatenate] + [Add] == [Concatenate, Add];
      PrefixedConcat([Add]);
    }
    assert Extend(ConcatOps(), [[Add], [Multiply]]) ==
      [[Add, Add], [Multiply, Add], [Concatenate, Add], [Add, Multiply], [Multiply, Multiply], [Concatenate, Multiply]] by {
      assert [[Add], [Multiply]] == [[Add]] + [[Multiply]];
      ExtendSnoc(ConcatOps(), [[Add]], [Multiply]);
      PrefixedConcat([Multiply]);
      assert [Add] + [Multiply] == [Add, Multiply] && [Multiply] + [Multiply] == [Multiply, Multiply];
      assert [Concatenate] + [Multiply] == [Concatenate, Multiply];
    }
    assert one == [[Add], [Multiply]] + [[Concatenate]];
    ExtendSnoc(ConcatOps(), [[Add], [Multiply]], [Concatenate]);
    PrefixedConcat([Concatenate]);
    assert [Add] + [Concatenate] == [Add, Concatenate] && [Multiply] + [Concatenate] == [Multiply, Concatenate];
    assert [Concatenate] + [Concatenate] == [Concatenate, Concatenate];
  }

  function Pow10(d: nat): (p: nat)
    ensures p >= 1
  {
    if d == 0 then 1 else 10 * Pow10(d - 1)
  }

  /** The number of decimal digits of a positive number: `ilog10(n) + 1`. */
  function Digits(n: int): (d: nat)
    requires n >= 1
    ensures d >= 1
  {
    if n < 10 then 1 else 1 + Digits(n / 10)
  }

  /** A positive number of `d` digits lies between `10^(d-1)` and `10^d`. */
  lemma {:induction false} DigitsMeaning(n: int)
    requires n >= 1
    ensures Pow10(Digits(n) - 1) <= n < Pow10(Digits(n))
  {
    if n >= 10 {
      var q := n / 10;
      DigitsMeaning(q);
      var d := Digits(q);
      assert Pow10(d) == 10 * Pow10(d - 1);
      assert Pow10(d + 1) == 10 * Pow10(d);
      assert n < 10 * (q + 1);
    }
  }

  /**
   * One operator applied to the running value and the next number.
   * Concatenating panics in `ilog10` when the number is below one, `None`
   * here.
   */
  function Step(op: Operator, acc: int, n: int): Option<int>
  {
    match op
    case Add => Some(acc + n)
    case Multiply => Some(acc * n)
    case Concatenate => if n >= 1 then Some(acc * Pow10(Digits(n)) + n) else None
  }

  /**
   * Concatenating writes the digits of the number after the running value:
   * the last `Digits(n)` digits of the result are `n`, and what precedes them
   * is the running value.
   */
  lemma ConcatenateSplits(acc: int, n: int)
    requires n >= 1
    ensures Step(Concatenate, acc, n).Some?
    ensures Step(Concatenate, acc, n).value % Pow10(Digits(n)) == n
    ensures Step(Concatenate, acc, n).value / Pow10(Digits(n)) == acc
  {
    DigitsMeaning(n);
    ModUnique(Step(Concatenate, acc, n).value, Pow10(Digits(n)), acc, n);
  }

  /** Concatenation samples: `15 || 6` is 156 and `12 || 345` is 12345. */
  lemma ConcatenateSamples()
    ensures Step(Concatenate, 15, 6) == Some(156)
    ensures Step(Concatenate, 12, 345) == Some(12345)
  {
  }

  /** The value of the numbers with the operators between them, from the running value `acc`, strictly left to right. */
  function EvalFrom(acc: int, nums: seq<int>, ops: seq<Operator>): Option<int>
    requires |ops| == |nums|
    decreases |nums|
  {
    if nums == [] then Some(acc)
    else match Step(ops[0], acc, nums[0])
      case None => None
      case Some(a) => EvalFrom(a, nums[1..], ops[1..])
  }

  /** The value of an equation's right side; `None` when the operators do not fit the numbers. */
  function Eval(nums: seq<int>, ops: seq<Operator>): Option<int>
  {
    if |ops| + 1 != |nums| then None else EvalFrom(nums[0], nums[1..], ops)
  }

  lemma {:induction false} EvalFromAppend(acc: int, nums: seq<int>, ops: seq<Operator>, n: int, op: Operator)
    requires |ops| == |nums|
    ensures EvalFrom(acc, nums + [n], ops + [op]) ==
      match EvalFrom(acc, nums, ops) case None => None case Some(v) => Step(op, v, n)
    decreases |nums|
  {
    if nums == [] {
      assert EvalFrom(acc, nums + [n], ops + [op]) == EvalFrom(acc, [n], [op]);
    } else {
      assert (nums + [n])[1..] == nums[1..] + [n];
      assert (ops + [op])[1..] == ops[1..] + [op];
      match Step(ops[0], acc, nums[0])
      case None =>
      case Some(a) => EvalFromAppend(a, nums[1..], ops[1..], n, op);
    }
  }

  /**
   * No precedence: the last operator applies to the value of everything
   * before it, so the whole is evaluated from left to right.
   */
  lemma EvalLeftToRight(nums: seq<int>, ops: seq<Operator>, n: int, op: Operator)
    requires |ops| + 1 == |nums|
    ensures Eval(nums + [n], ops + [op]) ==
      match Eval(nums, ops) case None => None case Some(v) => Step(op, v, n)
  {
    assert (nums + [n])[1..] == nums[1..] + [n];
    EvalFromAppend(nums[0], nums[1..], ops, n, op);
  }

  /** The loop of `does_solve_equation` from the running value `acc`: it answers false as soon as the value exceeds the test value. */
  function SolvesFrom(target: int, acc: int, nums: seq<int>, ops: seq<Operator>): Option<bool>
    requires |ops| == |nums|
    decreases |nums|
  {
    if nums == [] then Some(acc == target)
    else match Step(ops[0], acc, nums[0])
      case None => None
      case Some(a) => if a > target then Some(false) else SolvesFrom(target, a, nums[1..], ops[1..])
  }

  /** `does_solve_equation`; its assertions that there is one operator fewer than numbers, and at least one number, are `None` when they fail. */
  function Solves(target: int, nums: seq<int>, ops: seq<Operator>): Option<bool>
  {
    if |ops| + 1 != |nums| then None else SolvesFrom(target, nums[0], nums[1..], ops)
  }

  /** `does_solve_equation`: folds the operators into a running value from the first number, stopping early once it exceeds the test value. */
  method DoesSolveEquation(target: int, nums: seq<int>, ops: seq<Operator>) returns (r: Option<bool>)
    ensures r == Solves(target, nums, ops)
  {
    if |ops| + 1 != |nums| {
      return None;
    }
    var acc := nums[0];
    assert ops[0..] == ops;
    for i := 1 to |nums|
      invariant SolvesFrom(target, acc, nums[i..], ops[i - 1..]) == Solves(target, nums, ops)
    {
      assert nums[i..][1..] == nums[i + 1..] && ops[i - 1..][1..] == ops[i..];
      var n := nums[i];
      match ops[i - 1] {
        case Add =>
          acc := acc + n;
        case Multiply =>
          acc := acc * n;
        case Concatenate =>
          if n < 1 {
            return None;
          }
          acc := acc * Pow10(Digits(n)) + n;
      }
      if acc > target {
        return Some(false);
      }
    }
    r := Some(acc == target);
  }

  /** Every number is positive, as in the puzzle input. */
  predicate Positive(nums: seq<int>)
  {
    forall i :: 0 <= i < |nums| ==> nums[i] >= 1
  }

  lemma {:induction false} SolvesFromSound(target: int, acc: int, nums: seq<int>, ops: seq<Operator>)
    requires |ops| == |nums|
    requires SolvesFrom(target, acc, nums, ops) == Some(true)
    ensures EvalFrom(acc, nums, ops) == Some(target)
    decreases |nums|
  {
    if nums != [] {
      SolvesFromSound(target, Step(ops[0], acc, nums[0]).value, nums[1..], ops[1..]);
    }
  }

  /** An equation reported solved evaluates to the test value, whatever the numbers. */
  lemma SolvesSound(target: int, nums: seq<int>, ops: seq<Operator>)
    requires Solves(target, nums, ops) == Some(true)
    ensures Eval(nums, ops) == Some(target)
  {
    SolvesFromSound(target, nums[0], nums[1..], ops);
  }

  /** With positive numbers no operator makes a non-negative running value smaller. */
  lemma StepGrows(op: Operator, acc: int, n: int)
    requires acc >= 0 && n >= 1
    ensures Step(op, acc, n).Some? && Step(op, acc, n).value >= acc
  {
    if op == Multiply && acc > 0 {
      MulAtLeast(n, acc);
    } else if op == Concatenate && acc > 0 {
      DigitsMeaning(n);
      MulAtLeast(Pow10(Digits(n)), acc);
    }
  }

  lemma {:induction false} EvalFromGrows(acc: int, nums: seq<int>, ops: seq<Operator>)
    requires |ops| == |nums| && acc >= 0 && Positive(nums)
    ensures EvalFrom(acc, nums, ops).Some? && EvalFrom(acc, nums, ops).value >= acc
    decreases |nums|
  {
    if nums != [] {
      StepGrows(ops[0], acc, nums[0]);
      EvalFromGrows(Step(ops[0], acc, nums[0]).value, nums[1..], ops[1..]);
    }
  }

  lemma {:induction false} SolvesFromExact(target: int, acc: int, nums: seq<int>, ops: seq<Operator>)
    requires |ops| == |nums| && acc >= 0 && Positive(nums)
    ensures EvalFrom(acc, nums, ops).Some?
    ensures SolvesFrom(target, acc, nums, ops) == Some(EvalFrom(acc, nums, ops).value == target)
    decreases |nums|
  {
    EvalFromGrows(acc, nums, ops);
    if nums != [] {
      var a := Step(ops[0], acc, nums[0]).value;
      StepGrows(ops[0], acc, nums[0]);
      if a > target {
        EvalFromGrows(a, nums[1..], ops[1..]);
      } else {
        SolvesFromExact(target, a, nums[1..], ops[1..]);
      }
    }
  }

  /**
   * The early `false` is only a shortcut on positive numbers: there the
   * answer is exactly whether the equation evaluates to the test value.
   */
  lemma SolvesExact(target: int, nums: seq<int>, ops: seq<Operator>)
    requires |ops| + 1 == |nums| && Positive(nums)
    ensures Eval(nums, ops).Some?
    ensures Solves(target, nums, ops) == Some(Eval(nums, ops).value == target)
  {
    SolvesFromExact(target, nums[0], nums[1..], ops);
  }

  /** `does_solve_equation` on two numbers: whether the one operator gives the test value. */
  lemma SolvesTwo(target: int, nums: seq<int>, op: Operator)
    requires |nums| == 2
    ensures Solves(target, nums, [op]) ==
      match Step(op, nums[0], nums[1]) case None => None case Some(a) => Some(a == target)
  {
    var rest: seq<int>, ops: seq<Operator> := nums[1..], [op];
    assert rest[0] == nums[1] && rest[1..] == [] && ops[1..] == [];
    match Step(op, nums[0], nums[1])
    case None =>
    case Some(a) =>
      assert SolvesFrom(target, a, rest[1..], ops[1..]) == Some(a == target);
  }

  /** `does_solve_equation` on three numbers, with its early answer after the first operator. */
  lemma SolvesThree(target: int, nums: seq<int>, op1: Operator, op2: Operator)
    requires |nums| == 3
    ensures Solves(target, nums, [op1, op2]) ==
      match Step(op1, nums[0], nums[1])
      case None => None
      case Some(a) =>
        if a > target then Some(false)
        else match Step(op2, a, nums[2]) case None => None case Some(b) => Some(b == target)
  {
    var rest: seq<int>, ops: seq<Operator> := nums[1..], [op1, op2];
    assert rest[0] == nums[1] && rest[1..] == [nums[2]] && rest[1..][1..] == [];
    assert ops[1..] == [op2] && ops[1..][1..] == [];
    match Step(op1, nums[0], nums[1])
    case None =>
    case Some(a) =>
      if a <= target {
        match Step(op2, a, nums[2])
        case None =>
          assert SolvesFrom(target, a, rest[1..], ops[1..]) == None;
        case Some(b) =>
          assert SolvesFrom(target, b, rest[1..][1..], ops[1..][1..]) == Some(b == target);
          assert SolvesFrom(target, a, rest[1..], ops[1..]) == Some(b == target);
      }
  }

  /**
   * With a zero the shortcut answers wrongly: `0: 5 2 0` with `+` and then
   * `*` evaluates to 0, but the running value 7 already exceeds 0.
   */
  lemma ShortcutNeedsPositive(nums: seq<int>)
    requires nums == [5, 2, 0]
    ensures Eval(nums, [Add, Multiply]) == Some(0)
    ensures Solves(0, nums, [Add, Multiply]) == Some(false)
  {
    SolvesThree(0, nums, Add, Multiply);
    assert nums[1..] == [2, 0] && nums[1..][1..] == [0] && nums[1..][1..][1..] == [];
    assert [Add, Multiply][1..] == [Multiply];
    assert EvalFrom(5, [2, 0], [Add, Multiply]) == EvalFrom(7, [0], [Multiply]);
  }

  /** `filter(does_solve_equation).count()` over the operator sequences; a panic on any of them is `None`. */
  function CountSolving(target: int, nums: seq<int>, perms: seq<seq<Operator>>): Option<nat>
  {
    if perms == [] then Some(0)
    else match (Solves(target, nums, perms[0]), CountSolving(target, nums, perms[1..]))
      case (Some(b), Some(c)) => Some(if b then c + 1 else c)
      case _ => None
  }

  /** The operator sequences among `perms` that make the equation evaluate to the test value. */
  function Solutions(target: int, nums: seq<int>, perms: seq<seq<Operator>>): set<seq<Operator>>
  {
    set p | p in perms && Eval(nums, p) == Some(target)
  }

  /** Without repeats the first element is not among the rest, which have no repeats either. */
  lemma DistinctTail<T>(s: seq<T>)
    requires Distinct(s) && s != []
    ensures Distinct(s[1..]) && s[0] !in s[1..]
  {
    var rest := s[1..];
    forall i, j | 0 <= i < j < |rest| ensures rest[i] != rest[j] {
      assert rest[i] == s[i + 1] && rest[j] == s[j + 1];
    }
    forall i | 0 <= i < |rest| ensures rest[i] != s[0] {
      assert rest[i] == s[i + 1];
    }
  }

  /** The solving sequences of a list without repeats: those of its tail, and its head when that solves. */
  lemma SolutionsCons(target: int, nums: seq<int>, perms: seq<seq<Operator>>)
    requires perms != [] && perms[0] !in perms[1..]
    ensures |Solutions(target, nums, perms)| ==
      |Solutions(target, nums, perms[1..])| + (if Eval(nums, perms[0]) == Some(target) then 1 else 0)
  {
    var p, s, t := perms[0], Solutions(target, nums, perms), Solutions(target, nums, perms[1..]);
    assert perms == [p] + perms[1..];
    if Eval(nums, p) == Some(target) {
      assert s == t + {p};
    } else {
      assert s == t;
    }
  }

  /** On positive numbers, counting over distinct fitting sequences counts the solving ones. */
  lemma {:induction false} CountSolvingCounts(target: int, nums: seq<int>, perms: seq<seq<Operator>>)
    requires Positive(nums) && Distinct(perms)
    requires forall p :: p in perms ==> |p| + 1 == |nums|
    ensures CountSolving(target, nums, perms) == Some(|Solutions(target, nums, perms)|)
    decreases |perms|
  {
    if perms != [] {
      var p, rest := perms[0], perms[1..];
      DistinctTail(perms);
      CountSolvingCounts(target, nums, rest);
      SolvesExact(target, nums, p);
      SolutionsCons(target, nums, perms);
    }
  }

  /** Counting over all operator sequences of the fitting length counts the solving ones. */
  lemma CountOverPerms(target: int, nums: seq<int>, alpha: seq<Operator>)
    requires nums != [] && Positive(nums) && Distinct(alpha)
    ensures CountSolving(target, nums, Perms(alpha, |nums| - 1)) == Some(|Solutions(target, nums, Perms(alpha, |nums| - 1))|)
  {
    var perms := Perms(alpha, |nums| - 1);
    PermsDistinct(alpha, |nums| - 1);
    forall p | p in perms ensures |p| + 1 == |nums| {
      PermsMembers(alpha, |nums| - 1, p);
    }
    CountSolvingCounts(target, nums, perms);
  }

  /** `ways_to_solve_simple`: `None` for no numbers, where the length `len - 1` underflows. */
  function WaysToSolveSimple(target: int, nums: seq<int>): Option<nat>
  {
    if nums == [] then None else CountSolving(target, nums, Perms(SimpleOps(), |nums| - 1))
  }

  /** `ways_to_solve_with_concat`. */
  function WaysToSolveWithConcat(target: int, nums: seq<int>): Option<nat>
  {
    if nums == [] then None else CountSolving(target, nums, Perms(ConcatOps(), |nums| - 1))
  }

  /**
   * On positive numbers the first part counts the distinct sequences of
   * additions and multiplications that make the equation true.
   */
  lemma WaysToSolveSimpleCounts(target: int, nums: seq<int>)
    requires nums != [] && Positive(nums)
    ensures WaysToSolveSimple(target, nums) == Some(|Solutions(target, nums, Perms(SimpleOps(), |nums| - 1))|)
  {
    assert Distinct(SimpleOps());
    CountOverPerms(target, nums, SimpleOps());
  }

  /** On positive numbers the second part counts the distinct operator sequences that make the equation true. */
  lemma WaysToSolveWithConcatCounts(target: int, nums: seq<int>)
    requires nums != [] && Positive(nums)
    ensures WaysToSolveWithConcat(target, nums) == Some(|Solutions(target, nums, Perms(ConcatOps(), |nums| - 1))|)
  {
    assert Distinct(ConcatOps());
    CountOverPerms(target, nums, ConcatOps());
  }

  /** Counting over one more sequence in front. */
  lemma CountSolvingCons(target: int, nums: seq<int>, p: seq<Operator>, rest: seq<seq<Operator>>, b: bool, c: nat)
    requires Solves(target, nums, p) == Some(b) && CountSolving(target, nums, rest) == Some(c)
    ensures CountSolving(target, nums, [p] + rest) == Some(if b then c + 1 else c)
  {
    assert ([p] + rest)[1..] == rest;
  }

  /** `190: 10 19` is solved one way: `10 * 19`. */
  lemma SampleSimple190(nums: seq<int>)
    requires nums == [10, 19]
    ensures WaysToSolveSimple(190, nums) == Some(1)
  {
    PermsSamplesSimple();
    SolvesTwo(190, nums, Add);
    SolvesTwo(190, nums, Multiply);
    CountSolvingCons(190, nums, [Multiply], [], true, 0);
    CountSolvingCons(190, nums, [Add], [[Multiply]], false, 1);
  }

  /** `3267: 81 40 27` is solved two ways: `81 * 40 + 27` and `81 + 40 * 27`. */
  lemma SampleSimple3267(nums: seq<int>)
    requires nums == [81, 40, 27]
    ensures WaysToSolveSimple(3267, nums) == Some(2)
  {
    PermsSamplesSimple();
    SolvesThree(3267, nums, Add, Add);
    SolvesThree(3267, nums, Multiply, Add);
    SolvesThree(3267, nums, Add, Multiply);
    SolvesThree(3267, nums, Multiply, Multiply);
    var p := [[Add, Add], [Multiply, Add], [Add, Multiply], [Multiply, Multiply]];
    CountSolvingCons(3267, nums, p[3], [], false, 0);
    CountSolvingCons(3267, nums, p[2], p[3..], true, 0);
    CountSolvingCons(3267, nums, p[1], p[2..], true, 1);
    CountSolvingCons(3267, nums, p[0], p[1..], false, 2);
    assert [p[3]] + [] == p[3..] && [p[2]] + p[3..] == p[2..] && [p[1]] + p[2..] == p[1..] && [p[0]] + p[1..] == p;
  }

  /** `156: 15 6` is solved one way once concatenation is allowed: `15 || 6`. */
  lemma SampleConcat156(nums: seq<int>)
    requires nums == [15, 6]
    ensures WaysToSolveWithConcat(156, nums) == Some(1)
  {
    PermsSamplesConcat();
    ConcatenateSamples();
    SolvesTwo(156, nums, Add);
    SolvesTwo(156, nums, Multiply);
    SolvesTwo(156, nums, Concatenate);
    CountSolvingCons(156, nums, [Concatenate], [], true, 0);
    CountSolvingCons(156, nums, [Multiply], [[Concatenate]], false, 1);
    CountSolvingCons(156, nums, [Add], [[Multiply], [Concatenate]], false, 1);
  }
  /** `192: 17 8 14` with `+` or `*` first: no choice reaches 192. */
  lemma Sample192WithoutConcatFirst(nums: seq<int>)
    requires nums == [17, 8, 14]
    ensures Solves(192, nums, [Add, Add]) == Some(false) && Solves(192, nums, [Multiply, Add]) == Some(false)
    ensures Solves(192, nums, [Add, Multiply]) == Some(false) && Solves(192, nums, [Multiply, Multiply]) == Some(false)
    ensures Solves(192, nums, [Add, Concatenate]) == Some(false) && Solves(192, nums, [Multiply, Concatenate]) == Some(false)
  {
    assert Step(Concatenate, 25, 14) == Some(2514);
    SolvesThree(192, nums, Add, Add);
    SolvesThree(192, nums, Multiply, Add);
    SolvesThree(192, nums, Add, Multiply);
    SolvesThree(192, nums, Multiply, Multiply);
    SolvesThree(192, nums, Add, Concatenate);
    SolvesThree(192, nums, Multiply, Concatenate);
  }

  /** `192: 17 8 14` with `||` first: only `17 || 8 + 14` reaches 192. */
  lemma Sample192ConcatFirst(nums: seq<int>)
    requires nums == [17, 8, 14]
    ensures Solves(192, nums, [Concatenate, Add]) == Some(true)
    ensures Solves(192, nums, [Concatenate, Multiply]) == Some(false)
    ensures Solves(192, nums, [Concatenate, Concatenate]) == Some(false)
  {
    assert Step(Concatenate, 17, 8) == Some(178);
    SolvesThree(192, nums, Concatenate, Add);
    SolvesThree(192, nums, Concatenate, Multiply);
    SolvesThree(192, nums, Concatenate, Concatenate);
  }

  /** `192: 17 8 14` is solved one way once concatenation is allowed. */
  lemma SampleConcat192(nums: seq<int>)
    requires nums == [17, 8, 14]
    ensures WaysToSolveWithConcat(192, nums) == Some(1)
  {
    PermsSamplesConcat();
    Sample192WithoutConcatFirst(nums);
    Sample192ConcatFirst(nums);
    var p := [
      [Add, Add], [Multiply, Add], [Concatenate, Add],
      [Add, Multiply], [Multiply, Multiply], [Concatenate, Multiply],
      [Add, Concatenate], [Multiply, Concatenate], [Concatenate, Concatenate]];
    CountSolvingCons(192, nums, p[8], [], false, 0);
    CountSolvingCons(192, nums, p[7], p[8..], false, 0);
    CountSolvingCons(192, nums, p[6], p[7..], false, 0);
    CountSolvingCons(192, nums, p[5], p[6..], false, 0);
    CountSolvingCons(192, nums, p[4], p[5..], false, 0);
    CountSolvingCons(192, nums, p[3], p[4..], false, 0);
    CountSolvingCons(192, nums, p[2], p[3..], true, 0);
    CountSolvingCons(192, nums, p[1], p[2..], false, 1);
    CountSolvingCons(192, nums, p[0], p[1..], false, 1);
    assert [p[0]] + p[1..] == p;
  }
}
