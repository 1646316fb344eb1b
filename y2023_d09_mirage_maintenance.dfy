// Mirage maintenance (2023, day 9).
//
// Each line of the report is a history of readings. Its next value is found
// by taking the differences between neighbouring readings, again and again,
// until a row is all zeros, and then extending every row back up by one;
// its previous value is found the same way at the front.

module MirageMaintenance {

  /** Every reading is zero; the empty history counts as all zeros. */
  predicate AllZero(s: seq<int>)
  {
    forall i :: 0 <= i < |s| ==> s[i] == 0
  }

  /**
   * The differences `b - a` of the neighbouring pairs `[a, b]` of the
   * history, as `array_windows` yields them: one fewer than the readings,
   * and none for a history of one reading or none.
   */
  function Diffs(s: seq<int>): (r: seq<int>)
    ensures s != [] ==> |r| == |s| - 1
    ensures s == [] ==> r == []
  {
    if s == [] then [] else seq(|s| - 1, i requires 0 <= i < |s| - 1 => s[i + 1] - s[i])
  }

  /** `get_next_number`. */
  function NextNumber(s: seq<int>): int
    decreases |s|
  {
    if AllZero(s) then 0 else s[|s| - 1] + NextNumber(Diffs(s))
  }

  /** `get_previous_number`. */
  function PreviousNumber(s: seq<int>): int
    decreases |s|
  {
    if AllZero(s) then 0 else s[0] - PreviousNumber(Diffs(s))
  }

  /** A history of zeros, the empty one included, extends by zero at both ends. */
  lemma ZerosExtendByZero(s: seq<int>)
    requires AllZero(s)
    ensures NextNumber(s) == 0 && PreviousNumber(s) == 0
  {
  }

  /**
   * The next value extends every row at once: appending it to a history
   * that is not all zeros appends the next value of the differences to the
   * differences.
   */
  lemma NextExtends(s: seq<int>)
    requires !AllZero(s)
    ensures Diffs(s + [NextNumber(s)]) == Diffs(s) + [NextNumber(Diffs(s))]
  {
    var t := s + [NextNumber(s)];
    assert |Diffs(t)| == |Diffs(s) + [NextNumber(Diffs(s))]|;
    forall i | 0 <= i < |Diffs(t)|
      ensures Diffs(t)[i] == (Diffs(s) + [NextNumber(Diffs(s))])[i]
    {
      if i < |s| - 1 {
        assert t[i] == s[i] && t[i + 1] == s[i + 1];
      }
    }
  }

  /**
   * The previous value extends every row at the front: prepending it to a
   * history that is not all zeros prepends the previous value of the
   * differences to the differences.
   */
  lemma PreviousExtends(s: seq<int>)
    requires !AllZero(s)
    ensures Diffs([PreviousNumber(s)] + s) == [PreviousNumber(Diffs(s))] + Diffs(s)
  {
    var t := [PreviousNumber(s)] + s;
    assert |Diffs(t)| == |[PreviousNumber(Diffs(s))] + Diffs(s)|;
    forall i | 0 <= i < |Diffs(t)|
      ensures Diffs(t)[i] == ([PreviousNumber(Diffs(s))] + Diffs(s))[i]
    {
      if i > 0 {
        assert t[i] == s[i - 1] && t[i + 1] == s[i];
      }
    }
  }

  /** A history of one repeated reading continues with that reading at both ends. */
  lemma ConstantExtends(s: seq<int>, c: int)
    requires |s| >= 1
    requires forall i :: 0 <= i < |s| ==> s[i] == c
    ensures NextNumber(s) == c && PreviousNumber(s) == c
  {
    if c != 0 {
      assert !AllZero(s) by { assert s[0] != 0; }
      assert AllZero(Diffs(s));
    }
  }

  /** A history growing by `b` each reading from `a` continues with `a + b * |s|` and is preceded by `a - b`. */
  lemma LinearExtends(s: seq<int>, a: int, b: int)
    requires |s| >= 2
    requires forall i :: 0 <= i < |s| ==> s[i] == a + b * i
    ensures NextNumber(s) == a + b * |s| && PreviousNumber(s) == a - b
  {
    var d := Diffs(s);
    forall i | 0 <= i < |d|
      ensures d[i] == b
    {
      assert d[i] == s[i + 1] - s[i];
      assert s[i + 1] == a + b * i + b;
    }
    ConstantExtends(d, b);
    assert s[0] == a && s[1] == a + b;
    var last := |s| - 1;
    assert s[last] + b == a + b * |s| by {
      assert s[last] == a + b * last;
    }
    if AllZero(s) {
      assert a == 0 && b == 0;
    }
  }

  /** The history with every reading negated. */
  function Negated(s: seq<int>): (r: seq<int>)
    ensures |r| == |s|
  {
    seq(|s|, i requires 0 <= i < |s| => -s[i])
  }

  /** The history read from its end. */
  function Reversed(s: seq<int>): (r: seq<int>)
    ensures |r| == |s|
  {
    seq(|s|, i requires 0 <= i < |s| => s[|s| - 1 - i])
  }

  /** Negating the readings negates the next value. */
  lemma {:induction false} NextOfNegated(s: seq<int>)
    ensures NextNumber(Negated(s)) == -NextNumber(s)
    decreases |s|
  {
    var n := Negated(s);
    if AllZero(s) {
      assert AllZero(n);
    } else {
      var i :| 0 <= i < |s| && s[i] != 0;
      assert n[i] != 0;
      assert Diffs(n) == Negated(Diffs(s));
      NextOfNegated(Diffs(s));
    }
  }

  /** The differences of the reversed history are the reversed differences, negated. */
  lemma DiffsOfReversed(s: seq<int>)
    ensures Diffs(Reversed(s)) == Negated(Reversed(Diffs(s)))
  {
    if s != [] {
      var l := Diffs(Reversed(s));
      var r := Negated(Reversed(Diffs(s)));
      forall i | 0 <= i < |l|
        ensures l[i] == r[i]
      {
        assert Reversed(Diffs(s))[i] == Diffs(s)[|s| - 2 - i];
      }
    }
  }

  /**
   * Extrapolating backwards is extrapolating forwards on the reversed
   * history: the previous value of a history is the next value of the history
   * read from its end.
   */
  lemma {:induction false} PreviousIsNextOfReversed(s: seq<int>)
    ensures PreviousNumber(s) == NextNumber(Reversed(s))
    decreases |s|
  {
    var r := Reversed(s);
    if AllZero(s) {
      assert AllZero(r) by {
        forall i | 0 <= i < |r|
          ensures r[i] == 0
        {
          assert r[i] == s[|s| - 1 - i];
        }
      }
    } else {
      var i :| 0 <= i < |s| && s[i] != 0;
      assert r[|s| - 1 - i] != 0;
      assert r[|r| - 1] == s[0];
      DiffsOfReversed(s);
      NextOfNegated(Reversed(Diffs(s)));
      PreviousIsNextOfReversed(Diffs(s));
    }
  }

  /** The first sample history grows by 3 from 0: it continues with 18 and is preceded by -3. */
  lemma SampleFirst(s: seq<int>)
    requires s == [0, 3, 6, 9, 12, 15]
    ensures NextNumber(s) == 18 && PreviousNumber(s) == -3
  {
    LinearExtends(s, 0, 3);
  }

  /** One extrapolation step on a history with known differences. */
  lemma Step(s: seq<int>, d: seq<int>)
    requires |s| >= 1 && s[0] != 0 && Diffs(s) == d
    ensures NextNumber(s) == s[|s| - 1] + NextNumber(d)
    ensures PreviousNumber(s) == s[0] - PreviousNumber(d)
  {
    assert !AllZero(s);
  }

  /** The second sample history: its differences grow by 1 from 2, so it continues with 28 and is preceded by 0. */
  lemma SampleSecond(s: seq<int>)
    requires s == [1, 3, 6, 10, 15, 21]
    ensures NextNumber(s) == 28 && PreviousNumber(s) == 0
  {
    var d := [2, 3, 4, 5, 6];
    assert Diffs(s) == d;
    LinearExtends(d, 2, 1);
    Step(s, d);
  }

  /** The third sample history: its second differences grow by 2 from 0, so it continues with 68 and is preceded by 5. */
  lemma SampleThird(s: seq<int>)
    requires s == [10, 13, 16, 21, 30, 45]
    ensures NextNumber(s) == 68 && PreviousNumber(s) == 5
  {
    var d := [3, 3, 5, 9, 15];
    var dd := [0, 2, 4, 6];
    assert Diffs(s) == d;
    assert Diffs(d) == dd;
    LinearExtends(dd, 0, 2);
    Step(d, dd);
    Step(s, d);
  }
}
