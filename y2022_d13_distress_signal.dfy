// Packet ordering for the distress signal (2022, day 13).
//
// A packet is an integer or a list of packets. Two integers compare numerically;
// two lists compare element by element up to the shorter length and then by
// length; an integer compared with a list is first wrapped as a one-element list.

module DistressSignal {

  datatype Packet = Int(n: nat) | List(items: seq<Packet>)

  datatype Ordering = Less | Equal | Greater

  function Flip(o: Ordering): Ordering
  {
    match o
    case Less => Greater
    case Equal => Equal
    case Greater => Less
  }

  function CmpNat(a: nat, b: nat): (o: Ordering)
    ensures o == Less <==> a < b
    ensures o == Equal <==> a == b
  {
    if a < b then Less else if a == b then Equal else Greater
  }

  /** The size of a packet: one per integer and one per list bracket pair. */
  function Size(p: Packet): nat
    decreases p
  {
    match p
    case Int(_) => 1
    case List(l) => 1 + SizeOf(l)
  }

  function SizeOf(l: seq<Packet>): nat
    decreases l
  {
    if l == [] then 0 else Size(l[0]) + SizeOf(l[1..])
  }

  /** `Ord::cmp` on packets. */
  function Cmp(a: Packet, b: Packet): Ordering
    decreases Size(a) + Size(b), 0
  {
    match (a, b)
    case (Int(x), Int(y)) => CmpNat(x, y)
    case (List(l), Int(_)) => SizeOfSingleton(b); CmpList(l, [b])
    case (Int(_), List(r)) => SizeOfSingleton(a); CmpList([a], r)
    case (List(l), List(r)) => CmpList(l, r)
  }

  lemma SizeOfSingleton(p: Packet)
    ensures SizeOf([p]) == Size(p)
  {
    assert [p][1..] == [];
  }

  /**
   * The list case: the first pair of elements that differ decides, and a list that
   * runs out first is the smaller.
   */
  function CmpList(l: seq<Packet>, r: seq<Packet>): Ordering
    decreases SizeOf(l) + SizeOf(r), 1
  {
    if l == [] || r == [] then CmpNat(|l|, |r|)
    else
      var x := Cmp(l[0], r[0]);
      if x != Equal then x else CmpList(l[1..], r[1..])
  }

  /**
   * The list comparison is decided at index `k`: the first `k` pairs of elements are
   * equal, and then either the pair at `k` decides, or one list has run out and the
   * lengths decide.
   */
  ghost predicate DecidedAt(l: seq<Packet>, r: seq<Packet>, k: nat)
  {
    k <= |l| && k <= |r| &&
    (forall i :: 0 <= i < k ==> Cmp(l[i], r[i]) == Equal) &&
    (if k < |l| && k < |r| then CmpList(l, r) == Cmp(l[k], r[k]) != Equal
     else CmpList(l, r) == CmpNat(|l|, |r|))
  }

  /** The list comparison is lexicographic: a common prefix of equal elements, then the decider. */
  lemma {:induction false} CmpListLexicographic(l: seq<Packet>, r: seq<Packet>)
    ensures exists k :: DecidedAt(l, r, k)
    ensures CmpList(l, r) == Equal <==>
              |l| == |r| && forall i :: 0 <= i < |l| ==> Cmp(l[i], r[i]) == Equal
    decreases |l|
  {
    if l == [] || r == [] {
      assert DecidedAt(l, r, 0);
    } else if Cmp(l[0], r[0]) != Equal {
      assert DecidedAt(l, r, 0);
    } else {
      CmpListLexicographic(l[1..], r[1..]);
      var k: nat :| DecidedAt(l[1..], r[1..], k);
      forall i | 0 <= i < k + 1 ensures Cmp(l[i], r[i]) == Equal {
        if i > 0 {
          assert l[i] == l[1..][i - 1] && r[i] == r[1..][i - 1];
        }
      }
      if k < |l[1..]| && k < |r[1..]| {
        assert l[1..][k] == l[k + 1] && r[1..][k] == r[k + 1];
      }
      assert DecidedAt(l, r, k + 1);
      if CmpList(l[1..], r[1..]) == Equal {
        forall i | 0 <= i < |l| ensures Cmp(l[i], r[i]) == Equal {
          if i > 0 {
            assert l[i] == l[1..][i - 1] && r[i] == r[1..][i - 1];
          }
        }
      }
      if |l| == |r| && (forall i :: 0 <= i < |l| ==> Cmp(l[i], r[i]) == Equal) {
        forall i | 0 <= i < |l[1..]| ensures Cmp(l[1..][i], r[1..][i]) == Equal {
          assert l[1..][i] == l[i + 1] && r[1..][i] == r[i + 1];
        }
      }
    }
  }

  /** The comparison is antisymmetric: swapping the packets flips the result. */
  lemma {:induction false} CmpAntisymmetric(a: Packet, b: Packet)
    ensures Cmp(b, a) == Flip(Cmp(a, b))
    decreases Size(a) + Size(b), 0
  {
    match (a, b)
    case (Int(x), Int(y)) =>
    case (List(l), Int(_)) => SizeOfSingleton(b); CmpListAntisymmetric(l, [b]);
    case (Int(_), List(r)) => SizeOfSingleton(a); CmpListAntisymmetric([a], r);
    case (List(l), List(r)) => CmpListAntisymmetric(l, r);
  }

  lemma {:induction false} CmpListAntisymmetric(l: seq<Packet>, r: seq<Packet>)
    ensures CmpList(r, l) == Flip(CmpList(l, r))
    decreases SizeOf(l) + SizeOf(r), 1
  {
    if l != [] && r != [] {
      CmpAntisymmetric(l[0], r[0]);
      CmpListAntisymmetric(l[1..], r[1..]);
    }
  }

  /** Every packet is equal to itself. */
  lemma {:induction false} CmpReflexive(a: Packet)
    ensures Cmp(a, a) == Equal
    decreases Size(a), 0
  {
    if a.List? {
      CmpListReflexive(a.items);
    }
  }

  lemma {:induction false} CmpListReflexive(l: seq<Packet>)
    ensures CmpList(l, l) == Equal
    decreases SizeOf(l), 1
  {
    if l != [] {
      CmpReflexive(l[0]);
      CmpListReflexive(l[1..]);
    }
  }

  /** An integer compared with a list compares as the one-element list holding it. */
  lemma IntAgainstList(x: nat, p: Packet)
    requires p.List?
    ensures Cmp(Int(x), p) == Cmp(List([Int(x)]), p)
    ensures Cmp(p, Int(x)) == Cmp(p, List([Int(x)]))
  {
  }

  /** The first sample pair: `[1,1,3,1,1]` before `[1,1,5,1,1]`. */
  lemma SamplePair1()
    ensures Cmp(List([Int(1), Int(1), Int(3), Int(1), Int(1)]),
                List([Int(1), Int(1), Int(5), Int(1), Int(1)])) == Less
  {
    var l := [Int(1), Int(1), Int(3), Int(1), Int(1)];
    var r := [Int(1), Int(1), Int(5), Int(1), Int(1)];
    assert CmpList(l[2..], r[2..]) == Less;
    assert CmpList(l[1..], r[1..]) == Less;
  }

  /** The second sample pair: `[[1],[2,3,4]]` before `[[1],4]`. */
  lemma SamplePair2()
    ensures Cmp(List([List([Int(1)]), List([Int(2), Int(3), Int(4)])]),
                List([List([Int(1)]), Int(4)])) == Less
  {
    var l := [List([Int(1)]), List([Int(2), Int(3), Int(4)])];
    var r := [List([Int(1)]), Int(4)];
    assert Cmp(l[0], r[0]) == Equal;
    assert Cmp(l[1], r[1]) == Less;
    assert CmpList(l[1..], r[1..]) == Less;
  }

  /** The third sample pair: `[9]` after `[[8,7,6]]`. */
  lemma SamplePair3()
    ensures Cmp(List([Int(9)]), List([List([Int(8), Int(7), Int(6)])])) == Greater
  {
    assert Cmp(Int(9), List([Int(8), Int(7), Int(6)])) == Greater;
  }

  /** The fourth sample pair: `[[4,4],4,4]` before `[[4,4],4,4,4]`. */
  lemma SamplePair4()
    ensures Cmp(List([List([Int(4), Int(4)]), Int(4), Int(4)]),
                List([List([Int(4), Int(4)]), Int(4), Int(4), Int(4)])) == Less
  {
    var l := [List([Int(4), Int(4)]), Int(4), Int(4)];
    var r := [List([Int(4), Int(4)]), Int(4), Int(4), Int(4)];
    CmpReflexive(l[0]);
    assert CmpList(l[3..], r[3..]) == Less;
    assert CmpList(l[2..], r[2..]) == Less;
    assert CmpList(l[1..], r[1..]) == Less;
  }

  /** The fifth sample pair: `[7,7,7,7]` after `[7,7,7]`. */
  lemma SamplePair5()
    ensures Cmp(List([Int(7), Int(7), Int(7), Int(7)]), List([Int(7), Int(7), Int(7)])) == Greater
  {
    var l := [Int(7), Int(7), Int(7), Int(7)];
    var r := [Int(7), Int(7), Int(7)];
    assert CmpList(l[3..], r[3..]) == Greater;
    assert CmpList(l[2..], r[2..]) == Greater;
    assert CmpList(l[1..], r[1..]) == Greater;
  }

  /** The sixth sample pair: `[]` before `[3]`. */
  lemma SamplePair6()
    ensures Cmp(List([]), List([Int(3)])) == Less
  {
  }

  /** The seventh sample pair: `[[[]]]` after `[[]]`. */
  lemma SamplePair7()
    ensures Cmp(List([List([List([])])]), List([List([])])) == Greater
  {
    assert Cmp(List([List([])]), List([])) == Greater;
  }

  /** The eighth sample pair: `[1,[2,[3,[4,[5,6,7]]]],8,9]` after `[1,[2,[3,[4,[5,6,0]]]],8,9]`. */
  lemma SamplePair8()
    ensures Cmp(List([Int(1), List([Int(2), List([Int(3), List([Int(4), List([Int(5), Int(6), Int(7)])])])]), Int(8), Int(9)]),
                List([Int(1), List([Int(2), List([Int(3), List([Int(4), List([Int(5), Int(6), Int(0)])])])]), Int(8), Int(9)])) == Greater
  {
    var a5, b5 := [Int(5), Int(6), Int(7)], [Int(5), Int(6), Int(0)];
    assert CmpList(a5[2..], b5[2..]) == Greater;
    assert CmpList(a5[1..], b5[1..]) == Greater;
    assert Cmp(List(a5), List(b5)) == Greater;
    var a4, b4 := [Int(4), List(a5)], [Int(4), List(b5)];
    assert CmpList(a4[1..], b4[1..]) == Greater;
    assert Cmp(a4[0], b4[0]) == Equal;
    assert CmpList(a4, b4) == Greater;
    var a3, b3 := [Int(3), List(a4)], [Int(3), List(b4)];
    assert CmpList(a3[1..], b3[1..]) == Greater;
    assert Cmp(a3[0], b3[0]) == Equal;
    assert CmpList(a3, b3) == Greater;
    var a2, b2 := [Int(2), List(a3)], [Int(2), List(b3)];
    assert CmpList(a2[1..], b2[1..]) == Greater;
    assert Cmp(a2[0], b2[0]) == Equal;
    assert CmpList(a2, b2) == Greater;
    var a1, b1 := [Int(1), List(a2), Int(8), Int(9)], [Int(1), List(b2), Int(8), Int(9)];
    assert CmpList(a1[1..], b1[1..]) == Greater;
  }
}
