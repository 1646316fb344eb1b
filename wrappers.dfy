/** Small shared datatypes used by every puzzle module. */
module Wrappers {

  /** Rust's `Option<T>`. */
  datatype Option<T> = None | Some(value: T)

  /** Sum of a sequence of integers, folded from the left as Rust's `Iterator::sum` does. */
  function Sum(s: seq<int>): int
  {
    if s == [] then 0 else Sum(s[..|s| - 1]) + s[|s| - 1]
  }

  /** A sum over two sequences joined is the sum of their sums. */
  lemma {:induction false} SumConcat(a: seq<int>, b: seq<int>)
    ensures Sum(a + b) == Sum(a) + Sum(b)
    decreases |b|
  {
    if b == [] {
      assert a + b == a;
    } else {
      assert (a + b)[..|a + b| - 1] == a + b[..|b| - 1];
      SumConcat(a, b[..|b| - 1]);
    }
  }

  /** Product of a sequence of integers, folded from the left. */
  function Product(s: seq<int>): int
  {
    if s == [] then 1 else Product(s[..|s| - 1]) * s[|s| - 1]
  }

  function Abs(x: int): nat
  {
    if x < 0 then -x else x
  }

  /** A positive multiple of `m` is at least `m`. */
  lemma MulAtLeast(d: int, m: int)
    requires d >= 1 && m > 0
    ensures d * m >= m
  {
    if d > 1 {
      MulAtLeast(d - 1, m);
      assert d * m == (d - 1) * m + m;
    }
  }

  /** Division and remainder are determined by any decomposition `x == k * m + s` with `0 <= s < m`. */
  lemma ModUnique(x: int, m: int, k: int, s: int)
    requires m > 0 && 0 <= s < m && x == k * m + s
    ensures x % m == s && x / m == k
  {
    var k0, s0 := x / m, x % m;
    assert x == k0 * m + s0;
    if k > k0 {
      MulAtLeast(k - k0, m);
    } else if k < k0 {
      MulAtLeast(k0 - k, m);
    }
  }

  /** `Iterator::filter`: the elements that pass the test, in their order. */
  function Filter<T>(s: seq<T>, p: T -> bool): (r: seq<T>)
    ensures forall k :: 0 <= k < |r| ==> p(r[k])
  {
    if s == [] then [] else Filter(s[..|s| - 1], p) + (if p(s[|s| - 1]) then [s[|s| - 1]] else [])
  }

  /** An element is kept by a filter exactly when it occurs and passes the test. */
  lemma {:induction false} FilterMembers<T>(s: seq<T>, p: T -> bool, x: T)
    ensures x in Filter(s, p) <==> x in s && p(x)
  {
    if s != [] {
      var front := s[..|s| - 1];
      FilterMembers(front, p, x);
      assert s == front + [s[|s| - 1]];
    }
  }

  /** The indices of the elements that pass the test, in increasing order. */
  function FilterIndices<T>(s: seq<T>, p: T -> bool): seq<nat>
  {
    if s == [] then [] else FilterIndices(s[..|s| - 1], p) + (if p(s[|s| - 1]) then [|s| - 1] else [])
  }

  /**
   * A filter keeps exactly the elements that pass, each once and in their
   * original order: its `k`-th element is the element at the `k`-th passing
   * index, the indices increase, and an index is listed iff its element passes.
   */
  lemma {:induction false} FilterMeaning<T>(s: seq<T>, p: T -> bool)
    ensures |Filter(s, p)| == |FilterIndices(s, p)| <= |s|
    ensures forall k :: 0 <= k < |FilterIndices(s, p)| ==>
      FilterIndices(s, p)[k] < |s| && Filter(s, p)[k] == s[FilterIndices(s, p)[k]]
    ensures forall k, l :: 0 <= k < l < |FilterIndices(s, p)| ==> FilterIndices(s, p)[k] < FilterIndices(s, p)[l]
    ensures forall i :: 0 <= i < |s| ==> (p(s[i]) <==> i in FilterIndices(s, p))
    decreases |s|
  {
    if s != [] {
      var front, last := s[..|s| - 1], s[|s| - 1];
      FilterMeaning(front, p);
      var f, ix := Filter(front, p), FilterIndices(front, p);
      var keep := p(last);
      assert Filter(s, p) == f + (if keep then [last] else []);
      assert FilterIndices(s, p) == ix + (if keep then [|s| - 1] else []);
      forall i | 0 <= i < |s|
        ensures p(s[i]) <==> i in FilterIndices(s, p)
      {
        if i < |front| {
          assert s[i] == front[i];
          assert i in ix <==> i in FilterIndices(s, p);
        }
      }
    }
  }

  /** Strictly increasing. */
  predicate Increasing(a: seq<nat>)
  {
    forall k, l :: 0 <= k < l < |a| ==> a[k] < a[l]
  }

  /** Two strictly increasing sequences with the same elements are equal. */
  lemma {:induction false} IncreasingUnique(a: seq<nat>, b: seq<nat>)
    requires Increasing(a) && Increasing(b)
    requires forall x :: x in a <==> x in b
    ensures a == b
    decreases |a|
  {
    if a == [] {
      assert forall j :: 0 <= j < |b| ==> b[j] in b;
    } else {
      assert a[0] in a && b != [];
      assert b[0] in b;
      assert a[0] == b[0];
      forall x
        ensures x in a[1..] <==> x in b[1..]
      {
        if x in a[1..] {
          var i :| 1 <= i < |a| && a[i] == x;
          assert x in a;
          var j :| 0 <= j < |b| && b[j] == x;
          assert j != 0;
        }
        if x in b[1..] {
          var j :| 1 <= j < |b| && b[j] == x;
          assert x in b;
          var i :| 0 <= i < |a| && a[i] == x;
          assert i != 0;
        }
      }
      IncreasingUnique(a[1..], b[1..]);
      assert a == [a[0]] + a[1..] && b == [b[0]] + b[1..];
    }
  }

  /** The passing indices are any strictly increasing list of exactly the indices whose elements pass. */
  lemma FilterIndicesExact<T>(s: seq<T>, p: T -> bool, ix: seq<nat>)
    requires Increasing(ix) && forall k :: 0 <= k < |ix| ==> ix[k] < |s|
    requires forall i :: 0 <= i < |s| ==> (p(s[i]) <==> i in ix)
    ensures FilterIndices(s, p) == ix
  {
    FilterMeaning(s, p);
    var f := FilterIndices(s, p);
    forall x
      ensures x in f <==> x in ix
    {
      if x in f {
        var k :| 0 <= k < |f| && f[k] == x;
      }
      if x in ix {
        var k :| 0 <= k < |ix| && ix[k] == x;
      }
    }
    IncreasingUnique(f, ix);
  }
}
