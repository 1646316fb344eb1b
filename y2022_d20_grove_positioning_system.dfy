// Mixing the encrypted grove coordinates (2022, day 20).
//
// Every number of the file is moved, in the order the file lists them, as many
// places forward or backward as its value says, around a circular list. Each
// entry is tagged with its original index so that equal values stay apart.

module GrovePositioningSystem {
  import opened Wrappers

  /** A number of the file, tagged with its original index. */
  datatype Entry = Entry(id: nat, value: int)

  /**
   * How a moved number's new index is wrapped into the list: `AsWritten` is the
   * rule of `mix_list`, `Corrected` wraps modulo the number of the other entries.
   */
  datatype Wrap = AsWritten | Corrected

  /** `list.enumerate()`. */
  function Enumerate(list: seq<int>): (r: seq<Entry>)
    ensures |r| == |list|
    ensures forall i :: 0 <= i < |list| ==> r[i] == Entry(i, list[i])
  {
    seq(|list|, i requires 0 <= i < |list| => Entry(i, list[i]))
  }

  /** The values of the entries, in order. */
  function Values(s: seq<Entry>): (r: seq<int>)
    ensures |r| == |s|
    ensures forall i :: 0 <= i < |s| ==> r[i] == s[i].value
  {
    seq(|s|, i requires 0 <= i < |s| => s[i].value)
  }

  /**
   * `position` of the first entry with the given id; `|state|` when there is
   * none.
   */
  function IndexOf(state: seq<Entry>, id: nat): (r: nat)
    ensures r <= |state|
    ensures forall k :: 0 <= k < r ==> state[k].id != id
    ensures r < |state| ==> state[r].id == id
  {
    if state == [] then 0
    else if state[0].id == id then 0
    else 1 + IndexOf(state[1..], id)
  }

  /** `Vec::remove`. */
  function Remove(s: seq<Entry>, k: nat): seq<Entry>
    requires k < |s|
  {
    s[..k] + s[k + 1..]
  }

  /** `Vec::insert`. */
  function Insert(s: seq<Entry>, q: nat, e: Entry): seq<Entry>
    requires q <= |s|
  {
    s[..q] + [e] + s[q..]
  }

  /** Take out the entry at `k` and insert it at `q` of what is left. */
  function Move(s: seq<Entry>, k: nat, q: nat): seq<Entry>
    requires k < |s| && q < |s|
  {
    Insert(Remove(s, k), q, s[k])
  }

  /**
   * The index at which a number moved by `offset` from `idx` is put back, for a
   * list of `len` numbers.
   */
  function NewIndex(rule: Wrap, offset: int, idx: nat, len: nat): int
    requires len > 0
  {
    var sum := offset + idx;
    match rule
    case AsWritten =>
      if 0 < sum < len then sum
      else if sum >= len then (sum + 1) % len
      else if sum < 0 then (sum - 1) % len
      else len - 1
    case Corrected =>
      if len == 1 then 0
      else if sum % (len - 1) == 0 then len - 1
      else sum % (len - 1)
  }

  /** Both rules give an index of the list without the moved number, so `insert` never panics. */
  lemma NewIndexInRange(rule: Wrap, offset: int, idx: nat, len: nat)
    requires len > 0
    ensures 0 <= NewIndex(rule, offset, idx, len) < len
  {
  }

  /**
   * The corrected rule: the new index is congruent to `idx + offset` modulo the
   * `len - 1` other numbers and is never 0, because the front and the back of a
   * circular list are the same place.
   */
  lemma CorrectedIndexMeaning(offset: int, idx: nat, len: nat)
    requires len >= 2
    ensures 1 <= NewIndex(Corrected, offset, idx, len) <= len - 1
    ensures (NewIndex(Corrected, offset, idx, len) - (offset + idx)) % (len - 1) == 0
    ensures NewIndex(Corrected, offset, idx, len) % (len - 1) == (offset + idx) % (len - 1)
  {
    var sum := offset + idx;
    var m := len - 1;
    var q, r := sum / m, sum % m;
    assert sum == q * m + r;
    if r == 0 {
      assert m - sum == (1 - q) * m;
      ModUnique(m - sum, m, 1 - q, 0);
      ModUnique(m, m, 1, 0);
    } else {
      assert r - sum == (0 - q) * m;
      ModUnique(r - sum, m, 0 - q, 0);
      ModUnique(r, m, 0, r);
    }
  }

  /**
   * The two rules agree as long as `idx + offset` stays within one lap of the
   * list, which is why the short sample mixes the same under both.
   */
  lemma RulesAgreeOnShortMoves(offset: int, idx: nat, len: nat)
    requires len >= 2
    requires 2 - len <= offset + idx <= 2 * len - 2
    ensures NewIndex(AsWritten, offset, idx, len) == NewIndex(Corrected, offset, idx, len)
  {
    var sum := offset + idx;
    var m := len - 1;
    if sum >= len {
      ModUnique(sum + 1, len, 1, sum + 1 - len);
      if sum == 2 * m {
        ModUnique(sum, m, 2, 0);
      } else {
        ModUnique(sum, m, 1, sum - m);
      }
    } else if sum < 0 {
      ModUnique(sum - 1, len, -1, sum - 1 + len);
      ModUnique(sum, m, -1, sum + m);
    } else if sum == m {
      ModUnique(sum, m, 1, 0);
    } else {
      ModUnique(sum, m, 0, sum);
    }
  }

  /**
   * One iteration of `mix_list`: find the entry with `e`'s id, take it out and
   * put it back `e.value` places further; `None` where the source panics.
   */
  function Step(rule: Wrap, state: seq<Entry>, e: Entry, len: nat): Option<seq<Entry>>
    requires len > 0
  {
    var k := IndexOf(state, e.id);
    if k == |state| then None
    else
      var q := NewIndex(rule, e.value, k, len);
      if q < 0 || q > |state| - 1 then None else Some(Move(state, k, q))
  }

  /** The iterations of `mix_list` for the entries of `todo`, in order. */
  function MixFrom(rule: Wrap, state: seq<Entry>, todo: seq<Entry>, len: nat): Option<seq<Entry>>
    requires len > 0
    decreases |todo|
  {
    if todo == [] then Some(state)
    else
      match Step(rule, state, todo[0], len)
      case None => None
      case Some(next) => MixFrom(rule, next, todo[1..], len)
  }

  /** `mix_list` under the given wrapping rule. */
  function Mix(rule: Wrap, list: seq<int>): Option<seq<int>>
  {
    if list == [] then Some([])
    else
      var original := Enumerate(list);
      match MixFrom(rule, original, original, |list|)
      case None => None
      case Some(state) => Some(Values(state))
  }

  /** Taking out the element at `k` leaves the rest of the multiset. */
  lemma RemoveMultiset<T>(s: seq<T>, k: nat)
    requires k < |s|
    ensures multiset(s[..k] + s[k + 1..]) + multiset{s[k]} == multiset(s)
  {
    assert s == s[..k] + [s[k]] + s[k + 1..];
  }

  /** Putting an element in at `q` adds it to the multiset. */
  lemma InsertMultiset<T>(s: seq<T>, q: nat, x: T)
    requires q <= |s|
    ensures multiset(s[..q] + [x] + s[q..]) == multiset(s) + multiset{x}
  {
    assert s == s[..q] + s[q..];
  }

  lemma ValuesEnumerate(list: seq<int>)
    ensures Values(Enumerate(list)) == list
  {
  }

  /**
   * A move moves one entry and only that one: it ends at `q`, and taking it out
   * again leaves the other entries in their old order.
   */
  lemma MoveMovesOneEntry(s: seq<Entry>, k: nat, q: nat)
    requires k < |s| && q < |s|
    ensures |Move(s, k, q)| == |s| && Move(s, k, q)[q] == s[k]
    ensures Remove(Move(s, k, q), q) == Remove(s, k)
  {
    var rest := Remove(s, k);
    var next := Move(s, k, q);
    assert next[..q] == rest[..q];
    assert next[q + 1..] == rest[q..];
  }

  /** A move is a permutation of the entries and of their values. */
  lemma MovePermutes(s: seq<Entry>, k: nat, q: nat)
    requires k < |s| && q < |s|
    ensures multiset(Move(s, k, q)) == multiset(s)
    ensures multiset(Values(Move(s, k, q))) == multiset(Values(s))
  {
    var rest := Remove(s, k);
    RemoveMultiset(s, k);
    InsertMultiset(rest, q, s[k]);
    var vs, vr := Values(s), Values(rest);
    assert vr == vs[..k] + vs[k + 1..];
    assert Values(Move(s, k, q)) == vr[..q] + [vs[k]] + vr[q..];
    RemoveMultiset(vs, k);
    InsertMultiset(vr, q, vs[k]);
  }

  /** A step is a permutation of the entries and of their values. */
  lemma StepPermutes(rule: Wrap, state: seq<Entry>, e: Entry, len: nat)
    requires len > 0
    requires Step(rule, state, e, len).Some?
    ensures var next := Step(rule, state, e, len).value;
      |next| == |state| && multiset(next) == multiset(state) &&
      multiset(Values(next)) == multiset(Values(state))
  {
    var k := IndexOf(state, e.id);
    var q := NewIndex(rule, e.value, k, len);
    MoveMovesOneEntry(state, k, q);
    MovePermutes(state, k, q);
  }

  /**
   * A step never panics while the entry to move is still in a state of `len`
   * entries.
   */
  lemma StepSucceeds(rule: Wrap, state: seq<Entry>, e: Entry, len: nat)
    requires len > 0 && |state| == len
    requires e in multiset(state)
    ensures Step(rule, state, e, len).Some?
  {
    var k :| 0 <= k < |state| && state[k] == e;
    assert IndexOf(state, e.id) <= k;
    NewIndexInRange(rule, e.value, IndexOf(state, e.id), len);
  }

  /**
   * Mixing a permutation of the entries still to be moved never panics and
   * ends in a permutation of the state it started from.
   */
  lemma {:induction false} MixFromPermutes(rule: Wrap, state: seq<Entry>, todo: seq<Entry>, len: nat)
    requires len > 0 && |state| == len
    requires forall j :: 0 <= j < |todo| ==> todo[j] in multiset(state)
    ensures MixFrom(rule, state, todo, len).Some?
    ensures var r := MixFrom(rule, state, todo, len).value;
      |r| == len && multiset(r) == multiset(state) && multiset(Values(r)) == multiset(Values(state))
    decreases |todo|
  {
    if todo != [] {
      StepSucceeds(rule, state, todo[0], len);
      StepPermutes(rule, state, todo[0], len);
      var next := Step(rule, state, todo[0], len).value;
      forall j | 0 <= j < |todo[1..]|
        ensures todo[1..][j] in multiset(next)
      {
        assert todo[1..][j] == todo[j + 1];
      }
      MixFromPermutes(rule, next, todo[1..], len);
    }
  }

  /** `mix_list` returns a permutation of its input, under either rule, and never panics. */
  lemma MixPermutes(rule: Wrap, list: seq<int>)
    ensures Mix(rule, list).Some?
    ensures |Mix(rule, list).value| == |list|
    ensures multiset(Mix(rule, list).value) == multiset(list)
  {
    if list != [] {
      var original := Enumerate(list);
      forall j | 0 <= j < |original|
        ensures original[j] in multiset(original)
      {
      }
      MixFromPermutes(rule, original, original, |list|);
      ValuesEnumerate(list);
    }
  }

  /**
   * Circularly, the entry moved to `q` is followed by the entry that was at `q`
   * of the list without it, where index `|s| - 1` is the same place as 0.
   */
  lemma MoveFollowedBy(s: seq<Entry>, k: nat, q: nat)
    requires k < |s| && 1 <= q < |s|
    ensures Move(s, k, q)[(q + 1) % |s|] == Remove(s, k)[q % (|s| - 1)]
  {
    var n := |s|;
    var rest := Remove(s, k);
    var next := Move(s, k, q);
    if q == n - 1 {
      ModUnique(q + 1, n, 1, 0);
      ModUnique(q, n - 1, 1, 0);
      assert next[0] == rest[0];
    } else {
      ModUnique(q + 1, n, 0, q + 1);
      ModUnique(q, n - 1, 0, q);
      assert next[q + 1] == rest[q];
    }
  }

  /**
   * The corrected rule does what mixing means: the number taken out at `k` and
   * moved by `offset` lands just before the number `k + offset` places on,
   * counted circularly among the other numbers.
   */
  lemma CorrectedLandsBefore(state: seq<Entry>, k: nat, offset: int, len: nat)
    requires len >= 2 && |state| == len && k < len
    ensures var q := NewIndex(Corrected, offset, k, len);
      1 <= q < len && Move(state, k, q)[q] == state[k] &&
      Move(state, k, q)[(q + 1) % len] == Remove(state, k)[(offset + k) % (len - 1)]
  {
    var q := NewIndex(Corrected, offset, k, len);
    CorrectedIndexMeaning(offset, k, len);
    MoveMovesOneEntry(state, k, q);
    MoveFollowedBy(state, k, q);
  }

  /** The file of the puzzle's example. */
  function Sample(): seq<int>
  {
    [1, 2, -3, 3, -2, 0, 4]
  }

  /** The first move of the example. */
  lemma SampleMove1(rule: Wrap)
    ensures Step(rule, SampleStates()[0], SampleStates()[0][0], 7) == Some(SampleStates()[1])
  {
    var s0, s1 := [Entry(0, 1), Entry(1, 2), Entry(2, -3), Entry(3, 3), Entry(4, -2), Entry(5, 0), Entry(6, 4)], [Entry(1, 2), Entry(0, 1), Entry(2, -3), Entry(3, 3), Entry(4, -2), Entry(5, 0), Entry(6, 4)];
    assert SampleStates()[0] == s0 && SampleStates()[1] == s1 && SampleStates()[0][0] == Entry(0, 1);
    assert IndexOf(s0, 0) == 0;
    assert Remove(s0, 0) == [Entry(1, 2), Entry(2, -3), Entry(3, 3), Entry(4, -2), Entry(5, 0), Entry(6, 4)];
    assert NewIndex(rule, 1, 0, 7) == 1;
    assert Move(s0, 0, 1) == s1;
  }

  /** The second move of the example. */
  lemma SampleMove2(rule: Wrap)
    ensures Step(rule, SampleStates()[1], SampleStates()[0][1], 7) == Some(SampleStates()[2])
  {
    var s1, s2 := [Entry(1, 2), Entry(0, 1), Entry(2, -3), Entry(3, 3), Entry(4, -2), Entry(5, 0), Entry(6, 4)], [Entry(0, 1), Entry(2, -3), Entry(1, 2), Entry(3, 3), Entry(4, -2), Entry(5, 0), Entry(6, 4)];
    assert SampleStates()[1] == s1 && SampleStates()[2] == s2 && SampleStates()[0][1] == Entry(1, 2);
    assert IndexOf(s1, 1) == 0;
    assert Remove(s1, 0) == [Entry(0, 1), Entry(2, -3), Entry(3, 3), Entry(4, -2), Entry(5, 0), Entry(6, 4)];
    assert NewIndex(rule, 2, 0, 7) == 2;
    assert Move(s1, 0, 2) == s2;
  }

  /** The third move of the example. */
  lemma SampleMove3(rule: Wrap)
    ensures Step(rule, SampleStates()[2], SampleStates()[0][2], 7) == Some(SampleStates()[3])
  {
    var s2, s3 := [Entry(0, 1), Entry(2, -3), Entry(1, 2), Entry(3, 3), Entry(4, -2), Entry(5, 0), Entry(6, 4)], [Entry(0, 1), Entry(1, 2), Entry(3, 3), Entry(4, -2), Entry(2, -3), Entry(5, 0), Entry(6, 4)];
    assert SampleStates()[2] == s2 && SampleStates()[3] == s3 && SampleStates()[0][2] == Entry(2, -3);
    assert IndexOf(s2, 2) == 1;
    assert Remove(s2, 1) == [Entry(0, 1), Entry(1, 2), Entry(3, 3), Entry(4, -2), Entry(5, 0), Entry(6, 4)];
    assert NewIndex(rule, -3, 1, 7) == 4;
    assert Move(s2, 1, 4) == s3;
  }

  /** The fourth move of the example. */
  lemma SampleMove4(rule: Wrap)
    ensures Step(rule, SampleStates()[3], SampleStates()[0][3], 7) == Some(SampleStates()[4])
  {
    var s3, s4 := [Entry(0, 1), Entry(1, 2), Entry(3, 3), Entry(4, -2), Entry(2, -3), Entry(5, 0), Entry(6, 4)], [Entry(0, 1), Entry(1, 2), Entry(4, -2), Entry(2, -3), Entry(5, 0), Entry(3, 3), Entry(6, 4)];
    assert SampleStates()[3] == s3 && SampleStates()[4] == s4 && SampleStates()[0][3] == Entry(3, 3);
    assert IndexOf(s3, 3) == 2;
    assert Remove(s3, 2) == [Entry(0, 1), Entry(1, 2), Entry(4, -2), Entry(2, -3), Entry(5, 0), Entry(6, 4)];
    assert NewIndex(rule, 3, 2, 7) == 5;
    assert Move(s3, 2, 5) == s4;
  }

  /** The fifth move of the example. */
  lemma SampleMove5(rule: Wrap)
    ensures Step(rule, SampleStates()[4], SampleStates()[0][4], 7) == Some(SampleStates()[5])
  {
    var s4, s5 := [Entry(0, 1), Entry(1, 2), Entry(4, -2), Entry(2, -3), Entry(5, 0), Entry(3, 3), Entry(6, 4)], [Entry(0, 1), Entry(1, 2), Entry(2, -3), Entry(5, 0), Entry(3, 3), Entry(6, 4), Entry(4, -2)];
    assert SampleStates()[4] == s4 && SampleStates()[5] == s5 && SampleStates()[0][4] == Entry(4, -2);
    assert IndexOf(s4, 4) == 2;
    assert Remove(s4, 2) == [Entry(0, 1), Entry(1, 2), Entry(2, -3), Entry(5, 0), Entry(3, 3), Entry(6, 4)];
    assert NewIndex(rule, -2, 2, 7) == 6;
    assert Move(s4, 2, 6) == s5;
  }

  /** The sixth move of the example. */
  lemma SampleMove6(rule: Wrap)
    ensures Step(rule, SampleStates()[5], SampleStates()[0][5], 7) == Some(SampleStates()[6])
  {
    var s5, s6 := [Entry(0, 1), Entry(1, 2), Entry(2, -3), Entry(5, 0), Entry(3, 3), Entry(6, 4), Entry(4, -2)], [Entry(0, 1), Entry(1, 2), Entry(2, -3), Entry(5, 0), Entry(3, 3), Entry(6, 4), Entry(4, -2)];
    assert SampleStates()[5] == s5 && SampleStates()[6] == s6 && SampleStates()[0][5] == Entry(5, 0);
    assert IndexOf(s5, 5) == 3;
    assert Remove(s5, 3) == [Entry(0, 1), Entry(1, 2), Entry(2, -3), Entry(3, 3), Entry(6, 4), Entry(4, -2)];
    assert NewIndex(rule, 0, 3, 7) == 3;
    assert Move(s5, 3, 3) == s6;
  }

  /** The seventh move of the example. */
  lemma SampleMove7(rule: Wrap)
    ensures Step(rule, SampleStates()[6], SampleStates()[0][6], 7) == Some(SampleStates()[7])
  {
    var s6, s7 := [Entry(0, 1), Entry(1, 2), Entry(2, -3), Entry(5, 0), Entry(3, 3), Entry(6, 4), Entry(4, -2)], [Entry(0, 1), Entry(1, 2), Entry(2, -3), Entry(6, 4), Entry(5, 0), Entry(3, 3), Entry(4, -2)];
    assert SampleStates()[6] == s6 && SampleStates()[7] == s7 && SampleStates()[0][6] == Entry(6, 4);
    assert IndexOf(s6, 6) == 5;
    assert Remove(s6, 5) == [Entry(0, 1), Entry(1, 2), Entry(2, -3), Entry(5, 0), Entry(3, 3), Entry(4, -2)];
    assert NewIndex(rule, 4, 5, 7) == 3;
    assert Move(s6, 5, 3) == s7;
  }

  /** The example tagged with the original indices. */
  lemma SampleEnumerated()
    ensures Enumerate(Sample()) == SampleStates()[0]
  {
  }

  /** The values of the mixed example, in order. */
  lemma SampleValues()
    ensures Values([Entry(0, 1), Entry(1, 2), Entry(2, -3), Entry(6, 4), Entry(5, 0), Entry(3, 3), Entry(4, -2)]) == [1, 2, -3, 4, 0, 3, -2]
  {
  }

  /**
   * Mixing is the chain of its steps: when each entry of `todo` in turn takes
   * `states[j]` to `states[j + 1]`, mixing ends in the last of the states.
   */
  lemma {:induction false} MixFromChain(rule: Wrap, states: seq<seq<Entry>>, todo: seq<Entry>, len: nat)
    requires len > 0 && |states| == |todo| + 1
    requires forall j :: 0 <= j < |todo| ==> Step(rule, states[j], todo[j], len) == Some(states[j + 1])
    ensures MixFrom(rule, states[0], todo, len) == Some(states[|todo|])
    decreases |todo|
  {
    if todo != [] {
      MixFromChain(rule, states[1..], todo[1..], len);
    }
  }

  /** The states of the example after each of its moves. */
  function SampleStates(): seq<seq<Entry>>
  {
    [
      [Entry(0, 1), Entry(1, 2), Entry(2, -3), Entry(3, 3), Entry(4, -2), Entry(5, 0), Entry(6, 4)],
      [Entry(1, 2), Entry(0, 1), Entry(2, -3), Entry(3, 3), Entry(4, -2), Entry(5, 0), Entry(6, 4)],
      [Entry(0, 1), Entry(2, -3), Entry(1, 2), Entry(3, 3), Entry(4, -2), Entry(5, 0), Entry(6, 4)],
      [Entry(0, 1), Entry(1, 2), Entry(3, 3), Entry(4, -2), Entry(2, -3), Entry(5, 0), Entry(6, 4)],
      [Entry(0, 1), Entry(1, 2), Entry(4, -2), Entry(2, -3), Entry(5, 0), Entry(3, 3), Entry(6, 4)],
      [Entry(0, 1), Entry(1, 2), Entry(2, -3), Entry(5, 0), Entry(3, 3), Entry(6, 4), Entry(4, -2)],
      [Entry(0, 1), Entry(1, 2), Entry(2, -3), Entry(5, 0), Entry(3, 3), Entry(6, 4), Entry(4, -2)],
      [Entry(0, 1), Entry(1, 2), Entry(2, -3), Entry(6, 4), Entry(5, 0), Entry(3, 3), Entry(4, -2)]
    ]
  }

  /**
   * Each move of the example takes one state to the next, under either rule:
   * no move of the example goes round the list.
   */
  lemma SampleSteps(rule: Wrap)
    ensures forall j :: 0 <= j < 7 ==>
      Step(rule, SampleStates()[j], SampleStates()[0][j], 7) == Some(SampleStates()[j + 1])
  {
    forall j | 0 <= j < 7
      ensures Step(rule, SampleStates()[j], SampleStates()[0][j], 7) == Some(SampleStates()[j + 1])
    {
      if j == 0 { SampleMove1(rule); }
      else if j == 1 { SampleMove2(rule); }
      else if j == 2 { SampleMove3(rule); }
      else if j == 3 { SampleMove4(rule); }
      else if j == 4 { SampleMove5(rule); }
      else if j == 5 { SampleMove6(rule); }
      else { SampleMove7(rule); }
    }
  }

  /**
   * The example mixes to `1, 2, -3, 4, 0, 3, -2`, as the test of `mix_list`
   * expects, both as the code is written and under the corrected rule.
   */
  lemma SampleMix()
    ensures Mix(AsWritten, Sample()) == Some([1, 2, -3, 4, 0, 3, -2])
    ensures Mix(Corrected, Sample()) == Some([1, 2, -3, 4, 0, 3, -2])
  {
    var states := SampleStates();
    SampleSteps(AsWritten);
    SampleSteps(Corrected);
    MixFromChain(AsWritten, states, states[0], 7);
    MixFromChain(Corrected, states, states[0], 7);
    SampleEnumerated();
    SampleValues();
  }

  /** `5, 0, 1` tagged with the original indices, and the values of its two mixes. */
  lemma OvershootValues()
    ensures Enumerate([5, 0, 1]) == [Entry(0, 5), Entry(1, 0), Entry(2, 1)]
    ensures Values([Entry(0, 5), Entry(2, 1), Entry(1, 0)]) == [5, 1, 0]
    ensures Values([Entry(0, 5), Entry(1, 0), Entry(2, 1)]) == [5, 0, 1]
  {
  }

  /** The states of `5, 0, 1` under the rule as written after each move. */
  function AsWrittenExampleStates(): seq<seq<Entry>>
  {
    [[Entry(0, 5), Entry(1, 0), Entry(2, 1)], [Entry(0, 5), Entry(1, 0), Entry(2, 1)], [Entry(0, 5), Entry(1, 0), Entry(2, 1)], [Entry(0, 5), Entry(2, 1), Entry(1, 0)]]
  }

  /** Each move of `5, 0, 1` under the rule as written takes one state to the next. */
  lemma AsWrittenExampleSteps()
    ensures forall j :: 0 <= j < 3 ==>
      Step(AsWritten, AsWrittenExampleStates()[j], AsWrittenExampleStates()[0][j], 3) == Some(AsWrittenExampleStates()[j + 1])
  {
    var s := AsWrittenExampleStates();
    forall j | 0 <= j < 3
      ensures Step(AsWritten, s[j], s[0][j], 3) == Some(s[j + 1])
    {
      if j == 0 {
        assert IndexOf(s[0], 0) == 0;
        assert Remove(s[0], 0) == [Entry(1, 0), Entry(2, 1)];
        assert NewIndex(AsWritten, 5, 0, 3) == 0;
        assert Move(s[0], 0, 0) == s[1];
      } else if j == 1 {
        assert IndexOf(s[1], 1) == 1;
        assert Remove(s[1], 1) == [Entry(0, 5), Entry(2, 1)];
        assert NewIndex(AsWritten, 0, 1, 3) == 1;
        assert Move(s[1], 1, 1) == s[2];
      } else {
        assert IndexOf(s[2], 2) == 2;
        assert Remove(s[2], 2) == [Entry(0, 5), Entry(1, 0)];
        assert NewIndex(AsWritten, 1, 2, 3) == 1;
        assert Move(s[2], 2, 1) == s[3];
      }
    }
  }

  /** The states of `5, 0, 1` under the corrected rule after each move. */
  function CorrectedExampleStates(): seq<seq<Entry>>
  {
    [[Entry(0, 5), Entry(1, 0), Entry(2, 1)], [Entry(1, 0), Entry(0, 5), Entry(2, 1)], [Entry(0, 5), Entry(2, 1), Entry(1, 0)], [Entry(0, 5), Entry(1, 0), Entry(2, 1)]]
  }

  /** Each move of `5, 0, 1` under the corrected rule takes one state to the next. */
  lemma CorrectedExampleSteps()
    ensures forall j :: 0 <= j < 3 ==>
      Step(Corrected, CorrectedExampleStates()[j], CorrectedExampleStates()[0][j], 3) == Some(CorrectedExampleStates()[j + 1])
  {
    var s := CorrectedExampleStates();
    forall j | 0 <= j < 3
      ensures Step(Corrected, s[j], s[0][j], 3) == Some(s[j + 1])
    {
      if j == 0 {
        assert IndexOf(s[0], 0) == 0;
        assert Remove(s[0], 0) == [Entry(1, 0), Entry(2, 1)];
        assert NewIndex(Corrected, 5, 0, 3) == 1;
        assert Move(s[0], 0, 1) == s[1];
      } else if j == 1 {
        assert IndexOf(s[1], 1) == 0;
        assert Remove(s[1], 0) == [Entry(0, 5), Entry(2, 1)];
        assert NewIndex(Corrected, 0, 0, 3) == 2;
        assert Move(s[1], 0, 2) == s[2];
      } else {
        assert IndexOf(s[2], 2) == 1;
        assert Remove(s[2], 1) == [Entry(0, 5), Entry(1, 0)];
        assert NewIndex(Corrected, 1, 1, 3) == 2;
        assert Move(s[2], 1, 2) == s[3];
      }
    }
  }

  /**
   * The rule as written, on `5, 0, 1`: the 5 is moved 5 places among 2 others,
   * which is two laps and one place, but `(0 + 5 + 1) % 3 == 0` puts it back where
   * it was. The circular order ends as 5, 1, 0.
   */
  lemma AsWrittenOvershoots()
    ensures Mix(AsWritten, [5, 0, 1]) == Some([5, 1, 0])
  {
    var s := AsWrittenExampleStates();
    AsWrittenExampleSteps();
    MixFromChain(AsWritten, s, s[0], 3);
    OvershootValues();
  }

  /** The corrected rule on `5, 0, 1` ends in the circular order 5, 0, 1. */
  lemma CorrectedMixesOvershootExample()
    ensures Mix(Corrected, [5, 0, 1]) == Some([5, 0, 1])
  {
    var s := CorrectedExampleStates();
    CorrectedExampleSteps();
    MixFromChain(Corrected, s, s[0], 3);
    OvershootValues();
  }

  /**
   * `mix_list`, with the corrected wrapping rule (the rule as written is the
   * `AsWritten` case of `NewIndex`).
   */
  method MixList(list: seq<int>) returns (r: seq<int>)
    ensures Mix(Corrected, list) == Some(r)
    ensures |r| == |list| && multiset(r) == multiset(list)
  {
    MixPermutes(Corrected, list);
    if list == [] {
      return [];
    }
    var original := Enumerate(list);
    var state := original;
    var len := |list|;
    for i := 0 to |original|
      invariant |state| == len && multiset(state) == multiset(original)
      invariant MixFrom(Corrected, state, original[i..], len) == MixFrom(Corrected, original, original, len)
    {
      var id, offset := original[i].id, original[i].value;
      assert original[i] in multiset(state) by {
        assert original[i] in multiset(original);
      }
      StepSucceeds(Corrected, state, original[i], len);
      StepPermutes(Corrected, state, original[i], len);
      var idx := IndexOf(state, id);
      var element := state[idx];
      state := state[..idx] + state[idx + 1..];
      var newIndex := NewIndex(Corrected, offset, idx, len);
      state := state[..newIndex] + [element] + state[newIndex..];
      assert original[i..][1..] == original[i + 1..];
    }
    r := Values(state);
  }
}
