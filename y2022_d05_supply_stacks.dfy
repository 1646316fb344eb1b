// Crane instructions on nine stacks of crates (2022, day 5).
//
// The stacks are a fixed array of nine vectors, each listed bottom to top. An
// instruction names its source and destination stacks 1-based. The CrateMover 9000
// (`Perform`) lifts one crate at a time, so a block lands reversed; the CrateMover
// 9001 (`PerformTogether`) lifts the whole block at once and keeps its order.

module SupplyStacks {

  /** A crane instruction: move `num` crates from stack `source` to stack `dest` (1-based). */
  datatype Instruction = Instruction(source: nat, dest: nat, num: nat)

  const StackCount: nat := 9

  function Reverse<T>(s: seq<T>): (r: seq<T>)
    ensures |r| == |s|
  {
    if s == [] then [] else Reverse(s[1..]) + [s[0]]
  }

  lemma {:induction false} ReverseAt<T>(s: seq<T>)
    ensures forall i :: 0 <= i < |s| ==> Reverse(s)[i] == s[|s| - 1 - i]
  {
    if s != [] {
      ReverseAt(s[1..]);
    }
  }

  /** Both stack numbers are in `1..=9`. */
  predicate ValidStacks(inst: Instruction)
  {
    1 <= inst.source <= StackCount && 1 <= inst.dest <= StackCount
  }

  /**
   * The one-at-a-time crane runs without panicking: nothing happens at all for
   * `num == 0`; otherwise both indices must be valid and each `pop().unwrap()` must find
   * a crate. Moving a stack onto itself puts every crate straight back, so one crate
   * is enough then.
   */
  predicate CanPerform(st: seq<seq<char>>, inst: Instruction)
    requires |st| == StackCount
  {
    inst.num == 0 ||
    (ValidStacks(inst) &&
     |st[inst.source - 1]| >= (if inst.source == inst.dest then 1 else inst.num))
  }

  /** The block crane pops all `num` crates before pushing any, so it needs all of them. */
  predicate CanPerformTogether(st: seq<seq<char>>, inst: Instruction)
    requires |st| == StackCount
  {
    inst.num == 0 || (ValidStacks(inst) && |st[inst.source - 1]| >= inst.num)
  }

  /** The top `n` crates of a stack, bottom to top. */
  function Top(s: seq<char>, n: nat): seq<char>
    requires n <= |s|
  {
    s[|s| - n..]
  }

  /** The stack without its top `n` crates. */
  function Rest(s: seq<char>, n: nat): seq<char>
    requires n <= |s|
  {
    s[..|s| - n]
  }

  /**
   * The stacks after moving the top `num` crates of `source` onto `dest`, with the
   * block landing as `arrange` leaves it. Moving a stack onto itself changes nothing.
   */
  function MoveBlock(st: seq<seq<char>>, inst: Instruction, reversed: bool): (r: seq<seq<char>>)
    requires |st| == StackCount && ValidStacks(inst) && inst.num <= |st[inst.source - 1]|
    ensures |r| == StackCount
  {
    if inst.source == inst.dest then st
    else
      var s, d := inst.source - 1, inst.dest - 1;
      var block := Top(st[s], inst.num);
      st[s := Rest(st[s], inst.num)][d := st[d] + (if reversed then Reverse(block) else block)]
  }

  /** What the one-at-a-time crane leaves: the block of `num` crates lands reversed. */
  function Performed(st: seq<seq<char>>, inst: Instruction): (r: seq<seq<char>>)
    requires |st| == StackCount && CanPerform(st, inst)
    ensures |r| == StackCount
  {
    if inst.num == 0 then st
    else if inst.source == inst.dest then st
    else MoveBlock(st, inst, true)
  }

  /** What the block crane leaves: the block of `num` crates keeps its order. */
  function PerformedTogether(st: seq<seq<char>>, inst: Instruction): (r: seq<seq<char>>)
    requires |st| == StackCount && CanPerformTogether(st, inst)
    ensures |r| == StackCount
  {
    if inst.num == 0 then st else MoveBlock(st, inst, false)
  }

  /** One pop from stack `s` and one push of that crate onto stack `d`. */
  method MoveCrate(stacks: array<seq<char>>, s: nat, d: nat) returns (panicked: bool)
    requires stacks.Length == StackCount && s < StackCount && d < StackCount
    modifies stacks
    ensures panicked <==> |old(stacks[s])| == 0
    ensures !panicked && s == d ==> stacks[..] == old(stacks[..])
    ensures !panicked && s != d ==>
              && stacks[s] == Rest(old(stacks[s]), 1)
              && stacks[d] == old(stacks[d]) + Top(old(stacks[s]), 1)
              && forall k :: 0 <= k < StackCount && k != s && k != d ==> stacks[k] == old(stacks[k])
  {
    var src := stacks[s];
    if |src| == 0 {
      return true;
    }
    var c := src[|src| - 1];
    assert Rest(src, 1) == src[..|src| - 1] && Top(src, 1) == [c];
    stacks[s] := src[..|src| - 1];
    stacks[d] := stacks[d] + [c];
    if s == d {
      assert src[..|src| - 1] + [c] == src;
      assert stacks[..] == old(stacks[..]);
    }
    return false;
  }

  /** Taking one more crate off the top extends the reversed block by that crate. */
  lemma TopStep(src: seq<char>, i: nat)
    requires i < |src|
    ensures Rest(src, i + 1) == Rest(Rest(src, i), 1)
    ensures Reverse(Top(src, i + 1)) == Reverse(Top(src, i)) + Top(Rest(src, i), 1)
  {
    var c := src[|src| - 1 - i];
    assert Top(src, i + 1) == [c] + Top(src, i);
    assert Top(Rest(src, i), 1) == [c];
    ReverseAppend([c], Top(src, i));
    assert Reverse([c]) == [c];
  }

  /**
   * `Instruction::perform`: pop from the source and push onto the destination, `num`
   * times. `panicked` reports an index outside the array or the `unwrap` on an empty
   * stack; what a panicking run leaves behind is not described.
   */
  method Perform(inst: Instruction, stacks: array<seq<char>>) returns (panicked: bool)
    requires stacks.Length == StackCount
    modifies stacks
    ensures panicked <==> !CanPerform(old(stacks[..]), inst)
    ensures !panicked ==> stacks[..] == Performed(old(stacks[..]), inst)
  {
    if inst.num == 0 {
      return false;
    }
    if !ValidStacks(inst) {
      return true;
    }
    var s, d := inst.source - 1, inst.dest - 1;
    if s == d {
      panicked := MoveCratesInPlace(stacks, s, inst.num);
    } else {
      panicked := MoveCrates(stacks, s, d, inst.num);
    }
  }

  /** The loop of `perform` when source and destination coincide: each crate goes straight back. */
  method MoveCratesInPlace(stacks: array<seq<char>>, s: nat, num: nat) returns (panicked: bool)
    requires stacks.Length == StackCount && s < StackCount && num > 0
    modifies stacks
    ensures panicked <==> |old(stacks[s])| == 0
    ensures !panicked ==> stacks[..] == old(stacks[..])
  {
    for i := 0 to num
      invariant stacks[..] == old(stacks[..])
      invariant i > 0 ==> |stacks[s]| > 0
    {
      panicked := MoveCrate(stacks, s, s);
      if panicked {
        return;
      }
    }
    return false;
  }

  /** The loop of `perform` for distinct stacks: `num` single-crate moves. */
  method MoveCrates(stacks: array<seq<char>>, s: nat, d: nat, num: nat) returns (panicked: bool)
    requires stacks.Length == StackCount && s < StackCount && d < StackCount && s != d
    modifies stacks
    ensures panicked <==> |old(stacks[s])| < num
    ensures !panicked ==> stacks[..] == MoveBlock(old(stacks[..]), Instruction(s + 1, d + 1, num), true)
  {
    ghost var st := stacks[..];
    assert Rest(st[s], 0) == st[s] && Reverse(Top(st[s], 0)) == [] && st[d] + [] == st[d];
    var i := 0;
    while i < num
      invariant 0 <= i <= num && i <= |st[s]|
      invariant stacks[s] == Rest(st[s], i) && stacks[d] == st[d] + Reverse(Top(st[s], i))
      invariant forall k :: 0 <= k < StackCount && k != s && k != d ==> stacks[k] == st[k]
    {
      panicked := MoveCrate(stacks, s, d);
      if panicked {
        return;
      }
      TopStep(st[s], i);
      i := i + 1;
    }
    ghost var m := MoveBlock(st, Instruction(s + 1, d + 1, num), true);
    forall k | 0 <= k < StackCount ensures stacks[k] == m[k] {
    }
    assert stacks[..] == m;
    return false;
  }

  /** The buffer of `perform_together` after `i` pops: the top `i` crates, topmost first. */
  method PopBlock(stacks: array<seq<char>>, s: nat, num: nat) returns (v: seq<char>, panicked: bool)
    requires stacks.Length == StackCount && s < StackCount
    modifies stacks
    ensures panicked <==> |old(stacks[s])| < num
    ensures !panicked ==> v == Reverse(Top(old(stacks[s]), num)) &&
                          stacks[..] == old(stacks[..])[s := Rest(old(stacks[s]), num)]
  {
    ghost var src0 := stacks[s];
    if |stacks[s]| < num {
      return [], true;
    }
    v := [];
    var i := 0;
    assert Rest(src0, 0) == src0;
    assert old(stacks[..])[s := src0] == old(stacks[..]);
    while i < num
      invariant 0 <= i <= num <= |src0|
      invariant v == Reverse(Top(src0, i))
      invariant stacks[..] == old(stacks[..])[s := Rest(src0, i)]
    {
      var src := stacks[s];
      var c := src[|src| - 1];
      v := v + [c];
      stacks[s] := src[..|src| - 1];
      assert Top(src0, i + 1) == [c] + Top(src0, i);
      ReverseAppend([c], Top(src0, i));
      assert Rest(src0, i + 1) == src[..|src| - 1];
      i := i + 1;
    }
    return v, false;
  }

  /** Pushes `v` onto stack `d`, first element first. */
  method PushAll(stacks: array<seq<char>>, d: nat, v: seq<char>)
    requires stacks.Length == StackCount && d < StackCount
    modifies stacks
    ensures stacks[..] == old(stacks[..])[d := old(stacks[d]) + v]
  {
    for j := 0 to |v|
      invariant stacks[d] == old(stacks[d]) + v[..j]
      invariant forall k :: 0 <= k < StackCount && k != d ==> stacks[k] == old(stacks[k])
    {
      assert v[..j + 1] == v[..j] + [v[j]];
      stacks[d] := stacks[d] + [v[j]];
    }
    assert v[..|v|] == v;
    assert stacks[..] == old(stacks[..])[d := old(stacks[d]) + v];
  }

  /**
   * `Instruction::perform_together`: pop `num` crates into a buffer, reverse it, and
   * push the buffer onto the destination, so the block keeps its order.
   */
  method PerformTogether(inst: Instruction, stacks: array<seq<char>>) returns (panicked: bool)
    requires stacks.Length == StackCount
    modifies stacks
    ensures panicked <==> !CanPerformTogether(old(stacks[..]), inst)
    ensures !panicked ==> stacks[..] == PerformedTogether(old(stacks[..]), inst)
  {
    if inst.num == 0 {
      return false;
    }
    if !ValidStacks(inst) {
      return true;
    }
    ghost var st := stacks[..];
    var s, d := inst.source - 1, inst.dest - 1;
    var v;
    v, panicked := PopBlock(stacks, s, inst.num);
    if panicked {
      return;
    }
    ReverseReverse(Top(st[s], inst.num));
    v := Reverse(v);
    PushAll(stacks, d, v);
    if s == d {
      assert Rest(st[s], inst.num) + Top(st[s], inst.num) == st[s];
      assert stacks[..] == st;
    }
  }

  lemma {:induction false} ReverseReverse<T>(s: seq<T>)
    ensures Reverse(Reverse(s)) == s
  {
    if s != [] {
      ReverseReverse(s[1..]);
      ReverseAppend(Reverse(s[1..]), [s[0]]);
    }
  }

  lemma ReverseAppend<T>(a: seq<T>, b: seq<T>)
    ensures Reverse(a + b) == Reverse(b) + Reverse(a)
  {
    var r, q := Reverse(a + b), Reverse(b) + Reverse(a);
    ReverseAt(a + b);
    ReverseAt(a);
    ReverseAt(b);
    assert |r| == |q|;
    forall i | 0 <= i < |r| ensures r[i] == q[i] {
    }
  }

  /** The number of crates on all stacks together. */
  function TotalCrates(st: seq<seq<char>>): nat
  {
    if st == [] then 0 else TotalCrates(st[..|st| - 1]) + |st[|st| - 1]|
  }

  lemma {:induction false} TotalCratesUpdate(st: seq<seq<char>>, k: nat, s: seq<char>)
    requires k < |st|
    ensures TotalCrates(st[k := s]) + |st[k]| == TotalCrates(st) + |s|
    decreases |st|
  {
    var n := |st| - 1;
    assert st[k := s][..n] == if k < n then st[..n][k := s] else st[..n];
    if k < n {
      TotalCratesUpdate(st[..n], k, s);
    }
  }

  /** A block move keeps every crate: the total count is unchanged. */
  lemma MoveBlockKeepsCrates(st: seq<seq<char>>, inst: Instruction, reversed: bool)
    requires |st| == StackCount && ValidStacks(inst) && inst.num <= |st[inst.source - 1]|
    ensures TotalCrates(MoveBlock(st, inst, reversed)) == TotalCrates(st)
  {
    if inst.source != inst.dest {
      var s, d := inst.source - 1, inst.dest - 1;
      var block := Top(st[s], inst.num);
      var t := st[s := Rest(st[s], inst.num)];
      TotalCratesUpdate(st, s, Rest(st[s], inst.num));
      TotalCratesUpdate(t, d, t[d] + (if reversed then Reverse(block) else block));
    }
  }

  /** Both cranes keep the total number of crates. */
  lemma PerformKeepsCrates(st: seq<seq<char>>, inst: Instruction)
    requires |st| == StackCount
    ensures CanPerform(st, inst) ==> TotalCrates(Performed(st, inst)) == TotalCrates(st)
    ensures CanPerformTogether(st, inst) ==> TotalCrates(PerformedTogether(st, inst)) == TotalCrates(st)
  {
    if inst.num > 0 && CanPerform(st, inst) && inst.source != inst.dest {
      MoveBlockKeepsCrates(st, inst, true);
    }
    if inst.num > 0 && CanPerformTogether(st, inst) {
      MoveBlockKeepsCrates(st, inst, false);
    }
  }

  /**
   * The effect on each stack: the source loses its top `num` crates, the destination
   * gains them on top, reversed by the one-at-a-time crane and in order by the block
   * crane, and every other stack is untouched.
   */
  lemma PerformEffect(st: seq<seq<char>>, inst: Instruction, k: nat)
    requires |st| == StackCount && ValidStacks(inst) && inst.source != inst.dest
    requires inst.num <= |st[inst.source - 1]| && k < StackCount
    ensures var s := st[inst.source - 1]; var block := Top(s, inst.num);
            && Performed(st, inst)[k] ==
                 (if k == inst.source - 1 then Rest(s, inst.num)
                  else if k == inst.dest - 1 then st[k] + Reverse(block)
                  else st[k])
            && PerformedTogether(st, inst)[k] ==
                 (if k == inst.source - 1 then Rest(s, inst.num)
                  else if k == inst.dest - 1 then st[k] + block
                  else st[k])
  {
  }

  /** The two cranes differ only in the order of the moved block on the destination. */
  lemma CranesDifferByReversal(st: seq<seq<char>>, inst: Instruction)
    requires |st| == StackCount && ValidStacks(inst) && inst.num <= |st[inst.source - 1]|
    ensures CanPerform(st, inst) && CanPerformTogether(st, inst)
    ensures inst.num <= 1 ==> Performed(st, inst) == PerformedTogether(st, inst)
  {
    if inst.num == 1 && inst.source != inst.dest {
      var s := st[inst.source - 1];
      assert Reverse(Top(s, 1)) == Top(s, 1);
    }
  }
}
