// Monkeys throwing items by worry level (2022, day 11).
//
// Each monkey holds a queue of item worry levels. On its turn a monkey inspects
// its items front to back: it applies its operation to the worry level, then
// either divides by 3 (part 1) or reduces modulo the product of all moduli
// (part 2), and throws the item to the back of one of two other monkeys' queues
// depending on whether the new level is divisible by its test modulus.

module MonkeyInTheMiddle {
  import opened Wrappers

  /** `MAGIC_NUMBER`: the product of every modulus that occurs in the inputs. */
  const MagicNumber: nat := 2 * 3 * 5 * 7 * 11 * 13 * 17 * 19 * 23

  datatype Operator = Plus | Times

  /** `new = left op right`, where a missing operand stands for the old level. */
  datatype MonkeyOperation = MonkeyOperation(left: Option<nat>, operator: Operator, right: Option<nat>)

  datatype MonkeyTest = MonkeyTest(modulus: nat, ifTrue: nat, ifFalse: nat)

  datatype Monkey = Monkey(items: seq<nat>, operation: MonkeyOperation, test: MonkeyTest, inspectCounter: nat)

  /** `MonkeyOperation::apply`: substitute the old level for each missing operand, then add or multiply. */
  function Apply(op: MonkeyOperation, level: nat): (r: nat)
    ensures op.left.None? && op.right.None? ==> r == if op.operator == Plus then 2 * level else level * level
    ensures op.left.Some? && op.right.None? ==>
              r == if op.operator == Plus then op.left.value + level else op.left.value * level
  {
    match op.operator
    case Plus => Operand(op.left, level) + Operand(op.right, level)
    case Times => Operand(op.left, level) * Operand(op.right, level)
  }

  /** An operand: the constant when there is one, the old level otherwise. */
  function Operand(o: Option<nat>, level: nat): nat
  {
    if o.Some? then o.value else level
  }

  lemma ModShift(r: int, q: int, m: int)
    requires m > 0
    ensures (q * m + r) % m == r % m
  {
    var k, s := r / m, r % m;
    assert r == k * m + s;
    assert q * m + r == (q + k) * m + s;
    ModUnique(q * m + r, m, q + k, s);
  }

  lemma ModAdd(a: int, b: int, m: int)
    requires m > 0
    ensures (a + b) % m == (a % m + b % m) % m
  {
    var qa, qb := a / m, b / m;
    assert a + b == (qa + qb) * m + (a % m + b % m);
    ModShift(a % m + b % m, qa + qb, m);
  }

  lemma ModMul(a: int, b: int, m: int)
    requires m > 0
    ensures (a * b) % m == ((a % m) * (b % m)) % m
  {
    var qa, qb, ra, rb := a / m, b / m, a % m, b % m;
    assert a == qa * m + ra && b == qb * m + rb;
    var q := qa * qb * m + qa * rb + ra * qb;
    assert a * b == q * m + ra * rb by {
      var bb := qb * m + rb;
      assert a * b == (qa * m) * bb + ra * bb;
      assert (qa * m) * bb == (qa * qb * m) * m + (qa * rb) * m;
      assert ra * bb == (ra * qb) * m + ra * rb;
      assert q * m == (qa * qb * m) * m + (qa * rb) * m + (ra * qb) * m;
    }
    ModShift(ra * rb, q, m);
  }

  /**
   * Reducing the old level modulo `m` before the operation does not change the new
   * level modulo `m`: why part 2 may keep every level below `MAGIC_NUMBER`.
   */
  lemma ApplyMod(op: MonkeyOperation, x: nat, m: nat)
    requires m > 0
    ensures Apply(op, x % m) % m == Apply(op, x) % m
  {
    OperandMod(op.left, x, m);
    OperandMod(op.right, x, m);
    var l, r := Operand(op.left, x), Operand(op.right, x);
    var l', r' := Operand(op.left, x % m), Operand(op.right, x % m);
    if op.operator == Plus {
      CongruentSum(l, r, l', r', m);
    } else {
      CongruentProduct(l, r, l', r', m);
    }
  }

  lemma OperandMod(o: Option<nat>, x: nat, m: nat)
    requires m > 0
    ensures Operand(o, x % m) % m == Operand(o, x) % m
  {
    if o.None? {
      ModShift(x % m, 0, m);
    }
  }

  lemma CongruentSum(a: int, b: int, a': int, b': int, m: int)
    requires m > 0 && a % m == a' % m && b % m == b' % m
    ensures (a + b) % m == (a' + b') % m
  {
    ModAdd(a, b, m);
    ModAdd(a', b', m);
  }

  lemma CongruentProduct(a: int, b: int, a': int, b': int, m: int)
    requires m > 0 && a % m == a' % m && b % m == b' % m
    ensures (a * b) % m == (a' * b') % m
  {
    ModMul(a, b, m);
    ModMul(a', b', m);
  }

  /** A level reduced modulo a multiple of `m` keeps its remainder modulo `m`. */
  lemma ModOfMultiple(x: int, m: int, k: int)
    requires m > 0 && k > 0
    ensures (x % (m * k)) % m == x % m
  {
    var q := x / (m * k);
    assert x == q * (m * k) + x % (m * k);
    assert q * (m * k) == (q * k) * m;
    ModShift(x % (m * k), q * k, m);
  }

  /** `MonkeyTest::get_result`: the first target exactly when the level is divisible by the modulus. */
  function GetResult(test: MonkeyTest, num: nat): (dest: nat)
    requires test.modulus > 0
    ensures num % test.modulus == 0 ==> dest == test.ifTrue
    ensures num % test.modulus != 0 ==> dest == test.ifFalse
  {
    if num % test.modulus == 0 then test.ifTrue else test.ifFalse
  }

  /** For a modulus that divides `MAGIC_NUMBER`, reducing modulo it never changes where an item goes. */
  lemma ReductionKeepsTarget(test: MonkeyTest, x: nat, k: nat)
    requires test.modulus > 0 && k > 0 && test.modulus * k == MagicNumber
    ensures GetResult(test, x % MagicNumber) == GetResult(test, x)
  {
    ModOfMultiple(x, test.modulus, k);
  }

  /** The new worry level of an inspected item. */
  function Worry(op: MonkeyOperation, item: nat, divideWorryLevel: bool): nat
  {
    if divideWorryLevel then Apply(op, item) / 3
    else Apply(op, item % MagicNumber) % MagicNumber
  }

  /**
   * In part 2 the level an item is thrown with has the same remainder modulo any
   * divisor of `MAGIC_NUMBER` as the unreduced level would have.
   */
  lemma ReducedWorryKeepsTarget(op: MonkeyOperation, test: MonkeyTest, item: nat, k: nat)
    requires test.modulus > 0 && k > 0 && test.modulus * k == MagicNumber
    ensures GetResult(test, Worry(op, item, false)) == GetResult(test, Apply(op, item))
  {
    ApplyMod(op, item, MagicNumber);
    ReductionKeepsTarget(test, Apply(op, item % MagicNumber), k);
    ReductionKeepsTarget(test, Apply(op, item), k);
  }

  /**
   * `Monkey::inspect_and_throw`: nothing for an empty queue; otherwise the front
   * item leaves the queue, the counter rises by one, and the item's new level goes
   * to the target its test picks. Returns the updated monkey and the throw.
   */
  function InspectAndThrow(m: Monkey, divideWorryLevel: bool): (r: (Monkey, Option<(nat, nat)>))
    requires m.test.modulus > 0
    ensures m.items == [] <==> r.1.None?
    ensures m.items == [] ==> r.0 == m
    ensures m.items != [] ==>
              r.0 == m.(items := m.items[1..], inspectCounter := m.inspectCounter + 1) &&
              r.1.value.0 == Worry(m.operation, m.items[0], divideWorryLevel) &&
              r.1.value.1 == GetResult(m.test, r.1.value.0)
  {
    if m.items == [] then (m, None)
    else
      var item := Worry(m.operation, m.items[0], divideWorryLevel);
      (m.(items := m.items[1..], inspectCounter := m.inspectCounter + 1), Some((item, GetResult(m.test, item))))
  }

  /** Every test divides by a positive modulus and throws to another monkey of the group. */
  ghost predicate ValidGroup(ms: seq<Monkey>)
  {
    forall i :: 0 <= i < |ms| ==>
      ms[i].test.modulus > 0 &&
      ms[i].test.ifTrue < |ms| && ms[i].test.ifTrue != i &&
      ms[i].test.ifFalse < |ms| && ms[i].test.ifFalse != i
  }

  /** The same monkeys with the same operations and tests, whatever their queues and counters. */
  ghost predicate SameRules(a: seq<Monkey>, b: seq<Monkey>)
  {
    |a| == |b| && forall j :: 0 <= j < |a| ==> a[j].operation == b[j].operation && a[j].test == b[j].test
  }

  lemma SameRulesValid(a: seq<Monkey>, b: seq<Monkey>)
    requires ValidGroup(a) && SameRules(a, b)
    ensures ValidGroup(b)
  {
  }

  /** One throw of `do_turn`: the front item of monkey `idx` lands at the back of its target's queue. */
  function Throw(ms: seq<Monkey>, idx: nat, divideWorryLevel: bool): (r: seq<Monkey>)
    requires ValidGroup(ms) && idx < |ms| && ms[idx].items != []
    ensures SameRules(ms, r)
  {
    var (m, thrown) := InspectAndThrow(ms[idx], divideWorryLevel);
    var (item, dest) := thrown.value;
    ms[idx := m][dest := ms[dest].(items := ms[dest].items + [item])]
  }

  /** `do_turn`: throw until monkey `idx` holds nothing. */
  function Turn(ms: seq<Monkey>, idx: nat, divideWorryLevel: bool): (r: seq<Monkey>)
    requires ValidGroup(ms) && idx < |ms|
    ensures SameRules(ms, r)
    decreases |ms[idx].items|
  {
    if ms[idx].items == [] then ms
    else
      var next := Throw(ms, idx, divideWorryLevel);
      SameRulesValid(ms, next);
      Turn(next, idx, divideWorryLevel)
  }

  /** `do_round`: every monkey takes its turn, in order, from monkey `from` on. */
  function Turns(ms: seq<Monkey>, from: nat, divideWorryLevel: bool): (r: seq<Monkey>)
    requires ValidGroup(ms) && from <= |ms|
    ensures SameRules(ms, r)
    decreases |ms| - from
  {
    if from == |ms| then ms
    else
      var next := Turn(ms, from, divideWorryLevel);
      SameRulesValid(ms, next);
      Turns(next, from + 1, divideWorryLevel)
  }

  function Round(ms: seq<Monkey>, divideWorryLevel: bool): seq<Monkey>
    requires ValidGroup(ms)
  {
    Turns(ms, 0, divideWorryLevel)
  }

  /** The number of items held by the monkeys before `k`. */
  function ItemCount(ms: seq<Monkey>, k: nat): nat
    requires k <= |ms|
  {
    if k == 0 then 0 else ItemCount(ms, k - 1) + |ms[k - 1].items|
  }

  /** Changing one monkey's queue changes the item count by the change in its length. */
  lemma {:induction false} ItemCountUpdate(ms: seq<Monkey>, j: nat, m: Monkey, k: nat)
    requires j < |ms| && k <= |ms|
    ensures ItemCount(ms[j := m], k) + (if j < k then |ms[j].items| else 0) ==
            ItemCount(ms, k) + (if j < k then |m.items| else 0)
  {
    if k > 0 {
      ItemCountUpdate(ms, j, m, k - 1);
    }
  }

  /** A throw moves one item and loses none. */
  lemma ThrowKeepsItems(ms: seq<Monkey>, idx: nat, divideWorryLevel: bool)
    requires ValidGroup(ms) && idx < |ms| && ms[idx].items != []
    ensures ItemCount(Throw(ms, idx, divideWorryLevel), |ms|) == ItemCount(ms, |ms|)
  {
    var (m, thrown) := InspectAndThrow(ms[idx], divideWorryLevel);
    var dest := thrown.value.1;
    var ms1 := ms[idx := m];
    ItemCountUpdate(ms, idx, m, |ms|);
    ItemCountUpdate(ms1, dest, ms1[dest].(items := ms1[dest].items + [thrown.value.0]), |ms|);
  }

  /**
   * A turn empties the monkey whose turn it is, adds one inspection per item it
   * held, only appends to the other queues, and loses no item.
   */
  lemma {:induction false} TurnEffect(ms: seq<Monkey>, idx: nat, divideWorryLevel: bool)
    requires ValidGroup(ms) && idx < |ms|
    ensures Turn(ms, idx, divideWorryLevel)[idx].items == []
    ensures Turn(ms, idx, divideWorryLevel)[idx].inspectCounter == ms[idx].inspectCounter + |ms[idx].items|
    ensures forall j :: 0 <= j < |ms| && j != idx ==>
              ms[j].items <= Turn(ms, idx, divideWorryLevel)[j].items &&
              Turn(ms, idx, divideWorryLevel)[j].inspectCounter == ms[j].inspectCounter
    ensures ItemCount(Turn(ms, idx, divideWorryLevel), |ms|) == ItemCount(ms, |ms|)
    decreases |ms[idx].items|
  {
    if ms[idx].items != [] {
      var next := Throw(ms, idx, divideWorryLevel);
      SameRulesValid(ms, next);
      ThrowKeepsItems(ms, idx, divideWorryLevel);
      TurnEffect(next, idx, divideWorryLevel);
      forall j | 0 <= j < |ms| && j != idx
        ensures ms[j].items <= Turn(ms, idx, divideWorryLevel)[j].items
      {
        assert ms[j].items <= next[j].items;
      }
    }
  }

  /** A round loses no item. */
  lemma {:induction false} TurnsKeepItems(ms: seq<Monkey>, from: nat, divideWorryLevel: bool)
    requires ValidGroup(ms) && from <= |ms|
    ensures ItemCount(Turns(ms, from, divideWorryLevel), |ms|) == ItemCount(ms, |ms|)
    decreases |ms| - from
  {
    if from < |ms| {
      var next := Turn(ms, from, divideWorryLevel);
      SameRulesValid(ms, next);
      TurnEffect(ms, from, divideWorryLevel);
      TurnsKeepItems(next, from + 1, divideWorryLevel);
    }
  }

  function Counters(ms: seq<Monkey>): (c: seq<nat>)
    ensures |c| == |ms| && forall i :: 0 <= i < |ms| ==> c[i] == ms[i].inspectCounter
  {
    seq(|ms|, i requires 0 <= i < |ms| => ms[i].inspectCounter)
  }

  /**
   * Positions of the largest and of the second largest value of `s`: two different
   * positions, the first holding a maximum, the second a maximum of the rest.
   */
  function TopTwo(s: seq<nat>): (r: (nat, nat))
    requires |s| >= 2
    ensures r.0 < |s| && r.1 < |s| && r.0 != r.1
    ensures forall k :: 0 <= k < |s| ==> s[k] <= s[r.0]
    ensures forall k :: 0 <= k < |s| && k != r.0 ==> s[k] <= s[r.1]
  {
    if |s| == 2 then
      if s[0] >= s[1] then (0, 1) else (1, 0)
    else
      var n := |s| - 1;
      var (i, j) := TopTwo(s[..n]);
      assert forall k :: 0 <= k < n ==> s[..n][k] == s[k];
      if s[n] >= s[i] then (n, i)
      else if s[n] > s[j] then (i, n)
      else (i, j)
  }

  /**
   * `get_monkey_business`: sort the counters and multiply the two largest (the one
   * counter, or 1, when fewer than two monkeys exist).
   */
  function MonkeyBusiness(counters: seq<nat>): nat
  {
    if |counters| == 0 then 1
    else if |counters| == 1 then counters[0]
    else
      var (i, j) := TopTwo(counters);
      counters[i] * counters[j]
  }

  /**
   * `i` holds a largest counter, `j` a largest of the others, and `r` is their
   * product: what the sort and `take(2).product()` compute.
   */
  ghost predicate TopProduct(counters: seq<nat>, r: nat, i: nat, j: nat)
  {
    i < |counters| && j < |counters| && i != j &&
    r == counters[i] * counters[j] &&
    (forall k :: 0 <= k < |counters| ==> counters[k] <= counters[i]) &&
    (forall k :: 0 <= k < |counters| && k != i ==> counters[k] <= counters[j])
  }

  /** With two or more monkeys, the monkey business is the product of two top counters. */
  lemma MonkeyBusinessIsTopProduct(counters: seq<nat>)
    requires |counters| >= 2
    ensures exists i: nat, j: nat :: TopProduct(counters, MonkeyBusiness(counters), i, j)
  {
    var t := TopTwo(counters);
    assert TopProduct(counters, MonkeyBusiness(counters), t.0, t.1);
  }

  /** The four monkeys of the sample notes. */
  function SampleMonkeys(): seq<Monkey>
  {
    [Monkey([79, 98], MonkeyOperation(None, Times, Some(19)), MonkeyTest(23, 2, 3), 0),
     Monkey([54, 65, 75, 74], MonkeyOperation(None, Plus, Some(6)), MonkeyTest(19, 2, 0), 0),
     Monkey([79, 60, 97], MonkeyOperation(None, Times, None), MonkeyTest(13, 1, 3), 0),
     Monkey([74], MonkeyOperation(None, Plus, Some(3)), MonkeyTest(17, 0, 1), 0)]
  }

  lemma SampleValid()
    ensures ValidGroup(SampleMonkeys())
  {
  }

  /**
   * The first turn of the sample with division by 3: monkey 0 throws 79 as 500 and
   * 98 as 620, both to monkey 3.
   */
  lemma SampleFirstTurn()
    ensures ValidGroup(SampleMonkeys())
    ensures Turn(SampleMonkeys(), 0, true)[0].items == []
    ensures Turn(SampleMonkeys(), 0, true)[3].items == [74, 500, 620]
  {
    var ms := SampleMonkeys();
    SampleValid();
    assert Worry(ms[0].operation, 79, true) == 500;
    assert Worry(ms[0].operation, 98, true) == 620;
    var ms1 := Throw(ms, 0, true);
    assert ms1[3].items == [74, 500] && ms1[0].items == [98];
    var ms2 := Throw(ms1, 0, true);
    assert ms2[3].items == [74, 500, 620] && ms2[0].items == [];
  }

  class MonkeyGroup {
    var monkeys: seq<Monkey>

    constructor (monkeys: seq<Monkey>)
      ensures this.monkeys == monkeys
    {
      this.monkeys := monkeys;
    }

    /** `do_turn`: the `while let` loop of throws, with the thrown item pushed onto its target's queue. */
    method DoTurn(idx: nat, divideWorryLevel: bool)
      requires ValidGroup(monkeys) && idx < |monkeys|
      modifies this
      ensures ValidGroup(monkeys)
      ensures monkeys == Turn(old(monkeys), idx, divideWorryLevel)
    {
      while true
        invariant ValidGroup(monkeys) && SameRules(old(monkeys), monkeys)
        invariant Turn(monkeys, idx, divideWorryLevel) == Turn(old(monkeys), idx, divideWorryLevel)
        decreases |monkeys[idx].items|
      {
        var (m, thrown) := InspectAndThrow(monkeys[idx], divideWorryLevel);
        if thrown.None? {
          return;
        }
        var (item, dest) := thrown.value;
        ghost var before := monkeys;
        monkeys := monkeys[idx := m];
        monkeys := monkeys[dest := monkeys[dest].(items := monkeys[dest].items + [item])];
        assert monkeys == Throw(before, idx, divideWorryLevel);
        SameRulesValid(before, monkeys);
      }
    }

    /** `do_round`: each monkey's turn in index order. */
    method DoRound(divideWorryLevel: bool)
      requires ValidGroup(monkeys)
      modifies this
      ensures ValidGroup(monkeys)
      ensures monkeys == Round(old(monkeys), divideWorryLevel)
    {
      for i := 0 to |monkeys|
        invariant ValidGroup(monkeys) && SameRules(old(monkeys), monkeys)
        invariant Turns(monkeys, i, divideWorryLevel) == Round(old(monkeys), divideWorryLevel)
      {
        DoTurn(i, divideWorryLevel);
        SameRulesValid(old(monkeys), monkeys);
      }
    }

    /** `get_monkey_business`: the product of the two largest counters. */
    method GetMonkeyBusiness() returns (r: nat)
      ensures r == MonkeyBusiness(Counters(monkeys))
      ensures |monkeys| >= 2 ==> exists i: nat, j: nat :: TopProduct(Counters(monkeys), r, i, j)
    {
      r := MonkeyBusiness(Counters(monkeys));
      if |monkeys| >= 2 {
        MonkeyBusinessIsTopProduct(Counters(monkeys));
      }
    }
  }
}
