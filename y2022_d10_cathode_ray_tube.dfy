// A clock-driven CPU with one register that drives a CRT (2022, day 10).
//
// `noop` takes one cycle and `addx n` takes two, after which the register grows by
// `n`. During every cycle the CPU adds the signal strength (cycle times register)
// on cycles 20, 60, 100, ..., and the CRT draws one pixel, lit when the sprite
// (three pixels wide, centred on the register) covers the column being drawn.

module CathodeRayTube {

  datatype Instruction = Noop | Addx(n: int)

  /** The CPU's fields, as one value. */
  datatype CpuState = CpuState(register: int, currentCycle: nat, signalStrengthTotal: int, pixels: seq<bool>)

  /** `CPU::default`: register 1, first cycle, no signal and no pixels yet. */
  function Default(): (s: CpuState)
    ensures s.register == 1 && s.currentCycle == 1 && s.signalStrengthTotal == 0 && s.pixels == []
  {
    CpuState(1, 1, 0, [])
  }

  function Abs(x: int): nat
  {
    if x < 0 then -x else x
  }

  /** The pixel drawn during `cycle`: the column is `(cycle - 1) % 40`, lit when the sprite covers it. */
  predicate Lit(cycle: nat, register: int)
    requires cycle >= 1
  {
    Abs((cycle - 1) % 40 - register) <= 1
  }

  /** Whether the signal strength of `cycle` is added. */
  predicate SignalCycle(cycle: nat)
  {
    (cycle - 20) % 40 == 0
  }

  /** The tested cycles are 20, 60, 100, ...: 20 more than a multiple of 40. */
  lemma SignalCycles(cycle: nat)
    ensures SignalCycle(cycle) <==> cycle % 40 == 20
  {
    var q := (cycle - 20) / 40;
    assert cycle - 20 == q * 40 + (cycle - 20) % 40;
    assert cycle == (q + 1) * 40 + (cycle - 20) % 40 - 20;
  }

  /** `increment_current_cycle`: add the signal if due, draw one pixel, advance the clock. */
  function Tick(s: CpuState): (t: CpuState)
    requires s.currentCycle >= 1
  {
    var total := if SignalCycle(s.currentCycle) then s.signalStrengthTotal + s.register * s.currentCycle
                 else s.signalStrengthTotal;
    CpuState(s.register, s.currentCycle + 1, total, s.pixels + [Lit(s.currentCycle, s.register)])
  }

  /** `execute_instruction`: `noop` is one tick; `addx n` is two ticks and then the addition. */
  function Execute(s: CpuState, i: Instruction): CpuState
    requires s.currentCycle >= 1
  {
    match i
    case Noop => Tick(s)
    case Addx(n) => var t := Tick(Tick(s)); t.(register := t.register + n)
  }

  /** A program executed instruction by instruction, in order. */
  function Run(s: CpuState, program: seq<Instruction>): CpuState
    requires s.currentCycle >= 1
    decreases |program|
  {
    if program == [] then s else Run(Execute(s, program[0]), program[1..])
  }

  /** The register's value during each cycle of `program`, starting from `x`. */
  function Trace(program: seq<Instruction>, x: int): seq<int>
    decreases |program|
  {
    if program == [] then []
    else
      match program[0]
      case Noop => [x] + Trace(program[1..], x)
      case Addx(n) => [x, x] + Trace(program[1..], x + n)
  }

  /** The sum of the `addx` arguments. */
  function Added(program: seq<Instruction>): int
    decreases |program|
  {
    if program == [] then 0
    else (if program[0].Addx? then program[0].n else 0) + Added(program[1..])
  }

  /** The pixels drawn during the cycles from `cycle` on, with the register values `xs`. */
  function Pixels(cycle: nat, xs: seq<int>): (p: seq<bool>)
    requires cycle >= 1
    ensures |p| == |xs|
    decreases |xs|
  {
    if xs == [] then [] else [Lit(cycle, xs[0])] + Pixels(cycle + 1, xs[1..])
  }

  /** The signal strengths added during the cycles from `cycle` on. */
  function SignalSum(cycle: nat, xs: seq<int>): int
    decreases |xs|
  {
    if xs == [] then 0
    else (if SignalCycle(cycle) then xs[0] * cycle else 0) + SignalSum(cycle + 1, xs[1..])
  }

  lemma {:induction false} PixelsAt(cycle: nat, xs: seq<int>, k: nat)
    requires cycle >= 1 && k < |xs|
    ensures Pixels(cycle, xs)[k] == Lit(cycle + k, xs[k])
    decreases k
  {
    if k > 0 {
      PixelsAt(cycle + 1, xs[1..], k - 1);
    }
  }

  lemma {:induction false} PixelsAppend(cycle: nat, a: seq<int>, b: seq<int>)
    requires cycle >= 1
    ensures Pixels(cycle, a + b) == Pixels(cycle, a) + Pixels(cycle + |a|, b)
    decreases |a|
  {
    if a != [] {
      assert (a + b)[1..] == a[1..] + b;
      PixelsAppend(cycle + 1, a[1..], b);
    } else {
      assert a + b == b;
    }
  }

  lemma {:induction false} SignalSumAppend(cycle: nat, a: seq<int>, b: seq<int>)
    ensures SignalSum(cycle, a + b) == SignalSum(cycle, a) + SignalSum(cycle + |a|, b)
    decreases |a|
  {
    if a != [] {
      assert (a + b)[1..] == a[1..] + b;
      SignalSumAppend(cycle + 1, a[1..], b);
    } else {
      assert a + b == b;
    }
  }

  /**
   * `t` is where `program` takes `s`: the register grows by every `addx` argument,
   * the clock advances by one per traced cycle, and the signal total and the pixels
   * grow by those of the trace.
   */
  ghost predicate Follows(s: CpuState, program: seq<Instruction>, t: CpuState)
    requires s.currentCycle >= 1
  {
    var xs := Trace(program, s.register);
    t.register == s.register + Added(program) &&
    t.currentCycle == s.currentCycle + |xs| &&
    t.signalStrengthTotal == s.signalStrengthTotal + SignalSum(s.currentCycle, xs) &&
    t.pixels == s.pixels + Pixels(s.currentCycle, xs)
  }

  lemma {:induction false} AddedAppend(a: seq<Instruction>, b: seq<Instruction>)
    ensures Added(a + b) == Added(a) + Added(b)
    decreases |a|
  {
    if a == [] {
      assert a + b == b;
    } else {
      assert (a + b)[1..] == a[1..] + b;
      AddedAppend(a[1..], b);
    }
  }

  /** Running `a` and then `b` follows `a + b`. */
  lemma FollowsAppend(s: CpuState, a: seq<Instruction>, u: CpuState, b: seq<Instruction>, t: CpuState)
    requires s.currentCycle >= 1 && u.currentCycle >= 1
    requires Follows(s, a, u) && Follows(u, b, t)
    ensures Follows(s, a + b, t)
  {
    var head, tail := Trace(a, s.register), Trace(b, u.register);
    var xs := Trace(a + b, s.register);
    assert xs == head + tail by {
      TraceAppend(a, b, s.register);
    }
    assert t.register == s.register + Added(a + b) by {
      AddedAppend(a, b);
    }
    assert t.pixels == s.pixels + Pixels(s.currentCycle, xs) by {
      PixelsAppend(s.currentCycle, head, tail);
    }
    assert t.signalStrengthTotal == s.signalStrengthTotal + SignalSum(s.currentCycle, xs) by {
      SignalSumAppend(s.currentCycle, head, tail);
    }
  }

  /** One instruction follows its trace. */
  lemma ExecuteMeaning(s: CpuState, i: Instruction)
    requires s.currentCycle >= 1
    ensures Follows(s, [i], Execute(s, i))
  {
    var x := s.register;
    assert [i][1..] == [];
    if i.Addx? {
      assert Trace([i], x) == [x, x];
      assert SignalSum(s.currentCycle, [x, x]) ==
             (if SignalCycle(s.currentCycle) then x * s.currentCycle else 0) + SignalSum(s.currentCycle + 1, [x]) by {
        assert [x, x][1..] == [x];
      }
      assert Pixels(s.currentCycle, [x, x]) == [Lit(s.currentCycle, x)] + Pixels(s.currentCycle + 1, [x]) by {
        assert [x, x][1..] == [x];
      }
    } else {
      assert Trace([i], x) == [x];
    }
  }

  /** A whole program follows its trace. */
  lemma {:induction false} RunMeaning(s: CpuState, program: seq<Instruction>)
    requires s.currentCycle >= 1
    ensures Follows(s, program, Run(s, program))
    decreases |program|
  {
    if program == [] {
      assert Trace(program, s.register) == [];
    } else {
      var i, rest := program[0], program[1..];
      var u := Execute(s, i);
      ExecuteMeaning(s, i);
      RunMeaning(u, rest);
      FollowsAppend(s, [i], u, rest, Run(u, rest));
      assert [i] + rest == program;
    }
  }

  /**
   * From the default CPU, one pixel is drawn per cycle so far, and the pixel drawn
   * during cycle `k + 1` is lit exactly when the sprite covered its column then.
   */
  lemma PixelPerCycle(program: seq<Instruction>)
    ensures var t := Run(Default(), program);
            |t.pixels| == t.currentCycle - 1 == |Trace(program, 1)| &&
            forall k :: 0 <= k < |t.pixels| ==> (t.pixels[k] <==> Abs(k % 40 - Trace(program, 1)[k]) <= 1)
  {
    RunMeaning(Default(), program);
    var xs := Trace(program, 1);
    forall k | 0 <= k < |xs|
      ensures Pixels(1, xs)[k] <==> Abs(k % 40 - xs[k]) <= 1
    {
      PixelsAt(1, xs, k);
    }
  }

  /** The sample program of the pixel test. */
  function SampleProgram(): seq<Instruction>
  {
    [Addx(15), Addx(-11), Addx(6), Addx(-3), Addx(5), Addx(-1), Addx(-8), Addx(13), Addx(4), Noop, Addx(-1)]
  }

  lemma {:induction false} TraceAppend(a: seq<Instruction>, b: seq<Instruction>, x: int)
    ensures Trace(a + b, x) == Trace(a, x) + Trace(b, x + Added(a))
    decreases |a|
  {
    if a == [] {
      assert a + b == b;
    } else {
      assert (a + b)[1..] == a[1..] + b;
      var d := if a[0].Addx? then a[0].n else 0;
      TraceAppend(a[1..], b, x + d);
    }
  }

  lemma SampleTraceFirst()
    ensures Trace([Addx(15), Addx(-11), Addx(6), Addx(-3)], 1) == [1, 1, 16, 16, 5, 5, 11, 11]
    ensures Added([Addx(15), Addx(-11), Addx(6), Addx(-3)]) == 7
  {
  }

  lemma SampleTraceSecond()
    ensures Trace([Addx(5), Addx(-1), Addx(-8), Addx(13)], 8) == [8, 8, 13, 13, 12, 12, 4, 4]
    ensures Added([Addx(5), Addx(-1), Addx(-8), Addx(13)]) == 9
  {
  }

  lemma SampleTraceThird()
    ensures Trace([Addx(4), Noop, Addx(-1)], 17) == [17, 17, 21, 21, 21]
  {
  }

  lemma SamplePixelsFirst()
    ensures Pixels(1, [1, 1, 16, 16, 5, 5, 11, 11]) == [true, true, false, false, true, true, false, false]
  {
    assert Pixels(5, [5, 5, 11, 11]) == [true, true, false, false];
  }

  lemma SamplePixelsSecond()
    ensures Pixels(9, [8, 8, 13, 13, 12, 12, 4, 4]) == [true, true, false, false, true, true, false, false]
  {
    assert Pixels(13, [12, 12, 4, 4]) == [true, true, false, false];
  }

  lemma SamplePixelsThird()
    ensures Pixels(17, [17, 17, 21, 21, 21]) == [true, true, false, false, true]
  {
  }

  /** The register during the 21 cycles of the sample program. */
  lemma SampleTrace()
    ensures Trace(SampleProgram(), 1) ==
            [1, 1, 16, 16, 5, 5, 11, 11] + ([8, 8, 13, 13, 12, 12, 4, 4] + [17, 17, 21, 21, 21])
  {
    var p1, p2, p3 := [Addx(15), Addx(-11), Addx(6), Addx(-3)], [Addx(5), Addx(-1), Addx(-8), Addx(13)], [Addx(4), Noop, Addx(-1)];
    assert SampleProgram() == p1 + (p2 + p3);
    SampleTraceFirst();
    SampleTraceSecond();
    SampleTraceThird();
    TraceAppend(p2, p3, 8);
    TraceAppend(p1, p2 + p3, 1);
  }

  /** The pixels the sample's register values draw. */
  lemma SampleTracePixels()
    ensures Pixels(1, [1, 1, 16, 16, 5, 5, 11, 11] + ([8, 8, 13, 13, 12, 12, 4, 4] + [17, 17, 21, 21, 21])) ==
            [true, true, false, false, true, true, false, false] +
            ([true, true, false, false, true, true, false, false] + [true, true, false, false, true])
  {
    var t1, t2, t3 := [1, 1, 16, 16, 5, 5, 11, 11], [8, 8, 13, 13, 12, 12, 4, 4], [17, 17, 21, 21, 21];
    SamplePixelsFirst();
    SamplePixelsSecond();
    SamplePixelsThird();
    PixelsAppend(9, t2, t3);
    PixelsAppend(1, t1, t2 + t3);
  }

  /**
   * From the default CPU, a program draws the pixels of its register trace, adds the
   * signal strengths of its trace's due cycles, and leaves the register at 1 plus
   * every `addx` argument.
   */
  lemma RunFromDefault(program: seq<Instruction>)
    ensures Run(Default(), program).pixels == Pixels(1, Trace(program, 1))
    ensures Run(Default(), program).signalStrengthTotal == SignalSum(1, Trace(program, 1))
    ensures Run(Default(), program).register == 1 + Added(program)
  {
    RunMeaning(Default(), program);
  }

  /** The sample program draws the pixels the test expects. */
  lemma SamplePixels()
    ensures Run(Default(), SampleProgram()).pixels ==
            [true, true, false, false, true, true, false, false] +
            ([true, true, false, false, true, true, false, false] + [true, true, false, false, true])
  {
    RunFromDefault(SampleProgram());
    SampleTrace();
    SampleTracePixels();
  }

  class Cpu {
    var register: int
    var currentCycle: nat
    var signalStrengthTotal: int
    var pixels: seq<bool>

    function State(): CpuState
      reads this
    {
      CpuState(register, currentCycle, signalStrengthTotal, pixels)
    }

    /** `CPU::default`. */
    constructor ()
      ensures State() == Default()
    {
      register, currentCycle, signalStrengthTotal, pixels := 1, 1, 0, [];
    }

    /** `increment_current_cycle`. */
    method IncrementCurrentCycle()
      requires currentCycle >= 1
      modifies this
      ensures State() == Tick(old(State()))
    {
      if (currentCycle - 20) % 40 == 0 {
        signalStrengthTotal := signalStrengthTotal + register * currentCycle;
      }
      var rowIndex := (currentCycle - 1) % 40;
      if Abs(rowIndex - register) <= 1 {
        pixels := pixels + [true];
      } else {
        pixels := pixels + [false];
      }
      currentCycle := currentCycle + 1;
    }

    /** `execute_instruction`. */
    method ExecuteInstruction(instruction: Instruction)
      requires currentCycle >= 1
      modifies this
      ensures State() == Execute(old(State()), instruction)
    {
      match instruction
      case Noop =>
        IncrementCurrentCycle();
      case Addx(n) =>
        IncrementCurrentCycle();
        IncrementCurrentCycle();
        register := register + n;
    }

    /** Executes a program instruction by instruction, as the pixel test does. */
    method ExecuteAll(program: seq<Instruction>)
      requires currentCycle >= 1
      modifies this
      ensures State() == Run(old(State()), program)
    {
      for i := 0 to |program|
        invariant currentCycle >= 1
        invariant Run(State(), program[i..]) == Run(old(State()), program)
      {
        assert program[i..][1..] == program[i + 1..];
        ExecuteInstruction(program[i]);
      }
      assert program[|program|..] == [];
    }
  }
}
