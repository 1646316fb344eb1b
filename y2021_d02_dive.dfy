// Steering the submarine (2021, day 2).
//
// A position has a horizontal coordinate, a depth and an aim. In the first
// reading of the commands `forward` moves horizontally and `up`/`down` change the
// depth; in the second, `up`/`down` change the aim and `forward` moves
// horizontally and dives by the aim times the distance.

module Dive {

  datatype Command = Forward(n: nat) | Up(n: nat) | Down(n: nat)

  /** The fields of a position, as one value. */
  datatype Pos = Pos(horizontal: int, depth: int, aim: int)

  /** `Position::default`. */
  function Default(): (p: Pos)
    ensures p.horizontal == 0 && p.depth == 0 && p.aim == 0
  {
    Pos(0, 0, 0)
  }

  /** `execute_command_part1`. */
  function Step1(p: Pos, c: Command): Pos
  {
    match c
    case Forward(n) => p.(horizontal := p.horizontal + n)
    case Up(n) => p.(depth := p.depth - n)
    case Down(n) => p.(depth := p.depth + n)
  }

  /** `execute_command_part2`. */
  function Step2(p: Pos, c: Command): Pos
  {
    match c
    case Forward(n) => p.(horizontal := p.horizontal + n, depth := p.depth + p.aim * n)
    case Up(n) => p.(aim := p.aim - n)
    case Down(n) => p.(aim := p.aim + n)
  }

  /** The commands executed in order with the first reading. */
  function Run1(p: Pos, cs: seq<Command>): Pos
  {
    if cs == [] then p else Step1(Run1(p, cs[..|cs| - 1]), cs[|cs| - 1])
  }

  /** The commands executed in order with the second reading. */
  function Run2(p: Pos, cs: seq<Command>): Pos
  {
    if cs == [] then p else Step2(Run2(p, cs[..|cs| - 1]), cs[|cs| - 1])
  }

  /** The total distance of the `forward` commands. */
  function Forwards(cs: seq<Command>): nat
  {
    if cs == [] then 0
    else Forwards(cs[..|cs| - 1]) + (if cs[|cs| - 1].Forward? then cs[|cs| - 1].n else 0)
  }

  /** The `down` distances minus the `up` distances. */
  function Sinking(cs: seq<Command>): int
  {
    if cs == [] then 0
    else
      var c := cs[|cs| - 1];
      Sinking(cs[..|cs| - 1]) + (match c case Forward(_) => 0 case Up(n) => 0 - n case Down(n) => n)
  }

  /**
   * The dive of the second reading: each `forward n` contributes `n` times the
   * sinking of the commands before it.
   */
  function AimedDive(cs: seq<Command>): int
  {
    if cs == [] then 0
    else
      var k := |cs| - 1;
      AimedDive(cs[..k]) + (if cs[k].Forward? then Sinking(cs[..k]) * cs[k].n else 0)
  }

  /** First reading: `forward` only moves horizontally, `up` and `down` only change the depth. */
  lemma {:induction false} Run1Meaning(p: Pos, cs: seq<Command>)
    ensures Run1(p, cs) == Pos(p.horizontal + Forwards(cs), p.depth + Sinking(cs), p.aim)
  {
    if cs != [] {
      Run1Meaning(p, cs[..|cs| - 1]);
    }
  }

  /**
   * Second reading: `up` and `down` only change the aim, and each `forward n` moves
   * `n` horizontally and dives `n` times the aim it finds.
   */
  lemma {:induction false} Run2Meaning(cs: seq<Command>)
    ensures Run2(Default(), cs) == Pos(Forwards(cs), AimedDive(cs), Sinking(cs))
  {
    if cs != [] {
      Run2Meaning(cs[..|cs| - 1]);
    }
  }

  /** Both readings travel the same horizontal distance, and the second's aim is the first's depth. */
  lemma ReadingsAgree(cs: seq<Command>)
    ensures Run2(Default(), cs).horizontal == Run1(Default(), cs).horizontal
    ensures Run2(Default(), cs).aim == Run1(Default(), cs).depth
  {
    Run1Meaning(Default(), cs);
    Run2Meaning(cs);
  }

  /** While the aim is still 0, the second reading does not dive: `forward` commands alone stay level. */
  lemma {:induction false} LevelWithoutAim(cs: seq<Command>, k: nat)
    requires k <= |cs|
    requires forall i :: 0 <= i < k ==> cs[i].Forward?
    ensures AimedDive(cs[..k]) == 0 && Sinking(cs[..k]) == 0
  {
    if k > 0 {
      assert cs[..k][..k - 1] == cs[..k - 1];
      LevelWithoutAim(cs, k - 1);
    }
  }

  class Position {
    var horizontal: int
    var depth: int
    var aim: int

    function State(): Pos
      reads this
    {
      Pos(horizontal, depth, aim)
    }

    /** `Position::default`. */
    constructor ()
      ensures State() == Default()
    {
      horizontal, depth, aim := 0, 0, 0;
    }

    /** `execute_command_part1`. */
    method ExecuteCommandPart1(command: Command)
      modifies this
      ensures State() == Step1(old(State()), command)
    {
      match command
      case Forward(n) => horizontal := horizontal + n;
      case Up(n) => depth := depth - n;
      case Down(n) => depth := depth + n;
    }

    /** `execute_command_part2`. */
    method ExecuteCommandPart2(command: Command)
      modifies this
      ensures State() == Step2(old(State()), command)
    {
      match command
      case Forward(n) =>
        horizontal := horizontal + n;
        depth := depth + aim * n;
      case Up(n) => aim := aim - n;
      case Down(n) => aim := aim + n;
    }

    /** `position_product`. */
    function PositionProduct(): int
      reads this
    {
      depth * horizontal
    }
  }
}
