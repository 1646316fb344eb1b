// Flashing dumbo octopodes on a 10 by 10 grid (2021, day 11).
//
// Each step adds one energy to every octopus. An octopus above 9 that has not yet
// flashed this step flashes, which adds one energy to each of its (up to eight)
// neighbours; flashing passes repeat until one flashes nobody. Then every octopus
// that flashed drops to 0 and its flag is cleared.
//
// The grid is stored row-major: the octopus in row `r` and column `c` sits at flat
// index `r * 10 + c`.

module DumboOctopus {
  import opened Wrappers

  /** The (row, column) of a flat index. */
  function CellOf(p: nat): (int, int)
  {
    (p / 10, p % 10)
  }

  lemma CellIndex(r: int, c: int, q: nat)
    requires 0 <= r < 10 && 0 <= c < 10 && q < 100
    ensures CellOf(r * 10 + c) == (r, c)
    ensures CellOf(q) == (r, c) <==> q == r * 10 + c
  {
  }

  /** Octopus `p` and octopus `q` are different and touch, diagonals included. */
  predicate Adjacent(p: nat, q: nat)
  {
    p != q && -1 <= p / 10 - q / 10 <= 1 && -1 <= p % 10 - q % 10 <= 1
  }

  /**
   * The eight positions `do_flashes` pushes for a flash at `p`, in its order; those
   * with a coordinate of -1 or 10 lie outside the grid.
   */
  function Offsets(p: nat): seq<(int, int)>
  {
    OffsetsAt(p / 10, p % 10)
  }

  /** The row below, then the same row, then the row above, each from the right. */
  function OffsetsAt(r: int, c: int): seq<(int, int)>
  {
    [(r + 1, c + 1), (r + 1, c), (r + 1, c - 1)] +
    [(r, c + 1), (r, c - 1)] +
    [(r - 1, c + 1), (r - 1, c), (r - 1, c - 1)]
  }

  /** A flash at `p` hits octopus `q` once if they are adjacent and not at all otherwise. */
  lemma OffsetsHit(p: nat, q: nat)
    requires p < 100 && q < 100
    ensures multiset(Offsets(p))[CellOf(q)] == if Adjacent(p, q) then 1 else 0
  {
    OffsetsAtHit(p / 10, p % 10, CellOf(q));
    AdjacentCells(p, q);
  }

  /** Adjacency read on (row, column) pairs. */
  lemma AdjacentCells(p: nat, q: nat)
    requires p < 100 && q < 100
    ensures Adjacent(p, q) <==>
              CellOf(q) != CellOf(p) && -1 <= CellOf(q).0 - CellOf(p).0 <= 1 && -1 <= CellOf(q).1 - CellOf(p).1 <= 1
  {
    assert p == CellOf(p).0 * 10 + CellOf(p).1 && q == CellOf(q).0 * 10 + CellOf(q).1;
  }

  /** The eight positions around `(r, c)` hold each of its neighbours once and nothing else. */
  lemma OffsetsAtHit(r: int, c: int, t: (int, int))
    ensures multiset(OffsetsAt(r, c))[t] ==
              if t != (r, c) && -1 <= t.0 - r <= 1 && -1 <= t.1 - c <= 1 then 1 else 0
  {
    RowHit(r + 1, c, t);
    RowHit(r - 1, c, t);
    LevelHit(r, c, t);
  }

  lemma RowHit(row: int, c: int, t: (int, int))
    ensures multiset([(row, c + 1), (row, c), (row, c - 1)])[t] ==
              if t.0 == row && -1 <= t.1 - c <= 1 then 1 else 0
  {
  }

  lemma LevelHit(r: int, c: int, t: (int, int))
    ensures multiset([(r, c + 1), (r, c - 1)])[t] ==
              if t.0 == r && (t.1 == c + 1 || t.1 == c - 1) then 1 else 0
  {
  }

  /** Octopus `p` flashes in a pass over energies `e` and flags `f`. */
  predicate Flashes(e: seq<int>, f: seq<bool>, p: nat)
    requires p < |e| && p < |f|
  {
    e[p] > 9 && !f[p]
  }

  /** All positions a pass pushes for the octopodes before `k`, in row-major order. */
  function Pushes(e: seq<int>, f: seq<bool>, k: nat): seq<(int, int)>
    requires k <= |e| && k <= |f|
  {
    if k == 0 then []
    else Pushes(e, f, k - 1) + (if Flashes(e, f, k - 1) then Offsets(k - 1) else [])
  }

  /** How many octopodes before `k` flash in a pass. */
  function FlashCount(e: seq<int>, f: seq<bool>, k: nat): (n: nat)
    requires k <= |e| && k <= |f|
    ensures n <= k
  {
    if k == 0 then 0 else FlashCount(e, f, k - 1) + (if Flashes(e, f, k - 1) then 1 else 0)
  }

  /** How many octopodes before `k` that flash in a pass are neighbours of `q`. */
  function NeighbourFlashes(e: seq<int>, f: seq<bool>, q: nat, k: nat): (n: nat)
    requires k <= |e| && k <= |f|
    ensures n <= FlashCount(e, f, k)
  {
    if k == 0 then 0
    else NeighbourFlashes(e, f, q, k - 1) + (if Flashes(e, f, k - 1) && Adjacent(k - 1, q) then 1 else 0)
  }

  /** How many flags before `k` are set. */
  function TrueCount(f: seq<bool>, k: nat): (n: nat)
    requires k <= |f|
    ensures n <= k
  {
    if k == 0 then 0 else TrueCount(f, k - 1) + (if f[k - 1] then 1 else 0)
  }

  /** How many energies before `k` are 0. */
  function ZeroCount(e: seq<int>, k: nat): (n: nat)
    requires k <= |e|
    ensures n <= k
  {
    if k == 0 then 0 else ZeroCount(e, k - 1) + (if e[k - 1] == 0 then 1 else 0)
  }

  /** Each octopus is hit by the pushed positions once per flashing neighbour. */
  lemma {:induction false} PushesHit(e: seq<int>, f: seq<bool>, q: nat, k: nat)
    requires k <= |e| && k <= |f| && k <= 100 && q < 100
    ensures multiset(Pushes(e, f, k))[CellOf(q)] == NeighbourFlashes(e, f, q, k)
  {
    if k > 0 {
      PushesHit(e, f, q, k - 1);
      if Flashes(e, f, k - 1) {
        OffsetsHit(k - 1, q);
      }
    }
  }

  /** A pass sets exactly the flags of the octopodes that flash in it. */
  lemma {:induction false} FlagsAddUp(e: seq<int>, f: seq<bool>, f': seq<bool>, k: nat)
    requires k <= |e| && k <= |f| && k <= |f'|
    requires forall p :: 0 <= p < k ==> f'[p] == (f[p] || Flashes(e, f, p))
    ensures TrueCount(f', k) == TrueCount(f, k) + FlashCount(e, f, k)
  {
    if k > 0 {
      FlagsAddUp(e, f, f', k - 1);
    }
  }

  /** A pass in which nobody flashes leaves every flag and every energy as it was. */
  lemma {:induction false} NoFlashes(e: seq<int>, f: seq<bool>, q: nat, k: nat)
    requires k <= |e| && k <= |f| && FlashCount(e, f, k) == 0
    ensures forall p :: 0 <= p < k ==> !Flashes(e, f, p)
    ensures NeighbourFlashes(e, f, q, k) == 0
  {
    if k > 0 {
      NoFlashes(e, f, q, k - 1);
    }
  }

  lemma {:induction false} TrueCountNone(f: seq<bool>, k: nat)
    requires k <= |f| && forall p :: 0 <= p < k ==> !f[p]
    ensures TrueCount(f, k) == 0
  {
    if k > 0 {
      TrueCountNone(f, k - 1);
    }
  }

  /** All flags before `k` are set exactly when `k` of them are. */
  lemma {:induction false} TrueCountAll(f: seq<bool>, k: nat)
    requires k <= |f|
    ensures TrueCount(f, k) == k <==> forall p :: 0 <= p < k ==> f[p]
  {
    if k > 0 {
      TrueCountAll(f, k - 1);
    }
  }

  /** Counting set flags and counting zero energies agree when the two mark the same octopodes. */
  lemma {:induction false} ZeroCountIsTrueCount(e: seq<int>, f: seq<bool>, k: nat)
    requires k <= |e| && k <= |f|
    requires forall p :: 0 <= p < k ==> (e[p] == 0 <==> f[p])
    ensures ZeroCount(e, k) == TrueCount(f, k)
  {
    if k > 0 {
      ZeroCountIsTrueCount(e, f, k - 1);
    }
  }

  /** No octopus before `k` flashes in the pass. */
  lemma {:induction false} NoneFlash(e: seq<int>, f: seq<bool>, k: nat)
    requires k <= |e| && k <= |f|
    requires forall p :: 0 <= p < k ==> !Flashes(e, f, p)
    ensures FlashCount(e, f, k) == 0
  {
    if k > 0 {
      NoneFlash(e, f, k - 1);
    }
  }

  /** The energies and flags after one flashing pass over energies `e` and flags `f`. */
  function Pass(e: seq<int>, f: seq<bool>): (seq<int>, seq<bool>)
    requires |e| == 100 && |f| == 100
  {
    (seq(100, q requires 0 <= q < 100 => e[q] + NeighbourFlashes(e, f, q, 100)),
     seq(100, p requires 0 <= p < 100 => f[p] || Flashes(e, f, p)))
  }

  /**
   * Flashing passes repeated until one flashes nobody. Each pass that flashes sets
   * a new flag, so at most a hundred passes flash. At the end every octopus is
   * flagged or at most 9; flags are only ever set, and only on octopodes above 9;
   * energies only rise.
   */
  ghost function Settle(e: seq<int>, f: seq<bool>): (r: (seq<int>, seq<bool>))
    requires |e| == 100 && |f| == 100
    ensures |r.0| == 100 && |r.1| == 100
    ensures forall p :: 0 <= p < 100 ==> r.1[p] || r.0[p] <= 9
    ensures forall p :: 0 <= p < 100 ==> r.0[p] >= e[p] && (f[p] ==> r.1[p])
    ensures forall p :: 0 <= p < 100 && r.1[p] && !f[p] ==> r.0[p] > 9
    decreases 100 - TrueCount(f, 100)
  {
    if FlashCount(e, f, 100) == 0 then
      assert forall p :: 0 <= p < 100 ==> f[p] || e[p] <= 9 by {
        NoFlashes(e, f, 0, 100);
        forall p | 0 <= p < 100 ensures f[p] || e[p] <= 9 {
          assert !Flashes(e, f, p);
        }
      }
      (e, f)
    else
      var next := Pass(e, f);
      FlagsAddUp(e, f, next.1, 100);
      Settle(next.0, next.1)
  }

  /** Every energy one higher. */
  function Raised(e: seq<int>): seq<int>
    requires |e| == 100
  {
    seq(100, p requires 0 <= p < 100 => e[p] + 1)
  }

  /** No flag set. */
  function NoFlags(): seq<bool>
  {
    seq(100, p => false)
  }

  /** Every flagged octopus back to 0. */
  function Reset(e: seq<int>, f: seq<bool>): seq<int>
    requires |e| == 100 && |f| == 100
  {
    seq(100, p requires 0 <= p < 100 => if f[p] then 0 else e[p])
  }

  /**
   * One step on energies `e`: the energies afterwards and how many octopodes
   * flashed. Every energy rises by one, the passes settle, and the flashed
   * octopodes drop to 0.
   */
  ghost function Step(e: seq<int>): (seq<int>, nat)
    requires |e| == 100
  {
    var s := Settle(Raised(e), NoFlags());
    (Reset(s.0, s.1), TrueCount(s.1, 100))
  }

  /**
   * From digit energies a step ends with digit energies again: an octopus is 0
   * exactly when it flashed, every other one is above its old energy, and the
   * number of flashes is the number of zeros.
   */
  lemma StepMeaning(e: seq<int>)
    requires |e| == 100 && forall p :: 0 <= p < 100 ==> 0 <= e[p] <= 9
    ensures |Step(e).0| == 100
    ensures forall p :: 0 <= p < 100 ==> 0 <= Step(e).0[p] <= 9 && (Step(e).0[p] == 0 || Step(e).0[p] > e[p])
    ensures Step(e).1 == ZeroCount(Step(e).0, 100)
    ensures Step(e).1 == 100 <==> forall p :: 0 <= p < 100 ==> Step(e).0[p] == 0
  {
    var s := Settle(Raised(e), NoFlags());
    var after := Reset(s.0, s.1);
    assert forall p :: 0 <= p < 100 ==> (after[p] == 0 <==> s.1[p]) by {
      assert forall p :: 0 <= p < 100 ==> s.0[p] >= Raised(e)[p] == e[p] + 1;
    }
    ZeroCountIsTrueCount(after, s.1, 100);
    TrueCountAll(s.1, 100);
  }

  /** A step in which nobody reaches 10 only raises every energy by one, with no flash. */
  lemma QuietStep(e: seq<int>)
    requires |e| == 100 && forall p :: 0 <= p < 100 ==> e[p] <= 8
    ensures Step(e) == (Raised(e), 0)
  {
    NoneFlash(Raised(e), NoFlags(), 100);
    TrueCountNone(NoFlags(), 100);
    assert Reset(Raised(e), NoFlags()) == Raised(e);
  }

  /** The grid of the tests, one line per row. */
  function SampleLines(): seq<string>
  {
    [
      "5483143223",
      "2745854711",
      "5264556173",
      "6141336146",
      "6357385478",
      "4167524645",
      "2176841721",
      "6882881134",
      "4846848554",
      "5283751526"
    ]
  }

  /** The grid the tests expect after the first step. */
  function SampleLinesAfterOne(): seq<string>
  {
    [
      "6594254334",
      "3856965822",
      "6375667284",
      "7252447257",
      "7468496589",
      "5278635756",
      "3287952832",
      "7993992245",
      "5957959665",
      "6394862637"
    ]
  }

  /** Ten digits each, none above 8 before, and each one higher after. */
  predicate RowQuiet(before: string, after: string)
  {
    |before| == 10 && |after| == 10 &&
    forall c :: 0 <= c < 10 ==>
      IsDigit(before[c]) && IsDigit(after[c]) && before[c] <= '8' && after[c] as int == before[c] as int + 1
  }

  /** Each line of the tests' grid is quiet, with the expected line one higher; one lemma per line. */
  lemma SampleRow0()
    ensures RowQuiet(SampleLines()[0], SampleLinesAfterOne()[0])
  {
  }

  lemma SampleRow1()
    ensures RowQuiet(SampleLines()[1], SampleLinesAfterOne()[1])
  {
  }

  lemma SampleRow2()
    ensures RowQuiet(SampleLines()[2], SampleLinesAfterOne()[2])
  {
  }

  lemma SampleRow3()
    ensures RowQuiet(SampleLines()[3], SampleLinesAfterOne()[3])
  {
  }

  lemma SampleRow4()
    ensures RowQuiet(SampleLines()[4], SampleLinesAfterOne()[4])
  {
  }

  lemma SampleRow5()
    ensures RowQuiet(SampleLines()[5], SampleLinesAfterOne()[5])
  {
  }

  lemma SampleRow6()
    ensures RowQuiet(SampleLines()[6], SampleLinesAfterOne()[6])
  {
  }

  lemma SampleRow7()
    ensures RowQuiet(SampleLines()[7], SampleLinesAfterOne()[7])
  {
  }

  lemma SampleRow8()
    ensures RowQuiet(SampleLines()[8], SampleLinesAfterOne()[8])
  {
  }

  lemma SampleRow9()
    ensures RowQuiet(SampleLines()[9], SampleLinesAfterOne()[9])
  {
  }

  /**
   * Lines of digits none above 8 parse to a grid in which a step only raises every
   * energy by one and nobody flashes: the result is the grid of the lines one higher.
   */
  lemma QuietLines(before: seq<string>, after: seq<string>)
    requires |before| == 10 && |after| == 10
    requires forall i :: 0 <= i < 10 ==> RowQuiet(before[i], after[i])
    ensures Parse(before).Some? && Parse(after).Some?
    ensures Step(Parse(before).value) == (Parse(after).value, 0)
  {
    var e, next := Parse(before).value, Parse(after).value;
    forall p | 0 <= p < 100
      ensures e[p] <= 8 && next[p] == e[p] + 1
    {
      assert RowQuiet(before[p / 10], after[p / 10]);
    }
    QuietStep(e);
    assert Raised(e) == next;
  }

  /** The first step of the tests: nobody reaches 10, every energy rises by one and nobody flashes. */
  lemma SampleFirstStep()
    ensures Parse(SampleLines()).Some? && Parse(SampleLinesAfterOne()).Some?
    ensures Step(Parse(SampleLines()).value) == (Parse(SampleLinesAfterOne()).value, 0)
  {
    SampleRow0(); SampleRow1(); SampleRow2(); SampleRow3(); SampleRow4();
    SampleRow5(); SampleRow6(); SampleRow7(); SampleRow8(); SampleRow9();
    QuietLines(SampleLines(), SampleLinesAfterOne());
  }

  predicate IsDigit(c: char)
  {
    '0' <= c <= '9'
  }

  predicate AllDigits(line: string)
  {
    forall i :: 0 <= i < |line| ==> IsDigit(line[i])
  }

  /** The energy each digit character stands for. */
  function DigitValues(line: string): (d: seq<nat>)
    requires AllDigits(line)
    ensures |d| == |line|
    ensures forall i :: 0 <= i < |d| ==> d[i] == line[i] as int - '0' as int && d[i] <= 9
  {
    if line == [] then []
    else DigitValues(line[..|line| - 1]) + [(line[|line| - 1] as int - '0' as int) as nat]
  }

  /** The energies of the first ten characters of each line, in order. */
  function Rows(lines: seq<string>): (levels: seq<nat>)
    requires forall i :: 0 <= i < |lines| ==> |lines[i]| >= 10 && AllDigits(lines[i])
    ensures |levels| == 10 * |lines|
    ensures forall p :: 0 <= p < |levels| ==>
              levels[p] == (lines[p / 10][p % 10] as int - '0' as int) && levels[p] <= 9
  {
    if lines == [] then []
    else
      var n := |lines| - 1;
      assert AllDigits(lines[n][..10]) by {
        assert AllDigits(lines[n]);
        forall i | 0 <= i < 10 ensures IsDigit(lines[n][..10][i]) {
          assert lines[n][..10][i] == lines[n][i];
        }
      }
      var front, row := Rows(lines[..n]), DigitValues(lines[n][..10]);
      assert forall p :: 10 * n <= p < 10 * n + 10 ==> p / 10 == n && p % 10 == p - 10 * n;
      front + row
  }

  /**
   * `Octopodes::parse`: every character of every line must be a digit (`unwrap` panics
   * otherwise), every line must hold at least ten of them and there must be exactly
   * ten lines; the first ten digits of each line are the energies. `None` is a panic.
   */
  function Parse(lines: seq<string>): (r: Option<seq<nat>>)
    ensures r.Some? <==>
              |lines| == 10 && forall i :: 0 <= i < 10 ==> |lines[i]| >= 10 && AllDigits(lines[i])
    ensures r.Some? ==> |r.value| == 100 && forall p :: 0 <= p < 100 ==>
              r.value[p] == (lines[p / 10][p % 10] as int - '0' as int) && r.value[p] <= 9
  {
    if forall i :: 0 <= i < |lines| ==> AllDigits(lines[i]) then
      if (forall i :: 0 <= i < |lines| ==> |lines[i]| >= 10) && |lines| == 10 then Some(Rows(lines))
      else None
    else None
  }

  class Octopodes {
    /** The energy of each octopus, row-major. */
    var energies: array<int>
    /** Whether each octopus has flashed during the current step. */
    var flashed: array<bool>
    var totalFlashes: nat

    ghost predicate Valid()
      reads this
    {
      energies.Length == 100 && flashed.Length == 100
    }

    /** Between steps: every energy is a digit and no flag is set. */
    ghost predicate Resting()
      reads this, energies, flashed
    {
      Valid() && forall p :: 0 <= p < 100 ==> 0 <= energies[p] <= 9 && !flashed[p]
    }

    /** A grid built from parsed energies, with no flashes counted yet. */
    constructor (levels: seq<nat>)
      requires |levels| == 100 && forall p :: 0 <= p < 100 ==> levels[p] <= 9
      ensures Resting() && totalFlashes == 0
      ensures forall p :: 0 <= p < 100 ==> energies[p] == levels[p]
      ensures fresh(energies) && fresh(flashed)
    {
      energies := new int[100](p requires 0 <= p < 100 reads {} => levels[p]);
      flashed := new bool[100](p => false);
      totalFlashes := 0;
    }

    /**
     * `do_flashes`: one pass over the grid. Every octopus above 9 whose flag is clear
     * flashes: its flag is set and the total goes up by one. Then each flash adds one
     * energy to every neighbour inside the grid. Reports whether anyone flashed.
     */
    method DoFlashes() returns (newFlashes: bool)
      requires Valid()
      modifies this, energies, flashed
      ensures Valid() && energies == old(energies) && flashed == old(flashed)
      ensures forall p :: 0 <= p < 100 ==>
                flashed[p] == (old(flashed[p]) || Flashes(old(energies[..]), old(flashed[..]), p))
      ensures forall q :: 0 <= q < 100 ==>
                energies[q] == old(energies[q]) + NeighbourFlashes(old(energies[..]), old(flashed[..]), q, 100)
      ensures totalFlashes == old(totalFlashes) + FlashCount(old(energies[..]), old(flashed[..]), 100)
      ensures newFlashes <==> FlashCount(old(energies[..]), old(flashed[..]), 100) > 0
    {
      ghost var e0, f0 := energies[..], flashed[..];
      newFlashes := false;
      var toIncrement: seq<(int, int)> := [];
      for p := 0 to 100
        invariant energies == old(energies) && flashed == old(flashed)
        invariant energies[..] == e0
        invariant toIncrement == Pushes(e0, f0, p)
        invariant forall i :: 0 <= i < 100 ==>
                    flashed[i] == if i < p then f0[i] || Flashes(e0, f0, i) else f0[i]
        invariant totalFlashes == old(totalFlashes) + FlashCount(e0, f0, p)
        invariant newFlashes <==> FlashCount(e0, f0, p) > 0
      {
        var row, column := p / 10, p % 10;
        if energies[p] > 9 && !flashed[p] {
          flashed[p] := true;
          totalFlashes := totalFlashes + 1;
          newFlashes := true;
          toIncrement := toIncrement + OffsetsAt(row, column);
        }
      }
      forall q | 0 <= q < 100
        ensures multiset(toIncrement)[CellOf(q)] == NeighbourFlashes(e0, f0, q, 100)
      {
        PushesHit(e0, f0, q, 100);
      }
      IncrementNeighbours(toIncrement);
    }

    /** The second half of `do_flashes`: add one energy at each listed position inside the grid. */
    method IncrementNeighbours(toIncrement: seq<(int, int)>)
      requires Valid()
      modifies energies
      ensures forall q :: 0 <= q < 100 ==> energies[q] == old(energies[q]) + multiset(toIncrement)[CellOf(q)]
    {
      for j := 0 to |toIncrement|
        invariant forall q :: 0 <= q < 100 ==>
                    energies[q] == old(energies[q]) + multiset(toIncrement[..j])[CellOf(q)]
      {
        var (row, column) := toIncrement[j];
        assert toIncrement[..j + 1] == toIncrement[..j] + [(row, column)];
        if 0 <= row && 0 <= column && row < 10 && column < 10 {
          forall q | 0 <= q < 100
            ensures CellOf(q) == (row, column) <==> q == row * 10 + column
          {
            CellIndex(row, column, q);
          }
          energies[row * 10 + column] := energies[row * 10 + column] + 1;
        }
      }
      assert toIncrement[..|toIncrement|] == toIncrement;
    }

    /**
     * `run_step`: raise every energy by one, repeat flashing passes until one flashes
     * nobody, then reset every octopus that flashed to 0 and clear its flag. Reports
     * whether all hundred octopodes flashed.
     */
    method RunStep() returns (allFlashed: bool)
      requires Resting()
      modifies this, energies, flashed
      ensures Resting() && energies == old(energies) && flashed == old(flashed)
      ensures energies[..] == Step(old(energies[..])).0
      ensures totalFlashes == old(totalFlashes) + Step(old(energies[..])).1
      ensures allFlashed <==> Step(old(energies[..])).1 == 100
      ensures allFlashed <==> forall p :: 0 <= p < 100 ==> energies[p] == 0
      ensures totalFlashes == old(totalFlashes) + ZeroCount(energies[..], 100)
      ensures forall p :: 0 <= p < 100 && energies[p] != 0 ==> energies[p] > old(energies[p])
    {
      ghost var e0 := energies[..];
      assert flashed[..] == NoFlags();
      RaiseAll();
      TrueCountNone(flashed[..], 100);
      FlashUntilStill();
      var totalFlashed := ResetFlashed();
      StepMeaning(e0);
      allFlashed := totalFlashed == 100;
    }

    /** The first loop of `run_step`: every energy rises by one. */
    method RaiseAll()
      requires Valid()
      modifies energies
      ensures energies[..] == Raised(old(energies[..]))
    {
      for p := 0 to 100
        invariant forall i :: 0 <= i < 100 ==> energies[i] == if i < p then old(energies[i]) + 1 else old(energies[i])
      {
        energies[p] := energies[p] + 1;
      }
    }

    /**
     * The `while` loop of `run_step`: flashing passes until one flashes nobody. The
     * total rises by one per flag set.
     */
    method FlashUntilStill()
      requires Valid()
      modifies this, energies, flashed
      ensures Valid() && energies == old(energies) && flashed == old(flashed)
      ensures (energies[..], flashed[..]) == Settle(old(energies[..]), old(flashed[..]))
      ensures totalFlashes + TrueCount(old(flashed[..]), 100) == old(totalFlashes) + TrueCount(flashed[..], 100)
    {
      ghost var goal := Settle(energies[..], flashed[..]);
      var more := true;
      while more
        invariant Valid() && energies == old(energies) && flashed == old(flashed)
        invariant totalFlashes + TrueCount(old(flashed[..]), 100) == old(totalFlashes) + TrueCount(flashed[..], 100)
        invariant Settle(energies[..], flashed[..]) == goal
        invariant !more ==> goal == (energies[..], flashed[..])
        decreases if more then 101 - TrueCount(flashed[..], 100) else 0
      {
        ghost var e, f := energies[..], flashed[..];
        more := DoFlashes();
        FlagsAddUp(e, f, flashed[..], 100);
        ghost var next := Pass(e, f);
        forall q | 0 <= q < 100 ensures energies[..][q] == next.0[q] && flashed[..][q] == next.1[q] {
        }
        assert energies[..] == next.0 && flashed[..] == next.1;
        if !more {
          assert energies[..] == e && flashed[..] == f;
        }
      }
    }

    /** The last loop of `run_step`: every flagged octopus drops to 0 and loses its flag; returns how many there were. */
    method ResetFlashed() returns (totalFlashed: nat)
      requires Valid()
      modifies energies, flashed
      ensures energies[..] == Reset(old(energies[..]), old(flashed[..])) && flashed[..] == NoFlags()
      ensures totalFlashed == TrueCount(old(flashed[..]), 100)
    {
      ghost var f := flashed[..];
      totalFlashed := 0;
      for p := 0 to 100
        invariant totalFlashed == TrueCount(f, p)
        invariant forall i :: 0 <= i < 100 ==> flashed[i] == (i >= p && f[i])
        invariant forall i :: 0 <= i < 100 ==> energies[i] == if i < p && f[i] then 0 else old(energies[i])
      {
        if flashed[p] {
          totalFlashed := totalFlashed + 1;
          energies[p] := 0;
          flashed[p] := false;
        }
      }
      assert energies[..] == Reset(old(energies[..]), f);
      assert flashed[..] == NoFlags();
    }
  }
}
