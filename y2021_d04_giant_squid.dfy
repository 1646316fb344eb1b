// Bingo cards (2021, day 4).
//
// A card is a 5 by 5 grid of numbers, each with a mark. Calling a number marks
// the first unmarked cell holding it, in row-major order, and remembers the
// number. A card has won once a whole row or a whole column is marked; its score
// is the sum of its unmarked numbers times the last number it marked.

module GiantSquid {
  import opened Wrappers

  datatype Cell = Cell(number: nat, marked: bool)

  /** The card's grid as values: five rows of five cells. */
  predicate IsGrid(g: seq<seq<Cell>>)
  {
    |g| == 5 && forall x :: 0 <= x < 5 ==> |g[x]| == 5
  }

  /**
   * The first unmarked cell holding `number` at or after `(x, y)` in row-major
   * order, or none.
   */
  function FirstFrom(g: seq<seq<Cell>>, number: nat, x: nat, y: nat): (r: Option<(nat, nat)>)
    requires IsGrid(g) && x <= 5 && y < 5
    ensures r.Some? ==> r.value.0 < 5 && r.value.1 < 5 && g[r.value.0][r.value.1] == Cell(number, false)
    decreases 25 - 5 * x - y
  {
    if x == 5 then None
    else if g[x][y] == Cell(number, false) then Some((x, y))
    else if y < 4 then FirstFrom(g, number, x, y + 1)
    else FirstFrom(g, number, x + 1, 0)
  }

  /** `(i, j)` comes before `(x, y)` in row-major order. */
  predicate Before(i: nat, j: nat, x: nat, y: nat)
  {
    i < x || (i == x && j < y)
  }

  /**
   * `FirstFrom` finds the earliest match: no cell between the start and the cell
   * it returns matches, and when it returns none, no cell from the start on does.
   */
  lemma {:induction false} FirstFromIsFirst(g: seq<seq<Cell>>, number: nat, x: nat, y: nat)
    requires IsGrid(g) && x <= 5 && y < 5
    ensures var r := FirstFrom(g, number, x, y);
            forall i, j :: 0 <= i < 5 && 0 <= j < 5 && !Before(i, j, x, y) &&
                           (r.None? || Before(i, j, r.value.0, r.value.1)) ==>
                             g[i][j] != Cell(number, false)
    decreases 25 - 5 * x - y
  {
    if x < 5 && g[x][y] != Cell(number, false) {
      if y < 4 {
        FirstFromIsFirst(g, number, x, y + 1);
      } else {
        FirstFromIsFirst(g, number, x + 1, 0);
      }
    }
  }

  /** The first unmarked cell holding `number`, in the order `add_number` scans. */
  function FirstUnmarked(g: seq<seq<Cell>>, number: nat): Option<(nat, nat)>
    requires IsGrid(g)
  {
    FirstFrom(g, number, 0, 0)
  }

  /** `FirstUnmarked` is the earliest unmarked match, and there is none exactly when no cell matches. */
  lemma FirstUnmarkedMeaning(g: seq<seq<Cell>>, number: nat)
    requires IsGrid(g)
    ensures var r := FirstUnmarked(g, number);
            (r.None? <==> forall i, j :: 0 <= i < 5 && 0 <= j < 5 ==> g[i][j] != Cell(number, false)) &&
            (r.Some? ==> r.value.0 < 5 && r.value.1 < 5 && g[r.value.0][r.value.1] == Cell(number, false) &&
                         forall i, j :: 0 <= i < 5 && 0 <= j < 5 && Before(i, j, r.value.0, r.value.1) ==>
                           g[i][j] != Cell(number, false))
  {
    FirstFromIsFirst(g, number, 0, 0);
  }

  /** The grid with the cell at `(x, y)` marked. */
  function Mark(g: seq<seq<Cell>>, x: nat, y: nat): (h: seq<seq<Cell>>)
    requires IsGrid(g) && x < 5 && y < 5
    ensures IsGrid(h)
  {
    g[x := g[x][y := g[x][y].(marked := true)]]
  }

  /** Row `x` of the grid, or column `x - 5` for `x` from 5 to 9: the ten lines `has_won` checks. */
  function Line(g: seq<seq<Cell>>, k: nat): (l: seq<Cell>)
    requires IsGrid(g) && k < 10
    ensures |l| == 5
  {
    if k < 5 then g[k] else [g[0][k - 5], g[1][k - 5], g[2][k - 5], g[3][k - 5], g[4][k - 5]]
  }

  predicate AllMarked(l: seq<Cell>)
  {
    forall i :: 0 <= i < |l| ==> l[i].marked
  }

  /** Line `k` is fully marked. */
  predicate LineWon(g: seq<seq<Cell>>, k: nat)
    requires IsGrid(g) && k < 10
  {
    AllMarked(Line(g, k))
  }

  /** Whether one of the lines from `k` on is fully marked. */
  predicate AnyLineFrom(g: seq<seq<Cell>>, k: nat)
    requires IsGrid(g) && k <= 10
    decreases 10 - k
  {
    k < 10 && (LineWon(g, k) || AnyLineFrom(g, k + 1))
  }

  /** `has_won`: any of the five rows and five columns is fully marked. */
  predicate HasWon(g: seq<seq<Cell>>)
    requires IsGrid(g)
  {
    AnyLineFrom(g, 0)
  }

  lemma {:induction false} AnyLineFromMeaning(g: seq<seq<Cell>>, k: nat)
    requires IsGrid(g) && k <= 10
    ensures AnyLineFrom(g, k) <==> exists l :: k <= l < 10 && LineWon(g, l)
    decreases 10 - k
  {
    if k < 10 {
      AnyLineFromMeaning(g, k + 1);
    }
  }

  predicate RowMarked(g: seq<seq<Cell>>, x: nat)
    requires IsGrid(g) && x < 5
  {
    forall y :: 0 <= y < 5 ==> g[x][y].marked
  }

  predicate ColumnMarked(g: seq<seq<Cell>>, y: nat)
    requires IsGrid(g) && y < 5
  {
    forall x :: 0 <= x < 5 ==> g[x][y].marked
  }

  /** Lines 0 to 4 are the rows and lines 5 to 9 the columns. */
  lemma LineMarked(g: seq<seq<Cell>>, k: nat)
    requires IsGrid(g) && k < 10
    ensures LineWon(g, k) <==> if k < 5 then RowMarked(g, k) else ColumnMarked(g, k - 5)
  {
    if k >= 5 {
      var l := Line(g, k);
      assert forall x :: 0 <= x < 5 ==> l[x] == g[x][k - 5];
    }
  }

  /** A card has won exactly when some whole row or some whole column is marked. */
  lemma HasWonMeaning(g: seq<seq<Cell>>)
    requires IsGrid(g)
    ensures HasWon(g) <==>
              (exists x :: 0 <= x < 5 && RowMarked(g, x)) || (exists y :: 0 <= y < 5 && ColumnMarked(g, y))
  {
    AnyLineFromMeaning(g, 0);
    if HasWon(g) {
      var l :| 0 <= l < 10 && LineWon(g, l);
      LineMarked(g, l);
    }
    if exists x :: 0 <= x < 5 && RowMarked(g, x) {
      var x :| 0 <= x < 5 && RowMarked(g, x);
      LineMarked(g, x);
    }
    if exists y :: 0 <= y < 5 && ColumnMarked(g, y) {
      var y :| 0 <= y < 5 && ColumnMarked(g, y);
      LineMarked(g, y + 5);
    }
  }

  /** A fully marked diagonal does not win on its own. */
  lemma DiagonalDoesNotWin(g: seq<seq<Cell>>)
    requires IsGrid(g)
    requires forall x, y :: 0 <= x < 5 && 0 <= y < 5 ==> (g[x][y].marked <==> x == y)
    ensures !HasWon(g)
  {
    HasWonMeaning(g);
    forall x | 0 <= x < 5
      ensures !RowMarked(g, x) && !ColumnMarked(g, x)
    {
      assert !g[x][(x + 1) % 5].marked && !g[(x + 1) % 5][x].marked;
    }
  }

  /** The sum of the unmarked numbers of a row. */
  function UnmarkedInRow(r: seq<Cell>): nat
  {
    if r == [] then 0
    else UnmarkedInRow(r[..|r| - 1]) + (if r[|r| - 1].marked then 0 else r[|r| - 1].number)
  }

  /** The sum of the unmarked numbers of the first `k` rows, in the order the grid is flattened. */
  function Unmarked(g: seq<seq<Cell>>, k: nat): nat
    requires k <= |g|
  {
    if k == 0 then 0 else Unmarked(g, k - 1) + UnmarkedInRow(g[k - 1])
  }

  /** `score`: the unmarked sum times the last called number; none is the panic when nothing was marked. */
  function Score(g: seq<seq<Cell>>, lastCalledNumber: Option<nat>): (s: Option<nat>)
    requires IsGrid(g)
    ensures s.None? <==> lastCalledNumber.None?
  {
    match lastCalledNumber
    case None => None
    case Some(n) => Some(Unmarked(g, 5) * n)
  }

  lemma {:induction false} UnmarkedInRowMark(r: seq<Cell>, y: nat)
    requires y < |r| && !r[y].marked
    ensures UnmarkedInRow(r[y := r[y].(marked := true)]) + r[y].number == UnmarkedInRow(r)
  {
    var n := |r| - 1;
    var r' := r[y := r[y].(marked := true)];
    assert r'[..n] == if y < n then r[..n][y := r[y].(marked := true)] else r[..n];
    if y < n {
      UnmarkedInRowMark(r[..n], y);
    }
  }

  lemma {:induction false} UnmarkedUpdate(g: seq<seq<Cell>>, x: nat, row: seq<Cell>, k: nat)
    requires x < |g| && k <= |g|
    ensures Unmarked(g[x := row], k) + (if x < k then UnmarkedInRow(g[x]) else 0) ==
            Unmarked(g, k) + (if x < k then UnmarkedInRow(row) else 0)
  {
    if k > 0 {
      UnmarkedUpdate(g, x, row, k - 1);
    }
  }

  /** Marking an unmarked cell lowers the unmarked sum by exactly that cell's number. */
  lemma MarkLowersUnmarked(g: seq<seq<Cell>>, x: nat, y: nat)
    requires IsGrid(g) && x < 5 && y < 5 && !g[x][y].marked
    ensures Unmarked(Mark(g, x, y), 5) + g[x][y].number == Unmarked(g, 5)
  {
    UnmarkedInRowMark(g[x], y);
    UnmarkedUpdate(g, x, g[x][y := g[x][y].(marked := true)], 5);
  }

  class BingoCard {
    var numbers: array2<Cell>
    var lastCalledNumber: Option<nat>

    predicate Valid()
      reads this
    {
      numbers.Length0 == 5 && numbers.Length1 == 5
    }

    /** The grid of the card, row by row. */
    function Grid(): (g: seq<seq<Cell>>)
      requires Valid()
      reads this, numbers
      ensures IsGrid(g)
      ensures forall x, y :: 0 <= x < 5 && 0 <= y < 5 ==> g[x][y] == numbers[x, y]
    {
      var a := numbers;
      seq(5, x requires 0 <= x < 5 reads a => seq(5, y requires 0 <= y < 5 reads a => a[x, y]))
    }

    /** `from_number_arrays`: every number unmarked, and no number called yet. */
    constructor FromNumberArrays(arrays: seq<seq<nat>>)
      requires |arrays| == 5 && forall x :: 0 <= x < 5 ==> |arrays[x]| == 5
      ensures Valid() && fresh(numbers)
      ensures forall x, y :: 0 <= x < 5 && 0 <= y < 5 ==> Grid()[x][y] == Cell(arrays[x][y], false)
      ensures lastCalledNumber.None?
    {
      numbers := new Cell[5, 5]((x, y) requires 0 <= x < 5 && 0 <= y < 5 => Cell(arrays[x][y], false));
      lastCalledNumber := None;
    }

    /**
     * `add_number`: mark the first unmarked cell holding `number` and remember the
     * number; a number with no unmarked cell changes nothing.
     */
    method AddNumber(number: nat)
      requires Valid()
      modifies this, numbers
      ensures Valid() && numbers == old(numbers)
      ensures var r := FirstUnmarked(old(Grid()), number);
              if r.None? then Grid() == old(Grid()) && lastCalledNumber == old(lastCalledNumber)
              else Grid() == Mark(old(Grid()), r.value.0, r.value.1) && lastCalledNumber == Some(number)
    {
      ghost var g := Grid();
      for x := 0 to 5
        invariant Grid() == g && lastCalledNumber == old(lastCalledNumber)
        invariant FirstUnmarked(g, number) == FirstFrom(g, number, x, 0)
      {
        for y := 0 to 5
          invariant Grid() == g && lastCalledNumber == old(lastCalledNumber)
          invariant FirstUnmarked(g, number) ==
                    if y < 5 then FirstFrom(g, number, x, y) else FirstFrom(g, number, x + 1, 0)
        {
          if numbers[x, y] == Cell(number, false) {
            numbers[x, y] := Cell(number, true);
            lastCalledNumber := Some(number);
            MarkedGrid(g, x, y);
            return;
          }
        }
      }
    }

    lemma MarkedGrid(g: seq<seq<Cell>>, x: nat, y: nat)
      requires Valid() && IsGrid(g) && x < 5 && y < 5
      requires forall i, j :: 0 <= i < 5 && 0 <= j < 5 ==>
                 numbers[i, j] == if i == x && j == y then g[x][y].(marked := true) else g[i][j]
      ensures Grid() == Mark(g, x, y)
    {
      var h := Mark(g, x, y);
      forall i | 0 <= i < 5
        ensures Grid()[i] == h[i]
      {
      }
    }

    /** `has_won`. */
    function HasWonCard(): bool
      requires Valid()
      reads this, numbers
    {
      HasWon(Grid())
    }

    /** `score`. */
    function ScoreCard(): Option<nat>
      requires Valid()
      reads this, numbers
    {
      Score(Grid(), lastCalledNumber)
    }
  }
}
