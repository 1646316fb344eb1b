// Rock paper scissors (2022, day 2).
//
// The strategy guide names a shape for the opponent (A, B, C) and either a
// shape (X, Y, Z) or the outcome wanted (X lose, Y draw, Z win). Shapes are
// ordered cyclically: each one beats exactly one other.

module RockPaperScissors {
  import opened Wrappers

  datatype HandShape = Rock | Paper | Scissors

  /** Rust's `std::cmp::Ordering`. */
  datatype Ordering = Less | Equal | Greater

  datatype WinType = Win | Draw | Lose

  /** The position of a shape on the cycle Rock, Paper, Scissors. */
  function Index(s: HandShape): nat
  {
    match s
    case Rock => 0
    case Paper => 1
    case Scissors => 2
  }

  /** The reversed ordering, what `Ordering::reverse` gives. */
  function Reverse(o: Ordering): Ordering
  {
    match o
    case Less => Greater
    case Equal => Equal
    case Greater => Less
  }

  /** `partial_cmp` (and `cmp`, which unwraps it): the match table of the source. */
  function Compare(a: HandShape, b: HandShape): Ordering
  {
    match a
    case Rock => (match b case Rock => Equal case Paper => Less case Scissors => Greater)
    case Paper => (match b case Rock => Greater case Paper => Equal case Scissors => Less)
    case Scissors => (match b case Rock => Less case Paper => Greater case Scissors => Equal)
  }

  /**
   * The table is the cyclic order: a shape is greater than the one just
   * before it on the cycle, less than the one just after it, and equal only
   * to itself.
   */
  lemma CompareMeaning(a: HandShape, b: HandShape)
    ensures Compare(a, b) == Equal <==> a == b
    ensures Compare(a, b) == Greater <==> (Index(a) - Index(b)) % 3 == 1
    ensures Compare(a, b) == Less <==> (Index(a) - Index(b)) % 3 == 2
  {
  }

  /** The comparison is antisymmetric: `a < b` exactly when `b > a`. */
  lemma CompareAntisymmetric(a: HandShape, b: HandShape)
    ensures Compare(b, a) == Reverse(Compare(a, b))
  {
  }

  /** The order is a cycle, so it is not transitive: Rock < Paper < Scissors < Rock. */
  lemma CompareCyclic()
    ensures Compare(Rock, Paper) == Less && Compare(Paper, Scissors) == Less
    ensures Compare(Scissors, Rock) == Less
    ensures !(forall a, b, c :: Compare(a, b) == Less && Compare(b, c) == Less ==> Compare(a, c) == Less)
  {
    assert Compare(Rock, Paper) == Less && Compare(Paper, Scissors) == Less && Compare(Rock, Scissors) != Less;
  }

  /** `From<char> for HandShape`; `None` where the source hits `unreachable!`. */
  function ShapeFromChar(c: char): (r: Option<HandShape>)
  {
    match c
    case 'A' => Some(Rock)
    case 'X' => Some(Rock)
    case 'B' => Some(Paper)
    case 'Y' => Some(Paper)
    case 'C' => Some(Scissors)
    case 'Z' => Some(Scissors)
    case _ => None
  }

  /** `From<char> for WinType`; `None` where the source hits `unreachable!`. */
  function WinTypeFromChar(c: char): (r: Option<WinType>)
  {
    match c
    case 'X' => Some(Lose)
    case 'Y' => Some(Draw)
    case 'Z' => Some(Win)
    case _ => None
  }

  /** The opponent's letter for a shape. */
  function OpponentLetter(s: HandShape): char
  {
    ['A', 'B', 'C'][Index(s)]
  }

  /** The player's letter for a shape. */
  function PlayerLetter(s: HandShape): char
  {
    ['X', 'Y', 'Z'][Index(s)]
  }

  /**
   * Decoding a shape accepts exactly the six letters, the two columns agree
   * on every shape, and each letter decodes back to its shape.
   */
  lemma ShapeFromCharMeaning(c: char)
    ensures ShapeFromChar(c).Some? <==> c in "ABCXYZ"
    ensures ShapeFromChar(c).Some? ==>
      c == OpponentLetter(ShapeFromChar(c).value) || c == PlayerLetter(ShapeFromChar(c).value)
    ensures forall s :: ShapeFromChar(OpponentLetter(s)) == Some(s) && ShapeFromChar(PlayerLetter(s)) == Some(s)
  {
    assert "ABCXYZ" == ['A', 'B', 'C', 'X', 'Y', 'Z'];
  }

  /** Decoding an outcome accepts exactly X, Y and Z, in the order lose, draw, win. */
  lemma WinTypeFromCharMeaning(c: char)
    ensures WinTypeFromChar(c).Some? <==> c in "XYZ"
    ensures WinTypeFromChar('X') == Some(Lose) && WinTypeFromChar('Y') == Some(Draw)
    ensures WinTypeFromChar('Z') == Some(Win)
  {
    assert "XYZ" == ['X', 'Y', 'Z'];
  }

  /** `raw_score`: the points a shape is worth by itself. */
  function RawScore(s: HandShape): (r: nat)
    ensures 1 <= r <= 3
  {
    match s
    case Rock => 1
    case Paper => 2
    case Scissors => 3
  }

  /** The shape scores are distinct: they are the cycle positions counted from one. */
  lemma RawScoreMeaning(s: HandShape)
    ensures RawScore(s) == Index(s) + 1
    ensures forall t :: RawScore(t) == RawScore(s) ==> t == s
  {
  }

  /** The ordering a player wants to get against the opponent. */
  function Wanted(w: WinType): Ordering
  {
    match w
    case Win => Greater
    case Draw => Equal
    case Lose => Less
  }

  /** `get_winning_shape_against`: the shape to play for the wanted outcome. */
  function WinningShapeAgainst(w: WinType, shape: HandShape): (r: HandShape)
  {
    match w
    case Win => (match shape case Rock => Paper case Paper => Scissors case Scissors => Rock)
    case Draw => shape
    case Lose => (match shape case Rock => Scissors case Paper => Rock case Scissors => Paper)
  }

  /**
   * The chosen shape gets the wanted outcome against the opponent's shape,
   * and it is the only shape that does.
   */
  lemma WinningShapeMeaning(w: WinType, shape: HandShape)
    ensures Compare(WinningShapeAgainst(w, shape), shape) == Wanted(w)
    ensures forall s :: Compare(s, shape) == Wanted(w) ==> s == WinningShapeAgainst(w, shape)
  {
  }
}
