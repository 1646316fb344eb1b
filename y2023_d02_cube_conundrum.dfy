// Cube conundrum (2023, day 2).
//
// An elf plays games with a bag of red, green and blue cubes: each game
// reveals a few handfuls. A game is possible with a given bag when no
// handful shows more cubes of a colour than the bag holds; the minimum set
// of a game is the smallest bag that makes it possible.

module CubeConundrum {
  import opened Wrappers

  /** The largest `u16` plus one. */
  const U16_LIMIT: nat := 0x1_0000

  /** The largest `u32` plus one. */
  const U32_LIMIT: nat := 0x1_0000_0000

  type U16 = x: nat | x < U16_LIMIT

  /** `CubeSet`: a handful of cubes, or the contents of a bag. */
  datatype CubeSet = CubeSet(red: U16, green: U16, blue: U16)

  /** `Game`. */
  datatype Game = Game(id: U16, cubeSets: seq<CubeSet>)

  /**
   * `CubeSet::power`: the product of the three counts, computed in `u32`;
   * `None` where the product overflows (a panic). The first product of two
   * `u16` values always fits.
   */
  function Power(c: CubeSet): (r: Option<nat>)
    ensures c.red * c.green < U32_LIMIT
  {
    MulBound(c.red, c.green);
    if c.red * c.green * c.blue >= U32_LIMIT then None else Some(c.red * c.green * c.blue)
  }

  lemma MulBound(a: U16, b: U16)
    ensures a * b < U32_LIMIT
  {
    MulLess(a, b, U16_LIMIT);
  }

  lemma MulLess(a: nat, b: nat, m: nat)
    requires a < m && b < m
    ensures a * b < m * m
  {
    assert a * b <= a * m;
    assert a * m < m * m;
  }

  /** Each count of the first set is at most the same count of the second. */
  predicate Within(c: CubeSet, bag: CubeSet)
  {
    c.red <= bag.red && c.green <= bag.green && c.blue <= bag.blue
  }

  /** A set within another has no greater power, and has one whenever the other does. */
  lemma PowerMonotone(c: CubeSet, bag: CubeSet)
    requires Within(c, bag) && Power(bag).Some?
    ensures Power(c).Some? && Power(c).value <= Power(bag).value
  {
    MulMonotone(c.red, c.green, bag.red, bag.green);
    MulMonotone(c.red * c.green, c.blue, bag.red * bag.green, bag.blue);
  }

  lemma MulMonotone(a: nat, b: nat, x: nat, y: nat)
    requires a <= x && b <= y
    ensures a * b <= x * y
  {
    assert a * b <= x * b;
    assert x * b <= x * y;
  }

  /** Every handful of the game fits the bag. */
  predicate Possible(game: Game, bag: CubeSet)
  {
    forall i :: 0 <= i < |game.cubeSets| ==> Within(game.cubeSets[i], bag)
  }

  /** `Game::is_possible`: the handfuls are checked in order, stopping at the first that does not fit. */
  method IsPossible(game: Game, bag: CubeSet) returns (b: bool)
    ensures b <==> Possible(game, bag)
  {
    for i := 0 to |game.cubeSets|
      invariant forall j :: 0 <= j < i ==> Within(game.cubeSets[j], bag)
    {
      var hand := game.cubeSets[i];
      if hand.red > bag.red || hand.green > bag.green || hand.blue > bag.blue {
        return false;
      }
    }
    return true;
  }

  function Max(a: U16, b: U16): U16
  {
    if a >= b then a else b
  }

  /** The greatest count of each colour over the handfuls, or 0 when there are none. */
  function MinimumSet(sets: seq<CubeSet>): CubeSet
  {
    if sets == [] then CubeSet(0, 0, 0)
    else
      var m := MinimumSet(sets[..|sets| - 1]);
      var last := sets[|sets| - 1];
      CubeSet(Max(m.red, last.red), Max(m.green, last.green), Max(m.blue, last.blue))
  }

  /** `Game::get_minimum_set`: running maxima over the handfuls, from zero. */
  method GetMinimumSet(game: Game) returns (m: CubeSet)
    ensures m == MinimumSet(game.cubeSets)
  {
    var red, green, blue := 0, 0, 0;
    for i := 0 to |game.cubeSets|
      invariant CubeSet(red, green, blue) == MinimumSet(game.cubeSets[..i])
    {
      var hand := game.cubeSets[i];
      assert game.cubeSets[..i + 1][..i] == game.cubeSets[..i];
      red := Max(red, hand.red);
      green := Max(green, hand.green);
      blue := Max(blue, hand.blue);
    }
    assert game.cubeSets[..|game.cubeSets|] == game.cubeSets;
    return CubeSet(red, green, blue);
  }

  /**
   * The minimum set is the least bag that makes the game possible: a bag
   * makes the game possible exactly when the minimum set fits in it.
   */
  lemma {:induction false} MinimumSetMeaning(sets: seq<CubeSet>, bag: CubeSet)
    ensures Possible(Game(0, sets), bag) <==> Within(MinimumSet(sets), bag)
  {
    if sets != [] {
      var front := sets[..|sets| - 1];
      MinimumSetMeaning(front, bag);
      assert forall i :: 0 <= i < |front| ==> front[i] == sets[i];
      assert Possible(Game(0, sets), bag) <==>
        Possible(Game(0, front), bag) && Within(sets[|sets| - 1], bag);
    }
  }

  /** A game is always possible with its own minimum set. */
  lemma PossibleWithMinimum(game: Game)
    ensures Possible(game, MinimumSet(game.cubeSets))
  {
    MinimumSetMeaning(game.cubeSets, MinimumSet(game.cubeSets));
    assert forall bag :: Possible(game, bag) == Possible(Game(0, game.cubeSets), bag);
  }

  /** Each count of the minimum set is 0 or the count of that colour in some handful. */
  lemma {:induction false} MinimumSetAttained(sets: seq<CubeSet>)
    ensures var m := MinimumSet(sets);
      (m.red == 0 || exists i :: 0 <= i < |sets| && sets[i].red == m.red) &&
      (m.green == 0 || exists i :: 0 <= i < |sets| && sets[i].green == m.green) &&
      (m.blue == 0 || exists i :: 0 <= i < |sets| && sets[i].blue == m.blue)
  {
    if sets != [] {
      var front := sets[..|sets| - 1];
      MinimumSetAttained(front);
      assert forall i :: 0 <= i < |front| ==> front[i] == sets[i];
    }
  }

  /** The first game of the tests needs at least 4 red, 2 green and 6 blue cubes: power 48. */
  lemma Sample()
    ensures MinimumSet([CubeSet(4, 0, 3), CubeSet(1, 2, 6), CubeSet(0, 2, 0)]) == CubeSet(4, 2, 6)
    ensures Power(CubeSet(4, 2, 6)) == Some(48)
  {
    var sets := [CubeSet(4, 0, 3), CubeSet(1, 2, 6), CubeSet(0, 2, 0)];
    assert sets[..2][..1] == [CubeSet(4, 0, 3)];
    assert [CubeSet(4, 0, 3)][..0] == [];
    assert MinimumSet([CubeSet(4, 0, 3)]) == CubeSet(4, 0, 3);
    assert sets[..2] == [CubeSet(4, 0, 3), CubeSet(1, 2, 6)];
    assert MinimumSet(sets[..2]) == CubeSet(4, 2, 6);
  }
}
