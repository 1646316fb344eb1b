// Gear ratios (2023, day 3).
//
// An engine schematic is a block of text holding numbers and symbols. A
// number is a part number when some symbol touches it, diagonals included.
// A gear is a `*` touching exactly two numbers; its ratio is their product.

module GearRatios {
  import opened Wrappers
  import opened Text

  /** Where an object sits: its line and the first and last column it covers. */
  datatype Position = Position(lineNo: nat, startIdx: nat, endIdx: nat)

  /** The parsed schematic: numbers with their positions, symbols with a gear flag and their positions. */
  datatype Schematic = Schematic(numbers: seq<(nat, Position)>, symbols: seq<(bool, Position)>)

  // Adjacency

  /** `Position::is_adjacent`. */
  function IsAdjacent(a: Position, b: Position): bool
  {
    if a.lineNo == b.lineNo then
      a.endIdx + 1 == b.startIdx || b.endIdx + 1 == a.startIdx
    else if Abs(a.lineNo - b.lineNo) == 1 then
      (a.endIdx + 1 >= b.startIdx && a.endIdx <= b.endIdx) ||
      (b.endIdx + 1 >= a.startIdx && b.endIdx <= a.endIdx)
    else
      false
  }

  /** A position covering at least one column, as every match does. */
  predicate WellFormed(p: Position)
  {
    p.startIdx <= p.endIdx
  }

  /** Column `col` is one of the position's columns. */
  predicate Covers(p: Position, col: int)
  {
    p.startIdx <= col <= p.endIdx
  }

  /**
   * The puzzle's notion of touching: some cell of `a` and some cell of `b`
   * are at most one line and one column apart.
   */
  ghost predicate Touch(a: Position, b: Position)
  {
    Abs(a.lineNo - b.lineNo) <= 1 &&
    exists i, j :: Covers(a, i) && Covers(b, j) && -1 <= i - j <= 1
  }

  /** Adjacency does not depend on which of the two positions asks. */
  lemma IsAdjacentSymmetric(a: Position, b: Position)
    ensures IsAdjacent(a, b) == IsAdjacent(b, a)
  {
  }

  /** Positions two or more lines apart are never adjacent. */
  lemma FarLinesNotAdjacent(a: Position, b: Position)
    requires Abs(a.lineNo - b.lineNo) >= 2
    ensures !IsAdjacent(a, b)
  {
  }

  /**
   * For two positions that do not overlap on one line (matches never do),
   * `is_adjacent` holds exactly when some cell of one touches some cell of
   * the other, diagonally included.
   */
  lemma IsAdjacentMeaning(a: Position, b: Position)
    requires WellFormed(a) && WellFormed(b)
    requires a.lineNo == b.lineNo ==> a.endIdx < b.startIdx || b.endIdx < a.startIdx
    ensures IsAdjacent(a, b) <==> Touch(a, b)
  {
    if IsAdjacent(a, b) {
      if a.lineNo == b.lineNo {
        if a.endIdx + 1 == b.startIdx {
          assert Covers(a, a.endIdx) && Covers(b, b.startIdx);
        } else {
          assert Covers(a, a.startIdx) && Covers(b, b.endIdx);
        }
      } else if a.endIdx + 1 >= b.startIdx && a.endIdx <= b.endIdx {
        var j := if b.startIdx <= a.endIdx then a.endIdx else b.startIdx;
        assert Covers(a, a.endIdx) && Covers(b, j);
      } else {
        var i := if a.startIdx <= b.endIdx then b.endIdx else a.startIdx;
        assert Covers(a, i) && Covers(b, b.endIdx);
      }
    }
    if Touch(a, b) {
      var i, j :| Covers(a, i) && Covers(b, j) && -1 <= i - j <= 1;
      if a.lineNo == b.lineNo {
        if a.endIdx < b.startIdx {
          assert a.endIdx + 1 == b.startIdx;
        } else {
          assert b.endIdx + 1 == a.startIdx;
        }
      }
    }
  }

  // Part numbers and gears

  /** Some symbol of the schematic is adjacent to the position. */
  predicate IsPartNumber(s: Schematic, pos: Position)
  {
    exists k :: 0 <= k < |s.symbols| && IsAdjacent(s.symbols[k].1, pos)
  }

  /** The closure of `get_part_numbers`' `filter_map`. */
  function PartTest(s: Schematic): ((nat, Position)) -> bool
  {
    (number: (nat, Position)) => IsPartNumber(s, number.1)
  }

  /** The numbers of a list of numbered positions, in order. */
  function Values(numbers: seq<(nat, Position)>): (r: seq<nat>)
    ensures |r| == |numbers| && forall k :: 0 <= k < |r| ==> r[k] == numbers[k].0
  {
    seq(|numbers|, k requires 0 <= k < |numbers| => numbers[k].0)
  }

  /** `Schematic::get_part_numbers`: the numbers adjacent to some symbol, in order. */
  function GetPartNumbers(s: Schematic): seq<nat>
  {
    Values(Filter(s.numbers, PartTest(s)))
  }

  /**
   * The part numbers are exactly the numbers adjacent to some symbol, each
   * once and in the order of the schematic: entry `k` is the number at the
   * `k`-th such index.
   */
  lemma PartNumbersMeaning(s: Schematic)
    ensures var ix := FilterIndices(s.numbers, PartTest(s));
      |GetPartNumbers(s)| == |ix| &&
      (forall k :: 0 <= k < |ix| ==> ix[k] < |s.numbers| && GetPartNumbers(s)[k] == s.numbers[ix[k]].0) &&
      (forall k, l :: 0 <= k < l < |ix| ==> ix[k] < ix[l]) &&
      (forall i :: 0 <= i < |s.numbers| ==> (i in ix <==> IsPartNumber(s, s.numbers[i].1)))
  {
    FilterMeaning(s.numbers, PartTest(s));
  }

  /**
   * Given the indices of the numbers that touch a symbol, in increasing
   * order, the part numbers are the numbers at those indices.
   */
  lemma PartNumbersAt(s: Schematic, ix: seq<nat>)
    requires Increasing(ix) && forall k :: 0 <= k < |ix| ==> ix[k] < |s.numbers|
    requires forall i :: 0 <= i < |s.numbers| ==> (PartTest(s)(s.numbers[i]) <==> i in ix)
    ensures GetPartNumbers(s) == seq(|ix|, k requires 0 <= k < |ix| => s.numbers[ix[k]].0)
  {
    PartNumbersMeaning(s);
    FilterIndicesExact(s.numbers, PartTest(s), ix);
  }

  /** The closure of `get_gear_ratios`' inner `filter_map`. */
  function AdjacentTest(pos: Position): ((nat, Position)) -> bool
  {
    (number: (nat, Position)) => IsAdjacent(number.1, pos)
  }

  /** The numbers adjacent to a symbol, in order. */
  function AdjacentNumbers(s: Schematic, pos: Position): seq<nat>
  {
    Values(Filter(s.numbers, AdjacentTest(pos)))
  }

  /** The closure of `get_gear_ratios`' outer `filter_map`: a ratio for a gear with exactly two numbers. */
  function GearRatio(s: Schematic, symbol: (bool, Position)): Option<nat>
  {
    var (isGear, pos) := symbol;
    if isGear then
      var adjacent := AdjacentNumbers(s, pos);
      if |adjacent| == 2 then Some(adjacent[0] * adjacent[1]) else None
    else
      None
  }

  /** Whether a symbol yields a ratio. */
  function GearTest(s: Schematic): ((bool, Position)) -> bool
  {
    (symbol: (bool, Position)) => GearRatio(s, symbol).Some?
  }

  /** `Schematic::get_gear_ratios`: the ratio of every gear with exactly two numbers, in order. */
  function GetGearRatios(s: Schematic): seq<nat>
  {
    var gears := Filter(s.symbols, GearTest(s));
    seq(|gears|, k requires 0 <= k < |gears| => GearRatio(s, gears[k]).value)
  }

  /**
   * The numbers adjacent to a symbol are exactly the numbers whose position
   * is adjacent to it, in the order of the schematic.
   */
  lemma AdjacentNumbersMeaning(s: Schematic, pos: Position)
    ensures var ix := FilterIndices(s.numbers, AdjacentTest(pos));
      |AdjacentNumbers(s, pos)| == |ix| &&
      (forall k :: 0 <= k < |ix| ==> ix[k] < |s.numbers| && AdjacentNumbers(s, pos)[k] == s.numbers[ix[k]].0) &&
      (forall k, l :: 0 <= k < l < |ix| ==> ix[k] < ix[l]) &&
      (forall i :: 0 <= i < |s.numbers| ==> (i in ix <==> IsAdjacent(s.numbers[i].1, pos)))
  {
    FilterMeaning(s.numbers, AdjacentTest(pos));
  }

  /** Symbol `i` is a gear with exactly two adjacent numbers, whose product is `ratio`. */
  predicate GearAt(s: Schematic, i: nat, ratio: nat)
    requires i < |s.symbols|
  {
    var (isGear, pos) := s.symbols[i];
    var adjacent := AdjacentNumbers(s, pos);
    isGear && |adjacent| == 2 && ratio == adjacent[0] * adjacent[1]
  }

  /**
   * The gear ratios come from exactly the symbols flagged as gears with
   * exactly two adjacent numbers, in order, and each is the product of
   * those two numbers.
   */
  lemma GearRatiosMeaning(s: Schematic)
    ensures var ix := FilterIndices(s.symbols, GearTest(s));
      |GetGearRatios(s)| == |ix| &&
      (forall k :: 0 <= k < |ix| ==>
        ix[k] < |s.symbols| && GearAt(s, ix[k], GetGearRatios(s)[k])) &&
      (forall k, l :: 0 <= k < l < |ix| ==> ix[k] < ix[l]) &&
      (forall i :: 0 <= i < |s.symbols| ==>
        (i in ix <==> s.symbols[i].0 && |AdjacentNumbers(s, s.symbols[i].1)| == 2))
  {
    FilterMeaning(s.symbols, GearTest(s));
  }

  // Parsing

  /** What a match found: a number with its value, or a symbol with its gear flag. */
  datatype Object = Number(value: nat) | Symbol(isGear: bool)

  /** The characters `[^.0-9]` matches. */
  predicate IsSymbolChar(c: char)
  {
    c != '.' && !IsDigit(c)
  }

  /** The end of the run of digits starting at `i`: the first index from `i` on that is not a digit. */
  function RunEnd(line: string, i: nat): (e: nat)
    requires i <= |line|
    ensures i <= e <= |line|
    ensures forall k :: i <= k < e ==> IsDigit(line[k])
    ensures e == |line| || !IsDigit(line[e])
    decreases |line| - i
  {
    if i < |line| && IsDigit(line[i]) then RunEnd(line, i + 1) else i
  }

  /**
   * `NUMBER.find_iter(line)` from index `i` on: each maximal run of digits,
   * with its value and its first and last column.
   */
  function NumberMatches(line: string, lineNo: nat, i: nat): seq<(Object, Position)>
    requires i <= |line|
    decreases |line| - i
  {
    if i == |line| then []
    else if !IsDigit(line[i]) then NumberMatches(line, lineNo, i + 1)
    else
      var e := RunEnd(line, i);
      [(Number(DigitsValue(line[i..e])), Position(lineNo, i, e - 1))] + NumberMatches(line, lineNo, e)
  }

  /** `SYMBOL.find_iter(line)` from index `i` on: each symbol character, flagged as a gear when it is `*`. */
  function SymbolMatches(line: string, lineNo: nat, i: nat): seq<(Object, Position)>
    requires i <= |line|
    decreases |line| - i
  {
    if i == |line| then []
    else
      (if IsSymbolChar(line[i]) then [(Symbol(line[i] == '*'), Position(lineNo, i, i))] else []) +
      SymbolMatches(line, lineNo, i + 1)
  }

  /** The objects one line contributes: its numbers, then its symbols. */
  function LineObjects(line: string, lineNo: nat): seq<(Object, Position)>
  {
    NumberMatches(line, lineNo, 0) + SymbolMatches(line, lineNo, 0)
  }

  /** The objects of the first `n` lines, in order. */
  function Objects(lines: seq<string>, n: nat): seq<(Object, Position)>
    requires n <= |lines|
  {
    if n == 0 then [] else Objects(lines, n - 1) + LineObjects(lines[n - 1], n - 1)
  }

  /** The numbers among some objects, in order, as the fold sorts them. */
  function NumbersOf(objects: seq<(Object, Position)>): seq<(nat, Position)>
  {
    if objects == [] then []
    else
      var (obj, pos) := objects[|objects| - 1];
      NumbersOf(objects[..|objects| - 1]) + (if obj.Number? then [(obj.value, pos)] else [])
  }

  /** The symbols among some objects, in order, as the fold sorts them. */
  function SymbolsOf(objects: seq<(Object, Position)>): seq<(bool, Position)>
  {
    if objects == [] then []
    else
      var (obj, pos) := objects[|objects| - 1];
      SymbolsOf(objects[..|objects| - 1]) + (if obj.Symbol? then [(obj.isGear, pos)] else [])
  }

  /**
   * `parse_schematic`: each line's numbers and then symbols are appended to
   * one list of objects, which a fold then sorts into numbers and symbols.
   */
  method ParseSchematic(input: string) returns (s: Schematic)
    ensures var objects := Objects(Lines(input), |Lines(input)|);
      s == Schematic(NumbersOf(objects), SymbolsOf(objects))
  {
    var lines := Lines(input);
    var objects: seq<(Object, Position)> := [];
    var lineNo := 0;
    while lineNo < |lines|
      invariant lineNo <= |lines|
      invariant objects == Objects(lines, lineNo)
    {
      var line := lines[lineNo];
      ghost var before := objects;
      objects := objects + NumberMatches(line, lineNo, 0);
      objects := objects + SymbolMatches(line, lineNo, 0);
      assert objects == before + LineObjects(line, lineNo);
      lineNo := lineNo + 1;
    }
    var numbers, symbols := SortObjects(objects);
    s := Schematic(numbers, symbols);
  }

  /** The fold of `parse_schematic`: numbers to one list and symbols to the other, each in order. */
  method SortObjects(objects: seq<(Object, Position)>) returns (numbers: seq<(nat, Position)>, symbols: seq<(bool, Position)>)
    ensures numbers == NumbersOf(objects) && symbols == SymbolsOf(objects)
  {
    numbers, symbols := [], [];
    var k := 0;
    while k < |objects|
      invariant k <= |objects|
      invariant numbers == NumbersOf(objects[..k]) && symbols == SymbolsOf(objects[..k])
    {
      assert objects[..k + 1][..k] == objects[..k];
      var (obj, pos) := objects[k];
      match obj {
        case Number(num) => numbers := numbers + [(num, pos)];
        case Symbol(isGear) => symbols := symbols + [(isGear, pos)];
      }
      k := k + 1;
    }
    assert objects[..k] == objects;
  }

  /**
   * A number found on `line` is a maximal run of digits there: every column
   * it covers is a digit, the columns just before and after are not, and
   * its value is the run's decimal value.
   */
  predicate MaximalRun(line: string, value: nat, pos: Position)
  {
    pos.startIdx <= pos.endIdx < |line| &&
    AllDigits(line[pos.startIdx..pos.endIdx + 1]) &&
    (pos.startIdx == 0 || !IsDigit(line[pos.startIdx - 1])) &&
    (pos.endIdx + 1 == |line| || !IsDigit(line[pos.endIdx + 1])) &&
    value == DigitsValue(line[pos.startIdx..pos.endIdx + 1])
  }

  /**
   * Numbers found on line `lineNo` at or after column `i`: each is a maximal
   * run of digits, and they come left to right with a gap between them.
   */
  predicate RunsFrom(line: string, lineNo: nat, i: nat, ms: seq<(Object, Position)>)
  {
    (forall k :: 0 <= k < |ms| ==>
      ms[k].0.Number? && ms[k].1.lineNo == lineNo && i <= ms[k].1.startIdx &&
      MaximalRun(line, ms[k].0.value, ms[k].1)) &&
    (forall k :: 0 <= k < |ms| - 1 ==> ms[k].1.endIdx + 1 < ms[k + 1].1.startIdx)
  }

  /**
   * Every match of `NUMBER` from a run boundary on is a maximal run of
   * digits on that line at or after `i`, and the runs come left to right
   * without touching.
   */
  lemma {:induction false} NumberMatchesSound(line: string, lineNo: nat, i: nat)
    requires i <= |line|
    requires i == 0 || i == |line| || !IsDigit(line[i - 1]) || !IsDigit(line[i])
    ensures RunsFrom(line, lineNo, i, NumberMatches(line, lineNo, i))
    decreases |line| - i
  {
    if i < |line| {
      if !IsDigit(line[i]) {
        assert NumberMatches(line, lineNo, i) == NumberMatches(line, lineNo, i + 1);
        NumberMatchesSound(line, lineNo, i + 1);
      } else {
        var e := RunEnd(line, i);
        NumberMatchesSound(line, lineNo, e);
        var head := (Number(DigitsValue(line[i..e])), Position(lineNo, i, e - 1));
        assert line[i..e] == line[i..(e - 1) + 1];
        RunsFromCons(line, lineNo, i, head, NumberMatches(line, lineNo, e));
        assert NumberMatches(line, lineNo, i) == [head] + NumberMatches(line, lineNo, e);
      }
    }
  }

  /** A maximal run followed by the runs after it is a list of runs from its start. */
  lemma RunsFromCons(line: string, lineNo: nat, i: nat, head: (Object, Position), rest: seq<(Object, Position)>)
    requires head.0.Number? && head.1.lineNo == lineNo && i <= head.1.startIdx
    requires MaximalRun(line, head.0.value, head.1)
    requires RunsFrom(line, lineNo, head.1.endIdx + 1, rest)
    ensures RunsFrom(line, lineNo, i, [head] + rest)
  {
    var ms := [head] + rest;
    forall k | 0 <= k < |ms|
      ensures ms[k].0.Number? && ms[k].1.lineNo == lineNo && i <= ms[k].1.startIdx &&
        MaximalRun(line, ms[k].0.value, ms[k].1)
    {
      if k > 0 {
        assert ms[k] == rest[k - 1];
      }
    }
    forall k | 0 <= k < |ms| - 1
      ensures ms[k].1.endIdx + 1 < ms[k + 1].1.startIdx
    {
      if k == 0 {
        var p := rest[0].1;
        assert MaximalRun(line, rest[0].0.value, p);
        assert line[p.startIdx..p.endIdx + 1][0] == line[p.startIdx];
      } else {
        assert ms[k] == rest[k - 1] && ms[k + 1] == rest[k];
      }
    }
  }

  /** Every digit at or after `i` lies inside some match of `NUMBER`. */
  lemma {:induction false} NumberMatchesComplete(line: string, lineNo: nat, i: nat, col: nat)
    requires i <= col < |line| && IsDigit(line[col])
    ensures exists k :: 0 <= k < |NumberMatches(line, lineNo, i)| && Covers(NumberMatches(line, lineNo, i)[k].1, col)
    decreases |line| - i
  {
    var ms := NumberMatches(line, lineNo, i);
    if !IsDigit(line[i]) {
      NumberMatchesComplete(line, lineNo, i + 1, col);
    } else {
      var e := RunEnd(line, i);
      if col < e {
        assert Covers(ms[0].1, col);
      } else {
        var rest := NumberMatches(line, lineNo, e);
        NumberMatchesComplete(line, lineNo, e, col);
        var k :| 0 <= k < |rest| && Covers(rest[k].1, col);
        assert ms[k + 1] == rest[k];
      }
    }
  }

  /**
   * Symbols found on line `lineNo` at or after column `i`: exactly the symbol
   * characters there, one column each, left to right, flagged as gears
   * exactly when they are `*`.
   */
  predicate SymbolsFrom(line: string, lineNo: nat, i: nat, ms: seq<(Object, Position)>)
  {
    (forall k :: 0 <= k < |ms| ==>
      ms[k].1.lineNo == lineNo && i <= ms[k].1.startIdx == ms[k].1.endIdx < |line| &&
      IsSymbolChar(line[ms[k].1.startIdx]) && ms[k].0 == Symbol(line[ms[k].1.startIdx] == '*')) &&
    (forall k :: 0 <= k < |ms| - 1 ==> ms[k].1.startIdx < ms[k + 1].1.startIdx) &&
    (forall col :: i <= col < |line| && IsSymbolChar(line[col]) ==>
      exists k :: 0 <= k < |ms| && ms[k].1.startIdx == col)
  }

  /**
   * The matches of `SYMBOL` from `i` on are exactly the symbol characters
   * there, one column each, left to right, flagged as gears exactly when
   * they are `*`.
   */
  lemma {:induction false} SymbolMatchesMeaning(line: string, lineNo: nat, i: nat)
    requires i <= |line|
    ensures SymbolsFrom(line, lineNo, i, SymbolMatches(line, lineNo, i))
    decreases |line| - i
  {
    if i < |line| {
      SymbolMatchesMeaning(line, lineNo, i + 1);
      var rest := SymbolMatches(line, lineNo, i + 1);
      if IsSymbolChar(line[i]) {
        SymbolsFromCons(line, lineNo, i, rest);
        assert SymbolMatches(line, lineNo, i) == [(Symbol(line[i] == '*'), Position(lineNo, i, i))] + rest;
      } else {
        SymbolsFromSkip(line, lineNo, i, rest);
        assert SymbolMatches(line, lineNo, i) == rest;
      }
    }
  }

  /** A column without a symbol adds nothing to the symbols after it. */
  lemma SymbolsFromSkip(line: string, lineNo: nat, i: nat, rest: seq<(Object, Position)>)
    requires i < |line| && !IsSymbolChar(line[i])
    requires SymbolsFrom(line, lineNo, i + 1, rest)
    ensures SymbolsFrom(line, lineNo, i, rest)
  {
  }

  /** Adding the symbol at column `i`, if there is one, to the symbols after it. */
  lemma SymbolsFromCons(line: string, lineNo: nat, i: nat, rest: seq<(Object, Position)>)
    requires i < |line| && IsSymbolChar(line[i])
    requires SymbolsFrom(line, lineNo, i + 1, rest)
    ensures SymbolsFrom(line, lineNo, i, [(Symbol(line[i] == '*'), Position(lineNo, i, i))] + rest)
  {
    var ms := [(Symbol(line[i] == '*'), Position(lineNo, i, i))] + rest;
    forall k | 0 <= k < |ms|
      ensures ms[k].1.lineNo == lineNo && i <= ms[k].1.startIdx == ms[k].1.endIdx < |line| &&
        IsSymbolChar(line[ms[k].1.startIdx]) && ms[k].0 == Symbol(line[ms[k].1.startIdx] == '*')
    {
      if k > 0 {
        assert ms[k] == rest[k - 1];
      }
    }
    forall k | 0 <= k < |ms| - 1
      ensures ms[k].1.startIdx < ms[k + 1].1.startIdx
    {
      if k > 0 {
        assert ms[k] == rest[k - 1] && ms[k + 1] == rest[k];
      }
    }
    forall col | i <= col < |line| && IsSymbolChar(line[col])
      ensures exists k :: 0 <= k < |ms| && ms[k].1.startIdx == col
    {
      if col == i {
        assert ms[0].1.startIdx == col;
      } else {
        var k :| 0 <= k < |rest| && rest[k].1.startIdx == col;
        assert ms[k + 1] == rest[k];
      }
    }
  }

  /** A number at `pos` is a maximal run of digits on its line of the input. */
  predicate NumberOnLines(lines: seq<string>, value: nat, pos: Position)
  {
    pos.lineNo < |lines| && MaximalRun(lines[pos.lineNo], value, pos)
  }

  /** A symbol at `pos` is one symbol character on its line, a gear when it is `*`. */
  predicate SymbolOnLines(lines: seq<string>, isGear: bool, pos: Position)
  {
    pos.lineNo < |lines| && pos.startIdx == pos.endIdx < |lines[pos.lineNo]| &&
    IsSymbolChar(lines[pos.lineNo][pos.startIdx]) && isGear == (lines[pos.lineNo][pos.startIdx] == '*')
  }

  /** An object found on the input, as its kind demands. */
  predicate ObjectOnLines(lines: seq<string>, found: (Object, Position))
  {
    match found.0
    case Number(value) => NumberOnLines(lines, value, found.1)
    case Symbol(isGear) => SymbolOnLines(lines, isGear, found.1)
  }

  /** Every object of the first `n` lines is found on the input. */
  lemma {:induction false} ObjectsOnLines(lines: seq<string>, n: nat)
    requires n <= |lines|
    ensures forall k :: 0 <= k < |Objects(lines, n)| ==> ObjectOnLines(lines, Objects(lines, n)[k])
  {
    if n > 0 {
      ObjectsOnLines(lines, n - 1);
      LineObjectsOnLines(lines, n - 1);
      var before, now := Objects(lines, n - 1), LineObjects(lines[n - 1], n - 1);
      assert Objects(lines, n) == before + now;
      forall k | 0 <= k < |before + now|
        ensures ObjectOnLines(lines, (before + now)[k])
      {
        if k >= |before| {
          assert (before + now)[k] == now[k - |before|];
        }
      }
    }
  }

  /** Every object `LineObjects` finds on line `lineNo` is found on the input. */
  lemma LineObjectsOnLines(lines: seq<string>, lineNo: nat)
    requires lineNo < |lines|
    ensures forall k :: 0 <= k < |LineObjects(lines[lineNo], lineNo)| ==>
      ObjectOnLines(lines, LineObjects(lines[lineNo], lineNo)[k])
  {
    var line := lines[lineNo];
    var numbers, symbols := NumberMatches(line, lineNo, 0), SymbolMatches(line, lineNo, 0);
    NumberMatchesSound(line, lineNo, 0);
    SymbolMatchesMeaning(line, lineNo, 0);
    assert LineObjects(line, lineNo) == numbers + symbols;
    forall k | 0 <= k < |numbers + symbols|
      ensures ObjectOnLines(lines, (numbers + symbols)[k])
    {
      if k < |numbers| {
        assert (numbers + symbols)[k] == numbers[k];
      } else {
        assert (numbers + symbols)[k] == symbols[k - |numbers|];
      }
    }
  }

  /** The fold keeps only numbers found on the input, and only symbols found on it. */
  lemma {:induction false} SortedOnLines(lines: seq<string>, objects: seq<(Object, Position)>)
    requires forall k :: 0 <= k < |objects| ==> ObjectOnLines(lines, objects[k])
    ensures forall k :: 0 <= k < |NumbersOf(objects)| ==> NumberOnLines(lines, NumbersOf(objects)[k].0, NumbersOf(objects)[k].1)
    ensures forall k :: 0 <= k < |SymbolsOf(objects)| ==> SymbolOnLines(lines, SymbolsOf(objects)[k].0, SymbolsOf(objects)[k].1)
  {
    if objects != [] {
      var front := objects[..|objects| - 1];
      assert forall k :: 0 <= k < |front| ==> front[k] == objects[k];
      SortedOnLines(lines, front);
      assert ObjectOnLines(lines, objects[|objects| - 1]);
    }
  }

  /**
   * Every number `parse_schematic` reports is a maximal run of digits on its
   * line, with that run's value, and every symbol is a single character other
   * than `.` or a digit, a gear exactly when it is `*`.
   */
  lemma ParseSchematicSound(input: string)
    ensures var lines := Lines(input);
      var objects := Objects(lines, |lines|);
      (forall k :: 0 <= k < |NumbersOf(objects)| ==> NumberOnLines(lines, NumbersOf(objects)[k].0, NumbersOf(objects)[k].1)) &&
      (forall k :: 0 <= k < |SymbolsOf(objects)| ==> SymbolOnLines(lines, SymbolsOf(objects)[k].0, SymbolsOf(objects)[k].1))
  {
    var lines := Lines(input);
    ObjectsOnLines(lines, |lines|);
    SortedOnLines(lines, Objects(lines, |lines|));
  }

  /** The fold keeps every number it meets. */
  lemma {:induction false} NumbersOfKeeps(objects: seq<(Object, Position)>, k: nat)
    requires k < |objects| && objects[k].0.Number?
    ensures (objects[k].0.value, objects[k].1) in NumbersOf(objects)
  {
    var front := objects[..|objects| - 1];
    if k < |front| {
      assert front[k] == objects[k];
      NumbersOfKeeps(front, k);
    }
  }

  /** The fold keeps every symbol it meets. */
  lemma {:induction false} SymbolsOfKeeps(objects: seq<(Object, Position)>, k: nat)
    requires k < |objects| && objects[k].0.Symbol?
    ensures (objects[k].0.isGear, objects[k].1) in SymbolsOf(objects)
  {
    var front := objects[..|objects| - 1];
    if k < |front| {
      assert front[k] == objects[k];
      SymbolsOfKeeps(front, k);
    }
  }

  /** The objects of line `l` are among the objects of the first `n` lines once `l < n`. */
  lemma {:induction false} ObjectsInclude(lines: seq<string>, n: nat, l: nat, k: nat)
    requires l < n <= |lines| && k < |LineObjects(lines[l], l)|
    ensures LineObjects(lines[l], l)[k] in Objects(lines, n)
  {
    var now := LineObjects(lines[n - 1], n - 1);
    assert Objects(lines, n) == Objects(lines, n - 1) + now;
    if l < n - 1 {
      ObjectsInclude(lines, n - 1, l, k);
    } else {
      assert Objects(lines, n)[|Objects(lines, n - 1)| + k] == now[k];
    }
  }

  /** Every digit of the lines lies inside a number found on its line. */
  lemma NumbersComplete(lines: seq<string>, l: nat, col: nat)
    requires l < |lines| && col < |lines[l]| && IsDigit(lines[l][col])
    ensures exists p :: p in NumbersOf(Objects(lines, |lines|)) && p.1.lineNo == l && Covers(p.1, col)
  {
    var line := lines[l];
    var numbers := NumberMatches(line, l, 0);
    NumberMatchesSound(line, l, 0);
    NumberMatchesComplete(line, l, 0, col);
    var k :| 0 <= k < |numbers| && Covers(numbers[k].1, col);
    assert LineObjects(line, l)[k] == numbers[k];
    ObjectsInclude(lines, |lines|, l, k);
    var objects := Objects(lines, |lines|);
    var j :| 0 <= j < |objects| && objects[j] == numbers[k];
    NumbersOfKeeps(objects, j);
  }

  /** Every symbol character of the lines is found as a symbol on its line. */
  lemma SymbolsComplete(lines: seq<string>, l: nat, col: nat)
    requires l < |lines| && col < |lines[l]| && IsSymbolChar(lines[l][col])
    ensures (lines[l][col] == '*', Position(l, col, col)) in SymbolsOf(Objects(lines, |lines|))
  {
    var line := lines[l];
    var numbers, symbols := NumberMatches(line, l, 0), SymbolMatches(line, l, 0);
    SymbolMatchesMeaning(line, l, 0);
    var k :| 0 <= k < |symbols| && symbols[k].1.startIdx == col;
    assert LineObjects(line, l)[|numbers| + k] == symbols[k];
    ObjectsInclude(lines, |lines|, l, |numbers| + k);
    var objects := Objects(lines, |lines|);
    var j :| 0 <= j < |objects| && objects[j] == symbols[k];
    SymbolsOfKeeps(objects, j);
  }

  /**
   * Every digit of the input lies inside a number `parse_schematic` reports
   * on its line, and every symbol character is reported as a symbol, a gear
   * exactly when it is `*`.
   */
  lemma ParseSchematicComplete(input: string, l: nat, col: nat)
    requires l < |Lines(input)| && col < |Lines(input)[l]|
    ensures var lines := Lines(input);
      var objects := Objects(lines, |lines|);
      (IsDigit(lines[l][col]) ==> exists p :: p in NumbersOf(objects) && p.1.lineNo == l && Covers(p.1, col)) &&
      (IsSymbolChar(lines[l][col]) ==> (lines[l][col] == '*', Position(l, col, col)) in SymbolsOf(objects))
  {
    var lines := Lines(input);
    if IsDigit(lines[l][col]) {
      NumbersComplete(lines, l, col);
    }
    if IsSymbolChar(lines[l][col]) {
      SymbolsComplete(lines, l, col);
    }
  }

  // The examples of the tests

  /** The schematic the parse test expects for the example input. */
  function SampleSchematic(): Schematic
  {
    Schematic(
      [(467, Position(0, 0, 2)), (114, Position(0, 5, 7)), (35, Position(2, 2, 3)),
       (633, Position(2, 6, 8)), (617, Position(4, 0, 2)), (58, Position(5, 7, 8)),
       (592, Position(6, 2, 4)), (755, Position(7, 6, 8)), (664, Position(9, 1, 3)),
       (598, Position(9, 5, 7))],
      [(true, Position(1, 3, 3)), (false, Position(3, 6, 6)), (true, Position(4, 3, 3)),
       (false, Position(5, 5, 5)), (false, Position(8, 3, 3)), (true, Position(8, 5, 5))])
  }

  /** The four `is_adjacent` checks of the tests. */
  lemma SampleAdjacency()
    ensures IsAdjacent(Position(0, 0, 2), Position(1, 3, 3))
    ensures IsAdjacent(Position(4, 0, 2), Position(4, 3, 3))
    ensures !IsAdjacent(Position(5, 7, 8), Position(5, 5, 5))
    ensures IsAdjacent(Position(2, 2, 3), Position(1, 3, 3))
  {
  }

  /** Which numbers of the example schematic touch a symbol: all but 114 and 58. */
  lemma SamplePartTests(s: Schematic)
    requires s == SampleSchematic()
    ensures forall i :: 0 <= i < |s.numbers| ==> (PartTest(s)(s.numbers[i]) <==> i in [0, 2, 3, 4, 6, 7, 8, 9])
  {
    var sym := s.symbols;
    assert IsAdjacent(sym[0].1, s.numbers[0].1) && IsAdjacent(sym[0].1, s.numbers[2].1);
    assert IsAdjacent(sym[1].1, s.numbers[3].1) && IsAdjacent(sym[2].1, s.numbers[4].1);
    assert IsAdjacent(sym[3].1, s.numbers[6].1) && IsAdjacent(sym[5].1, s.numbers[7].1);
    assert IsAdjacent(sym[4].1, s.numbers[8].1) && IsAdjacent(sym[5].1, s.numbers[9].1);
    assert forall k :: 0 <= k < |sym| ==> !IsAdjacent(sym[k].1, s.numbers[1].1) && !IsAdjacent(sym[k].1, s.numbers[5].1);
  }

  /** The part numbers of the example schematic, as the test expects them. */
  lemma SamplePartNumbers(s: Schematic)
    requires s == SampleSchematic()
    ensures GetPartNumbers(s) == [467, 35, 633, 617, 592, 755, 664, 598]
  {
    SamplePartTests(s);
    var ix: seq<nat> := [0, 2, 3, 4, 6, 7, 8, 9];
    PartNumbersAt(s, ix);
  }
}
