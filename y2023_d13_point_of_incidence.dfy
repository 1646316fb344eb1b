// Point of incidence (2023, day 13).
//
// A scan is a grid of ash (`.`) and rock (`#`). A line of symmetry is a gap
// between two rows, or two columns, about which the grid reads the same on
// both sides up to the nearer edge. A smudged line is one about which exactly
// one mirrored cell differs.

module PointOfIncidence {
  import opened Wrappers
  import opened Text

  /** One row per line, `true` for rock. */
  type Scan = seq<seq<bool>>

  function Min(a: nat, b: nat): nat
  {
    if a <= b then a else b
  }

  // Parsing and rendering

  /** A row of the scan: `#` is rock, any other character is not. */
  function ParseRow(line: string): seq<bool>
  {
    seq(|line|, i requires 0 <= i < |line| => line[i] == '#')
  }

  /** `parse_single_scan`: one row per line of the block. */
  function ParseSingleScan(input: string): Scan
  {
    var ls := Lines(input);
    seq(|ls|, i requires 0 <= i < |ls| => ParseRow(ls[i]))
  }

  /** `parse_scans`: the blocks between blank lines, each parsed as a scan. */
  function ParseScans(input: string): seq<Scan>
  {
    var blocks := SplitBlank(input);
    seq(|blocks|, i requires 0 <= i < |blocks| => ParseSingleScan(blocks[i]))
  }

  /** A row written with `#` for rock and `.` for ash. */
  function RenderRow(row: seq<bool>): string
  {
    seq(|row|, i requires 0 <= i < |row| => if row[i] then '#' else '.')
  }

  /** Every row of a scan, written out. */
  function RenderRows(scan: Scan): (ls: seq<string>)
    ensures |ls| == |scan|
  {
    seq(|scan|, i requires 0 <= i < |scan| => RenderRow(scan[i]))
  }

  /** `render_scan`: the written rows with a newline between each two. */
  function RenderScan(scan: Scan): string
  {
    Join(RenderRows(scan), '\n')
  }

  /** A written row is a plain line of the same length, and parses back to the row. */
  lemma ParseRenderRow(row: seq<bool>)
    ensures |RenderRow(row)| == |row|
    ensures '\n' !in RenderRow(row) && PlainLine(RenderRow(row))
    ensures ParseRow(RenderRow(row)) == row
  {
  }

  /** The written rows of a scan whose rows are not empty. */
  lemma RenderRowsPlain(scan: Scan)
    requires forall r :: 0 <= r < |scan| ==> scan[r] != []
    ensures forall r :: 0 <= r < |scan| ==> RenderRows(scan)[r] != "" && '\n' !in RenderRows(scan)[r] && PlainLine(RenderRows(scan)[r])
  {
    forall r | 0 <= r < |scan|
      ensures RenderRows(scan)[r] != "" && '\n' !in RenderRows(scan)[r] && PlainLine(RenderRows(scan)[r])
    {
      ParseRenderRow(scan[r]);
    }
  }

  /** Parsing the rows of written lines gives the rows back. */
  lemma ParseRenderedLines(scan: Scan, ls: seq<string>)
    requires ls == RenderRows(scan)
    ensures seq(|ls|, i requires 0 <= i < |ls| => ParseRow(ls[i])) == scan
  {
    forall r | 0 <= r < |scan|
      ensures ParseRow(ls[r]) == scan[r]
    {
      ParseRenderRow(scan[r]);
    }
  }

  /** `render_scan` is read back by `parse_single_scan` when the last row is not empty. */
  lemma ParseRenderScan(scan: Scan)
    requires |scan| >= 1 && scan[|scan| - 1] != []
    ensures ParseSingleScan(RenderScan(scan)) == scan
  {
    var ls := RenderRows(scan);
    forall r | 0 <= r < |scan|
      ensures PlainLine(ls[r])
    {
      ParseRenderRow(scan[r]);
    }
    ParseRenderRow(scan[|scan| - 1]);
    LinesJoin(ls);
    ParseRenderedLines(scan, ls);
  }

  /**
   * The text of several scans as the puzzle input writes them: each block's
   * rows on their own lines, a blank line between blocks, and a newline
   * after the last row of the last block.
   */
  function ScansText(scans: seq<Scan>): string
    requires |scans| >= 1
    decreases |scans|
  {
    if |scans| == 1 then Unlines(RenderRows(scans[0]))
    else RenderScan(scans[0]) + "\n\n" + ScansText(scans[1..])
  }

  /** A block of the input written with no blank line in it, ending in a newline. */
  lemma {:induction false} ScansTextSplits(scans: seq<Scan>)
    requires |scans| >= 1
    requires forall s :: 0 <= s < |scans| ==> |scans[s]| >= 1
    requires forall s, r :: 0 <= s < |scans| && 0 <= r < |scans[s]| ==> scans[s][r] != []
    ensures SplitBlank(ScansText(scans)) == seq(|scans| - 1, i requires 0 <= i < |scans| - 1 => RenderScan(scans[i])) + [Unlines(RenderRows(scans[|scans| - 1]))]
    decreases |scans|
  {
    var head := scans[0];
    RenderRowsPlain(head);
    if |scans| == 1 {
      UnlinesNoBlank(RenderRows(head));
      SplitBlankNone(ScansText(scans));
    } else {
      JoinNoBlank(RenderRows(head));
      SplitBlankPiece(RenderScan(head), ScansText(scans[1..]));
      ScansTextSplits(scans[1..]);
    }
  }

  /** `parse_scans` reads back every scan of the input text, when no row is empty. */
  lemma ParseScansText(scans: seq<Scan>)
    requires |scans| >= 1
    requires forall s :: 0 <= s < |scans| ==> |scans[s]| >= 1
    requires forall s, r :: 0 <= s < |scans| && 0 <= r < |scans[s]| ==> scans[s][r] != []
    ensures ParseScans(ScansText(scans)) == scans
  {
    ScansTextSplits(scans);
    var blocks := SplitBlank(ScansText(scans));
    forall s | 0 <= s < |scans|
      ensures ParseSingleScan(blocks[s]) == scans[s]
    {
      if s < |scans| - 1 {
        ParseRenderScan(scans[s]);
      } else {
        var ls := RenderRows(scans[s]);
        RenderRowsPlain(scans[s]);
        LinesUnlines(ls);
        ParseRenderedLines(scans[s], ls);
      }
    }
  }

  // Plain symmetry

  /** The sequence back to front. */
  function Reversed<T>(s: seq<T>): seq<T>
  {
    seq(|s|, i requires 0 <= i < |s| => s[|s| - 1 - i])
  }

  /** `xs.zip(ys).all(|(a, b)| a == b)`: the pairs up to the shorter side are equal. */
  function ZipAllEqual<T(==)>(xs: seq<T>, ys: seq<T>): bool
    decreases |xs|
  {
    xs == [] || ys == [] || (xs[0] == ys[0] && ZipAllEqual(xs[1..], ys[1..]))
  }

  /** Zipped pairs agree exactly when every index below the shorter length agrees. */
  lemma {:induction false} ZipAllEqualMeaning<T>(xs: seq<T>, ys: seq<T>)
    ensures ZipAllEqual(xs, ys) <==> forall k :: 0 <= k < Min(|xs|, |ys|) ==> xs[k] == ys[k]
    decreases |xs|
  {
    if xs != [] && ys != [] {
      ZipAllEqualMeaning(xs[1..], ys[1..]);
      if xs[0] == ys[0] && ZipAllEqual(xs[1..], ys[1..]) {
        forall k | 0 <= k < Min(|xs|, |ys|)
          ensures xs[k] == ys[k]
        {
          if k > 0 {
            assert xs[1..][k - 1] == xs[k] && ys[1..][k - 1] == ys[k];
          }
        }
      } else if xs[0] == ys[0] {
        var k :| 0 <= k < Min(|xs| - 1, |ys| - 1) && xs[1..][k] != ys[1..][k];
        assert xs[k + 1] != ys[k + 1];
      }
    }
  }

  /** How far a mirror after index `idx` reaches in a sequence of `len`: up to the nearer end. */
  function Reach(idx: nat, len: nat): nat
    requires idx < len
  {
    Min(idx + 1, len - idx - 1)
  }

  /** `s[..=idx].rev()`: the elements up to the gap after `idx`, read back from it. */
  function Above<T>(s: seq<T>, idx: nat): (a: seq<T>)
    requires idx < |s|
    ensures |a| == idx + 1
  {
    Reversed(s[..idx + 1])
  }

  /** `s[idx + 1..]`: the elements after the gap, read away from it. */
  function Below<T>(s: seq<T>, idx: nat): seq<T>
    requires idx < |s|
  {
    s[idx + 1..]
  }

  /** The first half read back from the gap, zipped with the second half. */
  predicate MirroredAt<T(==)>(s: seq<T>, idx: nat)
    requires idx < |s|
  {
    ZipAllEqual(Above(s, idx), Below(s, idx))
  }

  /**
   * Mirrored about the gap after `idx`: any two elements at the same
   * distance from the gap, one on each side, are equal.
   */
  lemma MirroredAtMeaning<T>(s: seq<T>, idx: nat)
    requires idx < |s|
    ensures MirroredAt(s, idx) <==> forall i, j :: 0 <= i <= idx < j < |s| && i + j == 2 * idx + 1 ==> s[i] == s[j]
  {
    var before, after := Above(s, idx), Below(s, idx);
    ZipAllEqualMeaning(before, after);
    assert forall k :: 0 <= k < Reach(idx, |s|) ==> before[k] == s[idx - k] && after[k] == s[idx + 1 + k];
    if MirroredAt(s, idx) {
      forall i, j | 0 <= i <= idx < j < |s| && i + j == 2 * idx + 1
        ensures s[i] == s[j]
      {
        assert before[idx - i] == s[i] && after[idx - i] == s[j];
      }
    }
    if forall i, j :: 0 <= i <= idx < j < |s| && i + j == 2 * idx + 1 ==> s[i] == s[j] {
      forall k | 0 <= k < Reach(idx, |s|)
        ensures before[k] == after[k]
      {
        assert s[idx - k] == s[idx + 1 + k];
      }
    }
  }

  /** `is_row_of_symmetry`: the rows read back from the gap match the rows after it. */
  function IsRowOfSymmetry(scan: Scan, rowIdx: nat): bool
    requires rowIdx < |scan|
  {
    MirroredAt(scan, rowIdx)
  }

  /** Every row is long enough for the column slices at `colIdx`. */
  predicate Spans(scan: Scan, colIdx: nat)
  {
    forall r :: 0 <= r < |scan| ==> colIdx < |scan[r]|
  }

  /** `is_column_of_symmetry`: every row, in order, is mirrored about the gap after `colIdx`. */
  function IsColumnOfSymmetry(scan: Scan, colIdx: nat): bool
    requires Spans(scan, colIdx)
    decreases |scan|
  {
    scan == [] || (MirroredAt(scan[0], colIdx) && IsColumnOfSymmetry(scan[1..], colIdx))
  }

  /** A row line: any two rows at the same distance from the gap, one on each side, are equal. */
  lemma RowSymmetryMeaning(scan: Scan, rowIdx: nat)
    requires rowIdx < |scan|
    ensures IsRowOfSymmetry(scan, rowIdx) <==>
      forall i, j :: 0 <= i <= rowIdx < j < |scan| && i + j == 2 * rowIdx + 1 ==> scan[i] == scan[j]
  {
    MirroredAtMeaning(scan, rowIdx);
  }

  /** A column line: the mirror holds within every row. */
  lemma {:induction false} ColumnSymmetryMeaning(scan: Scan, colIdx: nat)
    requires Spans(scan, colIdx)
    ensures IsColumnOfSymmetry(scan, colIdx) <==> forall r :: 0 <= r < |scan| ==> MirroredAt(scan[r], colIdx)
    decreases |scan|
  {
    if scan != [] {
      ColumnSymmetryMeaning(scan[1..], colIdx);
      assert forall r :: 1 <= r < |scan| ==> scan[1..][r - 1] == scan[r];
    }
  }

  // Smudged symmetry

  /** Sums of naturals never go below zero. */
  lemma {:induction false} SumNonnegative(s: seq<int>)
    requires forall i :: 0 <= i < |s| ==> s[i] >= 0
    ensures Sum(s) >= 0
    decreases |s|
  {
    if s != [] {
      SumNonnegative(s[..|s| - 1]);
    }
  }

  /** A sum of naturals is zero exactly when every term is. */
  lemma {:induction false} SumZero(s: seq<int>)
    requires forall i :: 0 <= i < |s| ==> s[i] >= 0
    ensures Sum(s) == 0 <==> forall i :: 0 <= i < |s| ==> s[i] == 0
    decreases |s|
  {
    if s != [] {
      var front := s[..|s| - 1];
      SumZero(front);
      SumNonnegative(front);
      assert forall i :: 0 <= i < |front| ==> front[i] == s[i];
    }
  }

  /** A sum of naturals is one exactly when one term is one and every other is zero. */
  lemma {:induction false} SumOne(s: seq<int>)
    requires forall i :: 0 <= i < |s| ==> s[i] >= 0
    ensures Sum(s) == 1 <==> exists i :: 0 <= i < |s| && s[i] == 1 && forall j :: 0 <= j < |s| && j != i ==> s[j] == 0
    decreases |s|
  {
    if s != [] {
      var front := s[..|s| - 1];
      var last := |s| - 1;
      assert forall i :: 0 <= i < |front| ==> front[i] == s[i];
      SumOne(front);
      SumZero(front);
      SumNonnegative(front);
      if Sum(s) == 1 {
        if s[last] == 1 {
          assert forall j :: 0 <= j < |s| && j != last ==> s[j] == 0;
        } else {
          var i :| 0 <= i < |front| && front[i] == 1 && forall j :: 0 <= j < |front| && j != i ==> front[j] == 0;
          assert forall j :: 0 <= j < |s| && j != i ==> s[j] == 0;
        }
      }
      if exists i :: 0 <= i < |s| && s[i] == 1 && forall j :: 0 <= j < |s| && j != i ==> s[j] == 0 {
        var i :| 0 <= i < |s| && s[i] == 1 && forall j :: 0 <= j < |s| && j != i ==> s[j] == 0;
        if i == last {
          assert Sum(front) == 0;
        } else {
          assert s[last] == 0;
          assert front[i] == 1 && forall j :: 0 <= j < |front| && j != i ==> front[j] == 0;
        }
      }
    }
  }

  /** A prefix of a sum of naturals is no larger than the whole. */
  lemma {:induction false} SumPrefix(s: seq<int>, k: nat)
    requires k <= |s|
    requires forall i :: 0 <= i < |s| ==> s[i] >= 0
    ensures Sum(s[..k]) <= Sum(s)
    decreases |s|
  {
    if k < |s| {
      var front := s[..|s| - 1];
      assert front[..k] == s[..k];
      SumPrefix(front, k);
    } else {
      assert s[..k] == s;
    }
  }

  /** One more term of a sum. */
  lemma SumStep(s: seq<int>, k: nat)
    requires k < |s|
    ensures Sum(s[..k + 1]) == Sum(s[..k]) + s[k]
  {
    assert s[..k + 1][..k] == s[..k];
  }

  /** One for each zipped pair that differs. */
  function Diffs<T(==)>(xs: seq<T>, ys: seq<T>): (d: seq<int>)
    ensures |d| == Min(|xs|, |ys|)
    ensures forall k :: 0 <= k < |d| ==> d[k] >= 0
  {
    seq(Min(|xs|, |ys|), k requires 0 <= k < Min(|xs|, |ys|) => if xs[k] != ys[k] then 1 else 0)
  }

  /** How many zipped pairs differ: the `a != b` count, or `(a ^ b).count_ones()` on two rows. */
  function Mismatches<T(==)>(xs: seq<T>, ys: seq<T>): nat
    decreases |xs|
  {
    var n := Min(|xs|, |ys|);
    if n == 0 then 0
    else Mismatches(xs[..n - 1], ys[..n - 1]) + (if xs[n - 1] != ys[n - 1] then 1 else 0)
  }

  /** The count is the sum of the differing pairs. */
  lemma {:induction false} MismatchesSum<T>(xs: seq<T>, ys: seq<T>)
    ensures Mismatches(xs, ys) == Sum(Diffs(xs, ys))
    decreases |xs|
  {
    var n := Min(|xs|, |ys|);
    if n > 0 {
      MismatchesSum(xs[..n - 1], ys[..n - 1]);
      assert Diffs(xs, ys)[..n - 1] == Diffs(xs[..n - 1], ys[..n - 1]);
    }
  }

  /** No pair differs exactly when the zipped pairs all agree. */
  lemma MismatchesZero<T>(xs: seq<T>, ys: seq<T>)
    ensures Mismatches(xs, ys) == 0 <==> ZipAllEqual(xs, ys)
  {
    var d := Diffs(xs, ys);
    MismatchesSum(xs, ys);
    SumZero(d);
    ZipAllEqualMeaning(xs, ys);
    assert forall k :: 0 <= k < |d| ==> (d[k] == 0 <==> xs[k] == ys[k]);
  }

  /** One pair differs exactly when one index below the shorter length differs and no other does. */
  lemma MismatchesOne<T>(xs: seq<T>, ys: seq<T>)
    ensures Mismatches(xs, ys) == 1 <==>
      exists k :: 0 <= k < Min(|xs|, |ys|) && xs[k] != ys[k] &&
        forall j :: 0 <= j < Min(|xs|, |ys|) && j != k ==> xs[j] == ys[j]
  {
    var d := Diffs(xs, ys);
    MismatchesSum(xs, ys);
    SumOne(d);
    assert forall k :: 0 <= k < |d| ==> (d[k] == 1 <==> xs[k] != ys[k]) && (d[k] == 0 <==> xs[k] == ys[k]);
  }

  /** The cells of a row that differ from their mirror image about the gap after `colIdx`. */
  function RowMirrorMismatches(row: seq<bool>, colIdx: nat): nat
    requires colIdx < |row|
  {
    Mismatches(Above(row, colIdx), Below(row, colIdx))
  }

  /** Each row's mirror mismatches about the gap after `colIdx`. */
  function ColumnCounts(scan: Scan, colIdx: nat): (c: seq<int>)
    requires Spans(scan, colIdx)
    ensures |c| == |scan| && forall r :: 0 <= r < |c| ==> c[r] >= 0
  {
    seq(|scan|, r requires 0 <= r < |scan| => RowMirrorMismatches(scan[r], colIdx))
  }

  /** The mirrored cells of the whole scan that differ about the column gap after `colIdx`. */
  function ColumnMismatches(scan: Scan, colIdx: nat): nat
    requires Spans(scan, colIdx)
  {
    SumNonnegative(ColumnCounts(scan, colIdx));
    Sum(ColumnCounts(scan, colIdx))
  }

  /** Each mirrored pair of rows' differing cells about the gap after `rowIdx`. */
  function RowCounts(scan: Scan, rowIdx: nat): (c: seq<int>)
    requires rowIdx < |scan|
    ensures |c| == Reach(rowIdx, |scan|) && forall k :: 0 <= k < |c| ==> c[k] >= 0
  {
    var n := Reach(rowIdx, |scan|);
    seq(n, k requires 0 <= k < n => Mismatches(Above(scan, rowIdx)[k], Below(scan, rowIdx)[k]))
  }

  /** The mirrored cells of the whole scan that differ about the row gap after `rowIdx`. */
  function RowMismatches(scan: Scan, rowIdx: nat): nat
    requires rowIdx < |scan|
  {
    SumNonnegative(RowCounts(scan, rowIdx));
    Sum(RowCounts(scan, rowIdx))
  }

  /**
   * `is_column_of_smudged_symmetry`: counts differing mirrored cells row by
   * row, giving up as soon as a second one is found; true when exactly one
   * differs.
   */
  method IsColumnOfSmudgedSymmetry(scan: Scan, colIdx: nat) returns (symmetric: bool)
    requires Spans(scan, colIdx)
    ensures symmetric <==> ColumnMismatches(scan, colIdx) == 1
  {
    ghost var counts := ColumnCounts(scan, colIdx);
    var errors := 0;
    for r := 0 to |scan|
      invariant errors == Sum(counts[..r]) && errors <= 1
    {
      var row := scan[r];
      var before := Above(row, colIdx);
      var after := Below(row, colIdx);
      ghost var diffs := Diffs(before, after);
      for k := 0 to Min(|before|, |after|)
        invariant errors == Sum(counts[..r]) + Sum(diffs[..k]) && errors <= 1
      {
        SumStep(diffs, k);
        if before[k] != after[k] {
          errors := errors + 1;
          if errors > 1 {
            SumPrefix(diffs, k + 1);
            MismatchesSum(before, after);
            SumStep(counts, r);
            SumPrefix(counts, r + 1);
            return false;
          }
        }
      }
      assert diffs[..|diffs|] == diffs;
      MismatchesSum(before, after);
      SumStep(counts, r);
    }
    assert counts[..|scan|] == counts;
    symmetric := errors == 1;
  }

  /**
   * `is_row_of_smudged_symmetry`: adds up the differing cells of each
   * mirrored pair of rows, giving up as soon as the total passes one; true
   * when it is exactly one.
   */
  method IsRowOfSmudgedSymmetry(scan: Scan, rowIdx: nat) returns (symmetric: bool)
    requires rowIdx < |scan|
    ensures symmetric <==> RowMismatches(scan, rowIdx) == 1
  {
    ghost var counts := RowCounts(scan, rowIdx);
    var errors := 0;
    var before := Above(scan, rowIdx);
    var after := Below(scan, rowIdx);
    for k := 0 to Min(|before|, |after|)
      invariant errors == Sum(counts[..k]) && errors <= 1
    {
      SumStep(counts, k);
      errors := errors + Mismatches(before[k], after[k]);
      if errors > 1 {
        SumPrefix(counts, k + 1);
        return false;
      }
    }
    assert counts[..|counts|] == counts;
    symmetric := errors == 1;
  }

  /** No differing cell about a column gap is the same as plain column symmetry. */
  lemma ColumnMismatchesZero(scan: Scan, colIdx: nat)
    requires Spans(scan, colIdx)
    ensures ColumnMismatches(scan, colIdx) == 0 <==> IsColumnOfSymmetry(scan, colIdx)
  {
    var counts := ColumnCounts(scan, colIdx);
    SumZero(counts);
    ColumnSymmetryMeaning(scan, colIdx);
    forall r | 0 <= r < |scan|
      ensures counts[r] == 0 <==> MirroredAt(scan[r], colIdx)
    {
      MismatchesZero(Above(scan[r], colIdx), Below(scan[r], colIdx));
    }
  }

  /**
   * A smudged column line: exactly one row has exactly one cell differing
   * from its mirror image, and every other row is mirrored.
   */
  lemma ColumnSmudgeMeaning(scan: Scan, colIdx: nat)
    requires Spans(scan, colIdx)
    ensures ColumnMismatches(scan, colIdx) == 1 <==>
      exists r :: 0 <= r < |scan| && RowMirrorMismatches(scan[r], colIdx) == 1 &&
        forall q :: 0 <= q < |scan| && q != r ==> MirroredAt(scan[q], colIdx)
  {
    var counts := ColumnCounts(scan, colIdx);
    SumOne(counts);
    forall q | 0 <= q < |scan|
      ensures counts[q] == 0 <==> MirroredAt(scan[q], colIdx)
    {
      MismatchesZero(Above(scan[q], colIdx), Below(scan[q], colIdx));
    }
  }

  /**
   * A smudged row line: exactly one mirrored pair of rows has exactly one
   * differing cell, and every other pair has none.
   */
  lemma RowSmudgeMeaning(scan: Scan, rowIdx: nat)
    requires rowIdx < |scan|
    ensures RowMismatches(scan, rowIdx) == 1 <==>
      exists k :: 0 <= k < Reach(rowIdx, |scan|) && Mismatches(Above(scan, rowIdx)[k], Below(scan, rowIdx)[k]) == 1 &&
        forall j :: 0 <= j < Reach(rowIdx, |scan|) && j != k ==> Mismatches(Above(scan, rowIdx)[j], Below(scan, rowIdx)[j]) == 0
  {
    var counts := RowCounts(scan, rowIdx);
    var n := Reach(rowIdx, |scan|);
    var above, below := Above(scan, rowIdx), Below(scan, rowIdx);
    SumOne(counts);
    assert forall k :: 0 <= k < n ==> counts[k] == Mismatches(above[k], below[k]);
  }

  /** All rows of one length. */
  predicate Rectangular(scan: Scan)
  {
    forall r :: 0 <= r < |scan| ==> |scan[r]| == |scan[0]|
  }

  /** On a rectangular scan, no differing cell about a row gap is the same as plain row symmetry. */
  lemma RowMismatchesZero(scan: Scan, rowIdx: nat)
    requires rowIdx < |scan| && Rectangular(scan)
    ensures RowMismatches(scan, rowIdx) == 0 <==> IsRowOfSymmetry(scan, rowIdx)
  {
    var counts := RowCounts(scan, rowIdx);
    var above, below := Above(scan, rowIdx), Below(scan, rowIdx);
    assert RowMismatches(scan, rowIdx) == Sum(counts);
    SumZero(counts);
    ZipAllEqualMeaning(above, below);
    forall k | 0 <= k < |counts|
      ensures counts[k] == 0 <==> above[k] == below[k]
    {
      RowPairMismatches(scan, rowIdx, k);
    }
  }

  /** One mirrored pair of rows of a rectangular scan has no differing cell exactly when the rows are equal. */
  lemma RowPairMismatches(scan: Scan, rowIdx: nat, k: nat)
    requires rowIdx < |scan| && Rectangular(scan) && k < Reach(rowIdx, |scan|)
    ensures RowCounts(scan, rowIdx)[k] == 0 <==> Above(scan, rowIdx)[k] == Below(scan, rowIdx)[k]
  {
    var a, b := scan[rowIdx - k], scan[rowIdx + 1 + k];
    assert Above(scan, rowIdx)[k] == a && Below(scan, rowIdx)[k] == b;
    MismatchesEqual(a, b);
  }

  /** Two rows of one length have no differing cell exactly when they are equal. */
  lemma MismatchesEqual(a: seq<bool>, b: seq<bool>)
    requires |a| == |b|
    ensures Mismatches(a, b) == 0 <==> a == b
  {
    MismatchesZero(a, b);
    ZipAllEqualMeaning(a, b);
  }

  // Finding the lines

  /** How many rows, or columns, a line can fall between. */
  function Total(scan: Scan, isColumns: bool): nat
    requires scan != []
  {
    if isColumns then |scan[0]| else |scan|
  }

  /** The check `find_lines_of_symmetry` picks for the gap after `idx`. */
  predicate Passes(scan: Scan, isColumns: bool, isSmudged: bool, idx: nat)
    requires scan != [] && Rectangular(scan) && idx + 1 < Total(scan, isColumns)
  {
    match (isColumns, isSmudged)
    case (true, true) => ColumnMismatches(scan, idx) == 1
    case (true, false) => IsColumnOfSymmetry(scan, idx)
    case (false, true) => RowMismatches(scan, idx) == 1
    case (false, false) => IsRowOfSymmetry(scan, idx)
  }

  /** The check's verdict on each gap `idx` in `0..total - 1`. */
  function Verdicts(scan: Scan, isColumns: bool, isSmudged: bool): (v: seq<bool>)
    requires scan != [] && Rectangular(scan) && Total(scan, isColumns) >= 1
    ensures |v| == Total(scan, isColumns) - 1
    ensures forall idx :: 0 <= idx < |v| ==> v[idx] == Passes(scan, isColumns, isSmudged, idx)
  {
    var n := Total(scan, isColumns) - 1;
    seq(n, idx requires 0 <= idx < n => Passes(scan, isColumns, isSmudged, idx))
  }

  /** `filter_map` over the first `m` verdicts: each gap that passes, given as `idx + 1`. */
  function Gaps(verdicts: seq<bool>, m: nat): (gaps: seq<nat>)
    requires m <= |verdicts|
    ensures forall i :: 0 <= i < |gaps| ==> 1 <= gaps[i] <= m
    ensures forall x :: x in gaps <==> 1 <= x <= m && verdicts[x - 1]
  {
    if m == 0 then []
    else
      var front := Gaps(verdicts, m - 1);
      if verdicts[m - 1] then front + [m] else front
  }

  /** The gaps come out in increasing order, as the source's ascending range yields them. */
  lemma {:induction false} GapsIncreasing(verdicts: seq<bool>, m: nat)
    requires m <= |verdicts|
    ensures forall i, j :: 0 <= i < j < |Gaps(verdicts, m)| ==> Gaps(verdicts, m)[i] < Gaps(verdicts, m)[j]
  {
    if m > 0 {
      GapsIncreasing(verdicts, m - 1);
    }
  }

  /**
   * `find_lines_of_symmetry`: each gap `idx` in `0..total - 1` whose check
   * passes, as `idx + 1`. `None` where the source panics: taking the first
   * row of an empty scan, or `total - 1` with no rows or no columns.
   */
  function LinesOfSymmetry(scan: Scan, isColumns: bool, isSmudged: bool): (r: Option<seq<nat>>)
    requires Rectangular(scan)
    ensures r.None? <==> scan == [] || (isColumns && scan[0] == [])
    ensures r.Some? ==> forall x :: x in r.value <==> 1 <= x < Total(scan, isColumns) && Passes(scan, isColumns, isSmudged, x - 1)
    ensures r.Some? ==> forall i, j :: 0 <= i < j < |r.value| ==> r.value[i] < r.value[j]
  {
    if scan == [] then None
    else if isColumns && scan[0] == [] then None
    else
      var verdicts := Verdicts(scan, isColumns, isSmudged);
      GapsIncreasing(verdicts, |verdicts|);
      Some(Gaps(verdicts, |verdicts|))
  }

  // The two scans of the puzzle's example

  /** The first example scan: mirrored about the gap after column 4. */
  const SampleScan0: Scan := [
    [true, false, true, true, false, false, true, true, false],
    [false, false, true, false, true, true, false, true, false],
    [true, true, false, false, false, false, false, false, true],
    [true, true, false, false, false, false, false, false, true],
    [false, false, true, false, true, true, false, true, false],
    [false, false, true, true, false, false, true, true, false],
    [true, false, true, false, true, true, false, true, false]
  ]

  /** The second example scan: mirrored about the gap after row 3. */
  const SampleScan1: Scan := [
    [true, false, false, false, true, true, false, false, true],
    [true, false, false, false, false, true, false, false, true],
    [false, false, true, true, false, false, true, true, true],
    [true, true, true, true, true, false, true, true, false],
    [true, true, true, true, true, false, true, true, false],
    [false, false, true, true, false, false, true, true, true],
    [true, false, false, false, false, true, false, false, true]
  ]

  /** A differing mirrored pair of rows rules out a row line. */
  lemma NotRowLine(scan: Scan, rowIdx: nat, i: nat, j: nat)
    requires i <= rowIdx < j < |scan| && i + j == 2 * rowIdx + 1 && scan[i] != scan[j]
    ensures !IsRowOfSymmetry(scan, rowIdx)
  {
    RowSymmetryMeaning(scan, rowIdx);
  }

  /** A differing mirrored pair of cells in any one row rules out a column line. */
  lemma NotColumnLine(scan: Scan, colIdx: nat, q: nat, i: nat, j: nat)
    requires Spans(scan, colIdx) && q < |scan|
    requires i <= colIdx < j < |scan[q]| && i + j == 2 * colIdx + 1 && scan[q][i] != scan[q][j]
    ensures !IsColumnOfSymmetry(scan, colIdx)
  {
    ColumnSymmetryMeaning(scan, colIdx);
    MirroredAtMeaning(scan[q], colIdx);
  }

  /** A row of nine cells whose cells match in pairs about the middle gap after cell 4. */
  lemma MirroredNineAt4(row: seq<bool>)
    requires |row| == 9 && row[4] == row[5] && row[3] == row[6] && row[2] == row[7] && row[1] == row[8]
    ensures MirroredAt(row, 4)
  {
    MirroredAtMeaning(row, 4);
    forall i, j | 0 <= i <= 4 < j < 9 && i + j == 9
      ensures row[i] == row[j]
    {
      assert i == 4 || i == 3 || i == 2 || i == 1 || i == 0;
    }
  }

  /** Seven rows of nine cells, each mirrored about the gap after cell 4, with the cells and rows that rule out every other line. */
  lemma Scan0Shape(r0: seq<bool>, r1: seq<bool>, r2: seq<bool>, r3: seq<bool>, r4: seq<bool>, r5: seq<bool>, r6: seq<bool>)
    requires |r0| == 9 && |r1| == 9 && |r2| == 9 && |r3| == 9 && |r4| == 9 && |r5| == 9 && |r6| == 9
    requires MirroredAt(r0, 4) && MirroredAt(r1, 4) && MirroredAt(r2, 4) && MirroredAt(r3, 4) && MirroredAt(r4, 4) && MirroredAt(r5, 4) && MirroredAt(r6, 4)
    requires r0[0] != r0[1] && r0[1] != r0[2] && r0[0] != r0[5] && r0[3] != r0[4] && r0[5] != r0[6] && r1[6] != r1[7] && r0[7] != r0[8]
    requires r0 != r1 && r1 != r2 && r0 != r5 && r3 != r4 && r4 != r5 && r5 != r6
    ensures IsColumnOfSymmetry([r0, r1, r2, r3, r4, r5, r6], 4)
    ensures forall c :: 0 <= c < 8 && c != 4 ==> !IsColumnOfSymmetry([r0, r1, r2, r3, r4, r5, r6], c)
    ensures forall r :: 0 <= r < 6 ==> !IsRowOfSymmetry([r0, r1, r2, r3, r4, r5, r6], r)
  {
    var s := [r0, r1, r2, r3, r4, r5, r6];
    ColumnSymmetryMeaning(s, 4);
    forall c | 0 <= c < 8 && c != 4
      ensures !IsColumnOfSymmetry(s, c)
    {
      if c == 0 {
        NotColumnLine(s, 0, 0, 0, 1);
      } else if c == 1 {
        NotColumnLine(s, 1, 0, 1, 2);
      } else if c == 2 {
        NotColumnLine(s, 2, 0, 0, 5);
      } else if c == 3 {
        NotColumnLine(s, 3, 0, 3, 4);
      } else if c == 5 {
        NotColumnLine(s, 5, 0, 5, 6);
      } else if c == 6 {
        NotColumnLine(s, 6, 1, 6, 7);
      } else if c == 7 {
        NotColumnLine(s, 7, 0, 7, 8);
      }
    }
    forall r | 0 <= r < 6
      ensures !IsRowOfSymmetry(s, r)
    {
      if r == 0 {
        NotRowLine(s, 0, 0, 1);
      } else if r == 1 {
        NotRowLine(s, 1, 1, 2);
      } else if r == 2 {
        NotRowLine(s, 2, 0, 5);
      } else if r == 3 {
        NotRowLine(s, 3, 3, 4);
      } else if r == 4 {
        NotRowLine(s, 4, 4, 5);
      } else if r == 5 {
        NotRowLine(s, 5, 5, 6);
      }
    }
  }

  /** The first example: its one line is the column line after column 4. */
  lemma SampleScan0Lines()
    ensures |SampleScan0| == 7 && Spans(SampleScan0, 7)
    ensures IsColumnOfSymmetry(SampleScan0, 4)
    ensures forall c :: 0 <= c < 8 && c != 4 ==> !IsColumnOfSymmetry(SampleScan0, c)
    ensures forall r :: 0 <= r < 6 ==> !IsRowOfSymmetry(SampleScan0, r)
  {
    var s := SampleScan0;
    MirroredNineAt4(s[0]);
    MirroredNineAt4(s[1]);
    MirroredNineAt4(s[2]);
    MirroredNineAt4(s[3]);
    MirroredNineAt4(s[4]);
    MirroredNineAt4(s[5]);
    MirroredNineAt4(s[6]);
    Scan0Shape(s[0], s[1], s[2], s[3], s[4], s[5], s[6]);
    assert s == [s[0], s[1], s[2], s[3], s[4], s[5], s[6]];
  }

  /** Seven rows of nine cells mirrored about the gap after row 3, with rows that rule out every other row line. */
  lemma Scan1Rows(r0: seq<bool>, r1: seq<bool>, r2: seq<bool>, r3: seq<bool>, r4: seq<bool>, r5: seq<bool>, r6: seq<bool>)
    requires |r0| == 9 && |r1| == 9 && |r2| == 9 && |r3| == 9 && |r4| == 9 && |r5| == 9 && |r6| == 9
    requires r3 == r4 && r2 == r5 && r1 == r6
    requires r0 != r1 && r1 != r2 && r2 != r3 && r4 != r5 && r5 != r6
    ensures IsRowOfSymmetry([r0, r1, r2, r3, r4, r5, r6], 3)
    ensures forall r :: 0 <= r < 6 && r != 3 ==> !IsRowOfSymmetry([r0, r1, r2, r3, r4, r5, r6], r)
  {
    var s := [r0, r1, r2, r3, r4, r5, r6];
    RowSymmetryMeaning(s, 3);
    forall i, j | 0 <= i <= 3 < j < 7 && i + j == 7
      ensures s[i] == s[j]
    {
      assert i == 3 || i == 2 || i == 1 || i == 0;
    }
    forall r | 0 <= r < 6 && r != 3
      ensures !IsRowOfSymmetry(s, r)
    {
      if r == 0 {
        NotRowLine(s, 0, 0, 1);
      } else if r == 1 {
        NotRowLine(s, 1, 1, 2);
      } else if r == 2 {
        NotRowLine(s, 2, 2, 3);
      } else if r == 4 {
        NotRowLine(s, 4, 4, 5);
      } else if r == 5 {
        NotRowLine(s, 5, 5, 6);
      }
    }
  }

  /** Seven rows of nine cells with the cells that rule out every column line. */
  lemma Scan1Columns(r0: seq<bool>, r1: seq<bool>, r2: seq<bool>, r3: seq<bool>, r4: seq<bool>, r5: seq<bool>, r6: seq<bool>)
    requires |r0| == 9 && |r1| == 9 && |r2| == 9 && |r3| == 9 && |r4| == 9 && |r5| == 9 && |r6| == 9
    requires r0[0] != r0[1] && r0[0] != r0[3] && r0[1] != r0[4] && r0[3] != r0[4] && r0[1] != r0[8] && r0[5] != r0[6] && r2[5] != r2[8] && r0[7] != r0[8]
    ensures forall c :: 0 <= c < 8 ==> !IsColumnOfSymmetry([r0, r1, r2, r3, r4, r5, r6], c)
  {
    var s := [r0, r1, r2, r3, r4, r5, r6];
    forall c | 0 <= c < 8
      ensures !IsColumnOfSymmetry(s, c)
    {
      if c == 0 {
        NotColumnLine(s, 0, 0, 0, 1);
      } else if c == 1 {
        NotColumnLine(s, 1, 0, 0, 3);
      } else if c == 2 {
        NotColumnLine(s, 2, 0, 1, 4);
      } else if c == 3 {
        NotColumnLine(s, 3, 0, 3, 4);
      } else if c == 4 {
        NotColumnLine(s, 4, 0, 1, 8);
      } else if c == 5 {
        NotColumnLine(s, 5, 0, 5, 6);
      } else if c == 6 {
        NotColumnLine(s, 6, 2, 5, 8);
      } else if c == 7 {
        NotColumnLine(s, 7, 0, 7, 8);
      }
    }
  }

  /** The second example: its one line is the row line after row 3. */
  lemma SampleScan1Lines()
    ensures |SampleScan1| == 7 && Spans(SampleScan1, 7)
    ensures IsRowOfSymmetry(SampleScan1, 3)
    ensures forall r :: 0 <= r < 6 && r != 3 ==> !IsRowOfSymmetry(SampleScan1, r)
    ensures forall c :: 0 <= c < 8 ==> !IsColumnOfSymmetry(SampleScan1, c)
  {
    var s := SampleScan1;
    Scan1Rows(s[0], s[1], s[2], s[3], s[4], s[5], s[6]);
    Scan1Columns(s[0], s[1], s[2], s[3], s[4], s[5], s[6]);
    assert s == [s[0], s[1], s[2], s[3], s[4], s[5], s[6]];
  }
}
