// Camp cleanup (2022, day 4).
//
// Each line holds the section ranges of two elves, `a-b,c-d`, both ends
// inclusive. Part one counts the pairs where one range fully contains the
// other, part two the pairs whose ranges overlap at all.

module CampCleanup {
  import opened Wrappers
  import Text

  /** The largest `u32` plus one. */
  const U32_LIMIT: nat := 0x1_0000_0000

  /** `RangeInclusive<u32>`: `start..=end`, empty when `start > end`. */
  datatype Range = Range(start: nat, end: nat)

  /** `RangeInclusive::contains`. */
  predicate Contains(r: Range, e: nat)
  {
    r.start <= e <= r.end
  }

  predicate IsEmpty(r: Range)
  {
    r.start > r.end
  }

  /**
   * `parse_single_range`: the text before the first `-` and the text between
   * the first and the second; `None` where an `unwrap` panics (no `-`, or a
   * piece that is not a `u32`). Text after a second `-` is ignored.
   */
  function ParseSingleRange(s: string): (r: Option<Range>)
    ensures r.Some? ==> r.value.start < U32_LIMIT && r.value.end < U32_LIMIT
  {
    var v := Text.Split(s, '-');
    if |v| < 2 then None
    else
      match (Text.ParseUnsigned(v[0], U32_LIMIT), Text.ParseUnsigned(v[1], U32_LIMIT))
      case (Some(start), Some(end)) => Some(Range(start, end))
      case _ => None
  }

  /** `parse_ranges`: the two ranges on either side of the first `,`. */
  function ParseRanges(line: string): (r: Option<(Range, Range)>)
  {
    var v := Text.Split(line, ',');
    if |v| < 2 then None
    else
      match (ParseSingleRange(v[0]), ParseSingleRange(v[1]))
      case (Some(r1), Some(r2)) => Some((r1, r2))
      case _ => None
  }

  /** A range written as the input writes it. */
  function ShowRange(r: Range): string
  {
    Text.Show(r.start) + "-" + Text.Show(r.end)
  }

  /** A line of the input for a pair of ranges. */
  function ShowRanges(p: (Range, Range)): string
  {
    ShowRange(p.0) + "," + ShowRange(p.1)
  }

  /** A written range reads back as itself. */
  lemma ParseShowRange(r: Range)
    requires r.start < U32_LIMIT && r.end < U32_LIMIT
    ensures ParseSingleRange(ShowRange(r)) == Some(r)
  {
    Text.ShowLacks(r.start, '-');
    Text.ShowLacks(r.end, '-');
    Text.SplitNoSep(Text.Show(r.end), '-');
    Text.SplitPiece(Text.Show(r.start), '-', Text.Show(r.end));
    Text.ParseShow(r.start, U32_LIMIT);
    Text.ParseShow(r.end, U32_LIMIT);
  }

  /** A written line reads back as the pair of ranges it was written from. */
  lemma ParseShowRanges(p: (Range, Range))
    requires p.0.start < U32_LIMIT && p.0.end < U32_LIMIT
    requires p.1.start < U32_LIMIT && p.1.end < U32_LIMIT
    ensures ParseRanges(ShowRanges(p)) == Some(p)
  {
    ParseShowRange(p.0);
    ParseShowRange(p.1);
    Text.ShowLacks(p.0.start, ',');
    Text.ShowLacks(p.0.end, ',');
    Text.ShowLacks(p.1.start, ',');
    Text.ShowLacks(p.1.end, ',');
    assert ',' !in ShowRange(p.0) && ',' !in ShowRange(p.1);
    Text.SplitNoSep(ShowRange(p.1), ',');
    Text.SplitPiece(ShowRange(p.0), ',', ShowRange(p.1));
  }

  /**
   * `range_fully_contains_other`: every element of the first range lies in
   * the second, or every element of the second lies in the first.
   */
  predicate FullyContainsOther(r1: Range, r2: Range)
  {
    (forall e: nat | r1.start <= e <= r1.end :: Contains(r2, e)) ||
    (forall e: nat | r2.start <= e <= r2.end :: Contains(r1, e))
  }

  /** `ranges_overlap`: some element of either range lies in the other. */
  predicate RangesOverlap(r1: Range, r2: Range)
  {
    (exists e: nat | r1.start <= e <= r1.end :: Contains(r2, e)) ||
    (exists e: nat | r2.start <= e <= r2.end :: Contains(r1, e))
  }

  /**
   * Full containment compares the ends: one range lies within the other's
   * bounds, or one of them is empty and so is contained in anything.
   */
  lemma FullyContainsMeaning(r1: Range, r2: Range)
    ensures FullyContainsOther(r1, r2) <==>
      IsEmpty(r1) || IsEmpty(r2) ||
      (r2.start <= r1.start && r1.end <= r2.end) ||
      (r1.start <= r2.start && r2.end <= r1.end)
  {
    if !IsEmpty(r1) && !IsEmpty(r2) {
      if !(r2.start <= r1.start && r1.end <= r2.end) {
        assert !Contains(r2, r1.start) || !Contains(r2, r1.end);
      }
      if !(r1.start <= r2.start && r2.end <= r1.end) {
        assert !Contains(r1, r2.start) || !Contains(r1, r2.end);
      }
    }
  }

  /** Overlap compares the ends: both ranges are non-empty and neither ends before the other starts. */
  lemma RangesOverlapMeaning(r1: Range, r2: Range)
    ensures RangesOverlap(r1, r2) <==>
      !IsEmpty(r1) && !IsEmpty(r2) && r1.start <= r2.end && r2.start <= r1.end
  {
    if !IsEmpty(r1) && !IsEmpty(r2) && r1.start <= r2.end && r2.start <= r1.end {
      var e := if r1.start < r2.start then r2.start else r1.start;
      assert Contains(r1, e) && Contains(r2, e);
    }
  }

  /** Both predicates ignore the order of the pair. */
  lemma Symmetric(r1: Range, r2: Range)
    ensures FullyContainsOther(r1, r2) == FullyContainsOther(r2, r1)
    ensures RangesOverlap(r1, r2) == RangesOverlap(r2, r1)
  {
  }

  /** A pair where one range contains the other also overlaps, unless a range is empty. */
  lemma ContainsOverlaps(r1: Range, r2: Range)
    requires FullyContainsOther(r1, r2) && !IsEmpty(r1) && !IsEmpty(r2)
    ensures RangesOverlap(r1, r2)
  {
    FullyContainsMeaning(r1, r2);
    RangesOverlapMeaning(r1, r2);
  }

  /** The pairs of the tests. */
  lemma PredicateSamples()
    ensures FullyContainsOther(Range(2, 8), Range(3, 7)) && FullyContainsOther(Range(6, 6), Range(4, 6))
    ensures !FullyContainsOther(Range(2, 4), Range(6, 8)) && !FullyContainsOther(Range(2, 6), Range(4, 8))
    ensures !RangesOverlap(Range(2, 4), Range(6, 8)) && !RangesOverlap(Range(2, 3), Range(4, 5))
    ensures RangesOverlap(Range(5, 7), Range(7, 9)) && RangesOverlap(Range(2, 6), Range(4, 8))
  {
    FullyContainsMeaning(Range(2, 8), Range(3, 7));
    FullyContainsMeaning(Range(6, 6), Range(4, 6));
    FullyContainsMeaning(Range(2, 4), Range(6, 8));
    FullyContainsMeaning(Range(2, 6), Range(4, 8));
    RangesOverlapMeaning(Range(2, 4), Range(6, 8));
    RangesOverlapMeaning(Range(2, 3), Range(4, 5));
    RangesOverlapMeaning(Range(5, 7), Range(7, 9));
    RangesOverlapMeaning(Range(2, 6), Range(4, 8));
  }
}
