// Rucksack reorganization (2022, day 3).
//
// A rucksack is a line of item types, one letter each, packed half into
// each of two compartments. The item type that was put into both halves is
// the mismatched one, and each type has a priority.

module RucksackReorganization {
  import opened Wrappers

  /**
   * `get_types_from_rucksack`: the first `len / 2` items and the rest. The
   * source halves the length in bytes; item types are ASCII letters, one
   * byte each.
   */
  function TypesFromRucksack(rucksack: string): (r: (seq<char>, seq<char>))
  {
    (rucksack[..|rucksack| / 2], rucksack[|rucksack| / 2..])
  }

  /**
   * The halves put back together are the rucksack; the first half holds
   * half the items, rounded down, so the second holds as many or one more.
   */
  lemma TypesMeaning(rucksack: string)
    ensures TypesFromRucksack(rucksack).0 + TypesFromRucksack(rucksack).1 == rucksack
    ensures |TypesFromRucksack(rucksack).0| * 2 == |rucksack| - |rucksack| % 2
    ensures |TypesFromRucksack(rucksack).1| == |TypesFromRucksack(rucksack).0| + |rucksack| % 2
  {
  }

  /**
   * `get_mismatched_type`: the first item of the first half, in order, that
   * also occurs in the second half; `None` when there is none.
   */
  function MismatchedType(first: seq<char>, last: seq<char>): (r: Option<char>)
  {
    if first == [] then None
    else if first[0] in last then Some(first[0])
    else MismatchedType(first[1..], last)
  }

  /**
   * The mismatched type is an item of the first half, at a position before
   * which no item occurs in the second half, that itself occurs in the
   * second half; there is none exactly when the halves share no item.
   */
  lemma {:induction false} MismatchedTypeMeaning(first: seq<char>, last: seq<char>)
    ensures MismatchedType(first, last).None? <==> forall c :: c in first ==> c !in last
    ensures MismatchedType(first, last).Some? ==>
      exists i :: 0 <= i < |first| && first[i] == MismatchedType(first, last).value &&
        first[i] in last && forall j :: 0 <= j < i ==> first[j] !in last
  {
    if first != [] && first[0] !in last {
      MismatchedTypeMeaning(first[1..], last);
      if MismatchedType(first, last).Some? {
        var i :| 0 <= i < |first[1..]| && first[1..][i] == MismatchedType(first, last).value &&
          first[1..][i] in last && forall j :: 0 <= j < i ==> first[1..][j] !in last;
        assert first[i + 1] == MismatchedType(first, last).value;
        assert forall j :: 0 <= j < i + 1 ==> first[j] !in last by {
          forall j | 0 <= j < i + 1
            ensures first[j] !in last
          {
            if j > 0 {
              assert first[j] == first[1..][j - 1];
            }
          }
        }
      } else {
        forall c | c in first
          ensures c !in last
        {
          if c != first[0] {
            assert c in first[1..];
          }
        }
      }
    }
  }

  /** `get_mismatched_type_from_rucksack`: the mismatch between the two halves. */
  function MismatchedTypeFromRucksack(rucksack: string): Option<char>
  {
    var (first, last) := TypesFromRucksack(rucksack);
    MismatchedType(first, last)
  }

  /**
   * The mismatch of a rucksack is an item found in both halves; there is
   * none exactly when no item of the first half is in the second.
   */
  lemma MismatchedFromRucksackMeaning(rucksack: string)
    ensures var h := |rucksack| / 2;
      MismatchedTypeFromRucksack(rucksack).None? <==> forall c :: c in rucksack[..h] ==> c !in rucksack[h..]
    ensures var h := |rucksack| / 2;
      MismatchedTypeFromRucksack(rucksack).Some? ==>
        MismatchedTypeFromRucksack(rucksack).value in rucksack[..h] &&
        MismatchedTypeFromRucksack(rucksack).value in rucksack[h..]
  {
    var h := |rucksack| / 2;
    MismatchedTypeMeaning(rucksack[..h], rucksack[h..]);
  }

  /** The halves of the first sample rucksack of the tests share `p`. */
  lemma MismatchedSample()
    ensures MismatchedType("vJrwpWtwJgWr", "hcsFMMfFFhFp") == Some('p')
  {
    var first := "vJrwpWtwJgWr";
    var last := "hcsFMMfFFhFp";
    assert forall j :: 0 <= j < 4 ==> first[j] !in last;
    assert first[4] == 'p' && 'p' in last;
    assert MismatchedType(first, last) == MismatchedType(first[4..], last) by {
      SkipMissing(first, last, 4);
    }
  }

  /** Items of the first half that are not in the second are passed over. */
  lemma {:induction false} SkipMissing(first: seq<char>, last: seq<char>, k: nat)
    requires k <= |first|
    requires forall j :: 0 <= j < k ==> first[j] !in last
    ensures MismatchedType(first, last) == MismatchedType(first[k..], last)
  {
    if k > 0 {
      assert first[1..][k - 1..] == first[k..];
      SkipMissing(first[1..], last, k - 1);
    }
  }

  /**
   * `char_to_priority`: `a`–`z` count from 1 and `A`–`Z` from 27; `None`
   * where the source hits `unreachable!`.
   */
  function CharToPriority(c: char): (r: Option<nat>)
  {
    if 'a' <= c <= 'z' then Some(c as nat - 96)
    else if 'A' <= c <= 'Z' then Some(c as nat - 38)
    else None
  }

  /** The letter of a priority, the inverse of `CharToPriority`. */
  function PriorityChar(p: nat): char
    requires 1 <= p <= 52
  {
    if p <= 26 then (p + 96) as char else (p + 38) as char
  }

  /**
   * Priorities are defined exactly on the ASCII letters: lower case gets
   * 1 to 26, upper case 27 to 52, and each priority belongs to one letter.
   */
  lemma PriorityMeaning(c: char)
    ensures CharToPriority(c).Some? <==> 'a' <= c <= 'z' || 'A' <= c <= 'Z'
    ensures 'a' <= c <= 'z' ==> 1 <= CharToPriority(c).value <= 26
    ensures 'A' <= c <= 'Z' ==> 27 <= CharToPriority(c).value <= 52
    ensures CharToPriority(c).Some? ==> PriorityChar(CharToPriority(c).value) == c
  {
  }

  /** Every priority from 1 to 52 is the priority of its letter. */
  lemma PriorityCharMeaning(p: nat)
    requires 1 <= p <= 52
    ensures CharToPriority(PriorityChar(p)) == Some(p)
  {
  }

  /** The priorities of the tests. */
  lemma PrioritySamples()
    ensures CharToPriority('a') == Some(1) && CharToPriority('z') == Some(26)
    ensures CharToPriority('A') == Some(27) && CharToPriority('Z') == Some(52)
    ensures CharToPriority('m') == Some(13) && CharToPriority('F') == Some(32)
  {
  }
}
