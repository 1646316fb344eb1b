// Password philosophy (2020, day 2).
//
// Each line of the input holds a password policy and a password. Part one
// reads the policy as the least and the most times the character may occur;
// part two reads it as two 1-based positions of which exactly one must hold
// the character.

module PasswordPhilosophy {
  import opened Wrappers

  /** The largest `u8` plus one. */
  const U8_LIMIT: nat := 0x100

  type U8 = x: nat | x < U8_LIMIT

  /** `PasswordPolicy`. */
  datatype PasswordPolicy = PasswordPolicy(minimum: U8, maximum: U8, character: char)

  /** The characters of the password equal to `c`, counted as `filter(..).count()` does. */
  function Occurrences(password: string, c: char): nat
  {
    |Filter(password, x => x == c)|
  }

  /** The count is the multiplicity of the character in the password. */
  lemma {:induction false} OccurrencesMeaning(password: string, c: char)
    ensures Occurrences(password, c) == multiset(password)[c]
    decreases |password|
  {
    if password != [] {
      var front, last := password[..|password| - 1], password[|password| - 1];
      OccurrencesMeaning(front, c);
      assert password == front + [last];
      assert multiset(password) == multiset(front) + multiset{last};
    }
  }

  /**
   * `is_password_valid_part_1`: the count must fit a `u8` (`None` where
   * `try_into().unwrap()` panics) and is then compared with both bounds.
   */
  function IsPasswordValidPart1(policy: PasswordPolicy, password: string): Option<bool>
  {
    var count := Occurrences(password, policy.character);
    if count >= U8_LIMIT then None
    else Some(count >= policy.minimum && count <= policy.maximum)
  }

  /**
   * Part one answers exactly when the character occurs at most 255 times,
   * and then the password is valid iff its number of occurrences lies
   * between the minimum and the maximum, both inclusive.
   */
  lemma Part1Meaning(policy: PasswordPolicy, password: string)
    ensures var n := multiset(password)[policy.character];
      IsPasswordValidPart1(policy, password).Some? <==> n < U8_LIMIT
    ensures var n := multiset(password)[policy.character];
      IsPasswordValidPart1(policy, password).Some? ==>
        (IsPasswordValidPart1(policy, password).value <==> policy.minimum <= n <= policy.maximum)
  {
    OccurrencesMeaning(password, policy.character);
  }

  /**
   * `is_password_valid_part_2`: the characters at the 1-based positions
   * `minimum` and `maximum`, compared with the policy's character and
   * combined by exclusive or. `None` where the source panics: a position 0
   * (the `usize` subtraction underflows) or past the end of the password
   * (`nth` yields nothing and `unwrap` panics); the first position is read
   * first.
   */
  function IsPasswordValidPart2(policy: PasswordPolicy, password: string): Option<bool>
  {
    if policy.minimum == 0 || policy.minimum - 1 >= |password| then None
    else if policy.maximum == 0 || policy.maximum - 1 >= |password| then None
    else
      var pos1 := password[policy.minimum - 1] == policy.character;
      var pos2 := password[policy.maximum - 1] == policy.character;
      Some(pos1 != pos2)
  }

  /** The number of the two positions that hold the character. */
  function Holding(policy: PasswordPolicy, password: string): nat
    requires 1 <= policy.minimum <= |password| && 1 <= policy.maximum <= |password|
  {
    (if password[policy.minimum - 1] == policy.character then 1 else 0) +
    (if password[policy.maximum - 1] == policy.character then 1 else 0)
  }

  /**
   * Part two answers exactly when both positions lie within the password,
   * and then the password is valid iff exactly one of them holds the
   * character; with both positions equal it is never valid.
   */
  lemma Part2Meaning(policy: PasswordPolicy, password: string)
    ensures IsPasswordValidPart2(policy, password).Some? <==>
      1 <= policy.minimum <= |password| && 1 <= policy.maximum <= |password|
    ensures IsPasswordValidPart2(policy, password).Some? ==>
      (IsPasswordValidPart2(policy, password).value <==> Holding(policy, password) == 1)
    ensures IsPasswordValidPart2(policy, password).Some? && policy.minimum == policy.maximum ==>
      !IsPasswordValidPart2(policy, password).value
  {
  }

  /** The first line of the tests, `1-3 a: abcde`, is valid under both parts. */
  lemma FirstSample()
    ensures IsPasswordValidPart1(PasswordPolicy(1, 3, 'a'), "abcde") == Some(true)
    ensures IsPasswordValidPart2(PasswordPolicy(1, 3, 'a'), "abcde") == Some(true)
  {
    Part1Meaning(PasswordPolicy(1, 3, 'a'), "abcde");
    assert multiset("abcde")['a'] == 1;
  }

  /** The second line, `1-3 b: cdefg`, is valid under neither part. */
  lemma SecondSample()
    ensures IsPasswordValidPart1(PasswordPolicy(1, 3, 'b'), "cdefg") == Some(false)
    ensures IsPasswordValidPart2(PasswordPolicy(1, 3, 'b'), "cdefg") == Some(false)
  {
    Part1Meaning(PasswordPolicy(1, 3, 'b'), "cdefg");
    assert multiset("cdefg")['b'] == 0;
  }

  /** The third line, `2-9 c: ccccccccc`, is valid under part one only. */
  lemma ThirdSample()
    ensures IsPasswordValidPart1(PasswordPolicy(2, 9, 'c'), "ccccccccc") == Some(true)
    ensures IsPasswordValidPart2(PasswordPolicy(2, 9, 'c'), "ccccccccc") == Some(false)
  {
    Part1Meaning(PasswordPolicy(2, 9, 'c'), "ccccccccc");
    assert multiset("ccccccccc")['c'] == 9;
  }
}
