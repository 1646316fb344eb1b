// Passport processing (2020, day 4).
//
// A passport is a batch of `key:value` pairs. Eight keys are known; a
// passport is basically valid when every field but the country id is
// present, and properly valid when, in addition, each of those fields
// passes its own rule (year ranges, a height with a unit, a colour code, an
// eye colour from a list, a nine-digit id).

module PassportProcessing {
  import opened Wrappers
  import Text

  /** The largest `u16` plus one. */
  const U16_LIMIT: nat := 0x1_0000

  /** The largest `u8` plus one. */
  const U8_LIMIT: nat := 0x100

  /** `Passport`: each field holds the text of its value when the key was given. */
  datatype Passport = Passport(
    birthYear: Option<string>,
    issueYear: Option<string>,
    expirationYear: Option<string>,
    height: Option<string>,
    hairColour: Option<string>,
    eyeColour: Option<string>,
    passportId: Option<string>,
    countryId: Option<string>)

  /** The value of the last pair with the given key, or `None` when no pair has it. */
  function LastValue(pairs: seq<(string, string)>, key: string): Option<string>
  {
    if pairs == [] then None
    else if pairs[|pairs| - 1].0 == key then Some(pairs[|pairs| - 1].1)
    else LastValue(pairs[..|pairs| - 1], key)
  }

  /**
   * A field is missing exactly when no pair has its key; otherwise its value
   * is that of a pair with the key after which no pair has it: a later
   * duplicate wins.
   */
  lemma {:induction false} LastValueMeaning(pairs: seq<(string, string)>, key: string)
    ensures LastValue(pairs, key).None? <==> forall i :: 0 <= i < |pairs| ==> pairs[i].0 != key
    ensures LastValue(pairs, key).Some? ==>
      exists i :: 0 <= i < |pairs| && pairs[i] == (key, LastValue(pairs, key).value) &&
        forall j :: i < j < |pairs| ==> pairs[j].0 != key
  {
    if pairs != [] {
      var front := pairs[..|pairs| - 1];
      LastValueMeaning(front, key);
      assert forall i :: 0 <= i < |front| ==> front[i] == pairs[i];
      if pairs[|pairs| - 1].0 != key && LastValue(pairs, key).Some? {
        var i :| 0 <= i < |front| && front[i] == (key, LastValue(front, key).value) &&
          forall j :: i < j < |front| ==> front[j].0 != key;
        assert pairs[i] == (key, LastValue(pairs, key).value);
      }
    }
  }

  /** The passport with every field taken from the last pair with its key. */
  function Collected(pairs: seq<(string, string)>): Passport
  {
    Passport(
      LastValue(pairs, "byr"), LastValue(pairs, "iyr"), LastValue(pairs, "eyr"), LastValue(pairs, "hgt"),
      LastValue(pairs, "hcl"), LastValue(pairs, "ecl"), LastValue(pairs, "pid"), LastValue(pairs, "cid"))
  }

  /**
   * `Passport::from_parsed`: an empty passport whose fields are set pair by
   * pair; unknown keys are ignored and a later pair overwrites an earlier
   * one with the same key.
   */
  method FromParsed(pairs: seq<(string, string)>) returns (passport: Passport)
    ensures passport == Collected(pairs)
  {
    passport := Passport(None, None, None, None, None, None, None, None);
    for i := 0 to |pairs|
      invariant passport == Collected(pairs[..i])
    {
      var (field, value) := pairs[i];
      assert pairs[..i + 1][..i] == pairs[..i];
      if field == "byr" {
        passport := passport.(birthYear := Some(value));
      } else if field == "iyr" {
        passport := passport.(issueYear := Some(value));
      } else if field == "eyr" {
        passport := passport.(expirationYear := Some(value));
      } else if field == "hgt" {
        passport := passport.(height := Some(value));
      } else if field == "hcl" {
        passport := passport.(hairColour := Some(value));
      } else if field == "ecl" {
        passport := passport.(eyeColour := Some(value));
      } else if field == "pid" {
        passport := passport.(passportId := Some(value));
      } else if field == "cid" {
        passport := passport.(countryId := Some(value));
      }
    }
    assert pairs[..|pairs|] == pairs;
  }

  /** `is_basic_valid_no_country_id`: every field but the country id is present. */
  predicate IsBasicValid(p: Passport)
  {
    p.birthYear.Some? && p.issueYear.Some? && p.expirationYear.Some? && p.height.Some? &&
    p.hairColour.Some? && p.eyeColour.Some? && p.passportId.Some?
  }

  /** The text parses as a `u16` that lies in `lo..=hi`. */
  predicate YearValid(s: string, lo: nat, hi: nat)
  {
    match Text.ParseUnsigned(s, U16_LIMIT)
    case Some(y) => lo <= y <= hi
    case None => false
  }

  /** `n` digits followed by `cm` or `in` start at position `p`. */
  predicate HeightAt(s: string, p: nat, n: nat)
  {
    p + n + 2 <= |s| && Text.AllDigits(s[p..p + n]) && (s[p + n..p + n + 2] == "cm" || s[p + n..p + n + 2] == "in")
  }

  /**
   * The captures of the regex `(\d{2,3})(cm|in)`: its leftmost match,
   * where at each start three digits are tried before two.
   */
  function HeightCapture(s: string, p: nat): (r: Option<(string, string)>)
    ensures r.Some? ==> (|r.value.0| == 2 || |r.value.0| == 3) && Text.AllDigits(r.value.0)
    ensures r.Some? ==> r.value.1 == "cm" || r.value.1 == "in"
    decreases |s| - p
  {
    if p + 4 > |s| then None
    else if HeightAt(s, p, 3) then Some((s[p..p + 3], s[p + 3..p + 5]))
    else if HeightAt(s, p, 2) then Some((s[p..p + 2], s[p + 2..p + 4]))
    else HeightCapture(s, p + 1)
  }

  /** A match of `(\d{2,3})(cm|in)` starts at position `t`. */
  predicate HeightStarts(s: string, t: nat)
  {
    HeightAt(s, t, 3) || HeightAt(s, t, 2)
  }

  /** The captures of the match at `t`, three digits tried before two. */
  function CaptureAt(s: string, t: nat): (string, string)
    requires HeightStarts(s, t)
  {
    if HeightAt(s, t, 3) then (s[t..t + 3], s[t + 3..t + 5]) else (s[t..t + 2], s[t + 2..t + 4])
  }

  /**
   * The search from `p` is the regex's leftmost-first match: it finds a
   * capture exactly when a match starts at or after `p`, and then the one of
   * the least such start, three digits preferred there.
   */
  lemma {:induction false} HeightCaptureMeaning(s: string, p: nat)
    ensures HeightCapture(s, p).Some? <==> exists t: nat :: p <= t && HeightStarts(s, t)
    ensures forall t: nat :: p <= t && HeightStarts(s, t) && (forall u: nat :: p <= u < t ==> !HeightStarts(s, u)) ==>
      HeightCapture(s, p) == Some(CaptureAt(s, t))
    decreases |s| - p
  {
    if p + 4 > |s| {
      forall t: nat | p <= t ensures !HeightStarts(s, t) { }
    } else if HeightStarts(s, p) {
      forall t: nat | p <= t && HeightStarts(s, t) && (forall u: nat :: p <= u < t ==> !HeightStarts(s, u))
        ensures HeightCapture(s, p) == Some(CaptureAt(s, t))
      {
        assert t == p;
      }
    } else {
      HeightCaptureMeaning(s, p + 1);
      forall t: nat | p <= t && HeightStarts(s, t) && (forall u: nat :: p <= u < t ==> !HeightStarts(s, u))
        ensures HeightCapture(s, p) == Some(CaptureAt(s, t))
      {
        assert p + 1 <= t;
      }
    }
  }

  /** The height rule: 150 to 193 centimetres or 59 to 76 inches, the number a `u8`. */
  predicate HeightValid(s: string)
  {
    match HeightCapture(s, 0)
    case None => false
    case Some((digits, unit)) =>
      match Text.ParseUnsigned(digits, U8_LIMIT)
      case None => false
      case Some(h) => if unit == "cm" then 150 <= h <= 193 else 59 <= h <= 76
  }

  predicate IsLowerHex(c: char)
  {
    '0' <= c <= '9' || 'a' <= c <= 'f'
  }

  /** The regex `^#[a-f0-9]{6}`: a `#` and six lower-case hex digits at the start; more may follow. */
  predicate HairValid(s: string)
  {
    |s| >= 7 && s[0] == '#' && forall i :: 1 <= i < 7 ==> IsLowerHex(s[i])
  }

  const EYE_COLOURS: seq<string> := ["amb", "blu", "brn", "gry", "grn", "hzl", "oth"]

  predicate EyeValid(s: string)
  {
    s in EYE_COLOURS
  }

  /** Nine digits in a row start at position `i`. */
  predicate NineDigitsAt(s: string, i: nat)
  {
    i + 9 <= |s| && Text.AllDigits(s[i..i + 9])
  }

  /** The regex `\d{9}`, unanchored: nine digits in a row anywhere in the text. */
  predicate PidValid(s: string)
  {
    exists i: nat | i + 9 <= |s| :: NineDigitsAt(s, i)
  }

  /** `is_proper_valid_no_country_id`. */
  predicate IsProperValid(p: Passport)
  {
    IsBasicValid(p) &&
    YearValid(p.birthYear.value, 1920, 2002) &&
    YearValid(p.issueYear.value, 2010, 2020) &&
    YearValid(p.expirationYear.value, 2020, 2030) &&
    HeightValid(p.height.value) &&
    HairValid(p.hairColour.value) &&
    EyeValid(p.eyeColour.value) &&
    PidValid(p.passportId.value)
  }

  /** The country id plays no part in either kind of validity. */
  lemma CountryIgnored(p: Passport, cid: Option<string>)
    ensures IsBasicValid(p.(countryId := cid)) == IsBasicValid(p)
    ensures IsProperValid(p.(countryId := cid)) == IsProperValid(p)
  {
  }

  /** Some pair has the key. */
  predicate Has(pairs: seq<(string, string)>, key: string)
  {
    exists i :: 0 <= i < |pairs| && pairs[i].0 == key
  }

  /** A field is present exactly when some pair has its key. */
  lemma PresentMeaning(pairs: seq<(string, string)>, key: string)
    ensures LastValue(pairs, key).Some? <==> Has(pairs, key)
  {
    LastValueMeaning(pairs, key);
  }

  /**
   * A passport is basically valid exactly when its pairs name every key but
   * `cid`.
   */
  lemma BasicValidMeaning(pairs: seq<(string, string)>)
    ensures IsBasicValid(Collected(pairs)) <==>
      Has(pairs, "byr") && Has(pairs, "iyr") && Has(pairs, "eyr") && Has(pairs, "hgt") &&
      Has(pairs, "hcl") && Has(pairs, "ecl") && Has(pairs, "pid")
  {
    PresentMeaning(pairs, "byr");
    PresentMeaning(pairs, "iyr");
    PresentMeaning(pairs, "eyr");
    PresentMeaning(pairs, "hgt");
    PresentMeaning(pairs, "hcl");
    PresentMeaning(pairs, "ecl");
    PresentMeaning(pairs, "pid");
  }

  /** A properly valid passport is basically valid. */
  lemma ProperIsBasic(p: Passport)
    requires IsProperValid(p)
    ensures IsBasicValid(p)
  {
  }

  /** A year written in decimal passes exactly when it lies in the range. */
  lemma YearValidShow(y: nat, lo: nat, hi: nat)
    requires y < U16_LIMIT
    ensures YearValid(Text.Show(y), lo, hi) <==> lo <= y <= hi
  {
    Text.ParseShow(y, U16_LIMIT);
  }

  /** The three year rules: 1920 to 2002, 2010 to 2020 and 2020 to 2030. */
  lemma YearRules(p: Passport)
    requires IsProperValid(p)
    ensures exists y :: Text.ParseUnsigned(p.birthYear.value, U16_LIMIT) == Some(y) && 1920 <= y <= 2002
    ensures exists y :: Text.ParseUnsigned(p.issueYear.value, U16_LIMIT) == Some(y) && 2010 <= y <= 2020
    ensures exists y :: Text.ParseUnsigned(p.expirationYear.value, U16_LIMIT) == Some(y) && 2020 <= y <= 2030
  {
    var b := Text.ParseUnsigned(p.birthYear.value, U16_LIMIT).value;
    var i := Text.ParseUnsigned(p.issueYear.value, U16_LIMIT).value;
    var e := Text.ParseUnsigned(p.expirationYear.value, U16_LIMIT).value;
    assert Text.ParseUnsigned(p.birthYear.value, U16_LIMIT) == Some(b);
    assert Text.ParseUnsigned(p.issueYear.value, U16_LIMIT) == Some(i);
    assert Text.ParseUnsigned(p.expirationYear.value, U16_LIMIT) == Some(e);
  }

  /** A two- or three-digit number has two or three digits. */
  lemma ShowShort(h: nat)
    requires 10 <= h < 1000
    ensures |Text.Show(h)| == 2 || |Text.Show(h)| == 3
    ensures h < 100 <==> |Text.Show(h)| == 2
  {
    assert Text.Show(h) == Text.Show(h / 10) + [Text.DigitChar(h % 10)];
    if h >= 100 {
      assert Text.Show(h / 10) == Text.Show(h / 100) + [Text.DigitChar(h / 10 % 10)];
    }
  }

  /** The regex captures the digits and the unit of a two- or three-digit height. */
  lemma HeightCaptureShow(h: nat, unit: string)
    requires 10 <= h < 1000 && (unit == "cm" || unit == "in")
    ensures HeightCapture(Text.Show(h) + unit, 0) == Some((Text.Show(h), unit))
  {
    var d := Text.Show(h);
    var s := d + unit;
    ShowShort(h);
    if |d| == 3 {
      assert s[0..3] == d && s[3..5] == unit;
      assert HeightAt(s, 0, 3);
      assert HeightCapture(s, 0) == Some((s[0..3], s[3..5]));
    } else {
      assert s[0..2] == d && s[2..4] == unit;
      assert !HeightAt(s, 0, 3);
      assert HeightAt(s, 0, 2);
      assert HeightCapture(s, 0) == Some((s[0..2], s[2..4]));
    }
  }

  /**
   * A height written as a two- or three-digit number and a unit passes
   * exactly when it lies in that unit's range.
   */
  lemma HeightValidShow(h: nat, unit: string)
    requires 10 <= h < 1000 && (unit == "cm" || unit == "in")
    ensures HeightValid(Text.Show(h) + unit) <==>
      if unit == "cm" then 150 <= h <= 193 else 59 <= h <= 76
  {
    HeightCaptureShow(h, unit);
    if h < U8_LIMIT {
      Text.ParseShow(h, U8_LIMIT);
    } else {
      Text.ShowValue(h);
      assert Text.ParseUnsigned(Text.Show(h), U8_LIMIT).None?;
    }
  }

  /** An id of digits only passes exactly when it has at least nine of them. */
  lemma PidDigits(s: string)
    requires Text.AllDigits(s)
    ensures PidValid(s) <==> |s| >= 9
  {
    if |s| >= 9 {
      assert forall k :: 0 <= k < 9 ==> s[0..9][k] == s[k];
      assert NineDigitsAt(s, 0);
    }
  }

  /** The decimal text of a four-digit number. */
  lemma ShowFour(n: nat)
    requires 1000 <= n < 10000
    ensures Text.Show(n) ==
      [Text.DigitChar(n / 1000), Text.DigitChar(n / 100 % 10), Text.DigitChar(n / 10 % 10), Text.DigitChar(n % 10)]
  {
    assert n / 10 / 10 == n / 100 && n / 100 / 10 == n / 1000;
    assert Text.Show(n / 100) == [Text.DigitChar(n / 1000), Text.DigitChar(n / 100 % 10)];
    assert Text.Show(n / 10) == Text.Show(n / 100) + [Text.DigitChar(n / 10 % 10)];
    assert Text.Show(n) == Text.Show(n / 10) + [Text.DigitChar(n % 10)];
  }

  /** The decimal text of a two- or three-digit number. */
  lemma ShowThree(n: nat)
    requires 10 <= n < 1000
    ensures n < 100 ==> Text.Show(n) == [Text.DigitChar(n / 10), Text.DigitChar(n % 10)]
    ensures n >= 100 ==> Text.Show(n) == [Text.DigitChar(n / 100), Text.DigitChar(n / 10 % 10), Text.DigitChar(n % 10)]
  {
    assert n / 10 / 10 == n / 100;
    assert Text.Show(n) == Text.Show(n / 10) + [Text.DigitChar(n % 10)];
    if n >= 100 {
      assert Text.Show(n / 10) == [Text.DigitChar(n / 100), Text.DigitChar(n / 10 % 10)];
    }
  }

  /** The text `1972` is the year 1972, and so on for the years of the tests. */
  lemma YearText(s: string, y: nat)
    requires 1000 <= y < 10000
    requires s == [Text.DigitChar(y / 1000), Text.DigitChar(y / 100 % 10), Text.DigitChar(y / 10 % 10), Text.DigitChar(y % 10)]
    ensures forall lo: nat, hi: nat :: YearValid(s, lo, hi) <==> lo <= y <= hi
  {
    ShowFour(y);
    forall lo: nat, hi: nat
      ensures YearValid(s, lo, hi) <==> lo <= y <= hi
    {
      YearValidShow(y, lo, hi);
    }
  }

  /** The first passport of the tests that breaks a rule: its expiration year is 1972. */
  lemma FirstInvalidSample(p: Passport)
    requires p.expirationYear == Some("1972")
    ensures !IsProperValid(p)
  {
    YearText("1972", 1972);
    assert !YearValid(p.expirationYear.value, 2020, 2030);
  }

  /** The second: its expiration year is 1967. */
  lemma SecondInvalidSample(p: Passport)
    requires p.expirationYear == Some("1967")
    ensures !IsProperValid(p)
  {
    YearText("1967", 1967);
    assert !YearValid(p.expirationYear.value, 2020, 2030);
  }

  /** The third: its hair colour `dab227` lacks the `#`. */
  lemma ThirdInvalidSample(p: Passport)
    requires p.hairColour == Some("dab227")
    ensures !IsProperValid(p)
  {
    assert !HairValid(p.hairColour.value);
  }

  /** The fourth: its eye colour `zzz` is not on the list. */
  lemma FourthInvalidSample(p: Passport)
    requires p.eyeColour == Some("zzz")
    ensures !IsProperValid(p)
  {
    assert !EyeValid(p.eyeColour.value);
  }

  /** The height `74in` of the first valid passport. */
  lemma Height74()
    ensures HeightValid("74in")
  {
    ShowThree(74);
    HeightValidShow(74, "in");
    assert Text.Show(74) + "in" == "74in";
  }

  /** The height `158cm` of the last valid passport. */
  lemma Height158()
    ensures HeightValid("158cm")
  {
    ShowThree(158);
    HeightValidShow(158, "cm");
    assert Text.Show(158) + "cm" == "158cm";
  }

  /** The id `087499704` of the first valid passport. */
  lemma FirstId(s: string)
    requires s == "087499704"
    ensures PidValid(s)
  {
    assert forall k :: 0 <= k < 9 ==> Text.IsDigit(s[k]);
    PidDigits(s);
  }

  /** The id `093154719` of the last valid passport. */
  lemma LastId(s: string)
    requires s == "093154719"
    ensures PidValid(s)
  {
    assert forall k :: 0 <= k < 9 ==> Text.IsDigit(s[k]);
    PidDigits(s);
  }

  /** The colours `#623a2f` and `#b6652a` of the valid passports. */
  lemma HairSamples(s: string)
    requires s == "#623a2f" || s == "#b6652a"
    ensures HairValid(s)
  {
  }

  /** The first properly valid passport of the tests. */
  lemma FirstValidSample(p: Passport)
    requires p.birthYear == Some("1980") && p.issueYear == Some("2012") && p.expirationYear == Some("2030")
    requires p.height == Some("74in") && p.hairColour == Some("#623a2f") && p.eyeColour == Some("grn")
    requires p.passportId == Some("087499704")
    ensures IsProperValid(p)
  {
    YearText("1980", 1980);
    YearText("2012", 2012);
    YearText("2030", 2030);
    Height74();
    HairSamples(p.hairColour.value);
    FirstId(p.passportId.value);
  }

  /** The last properly valid passport of the tests. */
  lemma LastValidSample(p: Passport)
    requires p.birthYear == Some("1944") && p.issueYear == Some("2010") && p.expirationYear == Some("2021")
    requires p.height == Some("158cm") && p.hairColour == Some("#b6652a") && p.eyeColour == Some("blu")
    requires p.passportId == Some("093154719")
    ensures IsProperValid(p)
  {
    YearText("1944", 1944);
    YearText("2010", 2010);
    YearText("2021", 2021);
    Height158();
    HairSamples(p.hairColour.value);
    LastId(p.passportId.value);
  }
}
