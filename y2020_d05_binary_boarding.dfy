// Binary boarding (2020, day 5).
//
// A boarding pass names a seat by binary space partitioning: seven letters
// F (front) or B (back) choose the row and three letters L or R the column.
// Reading F and L as 0 and B and R as 1 turns the code into the binary
// numeral of the seat id, `row * 8 + column`.

module BinaryBoarding {
  import opened Wrappers

  /** The largest `u16` plus one. */
  const U16_LIMIT: nat := 0x1_0000

  /** One character after the four `replace` calls: F and L become 0, B and R become 1. */
  function ReplaceChar(c: char): char
  {
    if c == 'F' || c == 'L' then '0'
    else if c == 'B' || c == 'R' then '1'
    else c
  }

  /** The code after the four `replace` calls. */
  function Replaced(code: string): (r: string)
    ensures |r| == |code|
  {
    seq(|code|, i requires 0 <= i < |code| => ReplaceChar(code[i]))
  }

  predicate IsBit(c: char)
  {
    c == '0' || c == '1'
  }

  predicate AllBits(s: string)
  {
    forall i :: 0 <= i < |s| ==> IsBit(s[i])
  }

  /** The value of a binary numeral, most significant digit first. */
  function BinValue(s: string): nat
    requires AllBits(s)
  {
    if s == [] then 0 else 2 * BinValue(s[..|s| - 1]) + (if s[|s| - 1] == '1' then 1 else 0)
  }

  function Pow2(n: nat): (r: nat)
    ensures r >= 1
  {
    if n == 0 then 1 else 2 * Pow2(n - 1)
  }

  /**
   * `u16::from_str_radix(s, 2)`: an optional leading `+`, then at least one
   * binary digit and nothing else, with a value below 2^16; `None` for
   * anything else, where the source's `unwrap` panics.
   */
  function FromStrRadix2(s: string): (r: Option<nat>)
    ensures r.Some? ==> r.value < U16_LIMIT
  {
    var digits := if |s| > 1 && s[0] == '+' then s[1..] else s;
    if digits == [] || !AllBits(digits) then None
    else if BinValue(digits) < U16_LIMIT then Some(BinValue(digits))
    else None
  }

  /** `get_seat_id`. */
  function GetSeatId(code: string): Option<nat>
  {
    FromStrRadix2(Replaced(code))
  }

  /** A numeral of `n` binary digits has a value below 2^n. */
  lemma {:induction false} BinValueBound(s: string)
    requires AllBits(s)
    ensures BinValue(s) < Pow2(|s|)
  {
    if s != [] {
      BinValueBound(s[..|s| - 1]);
    }
  }

  /** Two numerals side by side are a numeral. */
  lemma AllBitsConcat(a: string, b: string)
    requires AllBits(a) && AllBits(b)
    ensures AllBits(a + b)
  {
    forall i | 0 <= i < |a + b|
      ensures IsBit((a + b)[i])
    {
      if i >= |a| {
        assert (a + b)[i] == b[i - |a|];
      }
    }
  }

  /** Reading the first digits and then the rest: the value of a concatenation. */
  lemma {:induction false} BinValueConcat(a: string, b: string)
    requires AllBits(a) && AllBits(b)
    ensures AllBits(a + b) && BinValue(a + b) == BinValue(a) * Pow2(|b|) + BinValue(b)
  {
    AllBitsConcat(a, b);
    if b == [] {
      assert a + b == a;
    } else {
      var b' := b[..|b| - 1];
      var bit := if b[|b| - 1] == '1' then 1 else 0;
      assert (a + b)[..|a + b| - 1] == a + b' && (a + b)[|a + b| - 1] == b[|b| - 1];
      assert AllBits(b');
      BinValueConcat(a, b');
      var x, p, v := BinValue(a), Pow2(|b'|), BinValue(b');
      assert BinValue(a + b) == 2 * (x * p + v) + bit;
      assert BinValue(b) == 2 * v + bit;
      assert Pow2(|b|) == 2 * p;
      ShiftStep(x, p, v, bit);
    }
  }

  /** Doubling a shifted numeral shifts it one digit further. */
  lemma ShiftStep(x: int, p: int, v: int, bit: int)
    ensures 2 * (x * p + v) + bit == x * (2 * p) + (2 * v + bit)
  {
  }

  /** A letter of the row half, F or B. */
  predicate RowLetter(c: char)
  {
    c == 'F' || c == 'B'
  }

  /** A letter of the column half, L or R. */
  predicate ColumnLetter(c: char)
  {
    c == 'L' || c == 'R'
  }

  /** A boarding pass: seven row letters then three column letters. */
  predicate BoardingPass(code: string)
  {
    |code| == 10 && (forall i :: 0 <= i < 7 ==> RowLetter(code[i])) &&
    forall i :: 7 <= i < 10 ==> ColumnLetter(code[i])
  }

  /** The row a pass names: its F/B letters read as a binary numeral. */
  function Row(code: string): nat
    requires BoardingPass(code)
  {
    BinValue(Replaced(code[..7]))
  }

  /** The column a pass names: its L/R letters read as a binary numeral. */
  function Column(code: string): nat
    requires BoardingPass(code)
  {
    BinValue(Replaced(code[7..]))
  }

  /**
   * A boarding pass always has an id, `row * 8 + column`, with the row below
   * 128 and the column below 8, so the id is below 1024.
   */
  lemma SeatIdMeaning(code: string)
    requires BoardingPass(code)
    ensures Row(code) < 128 && Column(code) < 8
    ensures GetSeatId(code) == Some(Row(code) * 8 + Column(code))
    ensures GetSeatId(code).value < 1024
  {
    var r := Replaced(code[..7]);
    var c := Replaced(code[7..]);
    assert Replaced(code) == r + c;
    BinValueBound(r);
    BinValueBound(c);
    assert Pow2(3) == 8 && Pow2(7) == 128;
    BinValueConcat(r, c);
    assert Replaced(code)[0] != '+';
  }

  /**
   * The first `n` letters of the pass for a seat id, most significant
   * first: B/F at positions 0 to 6, R/L from position 7 on.
   */
  function Pass(id: nat, n: nat): (code: string)
    ensures |code| == n
  {
    if n == 0 then ""
    else Pass(id / 2, n - 1) + [if n <= 7 then (if id % 2 == 1 then 'B' else 'F') else (if id % 2 == 1 then 'R' else 'L')]
  }

  /** The `n` letters read back as the id modulo 2^n. */
  lemma {:induction false} PassValue(id: nat, n: nat)
    ensures AllBits(Replaced(Pass(id, n)))
    ensures BinValue(Replaced(Pass(id, n))) == id % Pow2(n)
    ensures forall i :: 0 <= i < n && i < 7 ==> RowLetter(Pass(id, n)[i])
    ensures forall i :: 0 <= i < n && i >= 7 ==> ColumnLetter(Pass(id, n)[i])
  {
    if n > 0 {
      PassValue(id / 2, n - 1);
      var p := Pass(id, n);
      var front := Pass(id / 2, n - 1);
      assert p[..n - 1] == front;
      assert Replaced(p)[..n - 1] == Replaced(front);
      assert Replaced(p) == Replaced(front) + [Replaced(p)[n - 1]];
      ModHalf(id, n);
      forall i | 0 <= i < n && i < 7
        ensures RowLetter(p[i])
      {
        if i < n - 1 {
          assert p[i] == front[i];
        }
      }
      forall i | 0 <= i < n && i >= 7
        ensures ColumnLetter(p[i])
      {
        if i < n - 1 {
          assert p[i] == front[i];
        }
      }
    }
  }

  /** Halving and taking the last bit: `id % 2^n == 2 * ((id / 2) % 2^(n-1)) + id % 2`. */
  lemma ModHalf(id: nat, n: nat)
    requires n > 0
    ensures id % Pow2(n) == 2 * ((id / 2) % Pow2(n - 1)) + id % 2
  {
    var p := Pow2(n - 1);
    var q := (id / 2) / p;
    var s := (id / 2) % p;
    assert id / 2 == q * p + s;
    assert id == q * (2 * p) + (2 * s + id % 2);
    ModUnique(id, 2 * p, q, 2 * s + id % 2);
  }

  lemma Pow2Ten()
    ensures Pow2(10) == 1024
  {
    assert Pow2(3) == 8;
    assert Pow2(7) == 128;
  }

  /** Every seat id below 1024 has a boarding pass, and the pass reads back as the id. */
  lemma PassRoundTrip(id: nat)
    requires id < 1024
    ensures BoardingPass(Pass(id, 10))
    ensures GetSeatId(Pass(id, 10)) == Some(id)
  {
    PassValue(id, 10);
    var r := Replaced(Pass(id, 10));
    Pow2Ten();
    assert BinValue(r) == id;
    assert IsBit(r[0]);
    assert FromStrRadix2(r) == Some(id);
  }

  /**
   * A code panics exactly when, after the replacements and an optional
   * leading `+`, it is empty, holds a character other than 0 and 1, or reads
   * as 2^16 or more.
   */
  lemma PanicMeaning(code: string)
    ensures var s := Replaced(code);
      var digits := if |s| > 1 && s[0] == '+' then s[1..] else s;
      GetSeatId(code).None? <==> digits == [] || !AllBits(digits) || BinValue(digits) >= U16_LIMIT
  {
  }

  /** The first pass of the tests. */
  lemma Sample()
    ensures GetSeatId("FBFBBFFRLR") == Some(357)
  {
    assert Pass(2, 3) == "FBF" by {
      assert Pass(0, 1) == "F";
      assert Pass(1, 2) == "FB";
    }
    assert Pass(22, 6) == "FBFBBF" by {
      assert Pass(5, 4) == "FBFB";
      assert Pass(11, 5) == "FBFBB";
    }
    assert Pass(178, 9) == "FBFBBFFRL" by {
      assert Pass(44, 7) == "FBFBBFF";
      assert Pass(89, 8) == "FBFBBFFR";
    }
    assert Pass(357, 10) == "FBFBBFFRLR";
    PassRoundTrip(357);
  }
}
