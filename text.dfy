// The pieces of Rust's string handling the puzzle parsers lean on:
// `str::split` on a character, `str::split("\n\n")`, `str::lines` and
// `str::parse` into an unsigned integer. Each comes with the text it is the
// inverse of, so that a parser can be proved to read back what it was given.

module Text {
  import opened Wrappers

  /** `str::split` on one character: the pieces between the separators, in order; never none. */
  function Split(s: string, sep: char): (r: seq<string>)
    ensures |r| >= 1
    decreases |s|
  {
    if s == [] then [""]
    else
      var rest := Split(s[1..], sep);
      if s[0] == sep then [""] + rest else [[s[0]] + rest[0]] + rest[1..]
  }

  /** The pieces with the separator between each two. */
  function Join(parts: seq<string>, sep: char): (r: string)
    ensures |parts| >= 1 ==> |r| >= |parts[|parts| - 1]|
    decreases |parts|
  {
    if parts == [] then ""
    else if |parts| == 1 then parts[0]
    else parts[0] + [sep] + Join(parts[1..], sep)
  }

  /** A piece with no separator in it splits to itself. */
  lemma {:induction false} SplitNoSep(p: string, sep: char)
    requires sep !in p
    ensures Split(p, sep) == [p]
    decreases |p|
  {
    if p != [] {
      SplitNoSep(p[1..], sep);
      assert [p[0]] + p[1..] == p;
    }
  }

  /** A leading piece with no separator in it comes off whole. */
  lemma {:induction false} SplitPiece(p: string, sep: char, t: string)
    requires sep !in p
    ensures Split(p + [sep] + t, sep) == [p] + Split(t, sep)
    decreases |p|
  {
    var s := p + [sep] + t;
    if p == [] {
      assert s[1..] == t;
    } else {
      assert s[1..] == p[1..] + [sep] + t;
      SplitPiece(p[1..], sep, t);
      assert [p[0]] + p[1..] == p;
    }
  }

  /** Splitting pieces that hold no separator, once joined, gives the pieces back. */
  lemma {:induction false} SplitJoin(parts: seq<string>, sep: char)
    requires |parts| >= 1
    requires forall i :: 0 <= i < |parts| ==> sep !in parts[i]
    ensures Split(Join(parts, sep), sep) == parts
    decreases |parts|
  {
    if |parts| == 1 {
      SplitNoSep(parts[0], sep);
    } else {
      SplitPiece(parts[0], sep, Join(parts[1..], sep));
      SplitJoin(parts[1..], sep);
    }
  }

  /** Joining the pieces of a split gives the text back. */
  lemma {:induction false} JoinSplit(s: string, sep: char)
    ensures Join(Split(s, sep), sep) == s
    decreases |s|
  {
    if s != [] {
      var rest := Split(s[1..], sep);
      JoinSplit(s[1..], sep);
      if s[0] == sep {
        assert ([""] + rest)[1..] == rest;
      } else {
        var parts := [[s[0]] + rest[0]] + rest[1..];
        if |rest| > 1 {
          assert parts[1..] == rest[1..];
          assert Join(rest, sep) == rest[0] + [sep] + Join(rest[1..], sep);
        }
        assert [s[0]] + s[1..] == s;
      }
    }
  }

  /** Joining one more piece on the end. */
  lemma {:induction false} JoinSnoc(parts: seq<string>, q: string, sep: char)
    requires |parts| >= 1
    ensures Join(parts + [q], sep) == Join(parts, sep) + [sep] + q
    decreases |parts|
  {
    if |parts| > 1 {
      assert (parts + [q])[1..] == parts[1..] + [q];
      JoinSnoc(parts[1..], q, sep);
    } else {
      assert (parts + [q])[1..] == [q];
    }
  }

  /** A character that is neither the separator nor in any piece is not in their join. */
  lemma {:induction false} JoinLacks(parts: seq<string>, sep: char, c: char)
    requires c != sep
    requires forall i :: 0 <= i < |parts| ==> c !in parts[i]
    ensures c !in Join(parts, sep)
    decreases |parts|
  {
    if |parts| > 1 {
      JoinLacks(parts[1..], sep, c);
      assert c !in parts[0];
    } else if |parts| == 1 {
      assert c !in parts[0];
    }
  }

  /** A join ends the way its last piece does, when that piece is not empty. */
  lemma {:induction false} JoinLast(parts: seq<string>, sep: char)
    requires |parts| >= 1 && parts[|parts| - 1] != ""
    ensures var j := Join(parts, sep); j != [] && j[|j| - 1] == parts[|parts| - 1][|parts[|parts| - 1]| - 1]
    decreases |parts|
  {
    if |parts| > 1 {
      JoinLast(parts[1..], sep);
      assert parts[1..][|parts[1..]| - 1] == parts[|parts| - 1];
    }
  }

  /** A line with one trailing carriage return removed, as `str::lines` does. */
  function StripCr(l: string): string
  {
    if l != [] && l[|l| - 1] == '\r' then l[..|l| - 1] else l
  }

  /** A line `str::lines` gives back unchanged: no newline in it and no carriage return at its end. */
  predicate PlainLine(l: string)
  {
    '\n' !in l && (l == [] || l[|l| - 1] != '\r')
  }

  /**
   * `str::lines`: the pieces between newlines, without the empty piece a
   * final newline leaves. A piece ended by a newline loses one trailing
   * carriage return (a `\r\n` ending); a last piece with no newline after
   * it keeps its carriage return.
   */
  function Lines(s: string): seq<string>
  {
    if s == [] then []
    else
      var parts := Split(s, '\n');
      var ended := StripCrs(parts[..|parts| - 1]);
      if parts[|parts| - 1] == "" then ended else ended + [parts[|parts| - 1]]
  }

  /** Each line with one trailing carriage return removed. */
  function StripCrs(ls: seq<string>): (r: seq<string>)
    ensures |r| == |ls|
  {
    seq(|ls|, i requires 0 <= i < |ls| => StripCr(ls[i]))
  }

  /** Plain lines lose nothing to carriage-return stripping. */
  lemma StripCrsPlain(ls: seq<string>)
    requires forall i :: 0 <= i < |ls| ==> PlainLine(ls[i])
    ensures StripCrs(ls) == ls
  {
    forall i | 0 <= i < |ls| ensures StripCrs(ls)[i] == ls[i] {
      assert PlainLine(ls[i]);
    }
  }

  /** Every line followed by a newline. */
  function Unlines(ls: seq<string>): string
  {
    Join(ls + [""], '\n')
  }

  /** Lines written one per newline are read back by `str::lines`. */
  lemma LinesUnlines(ls: seq<string>)
    requires forall i :: 0 <= i < |ls| ==> PlainLine(ls[i])
    ensures Lines(Unlines(ls)) == ls
  {
    var parts := ls + [""];
    assert forall i :: 0 <= i < |parts| ==> '\n' !in parts[i] by {
      forall i | 0 <= i < |parts| ensures '\n' !in parts[i] {
        if i < |ls| {
          assert parts[i] == ls[i];
        }
      }
    }
    SplitJoin(parts, '\n');
    if ls != [] {
      JoinSnoc(ls, "", '\n');
      assert Unlines(ls) != [];
      assert parts[..|parts| - 1] == ls;
      StripCrsPlain(ls);
    }
  }

  /** Text whose last piece is not empty keeps every piece as a line, the last one as it is. */
  lemma LinesUnended(s: string, parts: seq<string>)
    requires s != [] && Split(s, '\n') == parts && parts[|parts| - 1] != ""
    ensures Lines(s) == StripCrs(parts[..|parts| - 1]) + [parts[|parts| - 1]]
  {
  }

  /** A non-empty list is its front followed by its last element. */
  lemma InitLast(ls: seq<string>)
    requires |ls| >= 1
    ensures ls[..|ls| - 1] + [ls[|ls| - 1]] == ls
  {
  }

  /** Lines joined by newlines, the last one not empty, are read back by `str::lines`. */
  lemma LinesJoin(ls: seq<string>)
    requires |ls| >= 1 && ls[|ls| - 1] != ""
    requires forall i :: 0 <= i < |ls| ==> PlainLine(ls[i])
    ensures Lines(Join(ls, '\n')) == ls
  {
    InitLast(ls);
    StripCrsPlain(ls[..|ls| - 1]);
    var s := Join(ls, '\n');
    SplitJoin(ls, '\n');
    assert s != [];
    LinesUnended(s, ls);
  }

  /** No two newlines in a row. */
  predicate NoBlank(s: string)
  {
    forall i :: 0 <= i < |s| - 1 ==> !(s[i] == '\n' && s[i + 1] == '\n')
  }

  /** `str::split("\n\n")`: the pieces between blank lines, matched from the left without overlap. */
  function SplitBlank(s: string): (r: seq<string>)
    ensures |r| >= 1
    decreases |s|
  {
    if |s| < 2 then [s]
    else if s[0] == '\n' && s[1] == '\n' then [""] + SplitBlank(s[2..])
    else
      var rest := SplitBlank(s[1..]);
      [[s[0]] + rest[0]] + rest[1..]
  }

  /** Text with no two newlines in a row is one piece. */
  lemma {:induction false} SplitBlankNone(s: string)
    requires NoBlank(s)
    ensures SplitBlank(s) == [s]
    decreases |s|
  {
    if |s| >= 2 {
      assert NoBlank(s[1..]) by {
        forall i | 0 <= i < |s[1..]| - 1 ensures !(s[1..][i] == '\n' && s[1..][i + 1] == '\n') {
          assert s[1..][i] == s[i + 1] && s[1..][i + 1] == s[i + 2];
        }
      }
      SplitBlankNone(s[1..]);
      assert [s[0]] + s[1..] == s;
    }
  }

  /**
   * A leading piece with no two newlines in a row, and none at its end,
   * comes off whole at the blank line that follows it.
   */
  lemma {:induction false} SplitBlankPiece(a: string, b: string)
    requires NoBlank(a) && (a == [] || a[|a| - 1] != '\n')
    ensures SplitBlank(a + "\n\n" + b) == [a] + SplitBlank(b)
    decreases |a|
  {
    var s := a + "\n\n" + b;
    if a == [] {
      assert s[2..] == b;
    } else {
      assert s[1..] == a[1..] + "\n\n" + b;
      assert NoBlank(a[1..]) by {
        forall i | 0 <= i < |a[1..]| - 1 ensures !(a[1..][i] == '\n' && a[1..][i + 1] == '\n') {
          assert a[1..][i] == a[i + 1] && a[1..][i + 1] == a[i + 2];
        }
      }
      SplitBlankPiece(a[1..], b);
      assert !(s[0] == '\n' && s[1] == '\n') by {
        if |a| == 1 {
          assert s[0] == a[0];
        } else {
          assert s[0] == a[0] && s[1] == a[1];
        }
      }
      assert [a[0]] + a[1..] == a;
    }
  }

  /** Pieces that are not empty and hold no newline, joined by newlines, have no blank line. */
  lemma {:induction false} JoinNoBlank(parts: seq<string>)
    requires forall i :: 0 <= i < |parts| ==> parts[i] != "" && '\n' !in parts[i]
    ensures NoBlank(Join(parts, '\n'))
    ensures |parts| >= 1 ==> Join(parts, '\n') != [] && Join(parts, '\n')[|Join(parts, '\n')| - 1] != '\n'
    decreases |parts|
  {
    if |parts| == 1 {
      assert parts[0][|parts[0]| - 1] in parts[0];
    } else if |parts| > 1 {
      var p := parts[0];
      var t := Join(parts[1..], '\n');
      JoinNoBlank(parts[1..]);
      var s := p + ['\n'] + t;
      assert s == Join(parts, '\n');
      forall i | 0 <= i < |s| - 1 ensures !(s[i] == '\n' && s[i + 1] == '\n') {
        if i < |p| {
          assert s[i] == p[i];
          assert s[i] in p;
        } else if i > |p| {
          assert s[i] == t[i - |p| - 1] && s[i + 1] == t[i - |p|];
        } else {
          assert s[i + 1] == t[0];
          assert t[0] == parts[1][0];
          assert parts[1][0] in parts[1];
        }
      }
      assert s[|s| - 1] == t[|t| - 1];
    }
  }

  /** Lines that are not empty, each followed by a newline, have no blank line. */
  lemma UnlinesNoBlank(ls: seq<string>)
    requires forall i :: 0 <= i < |ls| ==> ls[i] != "" && '\n' !in ls[i]
    ensures NoBlank(Unlines(ls))
  {
    if ls != [] {
      JoinNoBlank(ls);
      JoinSnoc(ls, "", '\n');
      var j := Join(ls, '\n');
      var s := j + ['\n'];
      assert Unlines(ls) == s;
      forall i | 0 <= i < |s| - 1 ensures !(s[i] == '\n' && s[i + 1] == '\n') {
        if i < |j| - 1 {
          assert s[i] == j[i] && s[i + 1] == j[i + 1];
        }
      }
    }
  }

  /** A decimal digit. */
  predicate IsDigit(c: char)
  {
    '0' <= c <= '9'
  }

  /** Every character is a decimal digit. */
  predicate AllDigits(s: string)
  {
    forall i :: 0 <= i < |s| ==> IsDigit(s[i])
  }

  /** The value of a digit. */
  function DigitValue(c: char): (d: nat)
    requires IsDigit(c)
    ensures d < 10
  {
    (c as int) - ('0' as int)
  }

  /** The digit of a value below ten. */
  function DigitChar(d: nat): (c: char)
    requires d < 10
    ensures IsDigit(c) && DigitValue(c) == d
  {
    (('0' as int) + d) as char
  }

  /** The value of a string of decimal digits, most significant first. */
  function DigitsValue(ds: string): nat
    requires AllDigits(ds)
    decreases |ds|
  {
    if ds == [] then 0 else 10 * DigitsValue(ds[..|ds| - 1]) + DigitValue(ds[|ds| - 1])
  }

  /**
   * `str::parse` into an unsigned integer type whose values lie below
   * `bound`: an optional leading `+` before at least one digit, then only
   * decimal digits, and a value that fits; anything else is an error.
   */
  function ParseUnsigned(s: string, bound: nat): (r: Option<nat>)
    ensures r.Some? ==> r.value < bound
  {
    var digits := if |s| > 1 && s[0] == '+' then s[1..] else s;
    if digits == [] || !AllDigits(digits) then None
    else if DigitsValue(digits) < bound then Some(DigitsValue(digits))
    else None
  }

  /** The decimal text of a number, as `Display` writes it. */
  function Show(n: nat): (s: string)
    ensures |s| >= 1 && AllDigits(s)
  {
    if n < 10 then [DigitChar(n)] else Show(n / 10) + [DigitChar(n % 10)]
  }

  /** The digits of a number have that number as their value. */
  lemma {:induction false} ShowValue(n: nat)
    ensures DigitsValue(Show(n)) == n
  {
    if n >= 10 {
      var s := Show(n);
      assert s[..|s| - 1] == Show(n / 10);
      ShowValue(n / 10);
    }
  }

  /** A written number is read back by `str::parse`, when it fits. */
  lemma ParseShow(n: nat, bound: nat)
    requires n < bound
    ensures ParseUnsigned(Show(n), bound) == Some(n)
  {
    ShowValue(n);
    assert IsDigit(Show(n)[0]);
  }

  /** A character that is not a digit does not occur in a written number. */
  lemma ShowLacks(n: nat, c: char)
    requires !IsDigit(c)
    ensures c !in Show(n)
  {
  }
}
