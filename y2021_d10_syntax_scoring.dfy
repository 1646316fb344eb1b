// Navigation-subsystem syntax checking (2021, day 10).
//
// A line of brackets is scanned left to right with a stack of open delimiters.
// A closer that does not match the top of the stack makes the line corrupt; a
// line that runs out with open delimiters left is incomplete, and its
// autocompletion closes them from the top of the stack down.

module SyntaxScoring {
  import opened Wrappers

  /** One more than the largest `u64`, the type of the autocomplete score. */
  const U64_LIMIT: nat := 0x1_0000_0000_0000_0000

  predicate IsOpener(c: char)
  {
    c == '(' || c == '[' || c == '{' || c == '<'
  }

  predicate IsCloser(c: char)
  {
    c == ')' || c == ']' || c == '}' || c == '>'
  }

  /** `pair`: the partner of a delimiter. It is only ever called with a delimiter. */
  function Pair(c: char): (p: char)
    requires IsOpener(c) || IsCloser(c)
    ensures IsOpener(c) <==> IsCloser(p)
  {
    match c
    case '(' => ')'
    case '[' => ']'
    case '{' => '}'
    case '<' => '>'
    case ')' => '('
    case ']' => '['
    case '}' => '{'
    case '>' => '<'
  }

  /** `pair` is an involution: each delimiter is the partner of its partner. */
  lemma PairInvolution(c: char)
    requires IsOpener(c) || IsCloser(c)
    ensures Pair(Pair(c)) == c
    ensures Pair(c) != c
  {
  }

  /** Where a scan stands: still running with a stack of openers, or stopped. */
  datatype Outcome =
    | Open(stack: seq<char>)   // every closer so far matched; `stack` is bottom to top
    | Corrupt(closer: char)    // the first closer that did not match the top of the stack
    | Unopened                 // a closer met an empty stack: `last().unwrap()` panics

  predicate AllOpeners(s: seq<char>)
  {
    forall i :: 0 <= i < |s| ==> IsOpener(s[i])
  }

  /** One character of the scan; characters that are not delimiters are skipped. */
  function Step(o: Outcome, c: char): Outcome
  {
    match o
    case Open(st) =>
      if IsOpener(c) then Open(st + [c])
      else if IsCloser(c) then
        if st == [] then Unopened
        else if st[|st| - 1] == Pair(c) then Open(st[..|st| - 1])
        else Corrupt(c)
      else o
    case _ => o
  }

  /** The scan of a whole line, from an empty stack. */
  function Scan(line: string): (o: Outcome)
    ensures o.Open? ==> AllOpeners(o.stack)
    ensures o.Corrupt? ==> IsCloser(o.closer)
  {
    if line == [] then Open([]) else Step(Scan(line[..|line| - 1]), line[|line| - 1])
  }

  /** The scan continued over further characters. */
  function ScanFrom(o: Outcome, s: string): Outcome
  {
    if s == [] then o else Step(ScanFrom(o, s[..|s| - 1]), s[|s| - 1])
  }

  lemma {:induction false} ScanAppend(a: string, b: string)
    ensures Scan(a + b) == ScanFrom(Scan(a), b)
    decreases |b|
  {
    if b == [] {
      assert a + b == a;
    } else {
      var n := |b| - 1;
      assert (a + b)[..|a + b| - 1] == a + b[..n];
      ScanAppend(a, b[..n]);
    }
  }

  /** The score of a corrupt line's first bad closer, and 0 for a line that is not corrupt. */
  function CorruptionScore(o: Outcome): nat
    requires !o.Unopened?
  {
    match o
    case Corrupt(c) =>
      if c == ')' then 3 else if c == ']' then 57 else if c == '}' then 1197 else if c == '>' then 25137 else 0
    case Open(_) => 0
  }

  /** A line scores above 0 exactly when it is corrupt, and each closer has its own score. */
  lemma CorruptionScoreMeaning(line: string)
    requires !Scan(line).Unopened?
    ensures CorruptionScore(Scan(line)) > 0 <==> Scan(line).Corrupt?
    ensures Scan(line).Corrupt? ==>
              CorruptionScore(Scan(line)) in {3, 57, 1197, 25137}
  {
  }

  /**
   * `find_corruption_score`: push openers, pop on a matching closer, and return the
   * score of the first closer that does not match. `None` is the panic on a closer
   * met with an empty stack.
   */
  method FindCorruptionScore(line: string) returns (r: Option<nat>)
    ensures r.None? <==> Scan(line).Unopened?
    ensures r.Some? ==> r.value == CorruptionScore(Scan(line))
  {
    var stack: seq<char> := [];
    for i := 0 to |line|
      invariant Scan(line[..i]) == Open(stack)
    {
      var c := line[i];
      assert line[..i + 1][..i] == line[..i];
      if IsOpener(c) {
        stack := stack + [c];
      } else if IsCloser(c) {
        if |stack| == 0 {
          StopsForever(line, i + 1);
          return None;
        }
        if stack[|stack| - 1] == Pair(c) {
          stack := stack[..|stack| - 1];
        } else {
          StopsForever(line, i + 1);
          var score := if c == ')' then 3 else if c == ']' then 57 else if c == '}' then 1197 else 25137;
          return Some(score);
        }
      }
    }
    assert line[..|line|] == line;
    return Some(0);
  }

  /** Once a scan stops, the rest of the line does not change its outcome. */
  lemma StopsForever(line: string, i: nat)
    requires i <= |line| && !Scan(line[..i]).Open?
    ensures Scan(line) == Scan(line[..i])
  {
    assert line == line[..i] + line[i..];
    ScanAppend(line[..i], line[i..]);
    StoppedStays(Scan(line[..i]), line[i..]);
  }

  lemma {:induction false} StoppedStays(o: Outcome, s: string)
    requires !o.Open?
    ensures ScanFrom(o, s) == o
    decreases |s|
  {
    if s != [] {
      StoppedStays(o, s[..|s| - 1]);
    }
  }

  /** The closers that finish a stack of openers, from the top of the stack down. */
  function Completion(stack: seq<char>): (cs: seq<char>)
    requires AllOpeners(stack)
    ensures |cs| == |stack|
    ensures forall i :: 0 <= i < |cs| ==> IsCloser(cs[i]) && cs[i] == Pair(stack[|stack| - 1 - i])
  {
    if stack == [] then [] else [Pair(stack[|stack| - 1])] + Completion(stack[..|stack| - 1])
  }

  function CloserValue(c: char): nat
  {
    if c == ')' then 1 else if c == ']' then 2 else if c == '}' then 3 else if c == '>' then 4 else 0
  }

  /** The autocomplete score: the closers read as base-5 digits 1 to 4, first closer most significant. */
  function CompletionScore(cs: seq<char>): nat
  {
    if cs == [] then 0 else CompletionScore(cs[..|cs| - 1]) * 5 + CloserValue(cs[|cs| - 1])
  }

  /**
   * `find_autocomplete_score`: the same scan, panicking on a corrupt line, then the
   * score of the completion in a `u64`. `None` is a panic: on a corrupt line, on a
   * closer met with an empty stack, or on a score that overflows.
   */
  method FindAutocompleteScore(line: string) returns (r: Option<nat>)
    ensures r.Some? <==> Scan(line).Open? && CompletionScore(Completion(Scan(line).stack)) < U64_LIMIT
    ensures r.Some? ==> r.value == CompletionScore(Completion(Scan(line).stack))
  {
    var stack: seq<char> := [];
    for i := 0 to |line|
      invariant Scan(line[..i]) == Open(stack)
    {
      var c := line[i];
      assert line[..i + 1][..i] == line[..i];
      if IsOpener(c) {
        stack := stack + [c];
      } else if IsCloser(c) {
        if |stack| == 0 || stack[|stack| - 1] != Pair(c) {
          StopsForever(line, i + 1);
          return None;
        }
        stack := stack[..|stack| - 1];
      }
    }
    assert line[..|line|] == line;
    r := ScoreCompletion(stack);
  }

  /**
   * The scoring loop of `find_autocomplete_score`, over the stack from the top down.
   * The `u64` arithmetic panics (`None`) when `score *= 5` or `score += ...` would
   * pass the largest `u64`; the partial scores only grow, so that happens exactly
   * when the whole score does not fit.
   */
  method ScoreCompletion(stack: seq<char>) returns (r: Option<nat>)
    requires AllOpeners(stack)
    ensures r.None? <==> CompletionScore(Completion(stack)) >= U64_LIMIT
    ensures r.Some? ==> r.value == CompletionScore(Completion(stack))
  {
    ghost var cs := Completion(stack);
    var score := 0;
    for j := 0 to |stack|
      invariant score == CompletionScore(cs[..j]) && score < U64_LIMIT
    {
      var c := Pair(stack[|stack| - 1 - j]);
      assert cs[..j + 1][..j] == cs[..j];
      if score * 5 >= U64_LIMIT {
        ScorePrefix(cs, j + 1);
        return None;
      }
      score := score * 5;
      if score + CloserValue(c) >= U64_LIMIT {
        ScorePrefix(cs, j + 1);
        return None;
      }
      score := score + CloserValue(c);
    }
    assert cs[..|cs|] == cs;
    return Some(score);
  }

  /** The score of the first closers of a completion is at most the whole score. */
  lemma {:induction false} ScorePrefix(cs: seq<char>, n: nat)
    requires n <= |cs|
    ensures CompletionScore(cs[..n]) <= CompletionScore(cs)
    decreases |cs| - n
  {
    if n < |cs| {
      var front := cs[..|cs| - 1];
      assert cs[..n] == front[..n];
      ScorePrefix(front, n);
    } else {
      assert cs[..n] == cs;
    }
  }

  function Pow5(n: nat): nat
  {
    if n == 0 then 1 else 5 * Pow5(n - 1)
  }

  /** A completion of `n` closers scores below `5^n`: each closer is a base-5 digit. */
  lemma {:induction false} ScoreBelowPow(cs: seq<char>)
    ensures CompletionScore(cs) < Pow5(|cs|)
  {
    if cs != [] {
      ScoreBelowPow(cs[..|cs| - 1]);
    }
  }

  lemma {:induction false} Pow5Grows(m: nat, n: nat)
    requires m <= n
    ensures Pow5(m) <= Pow5(n)
    decreases n
  {
    if m < n {
      Pow5Grows(m, n - 1);
    }
  }

  lemma {:induction false} Pow5Add(a: nat, b: nat)
    ensures Pow5(a + b) == Pow5(a) * Pow5(b)
    decreases a
  {
    if a > 0 {
      Pow5Add(a - 1, b);
    }
  }

  /** `5^24`, from which the two bounds below follow. */
  lemma Pow5Of24()
    ensures Pow5(24) == 59604644775390625
  {
    assert Pow5(3) == 125;
    Pow5Add(3, 3);
    Pow5Add(6, 6);
    Pow5Add(12, 12);
  }

  /** A line that leaves at most 27 delimiters open always gets its score: it fits a `u64`. */
  lemma ShortCompletionsFit(line: string)
    requires Scan(line).Open? && |Scan(line).stack| <= 27
    ensures CompletionScore(Completion(Scan(line).stack)) < U64_LIMIT
  {
    var cs := Completion(Scan(line).stack);
    ScoreBelowPow(cs);
    Pow5Grows(|cs|, 27);
    Pow5Of24();
    Pow5Add(24, 3);
    assert Pow5(3) == 125;
  }

  /** A line of openers only is incomplete with all of them open. */
  lemma ScanOpeners(s: string)
    requires AllOpeners(s)
    ensures Scan(s) == Open(s)
  {
    ScanOpenersPrefix(s, |s|);
    assert s[..|s|] == s;
  }

  lemma {:induction false} ScanOpenersPrefix(s: string, n: nat)
    requires AllOpeners(s) && n <= |s|
    ensures Scan(s[..n]) == Open(s[..n])
  {
    if n > 0 {
      ScanOpenersPrefix(s, n - 1);
      assert s[..n][..n - 1] == s[..n - 1];
      assert s[..n - 1] + [s[n - 1]] == s[..n];
    }
  }

  /** `n` angle closers score `5^n - 1`, the largest score of `n` closers. */
  lemma {:induction false} AnglesScore(n: nat)
    ensures CompletionScore(seq(n, _ => '>')) == Pow5(n) - 1
  {
    if n > 0 {
      AnglesScore(n - 1);
      assert seq(n, _ => '>')[..n - 1] == seq(n - 1, _ => '>');
    }
  }

  /** 28 unclosed `<` are a line whose autocomplete score overflows a `u64`: the source panics. */
  lemma AnglesOverflow()
    ensures var line := seq(28, _ => '<');
      Scan(line).Open? && CompletionScore(Completion(Scan(line).stack)) >= U64_LIMIT
  {
    var line := seq(28, _ => '<');
    ScanOpeners(line);
    assert Completion(line) == seq(28, _ => '>');
    AnglesScore(28);
    Pow5Of24();
    Pow5Add(24, 4);
    assert Pow5(4) == 625;
  }

  /** The delimiters of a line, in order, with every other character dropped. */
  function Delimiters(s: string): (d: string)
    ensures forall i :: 0 <= i < |d| ==> IsOpener(d[i]) || IsCloser(d[i])
  {
    if s == [] then []
    else
      var c := s[|s| - 1];
      Delimiters(s[..|s| - 1]) + (if IsOpener(c) || IsCloser(c) then [c] else [])
  }

  /** Both scorers ignore every character that is not a delimiter. */
  lemma {:induction false} ScanIgnoresOthers(line: string)
    ensures Scan(line) == Scan(Delimiters(line))
  {
    if line != [] {
      var n := |line| - 1;
      var c := line[n];
      ScanIgnoresOthers(line[..n]);
      if IsOpener(c) || IsCloser(c) {
        var d := Delimiters(line[..n]) + [c];
        assert d[..|d| - 1] == Delimiters(line[..n]);
      } else {
        assert Delimiters(line) == Delimiters(line[..n]);
      }
    }
  }

  /** Appending the autocompletion closes every open delimiter: the line becomes complete. */
  lemma CompletionCloses(line: string)
    requires Scan(line).Open?
    ensures Scan(line + Completion(Scan(line).stack)) == Open([])
  {
    var st := Scan(line).stack;
    ScanAppend(line, Completion(st));
    CompletionPops(st, []);
    assert Completion(st)[..|st|] == Completion(st);
  }

  lemma {:induction false} CompletionPops(st: seq<char>, rest: seq<char>)
    requires AllOpeners(st) && rest <= st
    ensures ScanFrom(Open(st), Completion(st)[..|st| - |rest|]) == Open(rest)
    decreases |st| - |rest|
  {
    var k := |st| - |rest|;
    if k == 0 {
      assert Completion(st)[..0] == [];
    } else {
      var bigger := st[..|rest| + 1];
      assert bigger[..|bigger| - 1] == rest;
      CompletionPops(st, bigger);
      var cs := Completion(st);
      assert cs[..k][..k - 1] == cs[..k - 1];
      assert cs[k - 1] == Pair(st[|rest|]);
      PairInvolution(st[|rest|]);
    }
  }

  /** Different completions always score differently: the score determines the completion. */
  lemma {:induction false} CompletionScoreInjective(a: seq<char>, b: seq<char>)
    requires forall i :: 0 <= i < |a| ==> IsCloser(a[i])
    requires forall i :: 0 <= i < |b| ==> IsCloser(b[i])
    requires CompletionScore(a) == CompletionScore(b)
    ensures a == b
    decreases |a|
  {
    if a != [] && b != [] {
      var m, n := |a| - 1, |b| - 1;
      assert CompletionScore(a) % 5 == CloserValue(a[m]);
      assert CompletionScore(b) % 5 == CloserValue(b[n]);
      assert a[m] == b[n];
      CompletionScoreInjective(a[..m], b[..n]);
      assert a == a[..m] + [a[m]] && b == b[..n] + [b[n]];
    }
  }
}
