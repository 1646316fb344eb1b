// Print queue (2024, day 5).
//
// Page-ordering rules `a|b` say that page `a` must be printed before page
// `b`. An update is a list of pages; it is in order when no neighbouring
// pair breaks a rule, and it is put in order by a stable sort whose
// comparison consults the rules.

module PrintQueue {
  import opened Wrappers
  import opened Text

  /** The rule `before|after`: page `before` must come before page `after`. */
  datatype Rule = Rule(before: nat, after: nat)

  /** The result of comparing two pages. */
  datatype Ordering = Less | Equal | Greater

  /** Pages are `u8`. */
  const PageBound: nat := 256

  /**
   * `cmp_with_rules`: `a` sorts first when a rule says so, last when only a
   * rule the other way round exists, and the two are equal otherwise.
   */
  function CmpWithRules(rules: seq<Rule>, a: nat, b: nat): (o: Ordering)
    ensures o == Less <==> Rule(a, b) in rules
    ensures o == Greater <==> Rule(a, b) !in rules && Rule(b, a) in rules
  {
    if Rule(a, b) in rules then Less
    else if Rule(b, a) in rules then Greater
    else Equal
  }

  /** The comparison read the other way round. */
  function Flip(o: Ordering): Ordering
  {
    match o
    case Less => Greater
    case Equal => Equal
    case Greater => Less
  }

  /** No two rules contradict each other. */
  predicate Consistent(rules: seq<Rule>)
  {
    forall r :: r in rules ==> Rule(r.after, r.before) !in rules
  }

  /** A pair the comparison puts last compares first the other way round, whatever the rules. */
  lemma GreaterFlips(rules: seq<Rule>, a: nat, b: nat)
    requires CmpWithRules(rules, a, b) == Greater
    ensures CmpWithRules(rules, b, a) == Less
  {
  }

  /** Under rules that never contradict each other, swapping the pages flips the comparison. */
  lemma CmpAntisymmetric(rules: seq<Rule>, a: nat, b: nat)
    requires Consistent(rules)
    ensures CmpWithRules(rules, b, a) == Flip(CmpWithRules(rules, a, b))
  {
    if Rule(a, b) in rules {
      assert Rule(Rule(a, b).after, Rule(a, b).before) !in rules;
    }
  }

  /** A page compares equal to itself unless a rule puts it before itself. */
  lemma CmpSelf(rules: seq<Rule>, a: nat)
    ensures CmpWithRules(rules, a, a) == if Rule(a, a) in rules then Less else Equal
  {
  }

  /**
   * `is_page_list_ordered`: `is_sorted_by` walks the neighbouring pairs and
   * accepts those comparing `Less` or `Equal`.
   */
  function IsPageListOrdered(rules: seq<Rule>, pages: seq<nat>): bool
    decreases |pages|
  {
    |pages| < 2 || (CmpWithRules(rules, pages[0], pages[1]) != Greater && IsPageListOrdered(rules, pages[1..]))
  }

  /** No neighbouring pair compares `Greater`. */
  predicate Adjacent(rules: seq<Rule>, pages: seq<nat>)
  {
    forall i :: 0 <= i < |pages| - 1 ==> CmpWithRules(rules, pages[i], pages[i + 1]) != Greater
  }

  /** A page list is in order exactly when no neighbouring pair compares `Greater`. */
  lemma {:induction false} OrderedMeaning(rules: seq<Rule>, pages: seq<nat>)
    ensures IsPageListOrdered(rules, pages) <==> Adjacent(rules, pages)
    decreases |pages|
  {
    if |pages| >= 2 {
      var tail := pages[1..];
      OrderedMeaning(rules, tail);
      if Adjacent(rules, pages) {
        forall i | 0 <= i < |tail| - 1 ensures CmpWithRules(rules, tail[i], tail[i + 1]) != Greater {
          assert tail[i] == pages[i + 1] && tail[i + 1] == pages[i + 2];
        }
      }
      if IsPageListOrdered(rules, pages) {
        forall i | 0 <= i < |pages| - 1 ensures CmpWithRules(rules, pages[i], pages[i + 1]) != Greater {
          if i > 0 {
            assert tail[i - 1] == pages[i] && tail[i] == pages[i + 1];
          }
        }
      }
    }
  }

  /**
   * In the rules' own terms: a page list is in order exactly when every
   * neighbouring pair is either put in this order by a rule or not put in
   * the opposite order by one.
   */
  lemma OrderedByRules(rules: seq<Rule>, pages: seq<nat>)
    ensures IsPageListOrdered(rules, pages) <==>
      forall i :: 0 <= i < |pages| - 1 ==> Rule(pages[i], pages[i + 1]) in rules || Rule(pages[i + 1], pages[i]) !in rules
  {
    OrderedMeaning(rules, pages);
  }

  /** Two runs in order meet in order when their meeting pair does not compare `Greater`. */
  lemma AdjacentJoin(rules: seq<Rule>, s: seq<nat>, j: nat)
    requires j <= |s|
    requires Adjacent(rules, s[..j]) && Adjacent(rules, s[j..])
    requires 0 < j < |s| ==> CmpWithRules(rules, s[j - 1], s[j]) != Greater
    ensures Adjacent(rules, s)
  {
    forall i | 0 <= i < |s| - 1 ensures CmpWithRules(rules, s[i], s[i + 1]) != Greater {
      if i + 1 < j {
        assert s[..j][i] == s[i] && s[..j][i + 1] == s[i + 1];
      } else if j <= i {
        assert s[j..][i - j] == s[i] && s[j..][i - j + 1] == s[i + 1];
      }
    }
  }

  /**
   * `order_page_list`: `sort_by` with `cmp_with_rules`, a stable sort done
   * in place. It is modelled as a stable insertion sort that moves each page
   * left past the pages that compare `Greater` than it.
   */
  method OrderPageList(rules: seq<Rule>, pageList: seq<nat>) returns (sorted: seq<nat>)
    ensures multiset(sorted) == multiset(pageList)
    ensures IsPageListOrdered(rules, sorted)
    ensures IsPageListOrdered(rules, pageList) ==> sorted == pageList
  {
    var a := new nat[|pageList|](i requires 0 <= i < |pageList| => pageList[i]);
    assert a[..] == pageList;
    for i := 0 to a.Length
      invariant multiset(a[..]) == multiset(pageList)
      invariant IsPageListOrdered(rules, a[..i])
      invariant IsPageListOrdered(rules, pageList) ==> a[..] == pageList
    {
      if IsPageListOrdered(rules, pageList) {
        OrderedPrefix(rules, pageList, i + 1);
      }
      InsertPage(rules, a, i);
    }
    sorted := a[..];
    assert sorted == a[..a.Length];
  }

  /** Every prefix of a list in order is in order. */
  lemma OrderedPrefix(rules: seq<Rule>, s: seq<nat>, n: nat)
    requires n <= |s| && IsPageListOrdered(rules, s)
    ensures IsPageListOrdered(rules, s[..n])
  {
    OrderedMeaning(rules, s);
    OrderedMeaning(rules, s[..n]);
    forall k | 0 <= k < n - 1 ensures CmpWithRules(rules, s[..n][k], s[..n][k + 1]) != Greater {
      assert s[..n][k] == s[k] && s[..n][k + 1] == s[k + 1];
    }
  }

  /**
   * One round of the sort: the page at `i` moves left past every page
   * before it that compares `Greater`, leaving the first `i + 1` pages in
   * order; pages already in order do not move.
   */
  method InsertPage(rules: seq<Rule>, a: array<nat>, i: nat)
    requires i < a.Length && IsPageListOrdered(rules, a[..i])
    modifies a
    ensures multiset(a[..]) == multiset(old(a[..]))
    ensures IsPageListOrdered(rules, a[..i + 1])
    ensures IsPageListOrdered(rules, old(a[..i + 1])) ==> a[..] == old(a[..])
    ensures a[i + 1..] == old(a[i + 1..])
    ensures multiset(a[..i + 1]) == multiset(old(a[..i + 1]))
  {
    ghost var start := a[..];
    var j: nat := i;
    while j > 0 && CmpWithRules(rules, a[j - 1], a[j]) == Greater
      invariant InsertState(rules, a[..], start, j, i)
      decreases j
    {
      InsertStep(rules, a[..], start, j, i);
      a[j - 1], a[j] := a[j], a[j - 1];
      j := j - 1;
    }
    InsertDone(rules, a[..], j, i);
    PrefixMultiset(a[..], start, i + 1);
    assert start[..i + 1] == old(a[..i + 1]);
  }

  /**
   * The state of one round while the page started at `i` sits at `j`: the
   * same pages, the runs on either side of it in order, the pages after
   * `i` untouched, and nothing moved unless the first `i + 1` were out of order.
   */
  ghost predicate InsertState(rules: seq<Rule>, s: seq<nat>, start: seq<nat>, j: nat, i: nat)
  {
    && j <= i < |s| == |start|
    && multiset(s) == multiset(start)
    && IsPageListOrdered(rules, s[..j]) && IsPageListOrdered(rules, s[j..i + 1])
    && (0 < j < i ==> CmpWithRules(rules, s[j - 1], s[j + 1]) != Greater)
    && (j == i ==> s == start)
    && (j < i ==> !IsPageListOrdered(rules, start[..i + 1]))
    && s[i + 1..] == start[i + 1..]
  }

  /** Moving the page one place left past a `Greater` neighbour keeps the round's state. */
  lemma InsertStep(rules: seq<Rule>, s: seq<nat>, start: seq<nat>, j: nat, i: nat)
    requires InsertState(rules, s, start, j, i)
    requires 0 < j && CmpWithRules(rules, s[j - 1], s[j]) == Greater
    ensures InsertState(rules, s[j - 1 := s[j]][j := s[j - 1]], start, j - 1, i)
  {
    var t := s[j - 1 := s[j]][j := s[j - 1]];
    if j == i {
      OutOfOrder(rules, start[..i + 1], j - 1);
    }
    SwapKeepsRuns(rules, s, t, j, i);
    SwapSameMultiset(s, t, j);
    assert t[i + 1..] == s[i + 1..];
  }

  /** Two lists with the same pages and the same tail have the same pages before it. */
  lemma PrefixMultiset(s: seq<nat>, t: seq<nat>, n: nat)
    requires n <= |s| == |t| && multiset(s) == multiset(t) && s[n..] == t[n..]
    ensures multiset(s[..n]) == multiset(t[..n])
  {
    assert s == s[..n] + s[n..];
    assert t == t[..n] + t[n..];
    forall x ensures multiset(s[..n])[x] == multiset(t[..n])[x] {
      assert multiset(s)[x] == multiset(s[..n])[x] + multiset(s[n..])[x];
      assert multiset(t)[x] == multiset(t[..n])[x] + multiset(t[n..])[x];
    }
  }

  /** Swapping two neighbours keeps the same pages. */
  lemma SwapSameMultiset(s: seq<nat>, t: seq<nat>, j: nat)
    requires 0 < j < |s| == |t|
    requires t == s[j - 1 := s[j]][j := s[j - 1]]
    ensures multiset(t) == multiset(s)
  {
    assert s == s[..j - 1] + [s[j - 1], s[j]] + s[j + 1..];
    assert t == s[..j - 1] + [s[j], s[j - 1]] + s[j + 1..];
  }

  /** A neighbouring pair that compares `Greater` puts a list out of order. */
  lemma OutOfOrder(rules: seq<Rule>, s: seq<nat>, k: nat)
    requires k + 1 < |s| && CmpWithRules(rules, s[k], s[k + 1]) == Greater
    ensures !IsPageListOrdered(rules, s)
  {
    OrderedMeaning(rules, s);
  }

  /** Once the page has stopped moving, the first `i + 1` pages are in order. */
  lemma InsertDone(rules: seq<Rule>, s: seq<nat>, j: nat, i: nat)
    requires j <= i < |s|
    requires IsPageListOrdered(rules, s[..j]) && IsPageListOrdered(rules, s[j..i + 1])
    requires 0 < j ==> CmpWithRules(rules, s[j - 1], s[j]) != Greater
    ensures IsPageListOrdered(rules, s[..i + 1])
  {
    var p := s[..i + 1];
    assert p[..j] == s[..j] && p[j..] == s[j..i + 1];
    OrderedMeaning(rules, s[..j]);
    OrderedMeaning(rules, s[j..i + 1]);
    AdjacentJoin(rules, p, j);
    OrderedMeaning(rules, p);
  }

  /**
   * Swapping the page at `j` left past its `Greater` neighbour keeps the
   * run before it and the run after it in order.
   */
  lemma SwapKeepsRuns(rules: seq<Rule>, s: seq<nat>, t: seq<nat>, j: nat, i: nat)
    requires 0 < j <= i < |s| == |t|
    requires t == s[j - 1 := s[j]][j := s[j - 1]]
    requires CmpWithRules(rules, s[j - 1], s[j]) == Greater
    requires IsPageListOrdered(rules, s[..j]) && IsPageListOrdered(rules, s[j..i + 1])
    requires 0 < j < i ==> CmpWithRules(rules, s[j - 1], s[j + 1]) != Greater
    ensures IsPageListOrdered(rules, t[..j - 1]) && IsPageListOrdered(rules, t[j - 1..i + 1])
    ensures 0 < j - 1 < i ==> CmpWithRules(rules, t[j - 2], t[j]) != Greater
  {
    OrderedMeaning(rules, s[..j]);
    OrderedMeaning(rules, s[j..i + 1]);
    OrderedMeaning(rules, t[..j - 1]);
    OrderedMeaning(rules, t[j - 1..i + 1]);
    GreaterFlips(rules, s[j - 1], s[j]);
    assert t[..j - 1] == s[..j - 1];
    var u := t[j - 1..i + 1];
    forall k | 0 <= k < |u| - 1
      ensures CmpWithRules(rules, u[k], u[k + 1]) != Greater
    {
      if k > 1 {
        assert u[k] == s[j..i + 1][k - 1] && u[k + 1] == s[j..i + 1][k];
      }
    }
    if 0 < j - 1 {
      assert s[..j][j - 2] == s[j - 2] && s[..j][j - 1] == s[j - 1];
    }
  }

  /** The test rules. */
  const TestRules: seq<Rule> := [
    Rule(47, 53), Rule(97, 13), Rule(97, 61), Rule(97, 47), Rule(75, 29), Rule(61, 13), Rule(75, 53),
    Rule(29, 13), Rule(97, 29), Rule(53, 29), Rule(61, 53), Rule(97, 53), Rule(61, 29), Rule(47, 13),
    Rule(75, 47), Rule(97, 75), Rule(47, 61), Rule(75, 61), Rule(47, 29), Rule(75, 13), Rule(53, 13)
  ]

  /** Three pairs that do not compare `Greater` make a list of five pages in order. */
  lemma OrderedFive(rules: seq<Rule>, pages: seq<nat>)
    requires |pages| == 5
    requires forall i :: 0 <= i < 4 ==> Rule(pages[i], pages[i + 1]) in rules
    ensures IsPageListOrdered(rules, pages)
  {
    OrderedMeaning(rules, pages);
  }

  /** `75,47,61,53,29` follows the test rules. */
  lemma SampleOrderedFirst(rules: seq<Rule>, pages: seq<nat>)
    requires rules == TestRules && pages == [75, 47, 61, 53, 29]
    ensures IsPageListOrdered(rules, pages)
  {
    assert rules[14] == Rule(pages[0], pages[1]) && rules[16] == Rule(pages[1], pages[2]);
    assert rules[10] == Rule(pages[2], pages[3]) && rules[9] == Rule(pages[3], pages[4]);
    OrderedFive(rules, pages);
  }

  /** `97,61,53,29,13` follows the test rules. */
  lemma SampleOrderedSecond(rules: seq<Rule>, pages: seq<nat>)
    requires rules == TestRules && pages == [97, 61, 53, 29, 13]
    ensures IsPageListOrdered(rules, pages)
  {
    assert rules[2] == Rule(pages[0], pages[1]) && rules[10] == Rule(pages[1], pages[2]);
    assert rules[9] == Rule(pages[2], pages[3]) && rules[7] == Rule(pages[3], pages[4]);
    OrderedFive(rules, pages);
  }

  /** `75,29,13` follows the test rules. */
  lemma SampleOrderedThird(rules: seq<Rule>, pages: seq<nat>)
    requires rules == TestRules && pages == [75, 29, 13]
    ensures IsPageListOrdered(rules, pages)
  {
    assert rules[4] == Rule(75, 29) && rules[7] == Rule(29, 13);
    assert pages[1..] == [29, 13];
  }

  /** `75,97,47,61,53` breaks the rule `97|75` at its first pair. */
  lemma SampleUnorderedFirst(rules: seq<Rule>, pages: seq<nat>)
    requires rules == TestRules && pages == [75, 97, 47, 61, 53]
    ensures !IsPageListOrdered(rules, pages)
  {
    assert rules[15] == Rule(97, 75);
    assert Rule(75, 97) !in rules;
  }

  /** `61,13,29` breaks the rule `29|13` at its second pair. */
  lemma SampleUnorderedSecond(rules: seq<Rule>, pages: seq<nat>)
    requires rules == TestRules && pages == [61, 13, 29]
    ensures !IsPageListOrdered(rules, pages)
  {
    assert rules[7] == Rule(29, 13);
    assert Rule(13, 29) !in rules;
    assert pages[1..] == [13, 29];
  }

  /** `97,13,75,29,47` breaks the rule `75|13` at its second pair. */
  lemma SampleUnorderedThird(rules: seq<Rule>, pages: seq<nat>)
    requires rules == TestRules && pages == [97, 13, 75, 29, 47]
    ensures !IsPageListOrdered(rules, pages)
  {
    assert rules[19] == Rule(75, 13);
    assert Rule(13, 75) !in rules;
    assert pages[1..] == [13, 75, 29, 47];
  }

  /** One `a|b` rule line, as it is parsed: text after a second `|` is ignored. */
  function ParseRule(line: string): (r: Option<Rule>)
    ensures r.Some? ==> r.value.before < PageBound && r.value.after < PageBound
  {
    var x := Split(line, '|');
    if |x| < 2 then None
    else
      match (ParseUnsigned(x[0], PageBound), ParseUnsigned(x[1], PageBound))
      case (Some(a), Some(b)) => Some(Rule(a, b))
      case _ => None
  }

  /** Every rule line parsed; any failure fails the whole. */
  function ParseRules(lines: seq<string>): (r: Option<seq<Rule>>)
    ensures r.Some? ==> |r.value| == |lines|
    decreases |lines|
  {
    if lines == [] then Some([])
    else
      match (ParseRule(lines[0]), ParseRules(lines[1..]))
      case (Some(rule), Some(rest)) => Some([rule] + rest)
      case _ => None
  }

  /** Comma-separated pages, each a `u8`. */
  function ParsePages(fields: seq<string>): (r: Option<seq<nat>>)
    ensures r.Some? ==> |r.value| == |fields|
    decreases |fields|
  {
    if fields == [] then Some([])
    else
      match (ParseUnsigned(fields[0], PageBound), ParsePages(fields[1..]))
      case (Some(page), Some(rest)) => Some([page] + rest)
      case _ => None
  }

  /** Every page-list line parsed; any failure fails the whole. */
  function ParseLists(lines: seq<string>): (r: Option<seq<seq<nat>>>)
    ensures r.Some? ==> |r.value| == |lines|
    decreases |lines|
  {
    if lines == [] then Some([])
    else
      match (ParsePages(Split(lines[0], ',')), ParseLists(lines[1..]))
      case (Some(pages), Some(rest)) => Some([pages] + rest)
      case _ => None
  }

  /**
   * `parse_input`: the rule lines before the first blank line, the page
   * lists after it; a missing blank line or a malformed number is a panic,
   * modelled as `None`.
   */
  function ParseInput(input: string): Option<(seq<Rule>, seq<seq<nat>>)>
  {
    var sections := SplitBlank(input);
    if |sections| < 2 then None
    else
      match (ParseRules(Lines(sections[0])), ParseLists(Lines(sections[1])))
      case (Some(rules), Some(lists)) => Some((rules, lists))
      case _ => None
  }

  /** The text of a rule. */
  function RuleLine(r: Rule): string
  {
    Show(r.before) + "|" + Show(r.after)
  }

  /** The text of each number. */
  function Shows(pages: seq<nat>): (r: seq<string>)
    ensures |r| == |pages|
  {
    seq(|pages|, i requires 0 <= i < |pages| => Show(pages[i]))
  }

  /** The text of a page list. */
  function ListLine(pages: seq<nat>): string
  {
    Join(Shows(pages), ',')
  }

  /** The text of each rule. */
  function RuleLines(rules: seq<Rule>): (r: seq<string>)
    ensures |r| == |rules|
  {
    seq(|rules|, i requires 0 <= i < |rules| => RuleLine(rules[i]))
  }

  /** The text of each page list. */
  function ListLines(lists: seq<seq<nat>>): (r: seq<string>)
    ensures |r| == |lists|
  {
    seq(|lists|, i requires 0 <= i < |lists| => ListLine(lists[i]))
  }

  /** The puzzle input for some rules and page lists: rule lines, a blank line, page-list lines. */
  function Render(rules: seq<Rule>, lists: seq<seq<nat>>): string
  {
    Unlines(RuleLines(rules)) + "\n" + Unlines(ListLines(lists))
  }

  /** Pages that fit in a `u8`. */
  predicate Pages(pages: seq<nat>)
  {
    forall i :: 0 <= i < |pages| ==> pages[i] < PageBound
  }

  /** A rule whose pages fit in a `u8`. */
  predicate RuleFits(r: Rule)
  {
    r.before < PageBound && r.after < PageBound
  }

  /** A rule line is a plain, non-empty line that parses back to the rule. */
  lemma RuleLineRoundTrip(r: Rule)
    requires RuleFits(r)
    ensures RuleLine(r) != "" && PlainLine(RuleLine(r))
    ensures ParseRule(RuleLine(r)) == Some(r)
  {
    var parts := [Show(r.before), Show(r.after)];
    assert RuleLine(r) == Join(parts, '|');
    ShowLacks(r.before, '|');
    ShowLacks(r.after, '|');
    SplitJoin(parts, '|');
    ParseShow(r.before, PageBound);
    ParseShow(r.after, PageBound);
    ShowLacks(r.before, '\n');
    ShowLacks(r.after, '\n');
    JoinLacks(parts, '|', '\n');
    JoinLast(parts, '|');
    assert IsDigit(Show(r.after)[|Show(r.after)| - 1]);
  }

  /** The fields of written pages parse back to the pages. */
  lemma {:induction false} ParsePagesShows(pages: seq<nat>)
    requires Pages(pages)
    ensures ParsePages(Shows(pages)) == Some(pages)
    decreases |pages|
  {
    if pages != [] {
      var fields := Shows(pages);
      assert fields[1..] == Shows(pages[1..]);
      ParsePagesShows(pages[1..]);
      ParseShow(pages[0], PageBound);
      assert fields[0] == Show(pages[0]);
      assert [pages[0]] + pages[1..] == pages;
    }
  }

  /** No written page holds a comma or a newline. */
  lemma ShowsLack(pages: seq<nat>)
    ensures forall i :: 0 <= i < |Shows(pages)| ==> ',' !in Shows(pages)[i] && '\n' !in Shows(pages)[i]
  {
    forall i | 0 <= i < |pages| ensures ',' !in Shows(pages)[i] && '\n' !in Shows(pages)[i] {
      ShowLacks(pages[i], ',');
      ShowLacks(pages[i], '\n');
    }
  }

  /** A line of at least one page is a plain, non-empty line that parses back to the pages. */
  lemma ListLineRoundTrip(pages: seq<nat>)
    requires pages != [] && Pages(pages)
    ensures ListLine(pages) != "" && PlainLine(ListLine(pages))
    ensures ParsePages(Split(ListLine(pages), ',')) == Some(pages)
  {
    var parts := Shows(pages);
    var line := Join(parts, ',');
    ShowsLack(pages);
    assert ParsePages(Split(line, ',')) == Some(pages) by {
      SplitJoin(parts, ',');
      ParsePagesShows(pages);
    }
    assert '\n' !in line by {
      JoinLacks(parts, ',', '\n');
    }
    ListLineEnd(pages);
  }

  /** A line of at least one page ends in a digit. */
  lemma ListLineEnd(pages: seq<nat>)
    requires pages != []
    ensures ListLine(pages) != [] && IsDigit(ListLine(pages)[|ListLine(pages)| - 1])
  {
    var parts := Shows(pages);
    JoinLast(parts, ',');
    var last := Show(pages[|pages| - 1]);
    assert parts[|parts| - 1] == last;
    assert IsDigit(last[|last| - 1]);
  }

  /** Rule lines parse back to their rules. */
  lemma {:induction false} ParseRulesLines(rules: seq<Rule>)
    requires forall i :: 0 <= i < |rules| ==> RuleFits(rules[i])
    ensures ParseRules(RuleLines(rules)) == Some(rules)
    decreases |rules|
  {
    if rules != [] {
      var lines := RuleLines(rules);
      assert lines[1..] == RuleLines(rules[1..]);
      ParseRulesLines(rules[1..]);
      RuleLineRoundTrip(rules[0]);
      assert lines[0] == RuleLine(rules[0]);
      assert [rules[0]] + rules[1..] == rules;
    }
  }

  /** Lines parse when the first one does and the rest do. */
  lemma ParseListsCons(lines: seq<string>, pages: seq<nat>, rest: seq<seq<nat>>)
    requires lines != []
    requires ParsePages(Split(lines[0], ',')) == Some(pages) && ParseLists(lines[1..]) == Some(rest)
    ensures ParseLists(lines) == Some([pages] + rest)
  {
  }

  /** Page-list lines parse back to their lists. */
  lemma {:induction false} ParseListsLines(lists: seq<seq<nat>>)
    requires forall i :: 0 <= i < |lists| ==> lists[i] != [] && Pages(lists[i])
    ensures ParseLists(ListLines(lists)) == Some(lists)
    decreases |lists|
  {
    if lists != [] {
      var lines := ListLines(lists);
      assert lines[1..] == ListLines(lists[1..]);
      ParseListsLines(lists[1..]);
      ListLineRoundTrip(lists[0]);
      assert lines[0] == ListLine(lists[0]);
      ParseListsCons(lines, lists[0], lists[1..]);
      assert [lists[0]] + lists[1..] == lists;
    }
  }

  /** Rule lines are plain and not empty. */
  lemma RuleLinesPlain(rules: seq<Rule>)
    requires forall i :: 0 <= i < |rules| ==> RuleFits(rules[i])
    ensures forall i :: 0 <= i < |rules| ==> RuleLines(rules)[i] != "" && PlainLine(RuleLines(rules)[i])
  {
    forall i | 0 <= i < |rules| ensures RuleLines(rules)[i] != "" && PlainLine(RuleLines(rules)[i]) {
      RuleLineRoundTrip(rules[i]);
    }
  }

  /** Page-list lines are plain and not empty. */
  lemma ListLinesPlain(lists: seq<seq<nat>>)
    requires forall i :: 0 <= i < |lists| ==> lists[i] != [] && Pages(lists[i])
    ensures forall i :: 0 <= i < |lists| ==> ListLines(lists)[i] != "" && PlainLine(ListLines(lists)[i])
  {
    forall i | 0 <= i < |lists| ensures ListLines(lists)[i] != "" && PlainLine(ListLines(lists)[i]) {
      ListLineRoundTrip(lists[i]);
    }
  }

  /** Written input splits at its blank line into the rule lines and the page-list lines. */
  lemma RenderSections(rules: seq<Rule>, lists: seq<seq<nat>>)
    requires |rules| >= 1
    requires forall i :: 0 <= i < |rules| ==> RuleLines(rules)[i] != "" && PlainLine(RuleLines(rules)[i])
    requires forall i :: 0 <= i < |lists| ==> ListLines(lists)[i] != "" && PlainLine(ListLines(lists)[i])
    ensures SplitBlank(Render(rules, lists)) == [Join(RuleLines(rules), '\n'), Unlines(ListLines(lists))]
  {
    var rl := RuleLines(rules);
    var ll := ListLines(lists);
    var head := Join(rl, '\n');
    var tail := Unlines(ll);
    assert Render(rules, lists) == head + "\n\n" + tail by {
      JoinSnoc(rl, "", '\n');
    }
    JoinNoBlank(rl);
    SplitBlankPiece(head, tail);
    UnlinesNoBlank(ll);
    SplitBlankNone(tail);
  }

  /** Input whose two sections parse gives what they parse to. */
  lemma ParseSections(input: string, head: string, tail: string, rules: seq<Rule>, lists: seq<seq<nat>>)
    requires SplitBlank(input) == [head, tail]
    requires ParseRules(Lines(head)) == Some(rules) && ParseLists(Lines(tail)) == Some(lists)
    ensures ParseInput(input) == Some((rules, lists))
  {
  }

  /**
   * `parse_input` reads back any input written as rule lines, a blank line
   * and page-list lines, given at least one rule and no empty page list.
   */
  lemma ParseRender(rules: seq<Rule>, lists: seq<seq<nat>>)
    requires |rules| >= 1 && forall i :: 0 <= i < |rules| ==> RuleFits(rules[i])
    requires forall i :: 0 <= i < |lists| ==> lists[i] != [] && Pages(lists[i])
    ensures ParseInput(Render(rules, lists)) == Some((rules, lists))
  {
    var rl := RuleLines(rules);
    var ll := ListLines(lists);
    var head := Join(rl, '\n');
    var tail := Unlines(ll);
    RuleLinesPlain(rules);
    ListLinesPlain(lists);
    RenderSections(rules, lists);
    assert ParseRules(Lines(head)) == Some(rules) by {
      LinesJoin(rl);
      ParseRulesLines(rules);
    }
    assert ParseLists(Lines(tail)) == Some(lists) by {
      LinesUnlines(ll);
      ParseListsLines(lists);
    }
    ParseSections(Render(rules, lists), head, tail, rules, lists);
  }
}
