// Luggage rules (2020, day 7): each rule says which bags, and how many of
// each, a bag of one colour must contain. Part 1 counts the colours that
// can eventually hold a given colour; part 2 counts the bags inside one.

module HandyHaversacks {
  import opened Wrappers

  type Colour = string

  /** `Rule`: a bag of `colour` holds `n` bags of colour `c` for each `(n, c)` of `contains`. */
  datatype Rule = Rule(colour: Colour, contains: seq<(nat, Colour)>)

  /** A rule for `outer` lists `inner` among its contents. */
  predicate Directly(rules: seq<Rule>, outer: Colour, inner: Colour)
  {
    exists i, k :: 0 <= i < |rules| && 0 <= k < |rules[i].contains| && rules[i].colour == outer && rules[i].contains[k].1 == inner
  }

  /** Every colour some rule is for. */
  function RuleColours(rules: seq<Rule>): set<Colour>
  {
    set i | 0 <= i < |rules| :: rules[i].colour
  }

  // The map from each colour to the colours that hold it directly

  /** The inner loop over one rule's contents: `outer` joins the containers of each colour listed. */
  function Record(back: map<Colour, set<Colour>>, outer: Colour, inner: seq<(nat, Colour)>): map<Colour, set<Colour>>
  {
    if inner == [] then back
    else
      var m := Record(back, outer, inner[..|inner| - 1]);
      var c := inner[|inner| - 1].1;
      m[c := if c in m then m[c] + {outer} else {outer}]
  }

  /** `backwards_map` after the loop over the first `|rules|` rules. */
  function Backwards(rules: seq<Rule>): map<Colour, set<Colour>>
  {
    if rules == [] then map[]
    else
      var last := rules[|rules| - 1];
      Record(Backwards(rules[..|rules| - 1]), last.colour, last.contains)
  }

  /** `backwards_map.get(c).map_or(HashSet::new(), ...)`: the recorded containers of `c`, none if it has no entry. */
  function Parents(back: map<Colour, set<Colour>>, c: Colour): set<Colour>
  {
    if c in back then back[c] else {}
  }

  /** The first loop of `how_many_can_contain`: for every rule and every colour it contains, add the rule's colour to that colour's containers. */
  method BuildBackwards(rules: seq<Rule>) returns (back: map<Colour, set<Colour>>)
    ensures back == Backwards(rules)
  {
    back := map[];
    for i := 0 to |rules|
      invariant back == Backwards(rules[..i])
    {
      var rule := rules[i];
      for j := 0 to |rule.contains|
        invariant back == Record(Backwards(rules[..i]), rule.colour, rule.contains[..j])
      {
        var contained := rule.contains[j].1;
        assert rule.contains[..j + 1][..j] == rule.contains[..j];
        if contained in back {
          back := back[contained := back[contained] + {rule.colour}];
        } else {
          back := back[contained := {rule.colour}];
        }
      }
      assert rule.contains[..|rule.contains|] == rule.contains;
      assert rules[..i + 1][..i] == rules[..i];
    }
    assert rules[..|rules|] == rules;
  }

  /** Recording a rule's contents gives each listed colour the rule's colour as a container, changes nothing else, and never leaves an empty entry. */
  lemma {:induction false} RecordMeaning(back: map<Colour, set<Colour>>, outer: Colour, inner: seq<(nat, Colour)>)
    requires forall c :: c in back ==> back[c] != {}
    ensures forall c :: c in Record(back, outer, inner) ==> Record(back, outer, inner)[c] != {}
    ensures forall c, d :: d in Parents(Record(back, outer, inner), c) <==>
      d in Parents(back, c) || (d == outer && exists k :: 0 <= k < |inner| && inner[k].1 == c)
    decreases |inner|
  {
    if inner != [] {
      var front := inner[..|inner| - 1];
      RecordMeaning(back, outer, front);
      forall c, d
        ensures d in Parents(Record(back, outer, inner), c) <==>
          d in Parents(back, c) || (d == outer && exists k :: 0 <= k < |inner| && inner[k].1 == c)
      {
        var m := Record(back, outer, front);
        var last := inner[|inner| - 1].1;
        assert Record(back, outer, inner) == m[last := if last in m then m[last] + {outer} else {outer}];
        var inFront := exists k :: 0 <= k < |front| && front[k].1 == c;
        if c == last {
          assert Parents(Record(back, outer, inner), c) == Parents(m, c) + {outer};
          assert inner[|inner| - 1].1 == c;
        } else {
          assert Parents(Record(back, outer, inner), c) == Parents(m, c);
          if exists k :: 0 <= k < |inner| && inner[k].1 == c {
            var k :| 0 <= k < |inner| && inner[k].1 == c;
            assert k < |front| && front[k].1 == c;
          }
          if inFront {
            var k :| 0 <= k < |front| && front[k].1 == c;
            assert inner[k].1 == c;
          }
        }
      }
    }
  }

  /** `backwards_map` maps a colour to exactly the colours of the rules that list it, and has an entry exactly for the colours some rule lists. */
  lemma {:induction false} BackwardsMeaning(rules: seq<Rule>)
    ensures forall c :: c in Backwards(rules) ==> Backwards(rules)[c] != {}
    ensures forall c, d :: d in Parents(Backwards(rules), c) <==> Directly(rules, d, c)
    decreases |rules|
  {
    if rules != [] {
      var front := rules[..|rules| - 1];
      var last := rules[|rules| - 1];
      BackwardsMeaning(front);
      RecordMeaning(Backwards(front), last.colour, last.contains);
      forall c, d
        ensures d in Parents(Backwards(rules), c) <==> Directly(rules, d, c)
      {
        if Directly(rules, d, c) {
          var i, k :| 0 <= i < |rules| && 0 <= k < |rules[i].contains| && rules[i].colour == d && rules[i].contains[k].1 == c;
          if i < |front| {
            assert front[i] == rules[i];
          }
        }
        if Directly(front, d, c) {
          var i, k :| 0 <= i < |front| && 0 <= k < |front[i].contains| && front[i].colour == d && front[i].contains[k].1 == c;
          assert rules[i] == front[i];
        }
      }
    }
  }

  /** A colour has an entry in `backwards_map` exactly when some rule lists it, which is when the part 1 `unwrap` succeeds. */
  lemma BackwardsKeys(rules: seq<Rule>, c: Colour)
    ensures c in Backwards(rules) <==> exists d :: Directly(rules, d, c)
  {
    BackwardsMeaning(rules);
    if c in Backwards(rules) {
      var d :| d in Backwards(rules)[c];
      assert d in Parents(Backwards(rules), c);
    }
    if exists d :: Directly(rules, d, c) {
      var d :| Directly(rules, d, c);
      assert d in Parents(Backwards(rules), c);
    }
  }

  // Transitive containment

  /** Each colour of `p` is listed by a rule for the colour before it. */
  predicate Chain(rules: seq<Rule>, p: seq<Colour>)
  {
    forall i :: 0 <= i < |p| - 1 ==> Directly(rules, p[i], p[i + 1])
  }

  /** A bag of colour `outer` can eventually hold one of colour `inner`: a chain of at least one rule leads from one to the other. */
  ghost predicate Within(rules: seq<Rule>, outer: Colour, inner: Colour)
  {
    exists p :: Chain(rules, p) && |p| >= 2 && p[0] == outer && p[|p| - 1] == inner
  }

  /** The colours that can eventually hold `c`: the answer part 1 counts. */
  ghost function Containers(rules: seq<Rule>, c: Colour): set<Colour>
  {
    set d | d in RuleColours(rules) && Within(rules, d, c)
  }

  /** A colour that directly holds `c`, which is or can eventually hold `target`, can eventually hold `target`. */
  lemma WithinStep(rules: seq<Rule>, d: Colour, c: Colour, target: Colour)
    requires Directly(rules, d, c) && (c == target || Within(rules, c, target))
    ensures Within(rules, d, target)
  {
    if c == target {
      assert Chain(rules, [d, c]);
    } else {
      var p :| Chain(rules, p) && |p| >= 2 && p[0] == c && p[|p| - 1] == target;
      var q := [d] + p;
      forall i | 0 <= i < |q| - 1
        ensures Directly(rules, q[i], q[i + 1])
      {
        if i > 0 {
          assert q[i] == p[i - 1] && q[i + 1] == p[i];
        }
      }
      assert Chain(rules, q) && |q| >= 2 && q[0] == d && q[|q| - 1] == target;
    }
  }

  /** Only a colour with a rule can hold anything. */
  lemma WithinOuter(rules: seq<Rule>, d: Colour, c: Colour)
    requires Within(rules, d, c)
    ensures d in RuleColours(rules)
  {
    var p :| Chain(rules, p) && |p| >= 2 && p[0] == d && p[|p| - 1] == c;
    assert Directly(rules, p[0], p[1]);
  }

  // The exploration of `how_many_can_contain`

  /** An entry of `new_map`: whether it is explored, and the colours that hold its key directly. */
  type Entry = (bool, set<Colour>)

  /** `back` is the map of direct containers of the rules. */
  ghost predicate Inverts(rules: seq<Rule>, back: map<Colour, set<Colour>>)
  {
    forall c, d :: d in Parents(back, c) <==> Directly(rules, d, c)
  }

  /**
   * What the exploration keeps true of `new_map`: the target has an entry;
   * every entry holds its key's direct containers, and its key is the target
   * or can hold it; and the containers of an explored key have entries too.
   */
  ghost predicate Explored(rules: seq<Rule>, back: map<Colour, set<Colour>>, target: Colour, m: map<Colour, Entry>)
  {
    target in m &&
    (forall k :: k in m ==> m[k].1 == Parents(back, k) && (k == target || Within(rules, k, target))) &&
    (forall k :: k in m && m[k].0 ==> Parents(back, k) <= m.Keys)
  }

  /** The explored keys of `new_map`. */
  function ExploredKeys(m: map<Colour, Entry>): set<Colour>
  {
    set k | k in m && m[k].0
  }

  /** `new_map` only has keys that are the target or a colour with a rule. */
  lemma ExploredBound(rules: seq<Rule>, back: map<Colour, set<Colour>>, target: Colour, m: map<Colour, Entry>)
    requires Explored(rules, back, target, m)
    ensures m.Keys <= RuleColours(rules) + {target}
  {
    forall k | k in m
      ensures k in RuleColours(rules) + {target}
    {
      if k != target {
        WithinOuter(rules, k, target);
      }
    }
  }

  /** `m'` keeps every entry of `m` and adds only unexplored ones. */
  predicate Grows(m: map<Colour, Entry>, m': map<Colour, Entry>)
  {
    m.Keys <= m'.Keys && (forall k :: k in m ==> m'[k] == m[k]) && forall k :: k in m' && k !in m ==> !m'[k].0
  }

  /** Growing is transitive. */
  lemma GrowsTrans(a: map<Colour, Entry>, b: map<Colour, Entry>, c: map<Colour, Entry>)
    requires Grows(a, b) && Grows(b, c)
    ensures Grows(a, c)
  {
  }

  /** Every colour of `s` has its containers among the keys of `m`. */
  predicate Covered(back: map<Colour, set<Colour>>, s: set<Colour>, m: map<Colour, Entry>)
  {
    forall k :: k in s ==> Parents(back, k) <= m.Keys
  }

  /** The loop over one reachable set: every container of `c` gets an entry, new ones unexplored and holding their own containers. */
  method AddParents(rules: seq<Rule>, back: map<Colour, set<Colour>>, target: Colour, m: map<Colour, Entry>, c: Colour)
    returns (m': map<Colour, Entry>)
    requires Inverts(rules, back) && Explored(rules, back, target, m) && c in m
    ensures Explored(rules, back, target, m') && Grows(m, m')
    ensures Parents(back, c) <= m'.Keys
  {
    var reachable := m[c].1;
    var rs := reachable;
    m' := m;
    while rs != {}
      invariant rs <= reachable && forall k :: k in reachable && k !in rs ==> k in m'
      invariant Explored(rules, back, target, m') && Grows(m, m')
      decreases |rs|
    {
      var reach :| reach in rs;
      if reach !in m' {
        assert Directly(rules, reach, c);
        WithinStep(rules, reach, c, target);
        m' := m'[reach := (false, Parents(back, reach))];
      }
      rs := rs - {reach};
    }
  }

  /** One pass of the loop over `list`: the containers of `c` get entries and `c` joins `explored_vec`. */
  method ExploreOne(rules: seq<Rule>, back: map<Colour, set<Colour>>, target: Colour, m: map<Colour, Entry>,
                    ghost done: set<Colour>, c: Colour)
    returns (m': map<Colour, Entry>)
    requires Inverts(rules, back) && Explored(rules, back, target, m) && c in m
    requires Covered(back, done, m)
    ensures Explored(rules, back, target, m') && Grows(m, m')
    ensures Covered(back, done + {c}, m')
  {
    m' := AddParents(rules, back, target, m, c);
  }

  /** One turn of the `while`: explore every unexplored entry (adding its containers), then mark those entries explored. */
  method ExploreRound(rules: seq<Rule>, back: map<Colour, set<Colour>>, target: Colour, m: map<Colour, Entry>)
    returns (m': map<Colour, Entry>)
    requires Inverts(rules, back) && Explored(rules, back, target, m)
    requires exists k :: k in m && !m[k].0
    ensures Explored(rules, back, target, m')
    ensures ExploredKeys(m) < ExploredKeys(m')
  {
    var list := set k | k in m && !m[k].0;
    ghost var k0 :| k0 in m && !m[k0].0;
    assert k0 in list;
    var todo := list;
    var exploredVec: seq<Colour> := [];
    ghost var done: set<Colour> := {};
    m' := m;
    while todo != {}
      invariant todo <= list && (forall k :: k in list <==> k in done || k in todo)
      invariant forall k :: k in exploredVec <==> k in done
      invariant Explored(rules, back, target, m') && Grows(m, m')
      invariant Covered(back, done, m')
      decreases |todo|
    {
      var c :| c in todo;
      var next := ExploreOne(rules, back, target, m', done, c);
      GrowsTrans(m, m', next);
      m' := next;
      exploredVec := exploredVec + [c];
      done, todo := done + {c}, todo - {c};
    }
    ghost var before := m';
    m' := MarkExplored(rules, back, target, m', exploredVec);
    Marked(m, before, m', list, exploredVec);
  }

  /** Marking the whole unexplored list explored makes the explored keys a strictly larger set. */
  lemma Marked(m: map<Colour, Entry>, before: map<Colour, Entry>, after: map<Colour, Entry>, list: set<Colour>, vec: seq<Colour>)
    requires list == (set k | k in m && !m[k].0) && list != {}
    requires Grows(m, before) && after.Keys == before.Keys
    requires forall k :: k in vec <==> k in list
    requires forall k :: k in before ==> after[k] == (before[k].0 || k in vec, before[k].1)
    ensures ExploredKeys(m) < ExploredKeys(after)
  {
    var k :| k in list;
    assert k in ExploredKeys(after) && k !in ExploredKeys(m);
  }

  /** The loop over `explored_vec`: each listed entry is marked explored and keeps its set. */
  method MarkExplored(rules: seq<Rule>, back: map<Colour, set<Colour>>, target: Colour, m: map<Colour, Entry>, vec: seq<Colour>)
    returns (m': map<Colour, Entry>)
    requires Explored(rules, back, target, m)
    requires forall k :: k in vec ==> k in m && Parents(back, k) <= m.Keys
    ensures Explored(rules, back, target, m') && m'.Keys == m.Keys
    ensures forall k :: k in m ==> m'[k] == (m[k].0 || k in vec, m[k].1)
  {
    m' := m;
    for i := 0 to |vec|
      invariant Explored(rules, back, target, m') && m'.Keys == m.Keys
      invariant forall k :: k in m ==> m'[k] == (m[k].0 || k in vec[..i], m[k].1)
    {
      m' := m'[vec[i] := (true, m'[vec[i]].1)];
      assert forall k :: k in vec[..i + 1] <==> k in vec[..i] || k == vec[i];
    }
    assert vec[..|vec|] == vec;
  }

  /** A proper subset of a finite set has fewer elements. */
  lemma {:induction false} ProperSubsetSmaller<T>(a: set<T>, b: set<T>)
    requires a < b
    ensures |a| < |b|
    decreases |b|
  {
    var x :| x in b && x !in a;
    var b' := b - {x};
    assert a <= b';
    if a != b' {
      ProperSubsetSmaller(a, b');
    }
  }

  /** Once every entry is explored, the containers recorded in `new_map` are exactly the colours that can eventually hold the target. */
  lemma ExploredAll(rules: seq<Rule>, back: map<Colour, set<Colour>>, target: Colour, m: map<Colour, Entry>)
    requires Inverts(rules, back) && Explored(rules, back, target, m)
    requires forall k :: k in m ==> m[k].0
    ensures (set k, d | k in m && d in m[k].1 :: d) == Containers(rules, target)
  {
    var all := set k, d | k in m && d in m[k].1 :: d;
    forall d | d in all
      ensures d in Containers(rules, target)
    {
      var k :| k in m && d in m[k].1;
      WithinStep(rules, d, k, target);
      WithinOuter(rules, d, target);
    }
    forall d | d in Containers(rules, target)
      ensures d in all
    {
      var p :| Chain(rules, p) && |p| >= 2 && p[0] == d && p[|p| - 1] == target;
      ChainKeys(rules, back, target, m, p, 1);
      assert Directly(rules, p[0], p[1]);
      assert d in m[p[1]].1;
    }
  }

  /** Walking a chain back from the target stays among the keys of a fully explored `new_map`. */
  lemma {:induction false} ChainKeys(rules: seq<Rule>, back: map<Colour, set<Colour>>, target: Colour, m: map<Colour, Entry>, p: seq<Colour>, i: nat)
    requires Inverts(rules, back) && Explored(rules, back, target, m)
    requires forall k :: k in m ==> m[k].0
    requires Chain(rules, p) && |p| >= 1 && p[|p| - 1] == target && i < |p|
    ensures forall j :: i <= j < |p| ==> p[j] in m
    decreases |p| - i
  {
    if i < |p| - 1 {
      ChainKeys(rules, back, target, m, p, i + 1);
      assert Directly(rules, p[i], p[i + 1]);
      assert p[i] in Parents(back, p[i + 1]);
    }
  }

  /**
   * `how_many_can_contain`: the number of colours that can eventually hold
   * a bag of `colour`; `None` is the panic of `unwrap` when no rule lists
   * `colour` at all.
   */
  method HowManyCanContain(rules: seq<Rule>, colour: Colour) returns (r: Option<nat>)
    ensures r.None? <==> !exists d :: Directly(rules, d, colour)
    ensures r.Some? ==> r.value == |Containers(rules, colour)|
  {
    var back := BuildBackwards(rules);
    BackwardsMeaning(rules);
    BackwardsKeys(rules, colour);
    if colour !in back {
      return None;
    }
    var m: map<Colour, Entry> := map[colour := (false, back[colour])];
    ghost var universe := RuleColours(rules) + {colour};
    while exists k :: k in m && !m[k].0
      invariant Inverts(rules, back) && Explored(rules, back, colour, m)
      decreases |universe - ExploredKeys(m)|
    {
      var m' := ExploreRound(rules, back, colour, m);
      ExploredBound(rules, back, colour, m');
      ExploredBound(rules, back, colour, m);
      ProperSubsetSmaller(universe - ExploredKeys(m'), universe - ExploredKeys(m));
      m := m';
    }
    var all := set k, d | k in m && d in m[k].1 :: d;
    ExploredAll(rules, back, colour, m);
    r := Some(|all|);
  }

  // The resolution of `how_many_inside`

  /** Every colour listed in `contents` has a known count. */
  predicate AllKnown(contents: seq<(nat, Colour)>, known: map<Colour, nat>)
  {
    forall k :: 0 <= k < |contents| ==> contents[k].1 in known
  }

  /** The `sum` of `num + inside(colour) * num` over the contents: the bags listed and everything inside them. */
  function Weight(contents: seq<(nat, Colour)>, known: map<Colour, nat>): nat
    requires AllKnown(contents, known)
  {
    if contents == [] then 0
    else
      var (num, colour) := contents[|contents| - 1];
      Weight(contents[..|contents| - 1], known) + (num + known[colour] * num)
  }

  /** `known'` has every count of `known`, unchanged. */
  predicate Extends(known: map<Colour, nat>, known': map<Colour, nat>)
  {
    forall c :: c in known ==> c in known' && known'[c] == known[c]
  }

  /** Counts learned later do not change the weight of contents already known. */
  lemma {:induction false} WeightExtends(contents: seq<(nat, Colour)>, known: map<Colour, nat>, known': map<Colour, nat>)
    requires AllKnown(contents, known) && Extends(known, known')
    ensures AllKnown(contents, known') && Weight(contents, known') == Weight(contents, known)
    decreases |contents|
  {
    if contents != [] {
      WeightExtends(contents[..|contents| - 1], known, known');
    }
  }

  /** A rule resolves in a round when every colour it lists is known and its own colour is not yet. */
  predicate Resolvable(rule: Rule, known: map<Colour, nat>)
  {
    AllKnown(rule.contains, known) && rule.colour !in known
  }

  /** `temp_map` after the first `n` rules of a round: each resolvable rule's count under its colour, a later rule of the same colour replacing an earlier one. */
  function Round(rules: seq<Rule>, known: map<Colour, nat>, n: nat): map<Colour, nat>
    requires n <= |rules|
  {
    if n == 0 then map[]
    else
      var temp := Round(rules, known, n - 1);
      var rule := rules[n - 1];
      if Resolvable(rule, known) then temp[rule.colour := Weight(rule.contains, known)] else temp
  }

  /** `v` is the count of a rule for `c` among the first `n` that is resolvable from `known`. */
  predicate ResolvedBy(rules: seq<Rule>, known: map<Colour, nat>, n: nat, c: Colour, v: nat)
  {
    exists i :: 0 <= i < n && i < |rules| && rules[i].colour == c && Resolvable(rules[i], known) && v == Weight(rules[i].contains, known)
  }

  /** A round adds exactly the colours of resolvable rules, each with the count of one such rule for it, and nothing already known. */
  lemma {:induction false} RoundMeaning(rules: seq<Rule>, known: map<Colour, nat>, n: nat)
    requires n <= |rules|
    ensures forall c :: c in Round(rules, known, n) ==> c !in known && ResolvedBy(rules, known, n, c, Round(rules, known, n)[c])
    ensures Round(rules, known, n) == map[] <==> forall i :: 0 <= i < n ==> !Resolvable(rules[i], known)
    decreases n
  {
    if n > 0 {
      RoundMeaning(rules, known, n - 1);
      var rule := rules[n - 1];
      if Resolvable(rule, known) {
        assert rule.colour in Round(rules, known, n);
      }
      if Round(rules, known, n) == map[] {
        forall i | 0 <= i < n
          ensures !Resolvable(rules[i], known)
        {
          if i == n - 1 {
            assert rule.colour !in Round(rules, known, n);
          }
        }
      }
    }
  }

  /** A non-empty round strictly grows the known map and keeps it within the rules' colours. */
  lemma RoundGrows(rules: seq<Rule>, known: map<Colour, nat>)
    requires known.Keys <= RuleColours(rules) && Round(rules, known, |rules|) != map[]
    ensures |known + Round(rules, known, |rules|)| > |known|
    ensures (known + Round(rules, known, |rules|)).Keys <= RuleColours(rules)
  {
    var temp := Round(rules, known, |rules|);
    RoundMeaning(rules, known, |rules|);
    var c :| c in temp;
    assert c !in known;
    assert known.Keys < (known + temp).Keys;
    ProperSubsetSmaller(known.Keys, (known + temp).Keys);
    forall d | d in temp
      ensures d in RuleColours(rules)
    {
      var i :| 0 <= i < |rules| && rules[i].colour == d && Resolvable(rules[i], known) &&
        temp[d] == Weight(rules[i].contains, known);
    }
  }

  /**
   * The `while` of `how_many_inside` from the counts `known`: rounds repeat
   * until there are as many counts as rules. `None` is a round that resolves
   * nothing before then, where the source spins forever.
   */
  function ResolveFrom(rules: seq<Rule>, known: map<Colour, nat>): Option<map<Colour, nat>>
    requires known.Keys <= RuleColours(rules)
    decreases |rules| - |known|
  {
    if |known| >= |rules| then Some(known)
    else
      var temp := Round(rules, known, |rules|);
      if temp == map[] then None
      else
        RoundGrows(rules, known);
        ResolveFrom(rules, known + temp)
  }

  /** The loop over the rules in one round, filtered to the resolvable ones. */
  method ResolveRound(rules: seq<Rule>, known: map<Colour, nat>) returns (temp: map<Colour, nat>)
    ensures temp == Round(rules, known, |rules|)
  {
    temp := map[];
    for i := 0 to |rules|
      invariant temp == Round(rules, known, i)
    {
      var rule := rules[i];
      if AllKnown(rule.contains, known) && rule.colour !in known {
        var number := Weight(rule.contains, known);
        temp := temp[rule.colour := number];
      }
    }
  }

  /** The `while` of `how_many_inside`: rounds of resolution merged into the known counts; `None` where the source would loop forever. */
  method Resolve(rules: seq<Rule>) returns (r: Option<map<Colour, nat>>)
    ensures r == ResolveFrom(rules, map[])
  {
    var known: map<Colour, nat> := map[];
    while |known| < |rules|
      invariant known.Keys <= RuleColours(rules)
      invariant ResolveFrom(rules, known) == ResolveFrom(rules, map[])
      decreases |rules| - |known|
    {
      var temp := ResolveRound(rules, known);
      if temp == map[] {
        return None;
      }
      RoundGrows(rules, known);
      known := known + temp;
    }
    return Some(known);
  }

  /** What `how_many_inside` ends in. */
  datatype Outcome = Count(n: nat) | NeverFinishes | Panics

  /** `how_many_inside` as a value: the resolved count of `colour`; the `unwrap` panics when it has no rule. */
  function Inside(rules: seq<Rule>, colour: Colour): Outcome
  {
    match ResolveFrom(rules, map[])
    case None => NeverFinishes
    case Some(known) => if colour in known then Count(known[colour]) else Panics
  }

  /** `how_many_inside`: resolve every rule, then look up `colour`. */
  method HowManyInside(rules: seq<Rule>, colour: Colour) returns (r: Outcome)
    ensures r == Inside(rules, colour)
  {
    var known := Resolve(rules);
    if known.None? {
      return NeverFinishes;
    }
    if colour !in known.value {
      return Panics;
    }
    return Count(known.value[colour]);
  }

  // What a finished resolution means

  /** `rule` is resolved consistently: its inner colours are known at lower levels and its count is their weight. */
  ghost predicate Grounded(rule: Rule, known: map<Colour, nat>, level: map<Colour, nat>)
  {
    rule.colour in known && rule.colour in level && AllKnown(rule.contains, known) &&
    (forall k :: 0 <= k < |rule.contains| ==> rule.contains[k].1 in level && level[rule.contains[k].1] < level[rule.colour]) &&
    known[rule.colour] == Weight(rule.contains, known)
  }

  /**
   * The invariant of the rounds: every known colour was resolved in an
   * earlier round (its level) by a rule for it whose inner colours were
   * resolved in still earlier rounds, and its count is that rule's weight.
   */
  ghost predicate Solved(rules: seq<Rule>, known: map<Colour, nat>, level: map<Colour, nat>, round: nat)
  {
    known.Keys <= RuleColours(rules) && level.Keys == known.Keys &&
    forall c :: c in known ==> level[c] < round && exists i :: 0 <= i < |rules| && rules[i].colour == c && Grounded(rules[i], known, level)
  }

  /** A rule resolved in this round is grounded in the grown maps, at the current level. */
  lemma GroundedNew(rules: seq<Rule>, known: map<Colour, nat>, level: map<Colour, nat>, round: nat,
                    known': map<Colour, nat>, level': map<Colour, nat>, i: nat)
    requires Solved(rules, known, level, round) && i < |rules| && Resolvable(rules[i], known)
    requires Extends(known, known') && rules[i].colour in known' && known'[rules[i].colour] == Weight(rules[i].contains, known)
    requires forall c :: c in level ==> c in level' && level'[c] == level[c]
    requires rules[i].colour in level' && level'[rules[i].colour] == round
    ensures Grounded(rules[i], known', level')
  {
    WeightExtends(rules[i].contains, known, known');
  }

  /** A rule grounded before the round stays grounded in the grown maps. */
  lemma GroundedOld(rules: seq<Rule>, known: map<Colour, nat>, level: map<Colour, nat>,
                    known': map<Colour, nat>, level': map<Colour, nat>, rule: Rule)
    requires Grounded(rule, known, level) && Extends(known, known')
    requires forall c :: c in level ==> c in level' && level'[c] == level[c]
    ensures Grounded(rule, known', level')
  {
    WeightExtends(rule.contains, known, known');
  }

  /** The levels after a round: the colours of `temp` get the current round. */
  function Promote(level: map<Colour, nat>, temp: map<Colour, nat>, round: nat): map<Colour, nat>
  {
    map c | c in level.Keys + temp.Keys :: if c in temp then round else level[c]
  }

  /** One colour after a round: it has a level below the next round and a rule grounding it in the grown maps. */
  lemma SolvedColour(rules: seq<Rule>, known: map<Colour, nat>, level: map<Colour, nat>, temp: map<Colour, nat>,
                     round: nat, c: Colour)
    requires Solved(rules, known, level, round)
    requires forall d :: d in temp ==> d !in known && ResolvedBy(rules, known, |rules|, d, temp[d])
    requires c in known + temp
    ensures c in Promote(level, temp, round) && Promote(level, temp, round)[c] < round + 1
    ensures exists i :: 0 <= i < |rules| && rules[i].colour == c && Grounded(rules[i], known + temp, Promote(level, temp, round))
  {
    var known' := known + temp;
    var level' := Promote(level, temp, round);
    assert Extends(known, known');
    if c in temp {
      var i :| 0 <= i < |rules| && rules[i].colour == c && Resolvable(rules[i], known) &&
        temp[c] == Weight(rules[i].contains, known);
      GroundedNew(rules, known, level, round, known', level', i);
    } else {
      var i :| 0 <= i < |rules| && rules[i].colour == c && Grounded(rules[i], known, level);
      GroundedOld(rules, known, level, known', level', rules[i]);
    }
  }

  /** Adding colours resolved from `known`, each at the current level, keeps the invariant. */
  lemma SolvedAfter(rules: seq<Rule>, known: map<Colour, nat>, level: map<Colour, nat>, temp: map<Colour, nat>, round: nat)
    requires Solved(rules, known, level, round) && (known + temp).Keys <= RuleColours(rules)
    requires forall d :: d in temp ==> d !in known && ResolvedBy(rules, known, |rules|, d, temp[d])
    ensures Solved(rules, known + temp, Promote(level, temp, round), round + 1)
  {
    var known' := known + temp;
    var level' := Promote(level, temp, round);
    assert level'.Keys == known'.Keys;
    forall c | c in known'
      ensures level'[c] < round + 1 && exists i :: 0 <= i < |rules| && rules[i].colour == c && Grounded(rules[i], known', level')
    {
      SolvedColour(rules, known, level, temp, round, c);
    }
  }

  /** A round keeps the invariant, with the new colours at the current level. */
  lemma SolvedStep(rules: seq<Rule>, known: map<Colour, nat>, level: map<Colour, nat>, round: nat)
    requires Solved(rules, known, level, round)
    requires Round(rules, known, |rules|) != map[]
    ensures Solved(rules, known + Round(rules, known, |rules|), Promote(level, Round(rules, known, |rules|), round), round + 1)
  {
    RoundMeaning(rules, known, |rules|);
    RoundGrows(rules, known);
    SolvedAfter(rules, known, level, Round(rules, known, |rules|), round);
  }

  /** No two rules are for the same colour. */
  predicate DistinctColours(rules: seq<Rule>)
  {
    forall i, j :: 0 <= i < j < |rules| ==> rules[i].colour != rules[j].colour
  }

  /** There are at most as many colours as rules, and as many only when no colour has two rules. */
  lemma {:induction false} ColoursCount(rules: seq<Rule>)
    ensures |RuleColours(rules)| <= |rules|
    ensures |RuleColours(rules)| == |rules| ==> DistinctColours(rules)
    decreases |rules|
  {
    if rules != [] {
      var front := rules[..|rules| - 1];
      var last := rules[|rules| - 1].colour;
      ColoursCount(front);
      assert RuleColours(rules) == RuleColours(front) + {last} by {
        forall c | c in RuleColours(rules)
          ensures c in RuleColours(front) + {last}
        {
          var i :| 0 <= i < |rules| && rules[i].colour == c;
          if i < |front| {
            assert front[i] == rules[i];
          }
        }
        forall c | c in RuleColours(front)
          ensures c in RuleColours(rules)
        {
          var i :| 0 <= i < |front| && front[i].colour == c;
          assert rules[i] == front[i];
        }
      }
      if |RuleColours(rules)| == |rules| {
        assert last !in RuleColours(front);
        forall i, j | 0 <= i < j < |rules|
          ensures rules[i].colour != rules[j].colour
        {
          assert rules[i] == front[i];
          if j < |front| {
            assert rules[j] == front[j];
          } else {
            assert rules[i].colour in RuleColours(front);
          }
        }
      }
    }
  }

  /** Each direct containment among resolved colours goes to a strictly lower level. */
  lemma StepLevel(rules: seq<Rule>, known: map<Colour, nat>, level: map<Colour, nat>, round: nat, a: Colour, b: Colour)
    requires Solved(rules, known, level, round) && DistinctColours(rules) && known.Keys == RuleColours(rules)
    requires Directly(rules, a, b)
    ensures a in level && b in level && level[b] < level[a]
  {
    var j, k :| 0 <= j < |rules| && 0 <= k < |rules[j].contains| && rules[j].colour == a && rules[j].contains[k].1 == b;
    assert a in known;
    var i :| 0 <= i < |rules| && rules[i].colour == a && Grounded(rules[i], known, level);
    assert i == j;
  }

  /** Along a chain of containment among resolved colours, levels strictly fall. */
  lemma {:induction false} ChainLevels(rules: seq<Rule>, known: map<Colour, nat>, level: map<Colour, nat>, round: nat, p: seq<Colour>)
    requires Solved(rules, known, level, round) && DistinctColours(rules) && known.Keys == RuleColours(rules)
    requires Chain(rules, p) && |p| >= 2
    ensures p[0] in level && p[|p| - 1] in level && level[p[|p| - 1]] < level[p[0]]
    decreases |p|
  {
    StepLevel(rules, known, level, round, p[0], p[1]);
    if |p| > 2 {
      var q := p[1..];
      assert Chain(rules, q) by {
        forall i | 0 <= i < |q| - 1
          ensures Directly(rules, q[i], q[i + 1])
        {
          assert q[i] == p[i + 1] && q[i + 1] == p[i + 2];
        }
      }
      ChainLevels(rules, known, level, round, q);
      assert q[|q| - 1] == p[|p| - 1];
    }
  }

  /** A finished resolution: counts for exactly the rule colours, one rule per colour, every rule's count its weight, and no colour that can hold itself. */
  ghost predicate Resolution(rules: seq<Rule>, res: map<Colour, nat>)
  {
    res.Keys == RuleColours(rules) && DistinctColours(rules) &&
    (forall i :: 0 <= i < |rules| ==> AllKnown(rules[i].contains, res) && res[rules[i].colour] == Weight(rules[i].contains, res)) &&
    forall c :: !Within(rules, c, c)
  }

  /** Once there are as many counts as rules, the invariant gives the meaning of the result. */
  lemma Finished(rules: seq<Rule>, known: map<Colour, nat>, level: map<Colour, nat>, round: nat)
    requires Solved(rules, known, level, round) && |known| >= |rules|
    ensures Resolution(rules, known)
  {
    ColoursCount(rules);
    assert known.Keys == RuleColours(rules) by {
      if known.Keys < RuleColours(rules) {
        ProperSubsetSmaller(known.Keys, RuleColours(rules));
      }
    }
    forall i | 0 <= i < |rules|
      ensures AllKnown(rules[i].contains, known) && known[rules[i].colour] == Weight(rules[i].contains, known)
    {
      assert rules[i].colour in RuleColours(rules);
      var j :| 0 <= j < |rules| && rules[j].colour == rules[i].colour && Grounded(rules[j], known, level);
      assert i == j;
    }
    forall c
      ensures !Within(rules, c, c)
    {
      if Within(rules, c, c) {
        var p :| Chain(rules, p) && |p| >= 2 && p[0] == c && p[|p| - 1] == c;
        ChainLevels(rules, known, level, round, p);
      }
    }
  }

  /** Every finished resolution reached from the invariant is a `Resolution`. */
  lemma {:induction false} ResolveFromMeaning(rules: seq<Rule>, known: map<Colour, nat>, level: map<Colour, nat>, round: nat)
    requires Solved(rules, known, level, round)
    ensures ResolveFrom(rules, known).Some? ==> Resolution(rules, ResolveFrom(rules, known).value)
    decreases |rules| - |known|
  {
    if |known| >= |rules| {
      Finished(rules, known, level, round);
    } else if Round(rules, known, |rules|) != map[] {
      var temp := Round(rules, known, |rules|);
      SolvedStep(rules, known, level, round);
      RoundGrows(rules, known);
      assert ResolveFrom(rules, known) == ResolveFrom(rules, known + temp);
      ResolveFromMeaning(rules, known + temp, Promote(level, temp, round), round + 1);
    }
  }

  /**
   * When `how_many_inside` finishes: the rules have one per colour, no colour
   * can hold itself and every listed colour has a rule (cyclic or dangling
   * rules make it loop forever), and each colour's count is the sum over its
   * contents of `num * (1 + count(inner))`. The answer is `colour`'s count,
   * and the `unwrap` panics exactly when `colour` has no rule.
   */
  lemma InsideMeaning(rules: seq<Rule>, colour: Colour)
    ensures Inside(rules, colour) != NeverFinishes ==>
      var res := ResolveFrom(rules, map[]).value;
      res.Keys == RuleColours(rules) && DistinctColours(rules) && (forall c :: !Within(rules, c, c)) &&
      (forall i, k :: 0 <= i < |rules| && 0 <= k < |rules[i].contains| ==> rules[i].contains[k].1 in RuleColours(rules)) &&
      (forall i :: 0 <= i < |rules| ==> AllKnown(rules[i].contains, res) && res[rules[i].colour] == Weight(rules[i].contains, res)) &&
      (Inside(rules, colour) == Panics <==> colour !in RuleColours(rules)) &&
      (Inside(rules, colour).Count? ==> Inside(rules, colour).n == res[colour])
  {
    ResolveFromMeaning(rules, map[], map[], 0);
    if ResolveFrom(rules, map[]).Some? {
      var res := ResolveFrom(rules, map[]).value;
      forall i, k | 0 <= i < |rules| && 0 <= k < |rules[i].contains|
        ensures rules[i].contains[k].1 in RuleColours(rules)
      {
        assert AllKnown(rules[i].contains, res);
      }
    }
  }
}
