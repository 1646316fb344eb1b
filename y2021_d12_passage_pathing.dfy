// Passage pathing (2021, day 12).
//
// Caves are joined by passages; a cave named in lower case is small and one
// named in upper case large. A depth-first search from `start` records every
// path that reaches `end` without re-entering `start`: in part one no small
// cave may be entered twice, in part two no small cave more than twice.
//
// Each `Node` keeps its neighbours as weak references; the set `owned` passed
// around below stands for the nodes still held by the graph, the ones whose
// weak references can be upgraded.

module PassagePathing {
  import opened Wrappers
  import Text

  /** `Size`. */
  datatype Size = Small | Large

  /** What `Node`'s `Hash` and `PartialEq` look at: the name and the size, never the neighbours. */
  datatype NodeKey = NodeKey(name: string, size: Size)

  /** `char::to_ascii_lowercase`. */
  function LowerChar(c: char): char
  {
    if 'A' <= c <= 'Z' then (c as int + 32) as char else c
  }

  /** `char::to_ascii_uppercase`. */
  function UpperChar(c: char): char
  {
    if 'a' <= c <= 'z' then (c as int - 32) as char else c
  }

  /** `str::to_lowercase`, on ASCII text. */
  function ToLower(s: string): string
  {
    seq(|s|, i requires 0 <= i < |s| => LowerChar(s[i]))
  }

  /** `str::to_uppercase`, on ASCII text. */
  function ToUpper(s: string): string
  {
    seq(|s|, i requires 0 <= i < |s| => UpperChar(s[i]))
  }

  predicate HasUpper(s: string)
  {
    exists i :: 0 <= i < |s| && 'A' <= s[i] <= 'Z'
  }

  predicate HasLower(s: string)
  {
    exists i :: 0 <= i < |s| && 'a' <= s[i] <= 'z'
  }

  /** The size `Node::parse` gives a name; `None` where it panics. */
  function ParseSize(name: string): Option<Size>
  {
    if name == ToLower(name) then Some(Small)
    else if name == ToUpper(name) then Some(Large)
    else None
  }

  /**
   * A name with no upper-case letter is small (digits and the empty name
   * included), one with upper-case letters and no lower-case letter is large,
   * and a name mixing both is refused.
   */
  lemma ParseSizeMeaning(name: string)
    ensures ParseSize(name) == Some(Small) <==> !HasUpper(name)
    ensures ParseSize(name) == Some(Large) <==> HasUpper(name) && !HasLower(name)
    ensures ParseSize(name) == None <==> HasUpper(name) && HasLower(name)
  {
    if HasUpper(name) {
      var i :| 0 <= i < |name| && 'A' <= name[i] <= 'Z';
      assert ToLower(name)[i] != name[i];
    } else {
      assert forall i :: 0 <= i < |name| ==> ToLower(name)[i] == name[i];
    }
    if HasLower(name) {
      var i :| 0 <= i < |name| && 'a' <= name[i] <= 'z';
      assert ToUpper(name)[i] != name[i];
    } else {
      assert forall i :: 0 <= i < |name| ==> ToUpper(name)[i] == name[i];
    }
  }

  /** No element occurs twice. */
  predicate Distinct<T(==)>(s: seq<T>)
  {
    forall i, j :: 0 <= i < j < |s| ==> s[i] != s[j]
  }

  /** `Node`: a cave, with the caves it has passages to. */
  class Node {
    const name: string
    const size: Size
    /** The `Weak` references to the neighbours, in the order the passages were added. */
    var connected: seq<Node>

    function Key(): NodeKey
    {
      NodeKey(name, size)
    }

    /** `Node::new`: a cave with no neighbours. */
    constructor (name: string, size: Size)
      ensures this.name == name && this.size == size && connected == []
    {
      this.name := name;
      this.size := size;
      connected := [];
    }

    /** `Node::rc_connections`: the neighbours that are still alive, in order. */
    function RcConnections(owned: set<Node>): seq<Node>
      reads this
    {
      Live(connected, owned)
    }
  }

  /** `PartialEq for Node`. */
  predicate Equal(a: Node, b: Node)
  {
    a.name == b.name && a.size == b.size
  }

  /** Equal nodes hash alike: equality and `Hash` both look at the key and nothing else. */
  lemma EqualKey(a: Node, b: Node)
    ensures Equal(a, b) <==> a.Key() == b.Key()
  {
  }

  /** The references of `s` that can be upgraded, in order. */
  function Live(s: seq<Node>, owned: set<Node>): (r: seq<Node>)
    ensures forall i :: 0 <= i < |r| ==> r[i] in s && r[i] in owned
    ensures forall i :: 0 <= i < |s| && s[i] in owned ==> s[i] in r
    ensures Distinct(s) ==> Distinct(r)
  {
    if s == [] then []
    else
      var front := s[..|s| - 1];
      assert forall i :: 0 <= i < |front| ==> front[i] == s[i];
      Live(front, owned) + (if s[|s| - 1] in owned then [s[|s| - 1]] else [])
  }

  /** `Node::parse`: a fresh cave sized by its name; `None` where the name mixes cases. */
  method Parse(name: string) returns (r: Option<Node>)
    ensures r.None? <==> ParseSize(name).None?
    ensures r.Some? ==> fresh(r.value) && r.value.Key() == NodeKey(name, ParseSize(name).value) && r.value.connected == []
  {
    var size := ParseSize(name);
    if size.None? {
      return None;
    }
    var node := new Node(name, size.value);
    return Some(node);
  }

  /** Every passage between caves of `graph` is listed at both ends. */
  predicate Symmetric(graph: set<Node>)
    reads graph
  {
    forall n, m :: n in graph && m in graph && m in n.connected ==> n in m.connected
  }

  /**
   * `Node::add_connection`: each cave gets the other appended to its
   * neighbours (a passage from a cave to itself lists it twice). Adding a
   * passage between two caves of a graph whose passages are listed at both
   * ends keeps them so.
   */
  method AddConnection(a: Node, b: Node, ghost graph: set<Node>)
    modifies a`connected, b`connected
    ensures a != b ==> a.connected == old(a.connected) + [b] && b.connected == old(b.connected) + [a]
    ensures a == b ==> a.connected == old(a.connected) + [a, a]
    ensures old(Symmetric(graph)) && a in graph && b in graph ==> Symmetric(graph)
  {
    a.connected := a.connected + [b];
    b.connected := b.connected + [a];
  }

  /** The names of the caves of a path, in order. */
  function Names(path: seq<Node>): seq<string>
  {
    seq(|path|, i requires 0 <= i < |path| => path[i].name)
  }

  /** `path_to_string`: the names with a comma between each two. */
  function PathToString(path: seq<Node>): string
  {
    Text.Join(Names(path), ',')
  }

  /** Splitting the text of a path at the commas gives its names back, when no name holds a comma. */
  lemma PathToStringNames(path: seq<Node>)
    requires |path| >= 1 && forall i :: 0 <= i < |path| ==> ',' !in path[i].name
    ensures Text.Split(PathToString(path), ',') == Names(path)
  {
    Text.SplitJoin(Names(path), ',');
  }

  /** Every cave of the path is alive. */
  predicate Within(older path: seq<Node>, owned: set<Node>)
  {
    forall i :: 0 <= i < |path| ==> path[i] in owned
  }

  /** The names of the caves carry no comma, and no two caves share a name (`Graph::add_node`). */
  predicate NamesOk(owned: set<Node>)
  {
    (forall n :: n in owned ==> ',' !in n.name) &&
    (forall n, m {:trigger NameOf(n), NameOf(m)} :: n in owned && m in owned && NameOf(n) == NameOf(m) ==> n == m)
  }

  /** The name of a cave; the uniqueness of names is stated over it, and used only where it is needed. */
  function NameOf(n: Node): string
  {
    n.name
  }

  /** Two paths through the graph with the same text are the same path. */
  lemma PathToStringInjective(p: seq<Node>, q: seq<Node>, owned: set<Node>)
    requires NamesOk(owned)
    requires |p| >= 1 && Within(p, owned) && |q| >= 1 && Within(q, owned)
    requires PathToString(p) == PathToString(q)
    ensures p == q
  {
    PathToStringNames(p);
    PathToStringNames(q);
    assert |p| == |Names(p)| == |Names(q)| == |q|;
    assert forall i :: 0 <= i < |p| ==> NameOf(p[i]) == Names(p)[i] == Names(q)[i] == NameOf(q[i]);
  }

  /** Every live cave among `conns` is small. */
  predicate LargeBesideSmall(conns: seq<Node>, owned: set<Node>)
  {
    forall i :: 0 <= i < |conns| && conns[i] in owned ==> conns[i].size == Small
  }

  /**
   * What the search needs of the graph besides `NamesOk`: no neighbour is
   * listed twice, and no two large caves are joined (the search would never
   * end).
   */
  predicate Graph(owned: set<Node>)
    reads owned
  {
    NamesOk(owned) &&
    (forall n :: n in owned ==> Distinct(n.connected)) &&
    (forall n :: n in owned && n.size == Large ==> LargeBesideSmall(n.connected, owned))
  }

  /** The number of caves of the path equal to a cave with key `k`. */
  function Count(path: seq<Node>, k: NodeKey): nat
  {
    if path == [] then 0
    else Count(path[..|path| - 1], k) + (if path[|path| - 1].Key() == k then 1 else 0)
  }

  lemma CountSnoc(path: seq<Node>, x: Node, k: NodeKey)
    ensures Count(path + [x], k) == Count(path, k) + (if x.Key() == k then 1 else 0)
  {
    assert (path + [x])[..|path|] == path;
  }

  /** `Vec::contains`, by `PartialEq`. */
  predicate Contains(path: seq<Node>, n: Node)
  {
    exists i :: 0 <= i < |path| && Equal(path[i], n)
  }

  /** A cave is on the path exactly when the path counts its key at least once. */
  lemma {:induction false} ContainsCount(path: seq<Node>, n: Node)
    ensures Contains(path, n) <==> Count(path, n.Key()) > 0
  {
    if path != [] {
      var front := path[..|path| - 1];
      ContainsCount(front, n);
      assert forall i :: 0 <= i < |front| ==> front[i] == path[i];
      if Equal(path[|path| - 1], n) {
        assert Contains(path, n);
      }
      if Contains(front, n) {
        var i :| 0 <= i < |front| && Equal(front[i], n);
        assert Equal(path[i], n);
      }
    }
  }

  /** Every small cave occurs at most `limit` times. */
  predicate SmallAtMost(path: seq<Node>, limit: nat)
  {
    forall i :: 0 <= i < |path| && path[i].size == Small ==> Count(path, path[i].Key()) <= limit
  }

  /**
   * A path the search may stand on: it starts somewhere, its caves are
   * alive, it never comes back
   * to `start`, it reaches `end` at most at its last cave, and no small cave
   * occurs more than `limit` times.
   */
  ghost predicate Walk(older path: seq<Node>, owned: set<Node>, links: map<Node, seq<Node>>, limit: nat)
  {
    |path| >= 1 && Within(path, owned) &&
    (forall i :: 0 <= i < |path| - 1 ==> path[i] in links && path[i + 1] in links[path[i]]) &&
    (forall i :: 1 <= i < |path| ==> path[i].name != "start") &&
    (forall i :: 0 <= i < |path| - 1 ==> path[i].name != "end") &&
    SmallAtMost(path, limit)
  }

  /**
   * The neighbour lists of the live caves. The search never changes them, so
   * it carries this snapshot and the walks are read off it.
   */
  ghost function Links(owned: set<Node>): map<Node, seq<Node>>
    reads owned
  {
    map n | n in owned :: n.connected
  }

  /** A path the search records: a walk that ends at `end`. */
  ghost predicate Found(older path: seq<Node>, owned: set<Node>, links: map<Node, seq<Node>>, limit: nat)
  {
    Walk(path, owned, links, limit) && path[|path| - 1].name == "end"
  }

  /** The search starts on a walk: the start cave alone. */
  lemma StartWalk(start: Node, owned: set<Node>, links: map<Node, seq<Node>>, limit: nat)
    requires start in owned && limit >= 1
    ensures Walk([start], owned, links, limit)
  {
    assert [start][..0] == [];
    assert Count([start], start.Key()) == 1;
  }

  /**
   * Stepping from the last cave of a walk, not `end`, to a live cave that is not `start` and, when small, occurs fewer than `limit`
   * times, gives a walk.
   */
  lemma WalkSnoc(path: seq<Node>, x: Node, owned: set<Node>, links: map<Node, seq<Node>>, limit: nat)
    requires Walk(path, owned, links, limit)
    requires path[|path| - 1].name != "end" && x in owned
    requires x.name != "start" && path[|path| - 1] in links && x in links[path[|path| - 1]]
    requires x.size == Small ==> Count(path, x.Key()) < limit
    ensures Walk(path + [x], owned, links, limit)
  {
    var p := path + [x];
    forall k | true
      ensures Count(p, k) == Count(path, k) + (if x.Key() == k then 1 else 0)
    {
      CountSnoc(path, x, k);
    }
    assert forall i :: 0 <= i < |path| ==> p[i] == path[i];
  }

  /** The keys of the live small caves. */
  ghost function SmallKeys(owned: set<Node>): set<NodeKey>
  {
    set n | n in owned && n.size == Small :: n.Key()
  }

  /** The keys of live small caves the path holds at least `c` times. */
  ghost function Reached(path: seq<Node>, owned: set<Node>, c: nat): set<NodeKey>
  {
    set k | k in SmallKeys(owned) && Count(path, k) >= c
  }

  /**
   * The visits to small caves still open to a path: for each live small
   * cave, a first visit and a second one. It bounds the depth of the search.
   */
  ghost function Budget(path: seq<Node>, owned: set<Node>): nat
  {
    |SmallKeys(owned) - Reached(path, owned, 1)| + |SmallKeys(owned) - Reached(path, owned, 2)|
  }

  lemma SubsetCard<T>(a: set<T>, b: set<T>)
    requires a <= b
    ensures |a| <= |b| && (a != b ==> |a| < |b|)
  {
    assert b == a + (b - a);
    assert a * (b - a) == {};
    if a != b {
      var y :| y in b - a;
    }
  }

  /**
   * One more cave never adds to the budget, and a live small cave entered
   * for the first or second time takes from it.
   */
  lemma BudgetSnoc(path: seq<Node>, x: Node, owned: set<Node>)
    ensures Budget(path + [x], owned) <= Budget(path, owned)
    ensures x in owned && x.size == Small && Count(path, x.Key()) < 2 ==>
      Budget(path + [x], owned) < Budget(path, owned)
  {
    var p := path + [x];
    var s := SmallKeys(owned);
    forall k | true
      ensures Count(p, k) == Count(path, k) + (if x.Key() == k then 1 else 0)
    {
      CountSnoc(path, x, k);
    }
    SubsetCard(s - Reached(p, owned, 1), s - Reached(path, owned, 1));
    SubsetCard(s - Reached(p, owned, 2), s - Reached(path, owned, 2));
    if x in owned && x.size == Small && Count(path, x.Key()) < 2 {
      var c := Count(path, x.Key()) + 1;
      assert x.Key() in s;
      assert x.Key() in s - Reached(path, owned, c);
      assert x.Key() !in s - Reached(p, owned, c);
    }
  }

  /** The text of every recorded path. */
  function Strings(paths: seq<seq<Node>>): set<string>
  {
    if paths == [] then {}
    else Strings(paths[..|paths| - 1]) + {PathToString(paths[|paths| - 1])}
  }

  lemma StringsSnoc(paths: seq<seq<Node>>, p: seq<Node>)
    ensures Strings(paths + [p]) == Strings(paths) + {PathToString(p)}
  {
    assert (paths + [p])[..|paths|] == paths;
  }

  /** A text is recorded exactly when some recorded path has it. */
  lemma {:induction false} StringsMembers(paths: seq<seq<Node>>, s: string)
    ensures s in Strings(paths) <==> exists j :: 0 <= j < |paths| && PathToString(paths[j]) == s
  {
    if paths != [] {
      var front := paths[..|paths| - 1];
      StringsMembers(front, s);
      assert forall j :: 0 <= j < |front| ==> front[j] == paths[j];
    }
  }

  /** Every recorded path holds a cave, and all its caves are alive. */
  predicate AllWithin(paths: seq<seq<Node>>, owned: set<Node>)
  {
    forall j :: 0 <= j < |paths| ==> |paths[j]| >= 1 && Within(paths[j], owned)
  }

  /**
   * A path that no recorded path extends has a text that is not recorded:
   * the assertion before each path is recorded always holds.
   */
  lemma AbsentWhenUnvisited(paths: seq<seq<Node>>, p: seq<Node>, owned: set<Node>)
    requires NamesOk(owned)
    requires AllWithin(paths, owned)
    requires |p| >= 1 && Within(p, owned)
    requires forall j :: 0 <= j < |paths| ==> !(p <= paths[j])
    ensures PathToString(p) !in Strings(paths)
  {
    StringsMembers(paths, PathToString(p));
    if PathToString(p) in Strings(paths) {
      var j :| 0 <= j < |paths| && PathToString(paths[j]) == PathToString(p);
      PathToStringInjective(p, paths[j], owned);
      assert false;
    }
  }

  /** The test of the filter of `find_all_paths_visiting_small_caves_once`. */
  predicate OnceAllowed(path: seq<Node>, n: Node)
  {
    n.name != "start" && !(n.size == Small && Contains(path, n))
  }

  /**
   * The filter of `find_all_paths_visiting_small_caves_once`: the caves of
   * `conns` that pass its test, in order.
   */
  function OnceConnections(conns: seq<Node>, path: seq<Node>): (r: seq<Node>)
    ensures forall k :: 0 <= k < |r| ==> r[k] in conns && OnceAllowed(path, r[k])
    ensures forall k :: 0 <= k < |conns| && OnceAllowed(path, conns[k]) ==> conns[k] in r
    ensures Distinct(conns) ==> Distinct(r)
  {
    if conns == [] then []
    else
      var front := conns[..|conns| - 1];
      assert forall k :: 0 <= k < |front| ==> front[k] == conns[k];
      OnceConnections(front, path) + (if OnceAllowed(path, conns[|conns| - 1]) then [conns[|conns| - 1]] else [])
  }

  /**
   * The first small cave (in path order) the path holds at least twice,
   * from position `i` on: the `visited_small_cave_twice` of
   * `find_all_paths_visiting_small_caves_twice`.
   */
  function FirstRepeated(path: seq<Node>, i: nat): (r: Option<Node>)
    requires i <= |path|
    ensures r.Some? ==> r.value in path[i..] && r.value.size == Small && Count(path, r.value.Key()) >= 2
    ensures r.None? ==> forall j :: i <= j < |path| && path[j].size == Small ==> Count(path, path[j].Key()) < 2
    decreases |path| - i
  {
    if i == |path| then None
    else if path[i].size == Small && Count(path, path[i].Key()) >= 2 then Some(path[i])
    else FirstRepeated(path, i + 1)
  }

  /** The tests of the two filters of `find_all_paths_visiting_small_caves_twice`. */
  predicate TwiceAllowed(path: seq<Node>, visited: Option<Node>, n: Node)
  {
    n.name != "start" && !(n.size == Small && Count(path, n.Key()) >= 2) &&
    (visited.None? || !Equal(n, visited.value))
  }

  /**
   * The two filters of `find_all_paths_visiting_small_caves_twice`, one
   * after the other: the caves of `conns` that pass both tests, in order.
   */
  function TwiceConnections(conns: seq<Node>, path: seq<Node>, visited: Option<Node>): (r: seq<Node>)
    ensures forall k :: 0 <= k < |r| ==> r[k] in conns && TwiceAllowed(path, visited, r[k])
    ensures forall k :: 0 <= k < |conns| && TwiceAllowed(path, visited, conns[k]) ==> conns[k] in r
    ensures Distinct(conns) ==> Distinct(r)
  {
    if conns == [] then []
    else
      var front := conns[..|conns| - 1];
      assert forall k :: 0 <= k < |front| ==> front[k] == conns[k];
      TwiceConnections(front, path, visited) +
        (if TwiceAllowed(path, visited, conns[|conns| - 1]) then [conns[|conns| - 1]] else [])
  }

  /**
   * The second filter of the twice-variant never removes a cave the first
   * one keeps, whichever doubled small cave it is given: the search lets
   * every small cave occur twice, not just one of them.
   */
  lemma VisitedFilterRedundant(path: seq<Node>, v: Node, n: Node)
    requires v.size == Small && Count(path, v.Key()) >= 2
    requires n.name != "start" && !(n.size == Small && Count(path, n.Key()) >= 2)
    ensures TwiceAllowed(path, Some(v), n)
  {
  }

  /** The neighbours the search tries from a cave with neighbours `adj`: distinct, alive and among `adj`. */
  predicate Candidates(adj: seq<Node>, conns: seq<Node>, owned: set<Node>)
  {
    Distinct(conns) && forall k :: 0 <= k < |conns| ==> conns[k] in owned && conns[k] in adj
  }

  /** Caves chosen, each once, from the live neighbours are candidates. */
  lemma LiveCandidates(adj: seq<Node>, owned: set<Node>, conns: seq<Node>)
    requires Distinct(conns) && forall k :: 0 <= k < |conns| ==> conns[k] in Live(adj, owned)
    ensures Candidates(adj, conns, owned)
  {
    var live := Live(adj, owned);
    forall k | 0 <= k < |conns|
      ensures conns[k] in owned && conns[k] in adj
    {
      assert conns[k] in live;
      var i :| 0 <= i < |live| && live[i] == conns[k];
    }
  }

  /**
   * The next cave tried from a frame whose recorded paths all extend the
   * frame's path by an earlier candidate: no recorded path extends the
   * path to it.
   */
  lemma ChildUnvisited(paths: seq<seq<Node>>, before: nat, path: seq<Node>, conns: seq<Node>, k: nat)
    requires before <= |paths| && k < |conns| && Distinct(conns)
    requires forall j :: 0 <= j < before ==> !(path <= paths[j])
    requires forall j :: before <= j < |paths| ==> path < paths[j] && paths[j][|path|] in conns[..k]
    ensures forall j :: 0 <= j < |paths| ==> !(path + [conns[k]] <= paths[j])
  {
    forall j | 0 <= j < |paths|
      ensures !(path + [conns[k]] <= paths[j])
    {
      if j >= before {
        assert conns[k] !in conns[..k];
        assert (path + [conns[k]])[|path|] != paths[j][|path|];
      }
    }
  }

  /**
   * The paths recorded from position `before` on each extend `path` by one
   * of the first `k` candidates, and each is a path the search records.
   */
  ghost predicate Explored(paths: seq<seq<Node>>, before: nat, path: seq<Node>, conns: seq<Node>, k: nat, owned: set<Node>, links: map<Node, seq<Node>>, limit: nat)
  {
    ExploredStage(paths, before, path, conns, k, owned, links, limit, |path|)
  }

  /** `Explored`, reached through one recursive step as `Covered` is; `ExploredValue` unfolds it. */
  ghost predicate ExploredStage(paths: seq<seq<Node>>, before: nat, path: seq<Node>, conns: seq<Node>, k: nat, owned: set<Node>, links: map<Node, seq<Node>>, limit: nat, n: nat)
    decreases n
  {
    if n == 0 then
      before <= |paths| && k <= |conns| &&
      forall j :: before <= j < |paths| ==>
        path < paths[j] && paths[j][|path|] in conns[..k] && Found(paths[j], owned, links, limit)
    else ExploredStage(paths, before, path, conns, k, owned, links, limit, 0)
  }

  lemma ExploredValue(paths: seq<seq<Node>>, before: nat, path: seq<Node>, conns: seq<Node>, k: nat, owned: set<Node>, links: map<Node, seq<Node>>, limit: nat)
    ensures Explored(paths, before, path, conns, k, owned, links, limit) <==>
      before <= |paths| && k <= |conns| &&
      forall j :: before <= j < |paths| ==>
        path < paths[j] && paths[j][|path|] in conns[..k] && Found(paths[j], owned, links, limit)
  {
    assert ExploredStage(paths, before, path, conns, k, owned, links, limit, |path|) == ExploredStage(paths, before, path, conns, k, owned, links, limit, 0);
  }

  /** The paths recorded below candidate `k` extend the explored part by that candidate. */
  lemma ExploredStep(paths: seq<seq<Node>>, mid: seq<seq<Node>>, before: nat, path: seq<Node>, conns: seq<Node>, k: nat, owned: set<Node>, links: map<Node, seq<Node>>, limit: nat)
    requires Explored(mid, before, path, conns, k, owned, links, limit) && k < |conns| && mid <= paths
    requires Extends(paths, |mid|, path + [conns[k]], owned, links, limit)
    ensures Explored(paths, before, path, conns, k + 1, owned, links, limit)
  {
    ExploredValue(mid, before, path, conns, k, owned, links, limit);
    ExploredValue(paths, before, path, conns, k + 1, owned, links, limit);
    ExtendsValue(paths, |mid|, path + [conns[k]], owned, links, limit);
    assert conns[..k + 1] == conns[..k] + [conns[k]];
    forall j | before <= j < |paths|
      ensures path < paths[j] && paths[j][|path|] in conns[..k + 1] && Found(paths[j], owned, links, limit)
    {
      if j < |mid| {
        assert paths[j] == mid[j];
      } else {
        assert (path + [conns[k]])[|path|] == conns[k];
      }
    }
  }

  /**
   * The state of the loop over the candidates after `k` of them: the paths
   * recorded before it began are still there and none passes through
   * `path`, and those recorded since extend `path` by an earlier candidate.
   */
  ghost predicate Progress(before: seq<seq<Node>>, paths: seq<seq<Node>>, path: seq<Node>, conns: seq<Node>, k: nat, owned: set<Node>, links: map<Node, seq<Node>>, limit: nat)
  {
    before <= paths && (forall j :: 0 <= j < |before| ==> !(path <= before[j])) &&
    Explored(paths, |before|, path, conns, k, owned, links, limit)
  }

  /** Searching below candidate `k` moves the loop on by one candidate. */
  lemma ProgressStep(paths: seq<seq<Node>>, mid: seq<seq<Node>>, before: seq<seq<Node>>, path: seq<Node>, conns: seq<Node>, k: nat, owned: set<Node>, links: map<Node, seq<Node>>, limit: nat)
    requires Progress(before, mid, path, conns, k, owned, links, limit) && k < |conns| && mid <= paths
    requires Extends(paths, |mid|, path + [conns[k]], owned, links, limit)
    ensures Progress(before, paths, path, conns, k + 1, owned, links, limit)
  {
    ExploredStep(paths, mid, |before|, path, conns, k, owned, links, limit);
    assert before <= paths by {
      assert paths[..|mid|] == mid;
      assert mid[..|before|] == before;
    }
  }

  /** Each path recorded from position `before` on extends `path` and is a path the search records. */
  ghost predicate Extends(paths: seq<seq<Node>>, before: nat, path: seq<Node>, owned: set<Node>, links: map<Node, seq<Node>>, limit: nat)
  {
    ExtendsStage(paths, before, path, owned, links, limit, |path|)
  }

  /** `Extends`, reached through one recursive step as `Covered` is; `ExtendsValue` unfolds it. */
  ghost predicate ExtendsStage(paths: seq<seq<Node>>, before: nat, path: seq<Node>, owned: set<Node>, links: map<Node, seq<Node>>, limit: nat, n: nat)
    decreases n
  {
    if n == 0 then forall j :: before <= j < |paths| ==> path <= paths[j] && Found(paths[j], owned, links, limit)
    else ExtendsStage(paths, before, path, owned, links, limit, 0)
  }

  lemma ExtendsValue(paths: seq<seq<Node>>, before: nat, path: seq<Node>, owned: set<Node>, links: map<Node, seq<Node>>, limit: nat)
    ensures Extends(paths, before, path, owned, links, limit) <==>
      forall j :: before <= j < |paths| ==> path <= paths[j] && Found(paths[j], owned, links, limit)
  {
    assert ExtendsStage(paths, before, path, owned, links, limit, |path|) == ExtendsStage(paths, before, path, owned, links, limit, 0);
  }

  /** Recording a path the search records, standing on it. */
  lemma RecordOne(paths: seq<seq<Node>>, p: seq<Node>, owned: set<Node>, links: map<Node, seq<Node>>, limit: nat)
    requires Found(p, owned, links, limit) && AllWithin(paths, owned)
    ensures Extends(paths + [p], |paths|, p, owned, links, limit) && AllWithin(paths + [p], owned)
  {
    ExtendsValue(paths + [p], |paths|, p, owned, links, limit);
    assert (paths + [p])[|paths|] == p;
  }

  /** Once every candidate is explored, each path recorded meanwhile extends `path`. */
  lemma ExploredDone(paths: seq<seq<Node>>, before: nat, path: seq<Node>, conns: seq<Node>, owned: set<Node>, links: map<Node, seq<Node>>, limit: nat)
    requires Explored(paths, before, path, conns, |conns|, owned, links, limit)
    ensures Extends(paths, before, path, owned, links, limit)
  {
    ExploredValue(paths, before, path, conns, |conns|, owned, links, limit);
    ExtendsValue(paths, before, path, owned, links, limit);
  }

  /**
   * Every path the search records that runs through `path` and on to one of
   * the first `k` candidates is among `paths`. Like `Height`, it is reached
   * through one recursive step, so that the searches pass it on without
   * unfolding it; `CoveredValue` unfolds it.
   */
  ghost predicate Covered(paths: seq<seq<Node>>, path: seq<Node>, conns: seq<Node>, k: nat, owned: set<Node>, links: map<Node, seq<Node>>, limit: nat)
  {
    CoveredStage(paths, path, conns, k, owned, links, limit, |path|)
  }

  ghost predicate CoveredStage(paths: seq<seq<Node>>, path: seq<Node>, conns: seq<Node>, k: nat, owned: set<Node>, links: map<Node, seq<Node>>, limit: nat, n: nat)
    decreases n
  {
    if n == 0 then
      k <= |conns| &&
      forall q :: Found(q, owned, links, limit) && path < q && q[|path|] in conns[..k] ==> q in paths
    else CoveredStage(paths, path, conns, k, owned, links, limit, 0)
  }

  lemma CoveredValue(paths: seq<seq<Node>>, path: seq<Node>, conns: seq<Node>, k: nat, owned: set<Node>, links: map<Node, seq<Node>>, limit: nat)
    ensures Covered(paths, path, conns, k, owned, links, limit) <==>
      k <= |conns| &&
      forall q :: Found(q, owned, links, limit) && path < q && q[|path|] in conns[..k] ==> q in paths
  {
    assert CoveredStage(paths, path, conns, k, owned, links, limit, |path|) == CoveredStage(paths, path, conns, k, owned, links, limit, 0);
  }

  /** Every path the search records that runs through `path` is among `paths`; unfolded by `CompleteValue`. */
  ghost predicate Complete(paths: seq<seq<Node>>, path: seq<Node>, owned: set<Node>, links: map<Node, seq<Node>>, limit: nat)
  {
    CompleteStage(paths, path, owned, links, limit, |path|)
  }

  ghost predicate CompleteStage(paths: seq<seq<Node>>, path: seq<Node>, owned: set<Node>, links: map<Node, seq<Node>>, limit: nat, n: nat)
    decreases n
  {
    if n == 0 then forall q :: Found(q, owned, links, limit) && path <= q ==> q in paths
    else CompleteStage(paths, path, owned, links, limit, 0)
  }

  lemma CompleteValue(paths: seq<seq<Node>>, path: seq<Node>, owned: set<Node>, links: map<Node, seq<Node>>, limit: nat)
    ensures Complete(paths, path, owned, links, limit) <==>
      forall q :: Found(q, owned, links, limit) && path <= q ==> q in paths
  {
    assert CompleteStage(paths, path, owned, links, limit, |path|) == CompleteStage(paths, path, owned, links, limit, 0);
  }

  /** Nothing is covered before the first candidate. */
  lemma CoveredNone(paths: seq<seq<Node>>, path: seq<Node>, conns: seq<Node>, owned: set<Node>, links: map<Node, seq<Node>>, limit: nat)
    ensures Covered(paths, path, conns, 0, owned, links, limit)
  {
    CoveredValue(paths, path, conns, 0, owned, links, limit);
  }

  /** Every path the search records that runs through `path` goes on to a cave of `conns`. */
  ghost predicate NextAmong(path: seq<Node>, conns: seq<Node>, owned: set<Node>, links: map<Node, seq<Node>>, limit: nat)
  {
    forall q :: Found(q, owned, links, limit) && path < q ==> q[|path|] in conns
  }

  /** Searching below candidate `k`, having found all there is, covers one candidate more. */
  lemma CoveredStep(paths: seq<seq<Node>>, mid: seq<seq<Node>>, path: seq<Node>, conns: seq<Node>, k: nat, owned: set<Node>, links: map<Node, seq<Node>>, limit: nat)
    requires Covered(mid, path, conns, k, owned, links, limit) && k < |conns| && mid <= paths
    requires Complete(paths, path + [conns[k]], owned, links, limit)
    ensures Covered(paths, path, conns, k + 1, owned, links, limit)
  {
    CoveredValue(mid, path, conns, k, owned, links, limit);
    CoveredValue(paths, path, conns, k + 1, owned, links, limit);
    CompleteValue(paths, path + [conns[k]], owned, links, limit);
    assert conns[..k + 1] == conns[..k] + [conns[k]];
    forall q | Found(q, owned, links, limit) && path < q && q[|path|] in conns[..k + 1]
      ensures q in paths
    {
      if q[|path|] in conns[..k] {
        var i :| 0 <= i < |mid| && mid[i] == q;
        assert paths[i] == q;
      } else {
        assert q[..|path| + 1] == path + [conns[k]];
      }
    }
  }

  /**
   * Once every candidate is covered, and every recorded path through `path`
   * goes on to a candidate, all of them are found: `path` itself, not at
   * `end`, is not one.
   */
  lemma CoveredDone(paths: seq<seq<Node>>, path: seq<Node>, conns: seq<Node>, owned: set<Node>, links: map<Node, seq<Node>>, limit: nat)
    requires Covered(paths, path, conns, |conns|, owned, links, limit)
    requires NextAmong(path, conns, owned, links, limit)
    requires |path| >= 1 && path[|path| - 1].name != "end"
    ensures Complete(paths, path, owned, links, limit)
  {
    CoveredValue(paths, path, conns, |conns|, owned, links, limit);
    CompleteValue(paths, path, owned, links, limit);
    assert conns[..|conns|] == conns;
    forall q | Found(q, owned, links, limit) && path <= q
      ensures q in paths
    {
      if q == path {
        assert false;
      }
    }
  }

  /** A path that ends at `end` is the only recorded path through itself. */
  lemma EndComplete(paths: seq<seq<Node>>, path: seq<Node>, owned: set<Node>, links: map<Node, seq<Node>>, limit: nat)
    requires Found(path, owned, links, limit) && path in paths
    ensures Complete(paths, path, owned, links, limit)
  {
    CompleteValue(paths, path, owned, links, limit);
    forall q | Found(q, owned, links, limit) && path <= q
      ensures q == path
    {
    }
  }

  /** A path counts a key no more often than any path it is a prefix of. */
  lemma {:induction false} CountPrefix(a: seq<Node>, b: seq<Node>, k: NodeKey)
    requires a <= b
    ensures Count(a, k) <= Count(b, k)
    decreases |b|
  {
    if |b| > |a| {
      var front := b[..|b| - 1];
      assert a <= front;
      CountPrefix(a, front, k);
    } else {
      assert a == b;
    }
  }

  /**
   * The cave a recorded path takes after `path` is a live neighbour of the
   * last cave of `path`, is not `start`, and is a small cave only if `path`
   * holds it fewer than `limit` times.
   */
  lemma NextFacts(q: seq<Node>, path: seq<Node>, owned: set<Node>, links: map<Node, seq<Node>>, limit: nat)
    requires Found(q, owned, links, limit) && |path| >= 1 && path < q && links == Links(owned)
    ensures var x := q[|path|];
      x in Live(path[|path| - 1].connected, owned) && x.name != "start" &&
      (x.size == Small ==> Count(path, x.Key()) < limit)
  {
    NextLive(q, path, owned, links, limit);
    NextCount(q, path, limit);
  }

  lemma NextLive(q: seq<Node>, path: seq<Node>, owned: set<Node>, links: map<Node, seq<Node>>, limit: nat)
    requires Walk(q, owned, links, limit) && |path| >= 1 && path < q && links == Links(owned)
    ensures q[|path|] in Live(path[|path| - 1].connected, owned)
  {
    var x := q[|path|];
    var last := path[|path| - 1];
    assert q[|path| - 1] == last;
    assert last in owned && x in owned;
    assert x in links[last];
    var adj := last.connected;
    assert links[last] == adj;
    var i :| 0 <= i < |adj| && adj[i] == x;
  }

  lemma NextCount(q: seq<Node>, path: seq<Node>, limit: nat)
    requires SmallAtMost(q, limit) && path < q
    ensures var x := q[|path|];
      x.size == Small ==> Count(path, x.Key()) < limit
  {
    var x := q[|path|];
    var p := path + [x];
    assert q[..|path| + 1] == p;
    assert p <= q;
    CountPrefix(p, q, x.Key());
    CountSnoc(path, x, x.Key());
  }

  /**
   * Every recorded path of the once-variant through `path` goes on to a cave
   * its filter keeps.
   */
  lemma OnceNext(path: seq<Node>, conns: seq<Node>, owned: set<Node>, links: map<Node, seq<Node>>)
    requires links == Links(owned) && |path| >= 1
    requires conns == OnceConnections(path[|path| - 1].RcConnections(owned), path)
    ensures NextAmong(path, conns, owned, links, 1)
  {
    var live := path[|path| - 1].RcConnections(owned);
    forall q | Found(q, owned, links, 1) && path < q
      ensures q[|path|] in conns
    {
      var x := q[|path|];
      NextFacts(q, path, owned, links, 1);
      ContainsCount(path, x);
      var i :| 0 <= i < |live| && live[i] == x;
    }
  }

  /**
   * Every recorded path of the twice-variant through `path` goes on to a cave
   * both its filters keep.
   */
  lemma TwiceNext(path: seq<Node>, conns: seq<Node>, owned: set<Node>, links: map<Node, seq<Node>>)
    requires links == Links(owned) && |path| >= 1
    requires conns == TwiceConnections(path[|path| - 1].RcConnections(owned), path, FirstRepeated(path, 0))
    ensures NextAmong(path, conns, owned, links, 2)
  {
    var live := path[|path| - 1].RcConnections(owned);
    var visited := FirstRepeated(path, 0);
    forall q | Found(q, owned, links, 2) && path < q
      ensures q[|path|] in conns
    {
      var x := q[|path|];
      NextFacts(q, path, owned, links, 2);
      if visited.Some? {
        VisitedFilterRedundant(path, visited.value, x);
      }
      var i :| 0 <= i < |live| && live[i] == x;
    }
  }

  /** One for a small cave, nothing for a large one. */
  function Bit(n: Node): nat
  {
    if n.size == Small then 1 else 0
  }

  /**
   * The search left below a path: twice its budget, plus one when it stands
   * on a small cave. It is reached through `Stage`, one recursive step, so
   * that the searches compare heights without unfolding the budget's sets;
   * `HeightValue` unfolds it where the budget matters.
   */
  ghost function Height(path: seq<Node>, owned: set<Node>): nat
    requires |path| >= 1
  {
    Stage(path, owned, |path|)
  }

  ghost function Stage(path: seq<Node>, owned: set<Node>, n: nat): nat
    requires |path| >= 1
    decreases n
  {
    if n == 0 then 2 * Budget(path, owned) + Bit(path[|path| - 1]) else Stage(path, owned, 0)
  }

  lemma HeightValue(path: seq<Node>, owned: set<Node>)
    requires |path| >= 1
    ensures Height(path, owned) == 2 * Budget(path, owned) + Bit(path[|path| - 1])
  {
    assert Stage(path, owned, |path|) == Stage(path, owned, 0);
  }

  /**
   * Stepping from a walk that is not at `end` to its next candidate gives a
   * walk that no recorded path passes through, whose text is not recorded,
   * and which has less search left: a large cave is only entered from a
   * small one, and a small cave only while it may still be entered.
   */
  lemma Descend(paths: seq<seq<Node>>, before: seq<seq<Node>>, path: seq<Node>, conns: seq<Node>, k: nat, owned: set<Node>, links: map<Node, seq<Node>>, limit: nat)
    requires Graph(owned) && Walk(path, owned, links, limit) && limit <= 2
    requires links == Links(owned)
    requires path[|path| - 1].name != "end" && Candidates(path[|path| - 1].connected, conns, owned)
    requires Progress(before, paths, path, conns, k, owned, links, limit) && k < |conns|
    requires AllWithin(paths, owned)
    requires conns[k].name != "start" && (conns[k].size == Small ==> Count(path, conns[k].Key()) < limit)
    ensures var p := path + [conns[k]];
      Walk(p, owned, links, limit) && (forall j :: 0 <= j < |paths| ==> !(p <= paths[j])) &&
      PathToString(p) !in Strings(paths) &&
      Height(p, owned) < Height(path, owned)
  {
    var x := conns[k];
    var p := path + [x];
    forall j | 0 <= j < |before|
      ensures !(path <= paths[j])
    {
      assert paths[j] == before[j];
    }
    ExploredValue(paths, |before|, path, conns, k, owned, links, limit);
    ChildUnvisited(paths, |before|, path, conns, k);
    WalkSnoc(path, x, owned, links, limit);
    BudgetSnoc(path, x, owned);
    AbsentWhenUnvisited(paths, p, owned);
    HeightValue(path, owned);
    HeightValue(p, owned);
    if x.size == Large {
      assert path[|path| - 1] in owned;
    }
  }

  /** `DfsVisitor`: the path the search stands on and the paths it has recorded. */
  class DfsVisitor {
    var currentPath: seq<Node>
    var allPaths: seq<seq<Node>>
    var allPathsStrings: set<string>

    /** `DfsVisitor::new`: standing on the start cave, nothing recorded. */
    constructor (start: Node)
      ensures currentPath == [start] && allPaths == [] && allPathsStrings == {}
    {
      currentPath := [start];
      allPaths := [];
      allPathsStrings := {};
    }

    /** The recorded texts are those of the recorded paths, which run through live caves. */
    predicate Recorded(owned: set<Node>)
      reads this`allPaths, this`allPathsStrings
    {
      allPathsStrings == Strings(allPaths) && AllWithin(allPaths, owned)
    }

    /** No recorded path passes through the current path. */
    predicate Unvisited()
      reads this`currentPath, this`allPaths
    {
      forall j :: 0 <= j < |allPaths| ==> !(currentPath <= allPaths[j])
    }

    /** `DfsVisitor::all_paths_contains`. */
    predicate AllPathsContains(path: seq<Node>)
      reads this`allPathsStrings
    {
      PathToString(path) in allPathsStrings
    }

    /**
     * `DfsVisitor::all_paths_push`: records the path and its text, which
     * keeps the recorded texts those of the recorded paths.
     */
    method AllPathsPush(path: seq<Node>)
      modifies this`allPaths, this`allPathsStrings
      ensures allPaths == old(allPaths) + [path]
      ensures allPathsStrings == old(allPathsStrings) + {PathToString(path)}
      ensures old(allPathsStrings == Strings(allPaths)) ==> allPathsStrings == Strings(allPaths)
    {
      StringsSnoc(allPaths, path);
      allPathsStrings := allPathsStrings + {PathToString(path)};
      allPaths := allPaths + [path];
    }

    /**
     * The branch of both searches that stands on `end`: the current path is
     * asserted absent from the recorded ones, and recorded.
     */
    method RecordCurrent(owned: set<Node>, ghost links: map<Node, seq<Node>>, ghost limit: nat)
      requires NamesOk(owned) && Found(currentPath, owned, links, limit) && Recorded(owned) && Unvisited()
      modifies this`allPaths, this`allPathsStrings
      ensures Recorded(owned) && allPaths == old(allPaths) + [currentPath]
      ensures Extends(allPaths, |old(allPaths)|, currentPath, owned, links, limit)
    {
      AbsentWhenUnvisited(allPaths, currentPath, owned);
      assert !AllPathsContains(currentPath);
      RecordOne(allPaths, currentPath, owned, links, limit);
      AllPathsPush(currentPath);
    }

    /**
     * `find_all_paths_visiting_small_caves_once`. On return the current path
     * is back where it was, and every path recorded meanwhile extends it,
     * steps from cave to live neighbouring cave, ends at `end`, never
     * re-enters `start` and holds each small cave at most once; and every
     * such path through the current path has been recorded. The `continue`
     * taken when the extended path is already recorded never happens.
     */
    method FindOnce(owned: set<Node>, ghost links: map<Node, seq<Node>>, ghost height: nat)
      requires Graph(owned) && Walk(currentPath, owned, links, 1) && Recorded(owned) && Unvisited()
      requires links == Links(owned)
      requires height == Height(currentPath, owned)
      modifies this`currentPath, this`allPaths, this`allPathsStrings
      ensures currentPath == old(currentPath) && Recorded(owned)
      ensures old(allPaths) <= allPaths && Extends(allPaths, |old(allPaths)|, currentPath, owned, links, 1)
      ensures Complete(allPaths, currentPath, owned, links, 1)
      decreases height, 2
    {
      var current := currentPath[|currentPath| - 1];
      var atEnd := current.name == "end";
      if !atEnd {
        var connections := OnceConnections(current.RcConnections(owned), currentPath);
        LiveCandidates(current.connected, owned, connections);
        OnceNext(currentPath, connections, owned, links);
        ExploreOnce(owned, links, connections, height);
      } else {
        RecordCurrent(owned, links, 1);
        assert allPaths[|allPaths| - 1] == currentPath;
        EndComplete(allPaths, currentPath, owned, links, 1);
      }
    }

    /**
     * The loop of `find_all_paths_visiting_small_caves_once` over the
     * filtered neighbours of the cave the search stands on.
     */
    method ExploreOnce(owned: set<Node>, ghost links: map<Node, seq<Node>>, connections: seq<Node>, ghost height: nat)
      requires Graph(owned) && Walk(currentPath, owned, links, 1) && Recorded(owned) && Unvisited()
      requires links == Links(owned)
      requires height == Height(currentPath, owned)
      requires currentPath[|currentPath| - 1].name != "end"
      requires Candidates(currentPath[|currentPath| - 1].connected, connections, owned)
      requires forall k :: 0 <= k < |connections| ==> OnceAllowed(currentPath, connections[k])
      requires NextAmong(currentPath, connections, owned, links, 1)
      modifies this`currentPath, this`allPaths, this`allPathsStrings
      ensures currentPath == old(currentPath) && Recorded(owned)
      ensures old(allPaths) <= allPaths && Extends(allPaths, |old(allPaths)|, currentPath, owned, links, 1)
      ensures Complete(allPaths, currentPath, owned, links, 1)
      decreases height, 1
    {
      ghost var path := currentPath;
      ghost var before := allPaths;
      ExploredValue(allPaths, |allPaths|, path, connections, 0, owned, links, 1);
      CoveredNone(allPaths, path, connections, owned, links, 1);
      for k := 0 to |connections|
        invariant currentPath == path && Recorded(owned)
        invariant Progress(before, allPaths, path, connections, k, owned, links, 1)
        invariant Covered(allPaths, path, connections, k, owned, links, 1)
      {
        VisitOnce(owned, links, connections, k, path, before, height);
      }
      ExploredDone(allPaths, |before|, path, connections, owned, links, 1);
      CoveredDone(allPaths, path, connections, owned, links, 1);
    }

    /**
     * One turn of the loop of `find_all_paths_visiting_small_caves_once`:
     * step to candidate `k`, search from there, and step back. The paths
     * recorded before the frame (the first `before`) do not pass through
     * the current path, and those recorded since extend it by an earlier
     * candidate; afterwards, by one of the first `k + 1`.
     */
    method VisitOnce(owned: set<Node>, ghost links: map<Node, seq<Node>>, connections: seq<Node>, k: nat, ghost path: seq<Node>, ghost before: seq<seq<Node>>, ghost height: nat)
      requires currentPath == path && Graph(owned) && Walk(path, owned, links, 1) && Recorded(owned)
      requires links == Links(owned)
      requires height == Height(path, owned)
      requires path[|path| - 1].name != "end"
      requires Candidates(path[|path| - 1].connected, connections, owned)
      requires k < |connections| && OnceAllowed(path, connections[k])
      requires Progress(before, allPaths, path, connections, k, owned, links, 1)
      requires Covered(allPaths, path, connections, k, owned, links, 1)
      modifies this`currentPath, this`allPaths, this`allPathsStrings
      ensures currentPath == path && Recorded(owned)
      ensures Progress(before, allPaths, path, connections, k + 1, owned, links, 1)
      ensures Covered(allPaths, path, connections, k + 1, owned, links, 1)
      decreases height, 0
    {
      var node := connections[k];
      ContainsCount(path, node);
      Descend(allPaths, before, path, connections, k, owned, links, 1);
      currentPath := currentPath + [node];
      if AllPathsContains(currentPath) {
        assert false;
      }
      ghost var mid := allPaths;
      FindOnce(owned, links, Height(currentPath, owned));
      ProgressStep(allPaths, mid, before, path, connections, k, owned, links, 1);
      CoveredStep(allPaths, mid, path, connections, k, owned, links, 1);
      currentPath := currentPath[..|currentPath| - 1];
    }

    /**
     * `find_all_paths_visiting_small_caves_twice`. On return the current
     * path is back where it was, and every path recorded meanwhile extends
     * it, steps from cave to live neighbouring cave, ends at `end`, never
     * re-enters `start` and holds each small cave at most twice (several
     * small caves may each occur twice); and every such path through the
     * current path has been recorded. The `continue` taken when the
     * extended path is already recorded never happens.
     */
    method FindTwice(owned: set<Node>, ghost links: map<Node, seq<Node>>, ghost height: nat)
      requires Graph(owned) && Walk(currentPath, owned, links, 2) && Recorded(owned) && Unvisited()
      requires links == Links(owned)
      requires height == Height(currentPath, owned)
      modifies this`currentPath, this`allPaths, this`allPathsStrings
      ensures currentPath == old(currentPath) && Recorded(owned)
      ensures old(allPaths) <= allPaths && Extends(allPaths, |old(allPaths)|, currentPath, owned, links, 2)
      ensures Complete(allPaths, currentPath, owned, links, 2)
      decreases height, 2
    {
      var current := currentPath[|currentPath| - 1];
      var atEnd := current.name == "end";
      if !atEnd {
        var visited := FirstRepeated(currentPath, 0);
        var connections := TwiceConnections(current.RcConnections(owned), currentPath, visited);
        LiveCandidates(current.connected, owned, connections);
        TwiceNext(currentPath, connections, owned, links);
        ExploreTwice(owned, links, connections, visited, height);
      } else {
        RecordCurrent(owned, links, 2);
        assert allPaths[|allPaths| - 1] == currentPath;
        EndComplete(allPaths, currentPath, owned, links, 2);
      }
    }

    /**
     * The loop of `find_all_paths_visiting_small_caves_twice` over the
     * filtered neighbours of the cave the search stands on.
     */
    method ExploreTwice(owned: set<Node>, ghost links: map<Node, seq<Node>>, connections: seq<Node>, ghost visited: Option<Node>, ghost height: nat)
      requires Graph(owned) && Walk(currentPath, owned, links, 2) && Recorded(owned) && Unvisited()
      requires links == Links(owned)
      requires height == Height(currentPath, owned)
      requires currentPath[|currentPath| - 1].name != "end"
      requires Candidates(currentPath[|currentPath| - 1].connected, connections, owned)
      requires forall k :: 0 <= k < |connections| ==> TwiceAllowed(currentPath, visited, connections[k])
      requires NextAmong(currentPath, connections, owned, links, 2)
      modifies this`currentPath, this`allPaths, this`allPathsStrings
      ensures currentPath == old(currentPath) && Recorded(owned)
      ensures old(allPaths) <= allPaths && Extends(allPaths, |old(allPaths)|, currentPath, owned, links, 2)
      ensures Complete(allPaths, currentPath, owned, links, 2)
      decreases height, 1
    {
      ghost var path := currentPath;
      ghost var before := allPaths;
      ExploredValue(allPaths, |allPaths|, path, connections, 0, owned, links, 2);
      CoveredNone(allPaths, path, connections, owned, links, 2);
      for k := 0 to |connections|
        invariant currentPath == path && Recorded(owned)
        invariant Progress(before, allPaths, path, connections, k, owned, links, 2)
        invariant Covered(allPaths, path, connections, k, owned, links, 2)
      {
        VisitTwice(owned, links, connections, k, visited, path, before, height);
      }
      ExploredDone(allPaths, |before|, path, connections, owned, links, 2);
      CoveredDone(allPaths, path, connections, owned, links, 2);
    }

    /**
     * One turn of the loop of `find_all_paths_visiting_small_caves_twice`:
     * step to candidate `k`, search from there, and step back, as in
     * `VisitOnce`.
     */
    method VisitTwice(owned: set<Node>, ghost links: map<Node, seq<Node>>, connections: seq<Node>, k: nat, ghost visited: Option<Node>, ghost path: seq<Node>, ghost before: seq<seq<Node>>, ghost height: nat)
      requires currentPath == path && Graph(owned) && Walk(path, owned, links, 2) && Recorded(owned)
      requires links == Links(owned)
      requires height == Height(path, owned)
      requires path[|path| - 1].name != "end"
      requires Candidates(path[|path| - 1].connected, connections, owned)
      requires k < |connections| && TwiceAllowed(path, visited, connections[k])
      requires Progress(before, allPaths, path, connections, k, owned, links, 2)
      requires Covered(allPaths, path, connections, k, owned, links, 2)
      modifies this`currentPath, this`allPaths, this`allPathsStrings
      ensures currentPath == path && Recorded(owned)
      ensures Progress(before, allPaths, path, connections, k + 1, owned, links, 2)
      ensures Covered(allPaths, path, connections, k + 1, owned, links, 2)
      decreases height, 0
    {
      var node := connections[k];
      Descend(allPaths, before, path, connections, k, owned, links, 2);
      currentPath := currentPath + [node];
      if AllPathsContains(currentPath) {
        assert false;
      }
      ghost var mid := allPaths;
      FindTwice(owned, links, Height(currentPath, owned));
      ProgressStep(allPaths, mid, before, path, connections, k, owned, links, 2);
      CoveredStep(allPaths, mid, path, connections, k, owned, links, 2);
      currentPath := currentPath[..|currentPath| - 1];
    }
  }
}
