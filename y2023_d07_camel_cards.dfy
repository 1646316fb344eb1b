// Camel Cards (2023, day 7).
//
// A hand is five cards. Its type depends only on how the cards group into
// equal cards: the sizes of the groups, sorted, name one of seven types from
// high card up to five of a kind. Under the joker rule, `J` is a joker that
// counts as the weakest card on its own but joins the largest other group
// when the type is decided.

module CamelCards {
  import opened Wrappers

  /** The cards, weakest first; the derived order is the order of declaration. */
  datatype Card = Joker | Two | Three | Four | Five | Six | Seven | Eight | Nine | Ten | Jack | Queen | King | Ace

  /** The hand types, weakest first. */
  datatype HandType = HighCard | OnePair | TwoPair | ThreeOfAKind | FullHouse | FourOfAKind | FiveOfAKind

  /** Every card, in the order of declaration. */
  function AllCards(): seq<Card>
  {
    [Joker, Two, Three, Four, Five, Six, Seven, Eight, Nine, Ten, Jack, Queen, King, Ace]
  }

  /** Every card but the joker, in the order of declaration. */
  function NonJokerCards(): seq<Card>
  {
    [Two, Three, Four, Five, Six, Seven, Eight, Nine, Ten, Jack, Queen, King, Ace]
  }

  /** The place of a card in the order: the position of its variant. */
  function CardRank(c: Card): (r: nat)
    ensures r < |AllCards()| && AllCards()[r] == c
  {
    match c
    case Joker => 0
    case Two => 1
    case Three => 2
    case Four => 3
    case Five => 4
    case Six => 5
    case Seven => 6
    case Eight => 7
    case Nine => 8
    case Ten => 9
    case Jack => 10
    case Queen => 11
    case King => 12
    case Ace => 13
  }

  /** Every hand type, in the order of declaration. */
  function AllTypes(): seq<HandType>
  {
    [HighCard, OnePair, TwoPair, ThreeOfAKind, FullHouse, FourOfAKind, FiveOfAKind]
  }

  /** The place of a hand type in the order: the position of its variant. */
  function TypeRank(t: HandType): (r: nat)
    ensures r < |AllTypes()| && AllTypes()[r] == t
  {
    match t
    case HighCard => 0
    case OnePair => 1
    case TwoPair => 2
    case ThreeOfAKind => 3
    case FullHouse => 4
    case FourOfAKind => 5
    case FiveOfAKind => 6
  }

  /**
   * The derived orders rank the variants as listed: each card and each type
   * stands at its own rank, so the ranks order Joker < Two < ... < Ace and
   * HighCard < OnePair < ... < FiveOfAKind, and no two variants share one.
   */
  lemma OrdersFollowDeclaration()
    ensures forall i :: 0 <= i < |AllCards()| ==> CardRank(AllCards()[i]) == i
    ensures forall i :: 0 <= i < |AllTypes()| ==> TypeRank(AllTypes()[i]) == i
    ensures forall c, d :: CardRank(c) == CardRank(d) ==> c == d
    ensures forall t, u :: TypeRank(t) == TypeRank(u) ==> t == u
  {
  }

  /** No card occurs twice in a list. */
  predicate Distinct(cs: seq<Card>)
  {
    forall i, j :: 0 <= i < j < |cs| ==> cs[i] != cs[j]
  }

  /** No card is listed twice among all the cards, nor among the non-joker cards. */
  lemma CardListsDistinct()
    ensures Distinct(AllCards()) && Distinct(NonJokerCards())
    ensures AllCards()[0] == Joker && AllCards()[1..] == NonJokerCards()
  {
    var all := AllCards();
    forall i, j | 0 <= i < j < |all|
      ensures all[i] != all[j]
    {
      OrdersFollowDeclaration();
    }
    assert all[1..] == NonJokerCards();
    forall i, j | 0 <= i < j < |all[1..]|
      ensures all[1..][i] != all[1..][j]
    {
      assert all[1..][i] == all[i + 1] && all[1..][j] == all[j + 1];
    }
  }

  /** Every card is listed among all the cards, and among the non-joker cards unless it is the joker. */
  lemma CardListed(c: Card)
    ensures c in AllCards()
    ensures c in NonJokerCards() <==> c != Joker
  {
    assert AllCards()[CardRank(c)] == c;
  }

  /** The sorted group sizes that `from_counts` names. */
  function CountsOf(t: HandType): (r: seq<nat>)
    ensures |r| >= 1
  {
    match t
    case FiveOfAKind => [5]
    case FourOfAKind => [1, 4]
    case FullHouse => [2, 3]
    case ThreeOfAKind => [1, 1, 3]
    case TwoPair => [1, 2, 2]
    case OnePair => [1, 1, 1, 2]
    case HighCard => [1, 1, 1, 1, 1]
  }

  /**
   * `HandType::from_counts`: the type named by a sorted list of group sizes;
   * any other list is the `unreachable!` panic, `None` here.
   */
  function FromCounts(counts: seq<nat>): Option<HandType>
  {
    if counts == [5] then Some(FiveOfAKind)
    else if counts == [1, 4] then Some(FourOfAKind)
    else if counts == [2, 3] then Some(FullHouse)
    else if counts == [1, 1, 3] then Some(ThreeOfAKind)
    else if counts == [1, 2, 2] then Some(TwoPair)
    else if counts == [1, 1, 1, 2] then Some(OnePair)
    else if counts == [1, 1, 1, 1, 1] then Some(HighCard)
    else None
  }

  /** `from_counts` is one to one and onto: every type has exactly one list of group sizes. */
  lemma FromCountsBijection(t: HandType, counts: seq<nat>)
    ensures FromCounts(CountsOf(t)) == Some(t)
    ensures FromCounts(counts) == Some(t) ==> counts == CountsOf(t)
  {
  }

  predicate Sorted(s: seq<nat>)
  {
    forall i, j :: 0 <= i < j < |s| ==> s[i] <= s[j]
  }

  /** Sorted positive group sizes of five cards: what `from_counts` is given. */
  predicate Partition(counts: seq<nat>)
  {
    Sorted(counts) && (forall i :: 0 <= i < |counts| ==> counts[i] >= 1) && Sum(counts) == 5
  }

  /** A list of positive numbers adds up to at least its length. */
  lemma {:induction false} SumAtLeastLength(s: seq<nat>)
    requires forall i :: 0 <= i < |s| ==> s[i] >= 1
    ensures Sum(s) >= |s|
  {
    if s != [] {
      SumAtLeastLength(s[..|s| - 1]);
    }
  }

  /** The sums of short lists, written out. */
  lemma SumShort(s: seq<nat>)
    requires 1 <= |s| <= 5
    ensures |s| == 1 ==> Sum(s) == s[0]
    ensures |s| == 2 ==> Sum(s) == s[0] + s[1]
    ensures |s| == 3 ==> Sum(s) == s[0] + s[1] + s[2]
    ensures |s| == 4 ==> Sum(s) == s[0] + s[1] + s[2] + s[3]
    ensures |s| == 5 ==> Sum(s) == s[0] + s[1] + s[2] + s[3] + s[4]
  {
    var n := |s|;
    assert s[..n][..0] == [];
    if n >= 2 {
      assert s[..n][..1] == s[..1] && s[..1][..0] == [];
    }
    if n >= 3 {
      assert s[..n][..2] == s[..2] && s[..2][..1] == s[..1];
    }
    if n >= 4 {
      assert s[..n][..3] == s[..3] && s[..3][..2] == s[..2];
    }
    if n == 5 {
      assert s[..4][..3] == s[..3];
    }
    assert s[..n] == s;
  }

  /** The sorted splits of five into positive parts, by number of parts. */
  lemma PartitionsOfLength(c: seq<nat>)
    requires Partition(c) && 2 <= |c| <= 5
    ensures |c| == 2 ==> c == [1, 4] || c == [2, 3]
    ensures |c| == 3 ==> c == [1, 1, 3] || c == [1, 2, 2]
    ensures |c| == 4 ==> c == [1, 1, 1, 2]
    ensures |c| == 5 ==> c == [1, 1, 1, 1, 1]
  {
    SumShort(c);
    assert c[0] <= c[1];
    if |c| == 2 {
      assert c == [c[0], c[1]];
    } else {
      assert c[1] <= c[2];
      if |c| == 3 {
        assert c == [c[0], c[1], c[2]];
      } else if |c| == 4 {
        assert c[2] <= c[3];
        assert c == [c[0], c[1], c[2], c[3]];
      } else {
        assert c == [c[0], c[1], c[2], c[3], c[4]];
      }
    }
  }

  /**
   * The seven lists `from_counts` names are exactly the ways to split five
   * cards into groups, sizes sorted: it never reaches `unreachable!` on
   * such a list and accepts nothing else.
   */
  lemma FromCountsTotal(counts: seq<nat>)
    ensures FromCounts(counts).Some? <==> Partition(counts)
  {
    if Partition(counts) {
      SumAtLeastLength(counts);
      if |counts| == 1 {
        SumShort(counts);
        assert counts == [counts[0]];
      } else {
        assert counts != [];
        PartitionsOfLength(counts);
      }
    }
    if FromCounts(counts).Some? {
      SumShort(counts);
    }
  }

  /** How many times the card occurs in the hand. */
  function Count(h: seq<Card>, c: Card): nat
  {
    multiset(h)[c]
  }

  /**
   * `Hand::get_card_map`: one entry per card of the hand, counting its
   * occurrences, built by inserting a 1 or adding one card by card.
   */
  method GetCardMap(h: seq<Card>) returns (m: map<Card, nat>)
    ensures forall c :: c in m <==> c in h
    ensures forall c :: c in m ==> m[c] == Count(h, c)
  {
    m := map[];
    for i := 0 to |h|
      invariant forall c :: c in m <==> c in h[..i]
      invariant forall c :: c in m ==> m[c] == Count(h[..i], c)
    {
      assert h[..i + 1] == h[..i] + [h[i]];
      var card := h[i];
      if card in m {
        m := m[card := m[card] + 1];
      } else {
        m := m[card := 1];
      }
    }
    assert h[..|h|] == h;
  }

  /** The sizes of the groups of the listed cards in the hand, in the order of the list, absent cards skipped. */
  function GroupSizes(h: seq<Card>, cs: seq<Card>): seq<nat>
  {
    if cs == [] then []
    else (if Count(h, cs[0]) > 0 then [Count(h, cs[0])] else []) + GroupSizes(h, cs[1..])
  }

  /** Some listed card occurs exactly `k` times in the hand. */
  predicate GroupOf(h: seq<Card>, cs: seq<Card>, k: nat)
  {
    exists c :: c in cs && Count(h, c) == k
  }

  /** No listed card occurs more than `k` times in the hand. */
  predicate GroupsAtMost(h: seq<Card>, cs: seq<Card>, k: nat)
  {
    forall c :: c in cs ==> Count(h, c) <= k
  }

  /** How many of the hand's cards are among the listed cards. */
  function CardsAmong(h: seq<Card>, cs: seq<Card>): nat
  {
    if cs == [] then 0 else Count(h, cs[0]) + CardsAmong(h, cs[1..])
  }

  /** The cards of the hand that are among the listed cards. */
  function PresentAmong(h: seq<Card>, cs: seq<Card>): set<Card>
  {
    set c | c in cs && c in h
  }

  /** The group sizes are exactly the positive counts of the listed cards. */
  lemma {:induction false} GroupSizesMembers(h: seq<Card>, cs: seq<Card>, k: nat)
    ensures k in GroupSizes(h, cs) <==> k >= 1 && GroupOf(h, cs, k)
  {
    if cs != [] {
      var rest := cs[1..];
      GroupSizesMembers(h, rest, k);
      assert cs == [cs[0]] + rest;
      if k >= 1 && GroupOf(h, rest, k) {
        var c :| c in rest && Count(h, c) == k;
        assert c in cs;
      }
      if k >= 1 && GroupOf(h, cs, k) {
        var c :| c in cs && Count(h, c) == k;
        if c != cs[0] {
          assert c in rest;
        }
      }
    }
  }

  /** The group sizes add up to how many of the hand's cards are listed. */
  lemma {:induction false} GroupSizesSum(h: seq<Card>, cs: seq<Card>)
    ensures Sum(GroupSizes(h, cs)) == CardsAmong(h, cs)
  {
    if cs != [] {
      var head: seq<nat> := if Count(h, cs[0]) > 0 then [Count(h, cs[0])] else [];
      GroupSizesSum(h, cs[1..]);
      SumConcat(head, GroupSizes(h, cs[1..]));
    }
  }

  /** The first of distinct listed cards is not listed again. */
  lemma HeadNotInTail(cs: seq<Card>)
    requires Distinct(cs) && cs != []
    ensures cs[0] !in cs[1..] && Distinct(cs[1..])
  {
    forall j | 0 <= j < |cs[1..]| ensures cs[1..][j] != cs[0] {
      assert cs[1..][j] == cs[j + 1];
    }
  }

  /** The listed cards in the hand are the first if it is in the hand, and those among the rest. */
  lemma PresentAmongCons(h: seq<Card>, cs: seq<Card>)
    requires cs != [] && cs[0] !in cs[1..]
    ensures PresentAmong(h, cs) == (if cs[0] in h then {cs[0]} else {}) + PresentAmong(h, cs[1..])
    ensures cs[0] !in PresentAmong(h, cs[1..])
  {
    assert cs == [cs[0]] + cs[1..];
  }

  /** With distinct cards listed there is one group size per listed card in the hand. */
  lemma {:induction false} GroupSizesLength(h: seq<Card>, cs: seq<Card>)
    requires Distinct(cs)
    ensures |GroupSizes(h, cs)| == |PresentAmong(h, cs)|
  {
    if cs != [] {
      HeadNotInTail(cs);
      GroupSizesLength(h, cs[1..]);
      PresentAmongCons(h, cs);
    }
  }

  /** With distinct cards listed, the count of the hand's cards among them grows by one exactly when a listed card is added. */
  lemma {:induction false} CardsAmongAppend(h: seq<Card>, x: Card, cs: seq<Card>)
    requires Distinct(cs)
    ensures CardsAmong(h + [x], cs) == CardsAmong(h, cs) + (if x in cs then 1 else 0)
  {
    if cs != [] {
      var rest := cs[1..];
      HeadNotInTail(cs);
      CardsAmongAppend(h, x, rest);
      assert multiset(h + [x]) == multiset(h) + multiset{x};
      assert cs == [cs[0]] + rest;
    }
  }

  /** No cards of an empty hand are listed. */
  lemma {:induction false} CardsAmongEmpty(cs: seq<Card>)
    ensures CardsAmong([], cs) == 0
  {
    if cs != [] {
      CardsAmongEmpty(cs[1..]);
    }
  }

  /** Counting over every card counts the whole hand. */
  lemma {:induction false} CardsAmongEvery(h: seq<Card>)
    ensures CardsAmong(h, AllCards()) == |h|
    decreases |h|
  {
    CardListsDistinct();
    if h != [] {
      var init, x := h[..|h| - 1], h[|h| - 1];
      assert h == init + [x];
      CardListed(x);
      CardsAmongEvery(init);
      CardsAmongAppend(init, x, AllCards());
    } else {
      CardsAmongEmpty(AllCards());
    }
  }

  /** Counting over every card counts the whole hand; counting over every card but the joker leaves the jokers out. */
  lemma CardsAmongAll(h: seq<Card>)
    ensures CardsAmong(h, AllCards()) == |h|
    ensures CardsAmong(h, NonJokerCards()) == |h| - Count(h, Joker)
  {
    CardListsDistinct();
    CardsAmongEvery(h);
  }

  /** Insertion into a sorted list. */
  function Insert(x: nat, s: seq<nat>): seq<nat>
  {
    if s == [] || x <= s[0] then [x] + s else [s[0]] + Insert(x, s[1..])
  }

  /** Itertools' `sorted` on a list of counts, as an insertion sort. */
  function SortCounts(s: seq<nat>): seq<nat>
  {
    if s == [] then [] else Insert(s[0], SortCounts(s[1..]))
  }

  /** A sorted list stays sorted with an element no larger than all of it put in front. */
  lemma SortedCons(y: nat, r: seq<nat>)
    requires Sorted(r) && forall k :: 0 <= k < |r| ==> y <= r[k]
    ensures Sorted([y] + r)
  {
    var l := [y] + r;
    forall a, b | 0 <= a < b < |l| ensures l[a] <= l[b] {
      assert l[b] == r[b - 1];
      if a > 0 {
        assert l[a] == r[a - 1];
      }
    }
  }

  lemma {:induction false} InsertMeaning(x: nat, s: seq<nat>)
    requires Sorted(s)
    ensures Sorted(Insert(x, s)) && multiset(Insert(x, s)) == multiset{x} + multiset(s)
  {
    if s == [] || x <= s[0] {
      SortedCons(x, s);
    } else {
      var rest := s[1..];
      assert Sorted(rest);
      InsertMeaning(x, rest);
      assert s == [s[0]] + rest;
      var r := Insert(x, rest);
      forall k | 0 <= k < |r| ensures s[0] <= r[k] {
        assert r[k] in multiset(r);
        if r[k] != x {
          assert r[k] in rest;
        }
      }
      SortedCons(s[0], r);
    }
  }

  /** Sorting yields a sorted list with the same counts. */
  lemma {:induction false} SortCountsMeaning(s: seq<nat>)
    ensures Sorted(SortCounts(s)) && multiset(SortCounts(s)) == multiset(s)
  {
    if s != [] {
      SortCountsMeaning(s[1..]);
      InsertMeaning(s[0], SortCounts(s[1..]));
      assert s == [s[0]] + s[1..];
    }
  }

  /** Removing the element at `i` takes one of it out of the multiset of the list. */
  lemma RemoveAtMultiset(b: seq<nat>, i: nat)
    requires i < |b|
    ensures multiset(b[..i] + b[i + 1..]) == multiset(b) - multiset{b[i]}
  {
    var front, back := b[..i], b[i + 1..];
    assert b == front + [b[i]] + back;
  }

  /** Removing the element at `i` takes its value out of the sum. */
  lemma RemoveAtSum(b: seq<nat>, i: nat)
    requires i < |b|
    ensures Sum(b) == Sum(b[..i] + b[i + 1..]) + b[i]
  {
    var front: seq<int>, mid: seq<int>, back: seq<int> := b[..i], [b[i]], b[i + 1..];
    assert Sum(mid) == b[i] by {
      assert mid[..0] == [];
    }
    assert b == (front + mid) + back;
    assert Sum(b) == Sum(front + mid) + Sum(back) by {
      SumConcat(front + mid, back);
    }
    assert Sum(front + mid) == Sum(front) + b[i] by {
      SumConcat(front, mid);
    }
    SumConcat(front, back);
  }

  /** Lists with the same elements have the same sum. */
  lemma {:induction false} SumOfPermutation(a: seq<nat>, b: seq<nat>)
    requires multiset(a) == multiset(b)
    ensures Sum(a) == Sum(b)
    decreases |a|
  {
    if a != [] {
      var last := |a| - 1;
      var x := a[last];
      assert x in multiset(b);
      var i :| 0 <= i < |b| && b[i] == x;
      RemoveAtMultiset(a, last);
      RemoveAtMultiset(b, i);
      assert a[..last] + a[last + 1..] == a[..last];
      SumOfPermutation(a[..last], b[..i] + b[i + 1..]);
      RemoveAtSum(b, i);
    } else {
      assert b == [];
    }
  }

  /** The sorted group sizes of the listed cards in the hand. */
  function SortedGroups(h: seq<Card>, cs: seq<Card>): seq<nat>
  {
    SortCounts(GroupSizes(h, cs))
  }

  /**
   * The sorted group sizes of distinct listed cards: sorted, positive, as
   * many as the listed cards in the hand, adding up to how many of its
   * cards are listed.
   */
  lemma SortedGroupsMeaning(h: seq<Card>, cs: seq<Card>)
    requires Distinct(cs)
    ensures Sorted(SortedGroups(h, cs))
    ensures forall i :: 0 <= i < |SortedGroups(h, cs)| ==> SortedGroups(h, cs)[i] >= 1
    ensures Sum(SortedGroups(h, cs)) == CardsAmong(h, cs)
    ensures |SortedGroups(h, cs)| == |PresentAmong(h, cs)|
  {
    var g := GroupSizes(h, cs);
    var r := SortedGroups(h, cs);
    SortCountsMeaning(g);
    GroupSizesSum(h, cs);
    GroupSizesLength(h, cs);
    SumOfPermutation(r, g);
    assert |r| == |multiset(r)| == |multiset(g)| == |g|;
    forall i | 0 <= i < |r| ensures r[i] >= 1 {
      assert r[i] in multiset(g);
      GroupSizesMembers(h, cs, r[i]);
    }
  }

  /** The last of the sorted group sizes is the largest group of a listed card. */
  lemma SortedGroupsTop(h: seq<Card>, cs: seq<Card>)
    requires SortedGroups(h, cs) != []
    ensures GroupOf(h, cs, SortedGroups(h, cs)[|SortedGroups(h, cs)| - 1])
    ensures GroupsAtMost(h, cs, SortedGroups(h, cs)[|SortedGroups(h, cs)| - 1])
  {
    var g := GroupSizes(h, cs);
    var r := SortedGroups(h, cs);
    SortCountsMeaning(g);
    var top := r[|r| - 1];
    assert top in multiset(g);
    GroupSizesMembers(h, cs, top);
    forall c | c in cs ensures Count(h, c) <= top {
      if Count(h, c) >= 1 {
        GroupSizesMembers(h, cs, Count(h, c));
        assert Count(h, c) in multiset(r);
        var i :| 0 <= i < |r| && r[i] == Count(h, c);
      }
    }
  }

  /** A hand: five cards. */
  type Hand = h: seq<Card> | |h| == 5 witness [Joker, Joker, Joker, Joker, Joker]

  /** `Hand::get_type`: the type named by the sorted group sizes of the hand. */
  function GetType(h: Hand): Option<HandType>
  {
    FromCounts(SortedGroups(h, AllCards()))
  }

  /**
   * `get_type` never panics, and the type it names records the shape of the
   * hand: as many group sizes as the hand has distinct cards, the last one
   * the size of its largest group.
   */
  lemma GetTypeMeaning(h: Hand)
    ensures GetType(h).Some?
    ensures |CountsOf(GetType(h).value)| == |set c | c in h|
    ensures var counts := CountsOf(GetType(h).value);
      GroupOf(h, AllCards(), counts[|counts| - 1]) && GroupsAtMost(h, AllCards(), counts[|counts| - 1])
  {
    CardListsDistinct();
    var r := SortedGroups(h, AllCards());
    SortedGroupsMeaning(h, AllCards());
    CardsAmongAll(h);
    FromCountsTotal(r);
    var t := GetType(h).value;
    FromCountsBijection(t, r);
    assert CountsOf(t) == r;
    SortedGroupsTop(h, AllCards());
    PresentAll(h);
  }

  /** The cards of the hand among all the cards are the hand's cards. */
  lemma PresentAll(h: seq<Card>)
    ensures PresentAmong(h, AllCards()) == set c | c in h
  {
    forall c | c in h ensures c in AllCards() {
      CardListed(c);
    }
  }

  /** The cards of the hand among the non-joker cards are its cards other than the joker. */
  lemma PresentNonJoker(h: seq<Card>)
    ensures PresentAmong(h, NonJokerCards()) == set c | c in h && c != Joker
  {
    forall c | c in h ensures c in NonJokerCards() <==> c != Joker {
      CardListed(c);
    }
  }

  /** Two types with as many group sizes and the same largest group are the same type. */
  lemma ShapeDeterminesType(t: HandType, u: HandType)
    requires |CountsOf(t)| == |CountsOf(u)|
    requires CountsOf(t)[|CountsOf(t)| - 1] == CountsOf(u)[|CountsOf(u)| - 1]
    ensures t == u
  {
  }

  /** The sorted non-joker group sizes with every joker added to the last, largest one. */
  function JoinJokers(counts: seq<nat>, jokers: nat): seq<nat>
    requires counts != []
  {
    counts[..|counts| - 1] + [counts[|counts| - 1] + jokers]
  }

  /**
   * `Hand::get_type_with_joker_rule`: the jokers join the largest group of
   * the other cards; a hand with no other cards is five of a kind.
   */
  function GetTypeWithJokerRule(h: Hand): Option<HandType>
  {
    var counts := SortedGroups(h, NonJokerCards());
    if counts == [] then Some(FiveOfAKind) else FromCounts(JoinJokers(counts, Count(h, Joker)))
  }

  /** Adding the jokers to the last of sorted group sizes keeps them sorted and adds the jokers to their sum. */
  lemma JoinJokersMeaning(counts: seq<nat>, jokers: nat)
    requires counts != [] && Sorted(counts)
    ensures Sorted(JoinJokers(counts, jokers))
    ensures Sum(JoinJokers(counts, jokers)) == Sum(counts) + jokers
    ensures |JoinJokers(counts, jokers)| == |counts|
    ensures JoinJokers(counts, jokers)[|counts| - 1] == counts[|counts| - 1] + jokers
    ensures forall i :: 0 <= i < |counts| - 1 ==> JoinJokers(counts, jokers)[i] == counts[i]
  {
    var n := |counts|;
    var joined := JoinJokers(counts, jokers);
    assert counts == counts[..n - 1] + [counts[n - 1]];
    SumConcat(counts[..n - 1], [counts[n - 1]]);
    SumConcat(counts[..n - 1], [counts[n - 1] + jokers]);
    forall a, b | 0 <= a < b < n ensures joined[a] <= joined[b] {
      assert counts[a] <= counts[b];
    }
  }

  /** The joker rule never panics, and a hand of five jokers is five of a kind. */
  lemma JokerRuleTotal(h: Hand)
    ensures GetTypeWithJokerRule(h).Some?
    ensures Count(h, Joker) == 5 ==> GetTypeWithJokerRule(h) == Some(FiveOfAKind)
  {
    CardListsDistinct();
    var counts := SortedGroups(h, NonJokerCards());
    SortedGroupsMeaning(h, NonJokerCards());
    CardsAmongAll(h);
    if counts != [] {
      var joined := JoinJokers(counts, Count(h, Joker));
      JoinJokersMeaning(counts, Count(h, Joker));
      FromCountsTotal(joined);
      if Count(h, Joker) == 5 {
        assert Sum(counts) == 0;
        SumAtLeastLength(counts);
      }
    }
  }

  /** Unless the hand is all jokers, the joker rule's group sizes are the non-joker ones with the jokers joined to the largest. */
  lemma JokerRuleCounts(h: Hand)
    requires Count(h, Joker) < 5
    ensures SortedGroups(h, NonJokerCards()) != []
    ensures GetTypeWithJokerRule(h).Some?
    ensures CountsOf(GetTypeWithJokerRule(h).value) == JoinJokers(SortedGroups(h, NonJokerCards()), Count(h, Joker))
  {
    JokerRuleTotal(h);
    CardListsDistinct();
    var counts := SortedGroups(h, NonJokerCards());
    SortedGroupsMeaning(h, NonJokerCards());
    CardsAmongAll(h);
    assert Sum(counts) > 0;
    FromCountsBijection(GetTypeWithJokerRule(h).value, JoinJokers(counts, Count(h, Joker)));
  }

  /** The groups of the non-joker cards are those of every card other than the joker. */
  lemma NonJokerGroups(h: seq<Card>, k: nat)
    ensures GroupOf(h, NonJokerCards(), k) <==> exists c :: c != Joker && Count(h, c) == k
    ensures GroupsAtMost(h, NonJokerCards(), k) <==> forall c :: c != Joker ==> Count(h, c) <= k
  {
    forall c ensures c in NonJokerCards() <==> c != Joker {
      CardListed(c);
    }
  }

  /**
   * Under the joker rule the type has one group per distinct non-joker card,
   * and its largest group is the largest non-joker group with every joker
   * added.
   */
  lemma JokerRuleShape(h: Hand)
    requires Count(h, Joker) < 5
    ensures GetTypeWithJokerRule(h).Some?
    ensures var counts := CountsOf(GetTypeWithJokerRule(h).value);
      var top := counts[|counts| - 1];
      |counts| == |set c | c in h && c != Joker| &&
      top >= Count(h, Joker) &&
      (exists c :: c != Joker && Count(h, c) + Count(h, Joker) == top) &&
      forall c :: c != Joker ==> Count(h, c) + Count(h, Joker) <= top
  {
    JokerRuleCounts(h);
    CardListsDistinct();
    var j := Count(h, Joker);
    var counts := SortedGroups(h, NonJokerCards());
    var n := |counts|;
    SortedGroupsMeaning(h, NonJokerCards());
    JoinJokersMeaning(counts, j);
    PresentNonJoker(h);
    SortedGroupsTop(h, NonJokerCards());
    var t := GetTypeWithJokerRule(h).value;
    var top := CountsOf(t)[|CountsOf(t)| - 1];
    assert top - j == counts[n - 1];
    NonJokerGroups(h, top - j);
  }

  /** Without jokers the joker rule names the same type as the plain rule. */
  lemma NoJokersSameType(h: Hand)
    requires Count(h, Joker) == 0
    ensures GetTypeWithJokerRule(h) == GetType(h)
  {
    CardListsDistinct();
    assert GroupSizes(h, AllCards()) == GroupSizes(h, NonJokerCards()) by {
      assert AllCards()[1..] == NonJokerCards();
    }
    var counts := SortedGroups(h, NonJokerCards());
    SortedGroupsMeaning(h, NonJokerCards());
    CardsAmongAll(h);
    assert Sum(counts) > 0;
    assert JoinJokers(counts, 0) == counts;
  }

  /** The letter of a card: `J` for both the jack and the joker. */
  function CardLetter(c: Card): char
  {
    match c
    case Joker => 'J'
    case Two => '2'
    case Three => '3'
    case Four => '4'
    case Five => '5'
    case Six => '6'
    case Seven => '7'
    case Eight => '8'
    case Nine => '9'
    case Ten => 'T'
    case Jack => 'J'
    case Queen => 'Q'
    case King => 'K'
    case Ace => 'A'
  }

  /** `parse_card` on the first letter. */
  function ParseCard(ch: char, joker: bool): Option<Card>
  {
    match ch
    case 'A' => Some(Ace)
    case 'K' => Some(King)
    case 'Q' => Some(Queen)
    case 'J' => Some(if joker then Joker else Jack)
    case 'T' => Some(Ten)
    case '9' => Some(Nine)
    case '8' => Some(Eight)
    case '7' => Some(Seven)
    case '6' => Some(Six)
    case '5' => Some(Five)
    case '4' => Some(Four)
    case '3' => Some(Three)
    case '2' => Some(Two)
    case _ => None
  }

  /**
   * Each card letter reads as its card, `J` as the joker exactly when the
   * joker flag is set and as the jack otherwise; any other letter fails.
   */
  lemma ParseCardMeaning(ch: char, joker: bool)
    ensures ParseCard(ch, joker).Some? <==> ch in "AKQJT98765432"
    ensures ParseCard(ch, joker).Some? ==> CardLetter(ParseCard(ch, joker).value) == ch
    ensures ParseCard(ch, joker) == Some(Joker) <==> ch == 'J' && joker
    ensures ParseCard(ch, joker) == Some(Jack) <==> ch == 'J' && !joker
  {
  }

  /** Reading a card's letter gives the card back, unless it is the `J` the flag reads the other way. */
  lemma ParseCardLetter(c: Card, joker: bool)
    requires c == Joker ==> joker
    requires c == Jack ==> !joker
    ensures ParseCard(CardLetter(c), joker) == Some(c)
  {
  }

  /** The cards read from the first five letters, when all five are card letters. */
  function ReadCards(s: string, joker: bool): Option<Hand>
    requires |s| >= 5
  {
    if forall i :: 0 <= i < 5 ==> ParseCard(s[i], joker).Some? then
      var hand: Hand := seq(5, i requires 0 <= i < 5 => ParseCard(s[i], joker).value);
      Some(hand)
    else None
  }

  /** `parse_hand`: five card letters in a row, and what follows them. */
  function ParseHand(s: string, joker: bool): Option<(Hand, string)>
  {
    if |s| < 5 then None
    else match ReadCards(s, joker)
      case Some(hand) => Some((hand, s[5..]))
      case None => None
  }

  /** A hand written out with its cards' letters. */
  function HandLetters(h: Hand): string
  {
    seq(5, i requires 0 <= i < 5 => CardLetter(h[i]))
  }

  /** A hand written out reads back as the same hand, whatever follows it, when the flag matches its `J`s. */
  lemma ParseHandLetters(h: Hand, rest: string, joker: bool)
    requires forall i :: 0 <= i < 5 ==> (h[i] == Joker ==> joker) && (h[i] == Jack ==> !joker)
    ensures ParseHand(HandLetters(h) + rest, joker) == Some((h, rest))
  {
    var s := HandLetters(h) + rest;
    forall i | 0 <= i < 5 ensures ParseCard(s[i], joker) == Some(h[i]) {
      assert s[i] == CardLetter(h[i]);
      ParseCardLetter(h[i], joker);
    }
    var hand: Hand := seq(5, i requires 0 <= i < 5 => ParseCard(s[i], joker).value);
    assert hand == h;
    assert ReadCards(s, joker) == Some(h);
    assert s[5..] == rest;
  }

  /** The non-joker cards of a hand, listed. */
  lemma HandCardSet(h: Hand)
    ensures (set c | c in h && c != Joker) == {h[0], h[1], h[2], h[3], h[4]} - {Joker}
  {
    assert h == [h[0], h[1], h[2], h[3], h[4]];
  }

  /** The largest group under the joker rule is that of the most frequent non-joker card, jokers added. */
  lemma JokerTop(h: Hand, largest: Card)
    requires Count(h, Joker) < 5
    requires largest != Joker && largest in h
    requires forall c :: c in h && c != Joker ==> Count(h, c) <= Count(h, largest)
    ensures GetTypeWithJokerRule(h).Some?
    ensures var counts := CountsOf(GetTypeWithJokerRule(h).value);
      counts[|counts| - 1] == Count(h, largest) + Count(h, Joker)
  {
    JokerRuleShape(h);
    var u := GetTypeWithJokerRule(h).value;
    var last := CountsOf(u)[|CountsOf(u)| - 1];
    var c :| c != Joker && Count(h, c) + Count(h, Joker) == last;
    assert Count(h, largest) + Count(h, Joker) <= last;
    assert c in h;
  }

  /**
   * A hand's type under the joker rule follows from its shape: its distinct
   * non-joker cards and the size of their largest group.
   */
  lemma JokerTypeFromShape(h: Hand, t: HandType, distinct: set<Card>, largest: Card)
    requires Count(h, Joker) < 5
    requires {h[0], h[1], h[2], h[3], h[4]} - {Joker} == distinct
    requires largest in distinct && forall c :: c in distinct ==> Count(h, c) <= Count(h, largest)
    requires |CountsOf(t)| == |distinct|
    requires CountsOf(t)[|CountsOf(t)| - 1] == Count(h, largest) + Count(h, Joker)
    ensures GetTypeWithJokerRule(h) == Some(t)
  {
    HandCardSet(h);
    JokerTop(h, largest);
    JokerRuleShape(h);
    ShapeDeterminesType(t, GetTypeWithJokerRule(h).value);
  }

  /** Five card letters and nothing after them read as the hand of their cards. */
  lemma ParseFive(letters: string, h: Hand, joker: bool)
    requires |letters| == 5
    requires ParseCard(letters[0], joker) == Some(h[0]) && ParseCard(letters[1], joker) == Some(h[1])
    requires ParseCard(letters[2], joker) == Some(h[2]) && ParseCard(letters[3], joker) == Some(h[3])
    requires ParseCard(letters[4], joker) == Some(h[4])
    ensures ParseHand(letters, joker) == Some((h, ""))
  {
    assert forall i :: 0 <= i < 5 ==> ParseCard(letters[i], joker) == Some(h[i]);
    var hand: Hand := seq(5, i requires 0 <= i < 5 => ParseCard(letters[i], joker).value);
    assert hand == h;
    assert ReadCards(letters, joker) == Some(h);
    assert letters[5..] == "";
  }

  /** The count of a card in a hand, position by position. */
  lemma CountInHand(h: Hand, c: Card)
    ensures Count(h, c) == (if h[0] == c then 1 else 0) + (if h[1] == c then 1 else 0) +
      (if h[2] == c then 1 else 0) + (if h[3] == c then 1 else 0) + (if h[4] == c then 1 else 0)
  {
    assert h == [h[0]] + [h[1]] + [h[2]] + [h[3]] + [h[4]];
  }

  /** The hand `32T3K` of the joker-rule sample reads as its five cards. */
  lemma JokerSample32T3KParse(h: Hand)
    requires h == [Three, Two, Ten, Three, King]
    ensures ParseHand("32T3K", true) == Some((h, ""))
  {
    ParseFive("32T3K", h, true);
  }

  /** The hand `32T3K` of the joker-rule sample is one pair. */
  lemma JokerSample32T3K(h: Hand)
    requires h == [Three, Two, Ten, Three, King]
    ensures GetTypeWithJokerRule(h) == Some(OnePair)
  {
    forall c | c in {Three, Two, Ten, King} ensures Count(h, c) <= Count(h, Three) {
      CountInHand(h, c);
    }
    CountInHand(h, Three);
    CountInHand(h, Joker);
    JokerTypeFromShape(h, OnePair, {Three, Two, Ten, King}, Three);
  }

  /** The hand `T55J5` of the joker-rule sample reads as its five cards. */
  lemma JokerSampleT55J5Parse(h: Hand)
    requires h == [Ten, Five, Five, Joker, Five]
    ensures ParseHand("T55J5", true) == Some((h, ""))
  {
    ParseFive("T55J5", h, true);
  }

  /** The hand `T55J5` of the joker-rule sample is four of a kind. */
  lemma JokerSampleT55J5(h: Hand)
    requires h == [Ten, Five, Five, Joker, Five]
    ensures GetTypeWithJokerRule(h) == Some(FourOfAKind)
  {
    forall c | c in {Ten, Five} ensures Count(h, c) <= Count(h, Five) {
      CountInHand(h, c);
    }
    CountInHand(h, Five);
    CountInHand(h, Joker);
    JokerTypeFromShape(h, FourOfAKind, {Ten, Five}, Five);
  }

  /** The hand `KK677` of the joker-rule sample reads as its five cards. */
  lemma JokerSampleKK677Parse(h: Hand)
    requires h == [King, King, Six, Seven, Seven]
    ensures ParseHand("KK677", true) == Some((h, ""))
  {
    ParseFive("KK677", h, true);
  }

  /** The hand `KK677` of the joker-rule sample is two pair. */
  lemma JokerSampleKK677(h: Hand)
    requires h == [King, King, Six, Seven, Seven]
    ensures GetTypeWithJokerRule(h) == Some(TwoPair)
  {
    forall c | c in {King, Six, Seven} ensures Count(h, c) <= Count(h, King) {
      CountInHand(h, c);
    }
    CountInHand(h, King);
    CountInHand(h, Joker);
    JokerTypeFromShape(h, TwoPair, {King, Six, Seven}, King);
  }

  /** The hand `KTJJT` of the joker-rule sample reads as its five cards. */
  lemma JokerSampleKTJJTParse(h: Hand)
    requires h == [King, Ten, Joker, Joker, Ten]
    ensures ParseHand("KTJJT", true) == Some((h, ""))
  {
    ParseFive("KTJJT", h, true);
  }

  /** The hand `KTJJT` of the joker-rule sample is four of a kind. */
  lemma JokerSampleKTJJT(h: Hand)
    requires h == [King, Ten, Joker, Joker, Ten]
    ensures GetTypeWithJokerRule(h) == Some(FourOfAKind)
  {
    forall c | c in {King, Ten} ensures Count(h, c) <= Count(h, Ten) {
      CountInHand(h, c);
    }
    CountInHand(h, Ten);
    CountInHand(h, Joker);
    JokerTypeFromShape(h, FourOfAKind, {King, Ten}, Ten);
  }

  /** The hand `QQQJA` of the joker-rule sample reads as its five cards. */
  lemma JokerSampleQQQJAParse(h: Hand)
    requires h == [Queen, Queen, Queen, Joker, Ace]
    ensures ParseHand("QQQJA", true) == Some((h, ""))
  {
    ParseFive("QQQJA", h, true);
  }

  /** The hand `QQQJA` of the joker-rule sample is four of a kind. */
  lemma JokerSampleQQQJA(h: Hand)
    requires h == [Queen, Queen, Queen, Joker, Ace]
    ensures GetTypeWithJokerRule(h) == Some(FourOfAKind)
  {
    forall c | c in {Queen, Ace} ensures Count(h, c) <= Count(h, Queen) {
      CountInHand(h, c);
    }
    CountInHand(h, Queen);
    CountInHand(h, Joker);
    JokerTypeFromShape(h, FourOfAKind, {Queen, Ace}, Queen);
  }

  /** The hand `AAJJJ` of the joker-rule sample reads as its five cards. */
  lemma JokerSampleAAJJJParse(h: Hand)
    requires h == [Ace, Ace, Joker, Joker, Joker]
    ensures ParseHand("AAJJJ", true) == Some((h, ""))
  {
    ParseFive("AAJJJ", h, true);
  }

  /** The hand `AAJJJ` of the joker-rule sample is five of a kind. */
  lemma JokerSampleAAJJJ(h: Hand)
    requires h == [Ace, Ace, Joker, Joker, Joker]
    ensures GetTypeWithJokerRule(h) == Some(FiveOfAKind)
  {
    forall c | c in {Ace} ensures Count(h, c) <= Count(h, Ace) {
      CountInHand(h, c);
    }
    CountInHand(h, Ace);
    CountInHand(h, Joker);
    JokerTypeFromShape(h, FiveOfAKind, {Ace}, Ace);
  }

  /** The hand `J67KQ` of the joker-rule sample reads as its five cards. */
  lemma JokerSampleJ67KQParse(h: Hand)
    requires h == [Joker, Six, Seven, King, Queen]
    ensures ParseHand("J67KQ", true) == Some((h, ""))
  {
    ParseFive("J67KQ", h, true);
  }

  /** The hand `J67KQ` of the joker-rule sample is one pair. */
  lemma JokerSampleJ67KQ(h: Hand)
    requires h == [Joker, Six, Seven, King, Queen]
    ensures GetTypeWithJokerRule(h) == Some(OnePair)
  {
    forall c | c in {Six, Seven, King, Queen} ensures Count(h, c) <= Count(h, Six) {
      CountInHand(h, c);
    }
    CountInHand(h, Six);
    CountInHand(h, Joker);
    JokerTypeFromShape(h, OnePair, {Six, Seven, King, Queen}, Six);
  }

  /** The hand `22J33` of the joker-rule sample reads as its five cards. */
  lemma JokerSample22J33Parse(h: Hand)
    requires h == [Two, Two, Joker, Three, Three]
    ensures ParseHand("22J33", true) == Some((h, ""))
  {
    ParseFive("22J33", h, true);
  }

  /** The hand `22J33` of the joker-rule sample is a full house. */
  lemma JokerSample22J33(h: Hand)
    requires h == [Two, Two, Joker, Three, Three]
    ensures GetTypeWithJokerRule(h) == Some(FullHouse)
  {
    forall c | c in {Two, Three} ensures Count(h, c) <= Count(h, Two) {
      CountInHand(h, c);
    }
    CountInHand(h, Two);
    CountInHand(h, Joker);
    JokerTypeFromShape(h, FullHouse, {Two, Three}, Two);
  }
}
