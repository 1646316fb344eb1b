// No space left on device (2022, day 7).
//
// A directory holds the sizes of its files and its subdirectories by name.
// Its own size is the sum of its file sizes; its total size adds the total
// sizes of its subdirectories. Directories are shared, mutable nodes: each
// one is a `Directory` object whose fields change in place.

module NoSpaceLeft {
  import opened Wrappers

  /** The largest `u64` plus one. */
  const U64_LIMIT: nat := 0x1_0000_0000_0000_0000

  type U64 = x: nat | x < U64_LIMIT

  /** Sizes never add up to less than zero. */
  lemma {:induction false} SumNonNegative(sizes: seq<nat>)
    ensures Sum(sizes) >= 0
  {
    if sizes != [] {
      SumNonNegative(sizes[..|sizes| - 1]);
    }
  }

  /** Changing one size changes the sum by the difference. */
  lemma {:induction false} SumUpdate(sizes: seq<nat>, k: nat, v: nat)
    requires k < |sizes|
    ensures Sum(sizes[k := v]) == Sum(sizes) - sizes[k] + v
  {
    var front := sizes[..|sizes| - 1];
    if k < |sizes| - 1 {
      SumUpdate(front, k, v);
      assert sizes[k := v][..|sizes| - 1] == front[k := v];
    } else {
      assert sizes[k := v][..|sizes| - 1] == front;
    }
  }

  /** No size exceeds the sum of the sizes. */
  lemma {:induction false} SumBound(sizes: seq<nat>, i: nat)
    requires i < |sizes|
    ensures sizes[i] <= Sum(sizes)
  {
    var front := sizes[..|sizes| - 1];
    SumNonNegative(front);
    if i < |sizes| - 1 {
      SumBound(front, i);
    }
  }

  /** A sequence that agrees with another and then has a 0 is that one extended by 0; the sum is the same. */
  lemma SnocZero(longer: seq<nat>, sizes: seq<nat>)
    requires |longer| == |sizes| + 1 && longer[|sizes|] == 0
    requires forall i :: 0 <= i < |sizes| ==> longer[i] == sizes[i]
    ensures Sum(longer) == Sum(sizes)
  {
    assert longer[..|sizes|] == sizes;
  }

  class Directory {
    var name: string
    var files: seq<U64>
    /**
     * The subdirectories. The source keeps them in a hash map keyed by
     * their names; here they are a sequence whose names are distinct, and
     * its order stands for the map's iteration order.
     */
    var subdirs: seq<Directory>
    ghost var Repr: set<object>

    /**
     * Each subdirectory is valid, lies in this directory's footprint and
     * does not reach back to it.
     */
    ghost predicate Valid()
      reads this, Repr
      decreases Repr
    {
      this in Repr &&
      forall i :: 0 <= i < |subdirs| ==>
        subdirs[i] in Repr && subdirs[i].Repr <= Repr && this !in subdirs[i].Repr && subdirs[i].Valid()
    }

    /** `c` is valid, lies in this directory's footprint and does not reach back to it. */
    ghost predicate Inside(c: Directory)
      reads this, c, c.Repr
    {
      c in Repr && c.Repr <= Repr && this !in c.Repr && c.Valid()
    }

    /** The subdirectories' names are distinct, as the keys of a map are. */
    predicate UniqueNames()
      reads this, subdirs
    {
      forall i, j :: 0 <= i < j < |subdirs| ==> subdirs[i].name != subdirs[j].name
    }

    /** `Directory::with_name`: an empty directory; `make_root` is the one named `/`. */
    constructor (name: string)
      ensures Valid() && fresh(Repr)
      ensures this.name == name && files == [] && subdirs == []
    {
      this.name := name;
      files := [];
      subdirs := [];
      Repr := {this};
    }

    /** `get_own_size`: the sum of the file sizes. */
    function OwnSize(): nat
      reads this`files
    {
      SumNonNegative(files);
      Sum(files)
    }

    /** `get_total_size`: the totals of the subdirectories added up, plus the own size. */
    function TotalSize(): nat
      requires Valid()
      reads this, Repr
      decreases Repr, 1
    {
      SumNonNegative(SubdirTotals(|subdirs|));
      Sum(SubdirTotals(|subdirs|)) + OwnSize()
    }

    /** The total sizes of the first `n` subdirectories, in order. */
    function SubdirTotals(n: nat): seq<nat>
      requires Valid() && n <= |subdirs|
      reads this, Repr
      decreases Repr, 0, n
    {
      if n == 0 then [] else SubdirTotals(n - 1) + [subdirs[n - 1].TotalSize()]
    }

    /** Entry `i` of the totals is the total size of subdirectory `i`. */
    lemma {:induction false} SubdirTotalsMeaning(n: nat)
      requires Valid() && n <= |subdirs|
      ensures |SubdirTotals(n)| == n
      ensures forall i :: 0 <= i < n ==> SubdirTotals(n)[i] == subdirs[i].TotalSize()
    {
      if n > 0 {
        SubdirTotalsMeaning(n - 1);
      }
    }

    /**
     * `get_all_total_sizes`: the listings of the subdirectories one after
     * another, then this directory's own total.
     */
    function AllTotalSizes(): seq<nat>
      requires Valid()
      reads this, Repr
      decreases Repr, 1
    {
      SubdirSizes(|subdirs|) + [TotalSize()]
    }

    /** The listings of the first `n` subdirectories, one after another. */
    function SubdirSizes(n: nat): seq<nat>
      requires Valid() && n <= |subdirs|
      reads this, Repr
      decreases Repr, 0, n
    {
      if n == 0 then [] else SubdirSizes(n - 1) + subdirs[n - 1].AllTotalSizes()
    }

    /** The number of directories in the tree rooted here, this one included. */
    function Count(): nat
      requires Valid()
      reads this, Repr
      decreases Repr, 1
    {
      SubdirCount(|subdirs|) + 1
    }

    /** The number of directories in the trees of the first `n` subdirectories. */
    function SubdirCount(n: nat): nat
      requires Valid() && n <= |subdirs|
      reads this, Repr
      decreases Repr, 0, n
    {
      if n == 0 then 0 else SubdirCount(n - 1) + subdirs[n - 1].Count()
    }

    /**
     * The listing has one entry per directory of the tree; the last is this
     * directory's total, and no entry exceeds it.
     */
    lemma {:induction false} ListingShape()
      requires Valid()
      ensures |AllTotalSizes()| == Count()
      ensures AllTotalSizes()[Count() - 1] == TotalSize()
      ensures forall i :: 0 <= i < |AllTotalSizes()| ==> AllTotalSizes()[i] <= TotalSize()
      decreases Repr, 1
    {
      SubdirListingShape(|subdirs|);
    }

    /** The listings of the first `n` subdirectories: one entry per directory, none above the sum of their totals. */
    lemma {:induction false} SubdirListingShape(n: nat)
      requires Valid() && n <= |subdirs|
      ensures |SubdirSizes(n)| == SubdirCount(n)
      ensures forall i :: 0 <= i < |SubdirSizes(n)| ==> SubdirSizes(n)[i] <= Sum(SubdirTotals(n))
      decreases Repr, 0, n
    {
      if n > 0 {
        var c := subdirs[n - 1];
        assert c.Repr < Repr;
        SubdirListingShape(n - 1);
        c.ListingShape();
        var totals, front := SubdirTotals(n), SubdirTotals(n - 1);
        assert totals == front + [c.TotalSize()];
        assert totals[..|totals| - 1] == front;
        SumNonNegative(front);
      }
    }

    /**
     * The subdirectories are listed before this directory: the listing starts
     * with the listings of the first `i` subdirectories followed by that of
     * subdirectory `i`.
     */
    lemma SubdirsListedFirst()
      requires Valid()
      ensures forall i :: 0 <= i < |subdirs| ==> SubdirSizes(i) + subdirs[i].AllTotalSizes() <= AllTotalSizes()
    {
      forall i | 0 <= i < |subdirs|
        ensures SubdirSizes(i) + subdirs[i].AllTotalSizes() <= AllTotalSizes()
      {
        SubdirSizesPrefix(i + 1, |subdirs|);
      }
    }

    lemma {:induction false} SubdirSizesPrefix(i: nat, n: nat)
      requires Valid() && i <= n <= |subdirs|
      ensures SubdirSizes(i) <= SubdirSizes(n)
      decreases n
    {
      if i < n {
        SubdirSizesPrefix(i, n - 1);
      }
    }

    /** A subdirectory's total never exceeds this directory's. */
    lemma SubdirTotalBound(i: nat)
      requires Valid() && i < |subdirs|
      ensures subdirs[i].TotalSize() <= TotalSize()
    {
      SubdirTotalsMeaning(|subdirs|);
      SumBound(SubdirTotals(|subdirs|), i);
    }

    /**
     * The position of the subdirectory with that name, or the number of
     * subdirectories when there is none.
     */
    function Position(dirName: string): (k: nat)
      requires Valid()
      reads this, Repr
      ensures k <= |subdirs|
      ensures k < |subdirs| ==> subdirs[k].name == dirName
      ensures k == |subdirs| <==> forall i :: 0 <= i < |subdirs| ==> subdirs[i].name != dirName
    {
      PositionFrom(dirName, 0)
    }

    /** The position of the first subdirectory with that name from `i` on, or the number of subdirectories. */
    function PositionFrom(dirName: string, i: nat): (k: nat)
      requires Valid() && i <= |subdirs|
      reads this, Repr
      ensures i <= k <= |subdirs|
      ensures k < |subdirs| ==> subdirs[k].name == dirName
      ensures forall j :: i <= j < k ==> subdirs[j].name != dirName
      decreases |subdirs| - i
    {
      if i == |subdirs| then i
      else if subdirs[i].name == dirName then i
      else PositionFrom(dirName, i + 1)
    }

    /** `cd`: the subdirectory with that name; `None` where the source's `unwrap` panics. */
    function Cd(dirName: string): (r: Option<Directory>)
      requires Valid()
      reads this, Repr
      ensures r.Some? <==> exists i :: 0 <= i < |subdirs| && subdirs[i].name == dirName
      ensures r.Some? ==> r.value in subdirs && r.value.name == dirName
    {
      if Position(dirName) < |subdirs| then Some(subdirs[Position(dirName)]) else None
    }

    /** `add_file`: the size joins the files; every total that includes this directory grows by it. */
    method AddFile(fileSize: U64)
      requires Valid()
      modifies this`files
      ensures Valid() && files == old(files) + [fileSize]
      ensures OwnSize() == old(OwnSize()) + fileSize
      ensures TotalSize() == old(TotalSize()) + fileSize
    {
      ghost var totals := SubdirTotals(|subdirs|);
      SubdirTotalsMeaning(|subdirs|);
      assert forall i :: 0 <= i < |subdirs| ==>
        Inside(subdirs[i]);
      files := files + [fileSize];
      forall i | 0 <= i < |subdirs|
        ensures Inside(subdirs[i])
        ensures subdirs[i].TotalSize() == totals[i]
      {
        Untouched(subdirs[i]);
      }
      FileAdded(totals, old(files), fileSize);
    }

    /** After the file joins: the invariant holds again and both sizes grow by the file's. */
    lemma FileAdded(totals: seq<nat>, before: seq<U64>, fileSize: U64)
      requires this in Repr && files == before + [fileSize] && |totals| == |subdirs|
      requires forall i :: 0 <= i < |subdirs| ==>
        Inside(subdirs[i]) && subdirs[i].TotalSize() == totals[i]
      ensures Valid() && OwnSize() == Sum(before) + fileSize
      ensures TotalSize() == Sum(totals) + Sum(before) + fileSize
    {
      SumConcat(before, [fileSize]);
      assert Sum([fileSize]) == fileSize by {
        assert [fileSize][..0] == [];
      }
      SubdirTotalsMeaning(|subdirs|);
      assert SubdirTotals(|subdirs|) == totals;
    }

    /**
     * `add_dir`: a new empty directory with that name becomes a
     * subdirectory, in the place of the one of the same name if there is
     * one (see `Replace` and `Append` for the effect on the total).
     */
    method AddDir(dirName: string)
      requires Valid() && UniqueNames()
      modifies this`subdirs, this`Repr
      ensures Valid() && UniqueNames() && fresh(Repr - old(Repr))
      ensures Position(dirName) == old(Position(dirName)) < |subdirs|
      ensures var d := subdirs[Position(dirName)]; fresh(d) && d.files == [] && d.subdirs == []
      ensures old(Position(dirName)) < old(|subdirs|) ==>
        subdirs == old(subdirs)[Position(dirName) := subdirs[Position(dirName)]]
      ensures old(Position(dirName)) == old(|subdirs|) ==>
        subdirs == old(subdirs) + [subdirs[Position(dirName)]]
    {
      var k := Position(dirName);
      ghost var before := subdirs;
      var d := new Directory(dirName);
      if k < |subdirs| {
        Replace(k, d);
      } else {
        Append(d);
      }
      assert forall i :: 0 <= i < |subdirs| ==> subdirs[i] == if i == k then d else before[i];
      PositionAt(dirName, k);
    }

    /** The first subdirectory with that name is at `k`. */
    lemma PositionAt(dirName: string, k: nat)
      requires Valid() && k < |subdirs| && subdirs[k].name == dirName
      requires forall j :: 0 <= j < k ==> subdirs[j].name != dirName
      ensures Position(dirName) == k
    {
    }

    /** A directory none of whose footprint changed keeps its validity and its total. */
    twostate lemma Untouched(c: Directory)
      requires old(c.Valid()) && unchanged(c) && unchanged(old(c.Repr))
      ensures c.Valid() && c.TotalSize() == old(c.TotalSize())
    {
    }

    /** The hash map's `insert` of a new key: the directory joins at the end. */
    method Append(d: Directory)
      requires Valid() && d.Valid() && Repr !! d.Repr
      requires d.files == [] && d.subdirs == []
      modifies this`subdirs, this`Repr
      ensures Valid() && Repr == old(Repr) + d.Repr
      ensures subdirs == old(subdirs) + [d]
      ensures TotalSize() == old(TotalSize())
    {
      ghost var totals := SubdirTotals(|subdirs|);
      SubdirTotalsMeaning(|subdirs|);
      ghost var before := subdirs;
      assert forall i :: 0 <= i < |before| ==>
        Inside(before[i]);
      subdirs, Repr := subdirs + [d], Repr + d.Repr;
      forall i | 0 <= i < |before|
        ensures Inside(before[i])
        ensures before[i].TotalSize() == totals[i]
      {
        Untouched(before[i]);
      }
      Appended(before, totals, d);
    }

    /** After the append: the invariant holds again, and the totals are the old ones and a 0. */
    lemma Appended(before: seq<Directory>, totals: seq<nat>, d: Directory)
      requires |before| == |totals| && subdirs == before + [d] && this in Repr
      requires Inside(d)
      requires d.files == [] && d.subdirs == []
      requires forall i :: 0 <= i < |before| ==>
        Inside(before[i]) && before[i].TotalSize() == totals[i]
      ensures Valid() && TotalSize() == Sum(totals) + OwnSize()
    {
      assert forall i :: 0 <= i < |subdirs| ==> subdirs[i] == if i < |before| then before[i] else d;
      assert Valid();
      SubdirTotalsMeaning(|subdirs|);
      assert d.TotalSize() == 0;
      SnocZero(SubdirTotals(|subdirs|), totals);
    }

    /** The hash map's `insert` of a present key: the directory takes the old one's place. */
    method Replace(k: nat, d: Directory)
      requires Valid() && d.Valid() && Repr !! d.Repr
      requires d.files == [] && d.subdirs == []
      requires k < |subdirs|
      modifies this`subdirs, this`Repr
      ensures Valid() && Repr == old(Repr) + d.Repr
      ensures subdirs == old(subdirs)[k := d]
      ensures TotalSize() == old(TotalSize()) - old(subdirs[k].TotalSize())
    {
      ghost var totals := SubdirTotals(|subdirs|);
      SubdirTotalsMeaning(|subdirs|);
      ghost var before := subdirs;
      assert forall i :: 0 <= i < |before| ==>
        Inside(before[i]);
      subdirs, Repr := subdirs[k := d], Repr + d.Repr;
      forall i | 0 <= i < |before| && i != k
        ensures Inside(before[i])
        ensures before[i].TotalSize() == totals[i]
      {
        Untouched(before[i]);
      }
      Replaced(before, totals, k, d);
    }

    /** After the replacement: the invariant holds again, and the totals are the old ones with a 0 at `k`. */
    lemma Replaced(before: seq<Directory>, totals: seq<nat>, k: nat, d: Directory)
      requires k < |before| == |totals| && subdirs == before[k := d] && this in Repr
      requires Inside(d)
      requires d.files == [] && d.subdirs == []
      requires forall i :: 0 <= i < |before| && i != k ==>
        Inside(before[i]) && before[i].TotalSize() == totals[i]
      ensures Valid() && TotalSize() == Sum(totals) - totals[k] + OwnSize()
    {
      assert forall i :: 0 <= i < |subdirs| ==> subdirs[i] == if i == k then d else before[i];
      assert Valid();
      SubdirTotalsMeaning(|subdirs|);
      assert d.TotalSize() == 0;
      assert SubdirTotals(|subdirs|) == totals[k := 0];
      SumUpdate(totals, k, 0);
    }
  }

  /** Sums of two and of three sizes, added up from the left. */
  lemma SumTwoThree(x: nat, y: nat, z: nat)
    ensures Sum([x, y]) == x + y
    ensures Sum([x, y, z]) == x + y + z
  {
    assert [x][..0] == [];
    assert Sum([x]) == x;
    assert [x, y][..1] == [x];
    assert Sum([x, y]) == x + y;
    assert [x, y, z][..2] == [x, y];
  }

  /** A sum of four sizes, added up from the left. */
  lemma SumFour(w: nat, x: nat, y: nat, z: nat)
    ensures Sum([w, x, y, z]) == w + x + y + z
  {
    SumTwoThree(w, x, y);
    assert [w, x, y, z][..3] == [w, x, y];
  }

  /** A directory without subdirectories totals its own size. */
  lemma LeafTotal(dir: Directory)
    requires dir.Valid() && dir.subdirs == []
    ensures dir.TotalSize() == dir.OwnSize()
  {
    assert dir.SubdirTotals(|dir.subdirs|) == [];
    assert Sum(dir.SubdirTotals(|dir.subdirs|)) == 0;
    assert dir.TotalSize() == Sum(dir.SubdirTotals(|dir.subdirs|)) + dir.OwnSize();
  }

  /**
   * The tree of the tests: the root holds two files and the directories `a`
   * and `d`; `a` holds three files and the directory `e`, which holds one
   * file; `d` holds four files. The root totals 48381165 and `a` 94853.
   */
  lemma Sample(root: Directory, a: Directory, e: Directory, d: Directory)
    requires root.Valid() && root.files == [14848514, 8504156] && root.subdirs == [a, d]
    requires a.name == "a" && a.files == [29116, 2557, 62596] && a.subdirs == [e]
    requires e.files == [584] && e.subdirs == []
    requires d.files == [4060174, 8033020, 5626152, 7214296] && d.subdirs == []
    ensures root.Cd("a") == Some(a) && a.TotalSize() == 94853
    ensures root.TotalSize() == 48381165
  {
    assert root.subdirs[0] == a && root.subdirs[1] == d && a.subdirs[0] == e;
    LeafTotal(e);
    assert [584][..0] == [];
    assert e.TotalSize() == 584;
    SumTwoThree(29116, 2557, 62596);
    a.SubdirTotalsMeaning(1);
    assert a.SubdirTotals(1) == [584];
    assert a.TotalSize() == 94853;
    LeafTotal(d);
    SumFour(4060174, 8033020, 5626152, 7214296);
    assert d.TotalSize() == 24933642;
    SumTwoThree(14848514, 8504156, 0);
    SumTwoThree(94853, 24933642, 0);
    root.SubdirTotalsMeaning(2);
    assert root.SubdirTotals(2) == [94853, 24933642];
    assert root.Position("a") == 0;
  }
}
