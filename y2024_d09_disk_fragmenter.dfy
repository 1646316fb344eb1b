/**
 * Disk fragmenter (2024, day 9): a dense disk map alternates file sizes and
 * free-space sizes; it is expanded into one block per cell, then compacted
 * block by block (part 1) or file by file (part 2), and summarised by a checksum.
 */
module DiskFragmenter {
  import opened Wrappers

  /** An object in the filesystem: a file with its id and size, or a run of free blocks. */
  datatype FsObject = File(id: nat, size: nat) | FreeSpace(size: nat)

  /** One block of the expanded disk: `Some(id)` for a block of file `id`, `None` when free. */
  type Block = Option<nat>

  predicate IsDigit(c: char)
  {
    '0' <= c <= '9'
  }

  /** Index of the first newline in `s`, or `|s|` when there is none. */
  function LineEnd(s: string): (k: nat)
    ensures k <= |s|
    ensures forall i :: 0 <= i < k ==> s[i] != '\n'
    ensures k < |s| ==> s[k] == '\n'
  {
    if s == [] || s[0] == '\n' then 0 else 1 + LineEnd(s[1..])
  }

  /** The object that digit `c` at position `idx` of the disk map stands for. */
  function DiskEntry(idx: nat, c: char): FsObject
    requires IsDigit(c)
  {
    var n := (c as int - '0' as int) as nat;
    if idx % 2 == 0 then File(idx / 2, n) else FreeSpace(n)
  }

  /** A filesystem as the parser builds it: files at even positions with ids 0, 1, 2, ...,
      free space at odd positions, and at least one file. */
  predicate IsDiskMap(fs: seq<FsObject>)
  {
    && |fs| > 0
    && forall i :: 0 <= i < |fs| ==>
         if i % 2 == 0 then fs[i].File? && fs[i].id == i / 2 else fs[i].FreeSpace?
  }

  predicate FileSizesPositive(fs: seq<FsObject>)
  {
    forall i :: 0 <= i < |fs| && fs[i].File? ==> fs[i].size >= 1
  }

  /**
   * Parses the disk map up to the first newline. `None` stands for the panic on
   * any other character than a digit.
   */
  method ParseDiskMap(input: string) returns (r: Option<seq<FsObject>>)
    ensures r.None? <==> exists i :: 0 <= i < LineEnd(input) && !IsDigit(input[i])
    ensures r.Some? ==> |r.value| == LineEnd(input)
    ensures r.Some? ==> forall i :: 0 <= i < |r.value| ==>
                          IsDigit(input[i]) && r.value[i] == DiskEntry(i, input[i])
    ensures r.Some? && LineEnd(input) > 0 ==> IsDiskMap(r.value)
  {
    var filesystem: seq<FsObject> := [];
    var id: nat := 0;
    var idx := 0;
    while idx < |input|
      invariant idx <= LineEnd(input)
      invariant id == (idx + 1) / 2
      invariant |filesystem| == idx
      invariant forall i :: 0 <= i < idx ==> IsDigit(input[i]) && filesystem[i] == DiskEntry(i, input[i])
    {
      var c := input[idx];
      if c == '\n' {
        break;
      }
      if !IsDigit(c) {
        return None;
      }
      var n := (c as int - '0' as int) as nat;
      if idx % 2 == 0 {
        filesystem := filesystem + [File(id, n)];
        id := id + 1;
      } else {
        filesystem := filesystem + [FreeSpace(n)];
      }
      idx := idx + 1;
    }
    assert idx == LineEnd(input);
    return Some(filesystem);
  }

  // ---------------------------------------------------------------------------
  // Expanding the filesystem into blocks

  function Blocks(obj: FsObject): seq<Block>
  {
    match obj
    case File(id, size) => seq(size, _ => Some(id))
    case FreeSpace(size) => seq(size, _ => None)
  }

  /** Total number of blocks the filesystem occupies. */
  function TotalSize(fs: seq<FsObject>): nat
  {
    if fs == [] then 0 else TotalSize(fs[..|fs| - 1]) + fs[|fs| - 1].size
  }

  /** The expanded block list: each object's blocks, in order. */
  function IdList(fs: seq<FsObject>): (v: seq<Block>)
    ensures |v| == TotalSize(fs)
  {
    if fs == [] then [] else IdList(fs[..|fs| - 1]) + Blocks(fs[|fs| - 1])
  }

  method FilesystemToIdList(fs: seq<FsObject>) returns (v: seq<Block>)
    ensures v == IdList(fs)
    ensures |v| == TotalSize(fs)
  {
    v := [];
    for i := 0 to |fs|
      invariant v == IdList(fs[..i])
    {
      assert fs[..i + 1][..i] == fs[..i];
      match fs[i]
      case File(id, size) => v := v + seq(size, _ => Some(id));
      case FreeSpace(size) => v := v + seq(size, _ => None);
    }
    assert fs[..|fs|] == fs;
  }

  lemma {:induction false} TotalSizeMonotone(fs: seq<FsObject>, i: nat, j: nat)
    requires i < j <= |fs|
    ensures TotalSize(fs[..i]) + fs[i].size <= TotalSize(fs[..j])
    decreases j
  {
    assert fs[..i + 1][..i] == fs[..i];
    if j > i + 1 {
      TotalSizeMonotone(fs, i, j - 1);
      assert fs[..j][..j - 1] == fs[..j - 1];
    }
  }

  /** The index of the object that block `k` belongs to, with where that object starts. */
  function Owner(fs: seq<FsObject>, k: nat): (j: nat)
    requires k < TotalSize(fs)
    ensures j < |fs|
    ensures TotalSize(fs[..j]) <= k < TotalSize(fs[..j]) + fs[j].size
    ensures IdList(fs)[k] == if fs[j].File? then Some(fs[j].id) else None
    decreases |fs|
  {
    var n := |fs| - 1;
    if k >= TotalSize(fs[..n]) then
      n
    else
      var j := Owner(fs[..n], k);
      assert fs[..n][..j] == fs[..j];
      j
  }

  // ---------------------------------------------------------------------------
  // Part 1: block-by-block compaction

  /** Index of the first free block, or `|s|` when there is none. */
  function FirstNone(s: seq<Block>): (i: nat)
    ensures i <= |s|
    ensures forall k :: 0 <= k < i ==> s[k].Some?
    ensures i < |s| ==> s[i].None?
  {
    if s == [] || s[0].None? then 0 else 1 + FirstNone(s[1..])
  }

  /** Index of the last file block, or -1 when there is none. */
  function LastSome(s: seq<Block>): (j: int)
    ensures -1 <= j < |s|
    ensures forall k :: j < k < |s| ==> s[k].None?
    ensures j >= 0 ==> s[j].Some?
  {
    if s == [] then -1 else if s[|s| - 1].Some? then |s| - 1 else LastSome(s[..|s| - 1])
  }

  /** Both `unwrap`s in the compaction loop succeed: some file block and some free block exist. */
  predicate CanCompact(s: seq<Block>)
  {
    LastSome(s) >= 0 && FirstNone(s) < |s|
  }

  /** No free block comes before a file block. */
  predicate IsCompact(s: seq<Block>)
  {
    forall i, j :: 0 <= i < j < |s| && s[i].None? ==> s[j].None?
  }

  /**
   * The compaction loop: while the first free block precedes the last file block,
   * move that file block into the free block.
   */
  function Compact(s: seq<Block>): (r: seq<Block>)
    requires CanCompact(s)
    ensures |r| == |s|
    ensures multiset(r) == multiset(s)
    ensures IsCompact(r)
    decreases LastSome(s)
  {
    var first, last := FirstNone(s), LastSome(s);
    if first > last then
      s
    else
      var t := s[first := s[last]][last := None];
      assert t[first].Some?;
      Compact(t)
  }

  /**
   * Compacts the id list in place. `panicked` stands for the `unwrap` panics when the
   * list has no file block or no free block; the list is then left as it was.
   */
  method CompactFsIdList(a: array<Block>) returns (panicked: bool)
    modifies a
    ensures panicked <==> !CanCompact(old(a[..]))
    ensures panicked ==> a[..] == old(a[..])
    ensures !panicked ==> a[..] == Compact(old(a[..]))
  {
    if !CanCompact(a[..]) {
      return true;
    }
    panicked := false;
    while true
      invariant CanCompact(a[..])
      invariant Compact(a[..]) == Compact(old(a[..]))
      decreases LastSome(a[..])
    {
      var lastFileIdx := LastSome(a[..]);
      var firstFreeIdx := FirstNone(a[..]);
      if firstFreeIdx > lastFileIdx {
        break;
      }
      ghost var before := a[..];
      a[firstFreeIdx] := a[lastFileIdx];
      a[lastFileIdx] := None;
      assert a[..] == before[firstFreeIdx := before[lastFileIdx]][lastFileIdx := None];
    }
  }

  // ---------------------------------------------------------------------------
  // Part 2: whole-file defragmentation

  /** Blocks `at .. at + size` are all free. */
  predicate AllFree(s: seq<Block>, at: nat, size: nat)
    requires at + size <= |s|
  {
    forall k :: at <= k < at + size ==> s[k].None?
  }

  function FirstFitFrom(s: seq<Block>, size: nat, limit: nat, i: nat): (r: Option<nat>)
    ensures r.Some? ==> i <= r.value < limit && r.value + size <= |s| && AllFree(s, r.value, size)
    decreases limit - i
  {
    if i >= limit || i + size > |s| then None
    else if AllFree(s, i, size) then Some(i)
    else FirstFitFrom(s, size, limit, i + 1)
  }

  lemma {:induction false} FirstFitFromLeast(s: seq<Block>, size: nat, limit: nat, i: nat)
    ensures FirstFitFrom(s, size, limit, i).Some? ==>
              forall w :: i <= w < FirstFitFrom(s, size, limit, i).value && w + size <= |s| ==> !AllFree(s, w, size)
    ensures FirstFitFrom(s, size, limit, i).None? ==>
              forall w :: i <= w < limit && w + size <= |s| ==> !AllFree(s, w, size)
    decreases limit - i
  {
    if i < limit && i + size <= |s| && !AllFree(s, i, size) {
      FirstFitFromLeast(s, size, limit, i + 1);
    }
  }

  /**
   * The first window of `size` free blocks among the first `limit` windows
   * (`windows(size).enumerate().take(limit).find_map(..)`).
   */
  function FirstFit(s: seq<Block>, size: nat, limit: nat): (r: Option<nat>)
    ensures r.Some? ==> r.value < limit && r.value + size <= |s| && AllFree(s, r.value, size)
  {
    FirstFitFrom(s, size, limit, 0)
  }

  /** `FirstFit` finds the leftmost fitting window, and `None` means no window left of `limit` fits. */
  lemma FirstFitLeast(s: seq<Block>, size: nat, limit: nat)
    ensures FirstFit(s, size, limit).Some? ==>
              forall w: nat :: w < FirstFit(s, size, limit).value && w + size <= |s| ==> !AllFree(s, w, size)
    ensures FirstFit(s, size, limit).None? ==>
              forall w: nat :: w < limit && w + size <= |s| ==> !AllFree(s, w, size)
  {
    FirstFitFromLeast(s, size, limit, 0);
  }

  /** Writes `id` into the window at `to`, then frees the file's blocks at `from`. */
  function Relocate(s: seq<Block>, from: nat, to: nat, size: nat, id: nat): (r: seq<Block>)
    requires from + size <= |s| && to + size <= |s|
    ensures |r| == |s|
  {
    seq(|s|, k requires 0 <= k < |s| =>
      if from <= k < from + size then None
      else if to <= k < to + size then Some(id)
      else s[k])
  }

  /** One file's turn: move it into the first window that fits left of its start, if any. */
  function MoveFile(s: seq<Block>, start: nat, size: nat, id: nat): (r: seq<Block>)
    requires start + size <= |s|
    ensures |r| == |s|
  {
    match FirstFit(s, size, start)
    case None => s
    case Some(to) => Relocate(s, start, to, size, id)
  }

  function NumFiles(fs: seq<FsObject>): nat
  {
    (|fs| + 1) / 2
  }

  /** `id_start_idx_map`: where each file starts in the original expanded list. */
  function StartTable(fs: seq<FsObject>): (t: seq<nat>)
    ensures |t| == NumFiles(fs)
  {
    seq(NumFiles(fs), id requires 0 <= id < NumFiles(fs) => TotalSize(fs[..2 * id]))
  }

  /** `size_map`: the size of each file. */
  function SizeTable(fs: seq<FsObject>): (t: seq<nat>)
    ensures |t| == NumFiles(fs)
  {
    seq(NumFiles(fs), id requires 0 <= id < NumFiles(fs) => fs[2 * id].size)
  }

  /** Every file's extent, as the tables give it, lies within a list of `n` blocks. */
  predicate Fits(n: nat, starts: seq<nat>, sizes: seq<nat>)
  {
    |starts| == |sizes| && forall id :: 0 <= id < |starts| ==> starts[id] + sizes[id] <= n
  }

  lemma TablesFit(fs: seq<FsObject>)
    ensures Fits(TotalSize(fs), StartTable(fs), SizeTable(fs))
  {
    assert fs[..|fs|] == fs;
    forall id | 0 <= id < NumFiles(fs) ensures StartTable(fs)[id] + SizeTable(fs)[id] <= TotalSize(fs) {
      TotalSizeMonotone(fs, 2 * id, |fs|);
    }
  }

  /** Files `cur`, `cur - 1`, ..., `0` each take their turn, starting from `s`. */
  function DefragFrom(s: seq<Block>, starts: seq<nat>, sizes: seq<nat>, cur: nat): (r: seq<Block>)
    requires cur < |starts| && Fits(|s|, starts, sizes)
    ensures |r| == |s|
    decreases cur
  {
    var t := MoveFile(s, starts[cur], sizes[cur], cur);
    if cur == 0 then t else DefragFrom(t, starts, sizes, cur - 1)
  }

  lemma DefragFromStep(s: seq<Block>, t: seq<Block>, starts: seq<nat>, sizes: seq<nat>, cur: nat)
    requires 0 < cur < |starts| && Fits(|s|, starts, sizes)
    requires t == MoveFile(s, starts[cur], sizes[cur], cur)
    ensures |t| == |s| && DefragFrom(s, starts, sizes, cur) == DefragFrom(t, starts, sizes, cur - 1)
  {
  }

  /** The result of part 2: every file, from the highest id down, takes one turn. */
  function Defrag(fs: seq<FsObject>): seq<Block>
    requires IsDiskMap(fs)
  {
    TablesFit(fs);
    DefragFrom(IdList(fs), StartTable(fs), SizeTable(fs), NumFiles(fs) - 1)
  }

  /** The id of the last file, as `filter_map(..).last()` finds it. */
  function LastFileId(fs: seq<FsObject>): (r: Option<nat>)
    ensures IsDiskMap(fs) ==> r == Some(NumFiles(fs) - 1)
  {
    if fs == [] then None
    else if fs[|fs| - 1].File? then Some(fs[|fs| - 1].id)
    else
      assert IsDiskMap(fs) ==> |fs| > 1 && IsDiskMap(fs[..|fs| - 1]);
      LastFileId(fs[..|fs| - 1])
  }

  /**
   * The two index tables of part 2: where each file starts in the block list
   * (`id_start_idx_map`) and how large it is (`size_map`).
   */
  method FileTables(fs: seq<FsObject>, maxId: nat) returns (starts: array<nat>, sizes: map<nat, nat>)
    requires IsDiskMap(fs) && maxId == NumFiles(fs) - 1
    ensures fresh(starts) && starts[..] == StartTable(fs)
    ensures forall id :: 0 <= id <= maxId ==> id in sizes && sizes[id] == SizeTable(fs)[id]
  {
    starts := new nat[maxId + 1];
    sizes := map[];
    var idx := 0;
    for i := 0 to |fs|
      invariant idx == TotalSize(fs[..i])
      invariant forall id :: 0 <= id <= maxId && 2 * id < i ==> starts[id] == StartTable(fs)[id]
      invariant forall id :: 0 <= id <= maxId && 2 * id < i ==> id in sizes && sizes[id] == SizeTable(fs)[id]
    {
      assert fs[..i + 1][..i] == fs[..i];
      match fs[i]
      case File(id, size) =>
        assert 2 * id == i && StartTable(fs)[id] == idx && SizeTable(fs)[id] == size;
        starts[id] := idx;
        sizes := sizes[id := size];
        idx := idx + size;
      case FreeSpace(size) =>
        idx := idx + size;
    }
    assert starts[..] == StartTable(fs);
  }

  /** One file's turn, in place: fill the first fitting window, then free the old extent. */
  method MoveFileInPlace(a: array<Block>, start: nat, size: nat, id: nat)
    requires start + size <= a.Length
    modifies a
    ensures a[..] == MoveFile(old(a[..]), start, size, id)
  {
    var fit := FirstFit(a[..], size, start);
    if fit.Some? {
      var empty := fit.value;
      for offset := 0 to size
        invariant forall k :: 0 <= k < a.Length ==>
                    a[k] == if empty <= k < empty + offset then Some(id) else old(a[k])
      {
        a[empty + offset] := Some(id);
      }
      for offset := 0 to size
        invariant forall k :: 0 <= k < a.Length ==>
                    a[k] == if start <= k < start + offset then None
                            else if empty <= k < empty + size then Some(id)
                            else old(a[k])
      {
        a[start + offset] := None;
      }
      assert a[..] == Relocate(old(a[..]), start, empty, size, id);
    }
  }

  /** The pass over the files from the highest id down to 0, in place on the block list. */
  method DefragPass(a: array<Block>, starts: array<nat>, sizes: map<nat, nat>, ghost sizeTable: seq<nat>)
    requires starts.Length > 0 && Fits(a.Length, starts[..], sizeTable)
    requires forall id :: 0 <= id < |sizeTable| ==> id in sizes && sizes[id] == sizeTable[id]
    modifies a
    ensures a[..] == DefragFrom(old(a[..]), starts[..], sizeTable, starts.Length - 1)
  {
    ghost var startTable := starts[..];
    ghost var target := DefragFrom(a[..], startTable, sizeTable, starts.Length - 1);
    var cur: nat := starts.Length - 1;
    while true
      invariant cur < starts.Length && starts[..] == startTable
      invariant DefragFrom(a[..], startTable, sizeTable, cur) == target
      decreases cur
    {
      ghost var before := a[..];
      ghost var start, size := startTable[cur], sizeTable[cur];
      assert start + size <= a.Length && starts[cur] == start && sizes[cur] == size;
      MoveFileInPlace(a, starts[cur], sizes[cur], cur);
      if cur == 0 {
        break;
      }
      DefragFromStep(before, a[..], startTable, sizeTable, cur);
      cur := cur - 1;
    }
  }

  /**
   * Part 2 as the source runs it: index tables for file starts and sizes, then an
   * in-place pass over the block list from the highest id down to 0.
   */
  method DefragFs(fs: seq<FsObject>) returns (r: seq<Block>)
    requires IsDiskMap(fs) && FileSizesPositive(fs)
    ensures r == Defrag(fs)
  {
    var maxId := LastFileId(fs).value;
    var starts, sizes := FileTables(fs, maxId);
    var v := FilesystemToIdList(fs);
    var a := new Block[|v|];
    forall k | 0 <= k < |v| {
      a[k] := v[k];
    }
    assert a[..] == v;
    TablesFit(fs);
    ghost var startTable, sizeTable := StartTable(fs), SizeTable(fs);
    assert starts[..] == startTable && starts.Length - 1 == maxId;
    DefragPass(a, starts, sizes, sizeTable);
    assert a[..] == DefragFrom(v, startTable, sizeTable, maxId);
    r := a[..];
  }

  // ---------------------------------------------------------------------------
  // Properties of part 2

  /** Block `k` lies inside the original extent of file `id`. */
  predicate InFile(starts: seq<nat>, sizes: seq<nat>, id: nat, k: nat)
  {
    id < |starts| && id < |sizes| && starts[id] <= k < starts[id] + sizes[id]
  }

  /** In the expanded list of a disk map, every block of file `id`'s extent holds `Some(id)`. */
  lemma IdListOnFile(fs: seq<FsObject>, id: nat, k: nat)
    requires IsDiskMap(fs) && InFile(StartTable(fs), SizeTable(fs), id, k)
    ensures k < |IdList(fs)| && IdList(fs)[k] == Some(id)
  {
    assert fs[..|fs|] == fs;
    ghost var f := 2 * id;
    ghost var start := TotalSize(fs[..f]);
    assert StartTable(fs)[id] == start && SizeTable(fs)[id] == fs[f].size;
    assert fs[f].File? && fs[f].id == id;
    TotalSizeMonotone(fs, f, |fs|);
    ghost var j := Owner(fs, k);
    if j < f {
      TotalSizeMonotone(fs, j, f);
      assert false;
    } else if j > f {
      TotalSizeMonotone(fs, f, j);
      assert false;
    }
  }

  /** ... and every file block of the expanded list lies on the extent of the file it names. */
  lemma IdListBlockInFile(fs: seq<FsObject>, k: nat)
    requires IsDiskMap(fs) && k < |IdList(fs)| && IdList(fs)[k].Some?
    ensures InFile(StartTable(fs), SizeTable(fs), IdList(fs)[k].value, k)
  {
    var j := Owner(fs, k);
    assert j % 2 == 0;
  }

  /** Files `0 ..= cur` still sit, untouched, on their original extents. */
  ghost predicate FilesIntact(s: seq<Block>, starts: seq<nat>, sizes: seq<nat>, cur: nat)
  {
    forall id: nat, k: nat {:trigger InFile(starts, sizes, id, k)} ::
      id <= cur && InFile(starts, sizes, id, k) ==> k < |s| && s[k] == Some(id)
  }

  /** Moving a whole file into an all-free window is a series of swaps, so no block is lost. */
  lemma {:induction false} RelocatePreservesBlocks(s: seq<Block>, from: nat, to: nat, size: nat, id: nat)
    requires from + size <= |s| && to + size <= |s|
    requires to + size <= from || from + size <= to
    requires forall k :: from <= k < from + size ==> s[k] == Some(id)
    requires AllFree(s, to, size)
    ensures multiset(Relocate(s, from, to, size, id)) == multiset(s)
  {
    if size > 0 {
      var n := size - 1;
      RelocatePreservesBlocks(s, from, to, n, id);
      var u := Relocate(s, from, to, n, id);
      assert u[from + n] == Some(id);
      assert u[to + n] == None;
      var w := u[from + n := None][to + n := Some(id)];
      var r := Relocate(s, from, to, size, id);
      assert |w| == |r|;
      forall k | 0 <= k < |r| ensures w[k] == r[k] {
      }
      assert w == r;
    } else {
      assert Relocate(s, from, to, size, id) == s;
    }
  }

  /**
   * A file's turn never loses or duplicates a block, and the files still waiting stay
   * intact: the window it moves into is free, so it is disjoint from their extents.
   */
  lemma MoveFileStep(s: seq<Block>, starts: seq<nat>, sizes: seq<nat>, cur: nat)
    requires cur < |starts| && Fits(|s|, starts, sizes) && sizes[cur] >= 1
    requires FilesIntact(s, starts, sizes, cur)
    ensures multiset(MoveFile(s, starts[cur], sizes[cur], cur)) == multiset(s)
    ensures cur > 0 ==> FilesIntact(MoveFile(s, starts[cur], sizes[cur], cur), starts, sizes, cur - 1)
  {
    var start, size := starts[cur], sizes[cur];
    var fit := FirstFit(s, size, start);
    if fit.Some? {
      var to := fit.value;
      forall k | start <= k < start + size ensures s[k] == Some(cur) {
        assert InFile(starts, sizes, cur, k);
      }
      assert s[start] == Some(cur);
      assert to + size <= start;
      RelocatePreservesBlocks(s, start, to, size, cur);
      var t := Relocate(s, start, to, size, cur);
      forall id: nat, k: nat | id <= cur - 1 && InFile(starts, sizes, id, k) ensures k < |t| && t[k] == Some(id) {
        assert s[k] == Some(id);
        assert !(start <= k < start + size);
      }
    }
  }

  /** What a pass over files `cur`, ..., `0` needs: extents that fit, non-empty files, all in place. */
  ghost predicate DefragReady(s: seq<Block>, starts: seq<nat>, sizes: seq<nat>, cur: nat)
  {
    && cur < |starts| && Fits(|s|, starts, sizes)
    && (forall id :: 0 <= id < |sizes| ==> sizes[id] >= 1)
    && FilesIntact(s, starts, sizes, cur)
  }

  lemma {:induction false} DefragFromPreservesBlocks(s: seq<Block>, starts: seq<nat>, sizes: seq<nat>, cur: nat)
    requires DefragReady(s, starts, sizes, cur)
    ensures multiset(DefragFrom(s, starts, sizes, cur)) == multiset(s)
    decreases cur
  {
    MoveFileStep(s, starts, sizes, cur);
    if cur > 0 {
      DefragFromPreservesBlocks(MoveFile(s, starts[cur], sizes[cur], cur), starts, sizes, cur - 1);
    }
  }

  /** Before defragmentation every file sits on its own extent. */
  lemma IdListIntact(fs: seq<FsObject>)
    requires IsDiskMap(fs)
    ensures FilesIntact(IdList(fs), StartTable(fs), SizeTable(fs), NumFiles(fs) - 1)
  {
    forall id: nat, k: nat | id <= NumFiles(fs) - 1 && InFile(StartTable(fs), SizeTable(fs), id, k)
      ensures k < |IdList(fs)| && IdList(fs)[k] == Some(id)
    {
      IdListOnFile(fs, id, k);
    }
  }

  /** Part 2 keeps the length of the disk and the multiset of its blocks. */
  lemma DefragPreservesBlocks(fs: seq<FsObject>)
    requires IsDiskMap(fs) && FileSizesPositive(fs)
    ensures |Defrag(fs)| == |IdList(fs)|
    ensures multiset(Defrag(fs)) == multiset(IdList(fs))
  {
    ghost var v, st, sz, n := IdList(fs), StartTable(fs), SizeTable(fs), NumFiles(fs) - 1;
    DiskMapReady(fs);
    assert DefragReady(v, st, sz, n);
    DefragFromPreservesBlocks(v, st, sz, n);
    assert Defrag(fs) == DefragFrom(v, st, sz, n);
  }

  lemma DiskMapReady(fs: seq<FsObject>)
    requires IsDiskMap(fs) && FileSizesPositive(fs)
    ensures DefragReady(IdList(fs), StartTable(fs), SizeTable(fs), NumFiles(fs) - 1)
  {
    TablesFit(fs);
    IdListIntact(fs);
    SizeTablePositive(fs);
  }

  lemma SizeTablePositive(fs: seq<FsObject>)
    requires IsDiskMap(fs) && FileSizesPositive(fs)
    ensures forall id :: 0 <= id < |SizeTable(fs)| ==> SizeTable(fs)[id] >= 1
  {
    forall id | 0 <= id < |SizeTable(fs)| ensures SizeTable(fs)[id] >= 1 {
      assert fs[2 * id].File?;
    }
  }

  // ---------------------------------------------------------------------------
  // Checksum

  function BlockId(b: Block): nat
  {
    match b
    case Some(id) => id
    case None => 0
  }

  /** Sum over blocks of `index * id`, free blocks counting as 0. */
  function Checksum(s: seq<Block>): nat
  {
    if s == [] then 0 else Checksum(s[..|s| - 1]) + (|s| - 1) * BlockId(s[|s| - 1])
  }

  /** Each file block contributes exactly `index * id`: freeing it lowers the checksum by that. */
  lemma {:induction false} ChecksumBlockContribution(s: seq<Block>, k: nat)
    requires k < |s| && s[k].Some?
    ensures Checksum(s) == Checksum(s[k := None]) + k * s[k].value
  {
    var n := |s| - 1;
    if k == n {
      assert s[k := None][..n] == s[..n];
    } else {
      ChecksumBlockContribution(s[..n], k);
      assert s[k := None][..n] == s[..n][k := None];
    }
  }

  /** A disk with only free blocks has checksum 0. */
  lemma {:induction false} ChecksumOfFreeDisk(s: seq<Block>)
    requires forall k :: 0 <= k < |s| ==> s[k].None?
    ensures Checksum(s) == 0
  {
    if s != [] {
      ChecksumOfFreeDisk(s[..|s| - 1]);
    }
  }
}
