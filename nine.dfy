/**
 * Day nine: a disk map of digits that alternate between file lengths and
 * free-space lengths. Part one moves single blocks from the end of the disk
 * into the leftmost free block; part two moves whole files, highest address
 * first, into the leftmost free span large enough to hold them. Both answer
 * with a checksum: the sum of address times file id over the file blocks.
 */
module Nine {
  import opened Grids
  import Arith

  /** A digit of the disk map; the parser only yields 0 through 9. */
  type Digit = d: nat | d <= 9

  /** `FsBlock`: one block of the expanded disk. */
  datatype Block = File(id: nat) | Empty

  function DigitSum(input: seq<Digit>): nat
  {
    if input == [] then 0 else DigitSum(input[..|input| - 1]) + input[|input| - 1]
  }

  /** The blocks digit number `k` stands for: `d` blocks of file `k / 2` when `k` is even, free ones otherwise. */
  function Run(k: nat, d: nat): (r: seq<Block>)
    ensures |r| == d
    ensures forall i :: 0 <= i < d ==> r[i] == (if k % 2 == 0 then File(k / 2) else Empty)
  {
    seq(d, _ => if k % 2 == 0 then File(k / 2) else Empty)
  }

  /** The expanded disk: the runs of all digits, one after another. */
  function Layout(input: seq<Digit>): (r: seq<Block>)
    ensures |r| == DigitSum(input)
  {
    if input == [] then [] else Layout(input[..|input| - 1]) + Run(|input| - 1, input[|input| - 1])
  }

  /** How the parity of a digit's position and half of it move on to the next position. */
  lemma ParityStep(k: nat)
    ensures (k % 2 == 0) != ((k + 1) % 2 == 0)
    ensures k % 2 == 0 ==> (k + 1) / 2 == k / 2
    ensures k % 2 != 0 ==> (k + 1) / 2 == k / 2 + 1
  {
    if k % 2 == 0 {
      Arith.DivModUnique(k + 1, 2, k / 2, 1);
    } else {
      Arith.DivModUnique(k + 1, 2, k / 2 + 1, 0);
    }
  }

  /** `Fs::from_input`: pushes `d` blocks per digit, alternating file and free, numbering the files 0, 1, 2, … */
  lemma LayoutStep(input: seq<Digit>, k: nat)
    requires k < |input|
    ensures Layout(input[..k + 1]) == Layout(input[..k]) + Run(k, input[k])
  {
    assert input[..k + 1][..k] == input[..k];
  }

  lemma RunStep(k: nat, c: nat)
    ensures Run(k, c + 1) == Run(k, c) + [if k % 2 == 0 then File(k / 2) else Empty]
  {
  }

  /** `Fs::from_input`: pushes `d` blocks per digit, alternating file and free, numbering the files 0, 1, 2, … */
  method FromInput(input: seq<Digit>) returns (fs: seq<Block>)
    ensures fs == Layout(input)
  {
    fs := [];
    var id: nat := 0;
    var file := true;
    for k := 0 to |input|
      invariant fs == Layout(input[..k])
      invariant file <==> k % 2 == 0
      invariant file ==> id == k / 2
      invariant !file ==> id == k / 2 + 1
    {
      var d := input[k];
      LayoutStep(input, k);
      ParityStep(k);
      ghost var before := fs;
      for c := 0 to d
        invariant fs == before + Run(k, c)
      {
        RunStep(k, c);
        if file {
          fs := fs + [File(id)];
        } else {
          fs := fs + [Empty];
        }
      }
      if file {
        id := id + 1;
      }
      file := !file;
    }
    assert input[..|input|] == input;
  }

  /** Digit `k` describes file `id` exactly when `k == 2 * id`. */
  lemma FileDigit(k: nat, id: nat)
    ensures (k % 2 == 0 && k / 2 == id) <==> k == 2 * id
  {
    if k == 2 * id {
      Arith.DivModUnique(k, 2, id, 0);
    }
    if k % 2 == 0 && k / 2 == id {
      Arith.DivModUnique(k, 2, k / 2, k % 2);
    }
  }

  lemma RunCount(k: nat, d: nat, id: nat)
    ensures multiset(Run(k, d))[File(id)] == if k == 2 * id then d else 0
  {
    FileDigit(k, id);
    if d > 0 {
      RunCount(k, d - 1, id);
      assert Run(k, d) == Run(k, d - 1) + [Run(k, d)[d - 1]];
    } else {
      assert Run(k, d) == [];
    }
  }

  /** File `id` occupies as many blocks as the digit at position `2 * id` says, and no file has a larger id. */
  lemma {:induction false} LayoutFileBlocks(input: seq<Digit>, id: nat)
    ensures multiset(Layout(input))[File(id)] == if 2 * id < |input| then input[2 * id] else 0
  {
    if input != [] {
      var n := |input| - 1;
      LayoutFileBlocks(input[..n], id);
      RunCount(n, input[n], id);
      assert Layout(input) == Layout(input[..n]) + Run(n, input[n]);
      assert multiset(Layout(input)) == multiset(Layout(input[..n])) + multiset(Run(n, input[n]));
      if 2 * id < n {
        assert input[..n][2 * id] == input[2 * id];
      }
    }
  }

  /** Every file block of `l` has an id whose digit position `2 * id` lies below `bound`. */
  predicate IdsBelow(l: seq<Block>, bound: nat)
  {
    forall i :: 0 <= i < |l| && l[i].File? ==> 2 * l[i].id < bound
  }

  predicate IdsOrdered(l: seq<Block>)
  {
    forall i, j :: 0 <= i < j < |l| && l[i].File? && l[j].File? ==> l[i].id <= l[j].id
  }

  /** File ids never decrease along the disk: the files are numbered in the order they appear. */
  lemma {:induction false} LayoutIdsOrdered(input: seq<Digit>)
    ensures IdsBelow(Layout(input), |input|) && IdsOrdered(Layout(input))
  {
    if input != [] {
      var n := |input| - 1;
      LayoutIdsOrdered(input[..n]);
      var a: seq<Block>, r: seq<Block> := Layout(input[..n]), Run(n, input[n]);
      assert IdsBelow(a, n) && IdsOrdered(a);
      assert Layout(input) == a + r;
      forall i | 0 <= i < |a + r| && (a + r)[i].File?
        ensures 2 * (a + r)[i].id < |input|
      {
        if i < |a| {
          assert (a + r)[i] == a[i];
        } else {
          assert (a + r)[i] == r[i - |a|];
        }
      }
      forall i: int, j: int | 0 <= i < j < |a + r| && (a + r)[i].File? && (a + r)[j].File?
        ensures (a + r)[i].id <= (a + r)[j].id
      {
        if i < |a| && j >= |a| {
          assert (a + r)[i] == a[i] && (a + r)[j] == r[j - |a|];
          assert n % 2 == 0 && (a + r)[j].id == n / 2;
          assert 2 * a[i].id < n;
        } else if i < |a| {
          assert (a + r)[i] == a[i] && (a + r)[j] == a[j];
        } else {
          assert (a + r)[i] == r[i - |a|] && (a + r)[j] == r[j - |a|];
        }
      }
    }
  }

  predicate HasFile(s: seq<Block>)
  {
    exists i :: 0 <= i < |s| && s[i].File?
  }

  lemma FileBlockDigit(input: seq<Digit>, i: nat)
    requires i < |Layout(input)| && Layout(input)[i].File?
    ensures var id := Layout(input)[i].id; 2 * id < |input| && input[2 * id] > 0
  {
    var l := Layout(input);
    LayoutFileBlocks(input, l[i].id);
    assert l[i] in multiset(l);
  }

  lemma DigitFileBlock(input: seq<Digit>, id: nat)
    requires 2 * id < |input| && input[2 * id] > 0
    ensures File(id) in Layout(input)
  {
    LayoutFileBlocks(input, id);
    assert File(id) in multiset(Layout(input));
  }

  /** A disk has a file block exactly when some file digit (one at an even position) is non-zero. */
  lemma LayoutHasFile(input: seq<Digit>)
    ensures HasFile(Layout(input)) <==> exists id: nat :: 2 * id < |input| && input[2 * id] > 0
  {
    var l := Layout(input);
    if HasFile(l) {
      var i :| 0 <= i < |l| && l[i].File?;
      FileBlockDigit(input, i);
    }
    if id: nat :| 2 * id < |input| && input[2 * id] > 0 {
      DigitFileBlock(input, id);
      var i :| 0 <= i < |l| && l[i] == File(id);
      assert l[i].File?;
    }
  }

  lemma HasFileMultiset(s: seq<Block>, t: seq<Block>)
    requires multiset(s) == multiset(t)
    ensures HasFile(s) <==> HasFile(t)
  {
    if HasFile(s) {
      var i :| 0 <= i < |s| && s[i].File?;
      assert s[i] in multiset(t);
    }
    if HasFile(t) {
      var i :| 0 <= i < |t| && t[i].File?;
      assert t[i] in multiset(s);
    }
  }

  function Weight(i: nat, b: Block): nat
  {
    match b
    case File(id) => i * id
    case Empty => 0
  }

  /** `Fs::checksum`: the sum of position times id over the file blocks; free blocks add nothing. */
  function Checksum(s: seq<Block>): nat
  {
    if s == [] then 0 else Checksum(s[..|s| - 1]) + Weight(|s| - 1, s[|s| - 1])
  }

  /** A disk of free blocks only has checksum zero. */
  lemma {:induction false} ChecksumNoFile(s: seq<Block>)
    requires !HasFile(s)
    ensures Checksum(s) == 0
  {
    if s != [] {
      var n := |s| - 1;
      assert !s[n].File?;
      ChecksumNoFile(s[..n]);
    }
  }

  lemma {:induction false} ChecksumUpdate(s: seq<Block>, i: nat, b: Block)
    requires i < |s|
    ensures Checksum(s[i := b]) + Weight(i, s[i]) == Checksum(s) + Weight(i, b)
  {
    var n := |s| - 1;
    if i < n {
      assert s[i := b][..n] == s[..n][i := b];
      ChecksumUpdate(s[..n], i, b);
    } else {
      assert s[i := b][..n] == s[..n];
    }
  }

  /**
   * Every swap `part_one` makes moves a file block from position `j` down to
   * a free position `i`, lowering the checksum by `(j - i) * id`.
   */
  lemma SwapLowersChecksum(s: seq<Block>, i: nat, j: nat)
    requires i < j < |s| && s[i] == Empty && s[j].File?
    ensures Checksum(s[i := s[j]][j := Empty]) + j * s[j].id == Checksum(s) + i * s[j].id
  {
    ChecksumUpdate(s, i, s[j]);
    ChecksumUpdate(s[i := s[j]], j, Empty);
  }

  /** Every file block precedes every free block. */
  predicate Compacted(s: seq<Block>)
  {
    forall i, j :: 0 <= i < j < |s| && s[i] == Empty ==> s[j] == Empty
  }

  /** The position of the first free block, or `|s|` when there is none. */
  function FirstEmpty(s: seq<Block>): (j: nat)
    ensures j <= |s|
  {
    if s == [] then 0 else if s[0] == Empty then 0 else 1 + FirstEmpty(s[1..])
  }

  /** The length of the disk without its trailing free blocks: one past the last file block, or 0. */
  function FileEnd(s: seq<Block>): (k: nat)
    ensures k <= |s|
  {
    if s == [] then 0 else if s[|s| - 1].File? then |s| else FileEnd(s[..|s| - 1])
  }

  lemma {:induction false} FirstEmptyFacts(s: seq<Block>)
    ensures FirstEmpty(s) < |s| ==> s[FirstEmpty(s)] == Empty
    ensures forall q :: 0 <= q < FirstEmpty(s) ==> s[q] != Empty
  {
    if s != [] && s[0] != Empty {
      FirstEmptyFacts(s[1..]);
      forall q | 0 <= q < FirstEmpty(s)
        ensures s[q] != Empty
      {
        if q > 0 {
          assert s[q] == s[1..][q - 1];
        }
      }
    }
  }

  lemma {:induction false} FileEndFacts(s: seq<Block>)
    ensures FileEnd(s) > 0 ==> s[FileEnd(s) - 1].File?
    ensures forall p :: FileEnd(s) <= p < |s| ==> s[p] == Empty
  {
    if s != [] && !s[|s| - 1].File? {
      var m := |s| - 1;
      FileEndFacts(s[..m]);
      forall p | FileEnd(s) <= p < |s|
        ensures s[p] == Empty
      {
        if p < m {
          assert s[p] == s[..m][p];
        }
      }
    }
  }

  lemma {:induction false} FileEndAtMost(s: seq<Block>, m: nat)
    requires m <= |s| && forall p :: m <= p < |s| ==> s[p] == Empty
    ensures FileEnd(s) <= m
  {
    if m < |s| {
      var n := |s| - 1;
      assert s[n] == Empty;
      FileEndAtMost(s[..n], m);
    }
  }

  /** Moving the last file block into an earlier free block shortens the disk without its trailing free space. */
  lemma StepShrinks(s: seq<Block>, j: nat, k: nat)
    requires k == FileEnd(s) && 0 < k && j < k - 1
    ensures FileEnd(s[j := s[k - 1]][k - 1 := Empty]) < k
  {
    FileEndFacts(s);
    FileEndAtMost(s[j := s[k - 1]][k - 1 := Empty], k - 1);
  }

  /**
   * Compaction as a function of the disk: while the first free block
   * precedes the last file block, that file block moves into it.
   */
  function Compacting(s: seq<Block>): (r: seq<Block>)
    decreases FileEnd(s)
  {
    var k := FileEnd(s);
    var j := FirstEmpty(s);
    if k > 0 && j < k - 1 then
      var t := s[j := s[k - 1]][k - 1 := Empty];
      StepShrinks(s, j, k);
      Compacting(t)
    else
      s
  }

  /** Compaction only rearranges the blocks, and it leaves every file block before every free block. */
  lemma {:induction false} CompactingCompacts(s: seq<Block>)
    ensures multiset(Compacting(s)) == multiset(s)
    ensures Compacted(Compacting(s))
    decreases FileEnd(s)
  {
    var k := FileEnd(s);
    var j := FirstEmpty(s);
    if k > 0 && j < k - 1 {
      var t := s[j := s[k - 1]][k - 1 := Empty];
      StepShrinks(s, j, k);
      FirstEmptyFacts(s);
      CompactingCompacts(t);
      assert t == s[j := s[k - 1]][k - 1 := s[j]];
    } else {
      FileEndFacts(s);
      FirstEmptyFacts(s);
    }
  }

  /** A disk without file blocks is left as it is. */
  lemma CompactingNoFile(s: seq<Block>)
    requires !HasFile(s)
    ensures Compacting(s) == s
  {
    FileEndFacts(s);
  }

  /** The file blocks of `s`, in order. */
  function Files(s: seq<Block>): (r: seq<Block>)
    ensures |r| <= |s|
  {
    if s == [] then [] else Files(s[..|s| - 1]) + (if s[|s| - 1].File? then [s[|s| - 1]] else [])
  }

  function Backwards(s: seq<Block>): (r: seq<Block>)
    ensures |r| == |s|
  {
    if s == [] then [] else [s[|s| - 1]] + Backwards(s[..|s| - 1])
  }

  /** `free` blocks of free space. */
  function Frees(free: nat): seq<Block>
  {
    seq(free, _ => Empty)
  }

  /** The free blocks of `p`, left to right, take the blocks of `donors` in order, while any remain. */
  function Fill(p: seq<Block>, donors: seq<Block>): (r: seq<Block>)
    ensures |r| == |p|
  {
    if p == [] then []
    else if p[0] == Empty && donors != [] then [donors[0]] + Fill(p[1..], donors[1..])
    else [p[0]] + Fill(p[1..], donors)
  }

  /**
   * The compacted disk described from the outside: with `n` the number of
   * file blocks, the free blocks among the first `n` positions are filled, left
   * to right, by the file blocks beyond position `n` taken right to left, and
   * free space follows.
   */
  function CompactSpec(s: seq<Block>): (r: seq<Block>)
  {
    var n := |Files(s)|;
    Fill(s[..n], Backwards(Files(s[n..]))) + Frees(|s| - n)
  }

  lemma {:induction false} FilesAppend(a: seq<Block>, b: seq<Block>)
    ensures Files(a + b) == Files(a) + Files(b)
    decreases |b|
  {
    if b == [] {
      assert a + b == a;
    } else {
      var m := |b| - 1;
      var last := if b[m].File? then [b[m]] else [];
      assert (a + b)[..|a + b| - 1] == a + b[..m];
      assert (a + b)[|a + b| - 1] == b[m];
      assert Files(a + b) == Files(a + b[..m]) + last;
      assert Files(b) == Files(b[..m]) + last;
      FilesAppend(a, b[..m]);
    }
  }

  lemma {:induction false} FilesAllFiles(s: seq<Block>)
    requires forall q :: 0 <= q < |s| ==> s[q] != Empty
    ensures Files(s) == s
  {
    if s != [] {
      FilesAllFiles(s[..|s| - 1]);
    }
  }

  lemma {:induction false} FilesAllFree(s: seq<Block>)
    requires forall q :: 0 <= q < |s| ==> s[q] == Empty
    ensures Files(s) == []
  {
    if s != [] {
      FilesAllFree(s[..|s| - 1]);
    }
  }

  lemma {:induction false} FilesCount(s: seq<Block>)
    ensures |Files(s)| + multiset(s)[Empty] == |s|
  {
    if s != [] {
      var m := |s| - 1;
      FilesCount(s[..m]);
      assert s == s[..m] + [s[m]];
    }
  }

  lemma {:induction false} FillFirst(p: seq<Block>, j: nat, d: Block, rest: seq<Block>)
    requires j < |p| && p[j] == Empty && d != Empty
    requires forall q :: 0 <= q < j ==> p[q] != Empty
    ensures Fill(p[j := d], rest) == Fill(p, [d] + rest)
  {
    if j > 0 {
      FillFirst(p[1..], j - 1, d, rest);
      assert p[j := d][1..] == p[1..][j - 1 := d];
    } else {
      assert p[j := d][1..] == p[1..];
    }
  }

  lemma {:induction false} FillNone(p: seq<Block>)
    ensures Fill(p, []) == p
  {
    if p != [] {
      FillNone(p[1..]);
    }
  }

  /** A stopped compaction is its own description. */
  lemma CompactSpecDone(s: seq<Block>)
    requires FileEnd(s) == 0 || FirstEmpty(s) >= FileEnd(s) - 1
    ensures CompactSpec(s) == s
  {
    var k := FileEnd(s);
    FileEndFacts(s);
    FirstEmptyFacts(s);
    forall q | 0 <= q < k
      ensures s[q] != Empty
    {
      if q + 1 < k {
        assert q < FirstEmpty(s);
      }
    }
    SplitFiles(s, k);
    SettledSpec(s, k);
  }

  /** File blocks up to `k` and free space after it: the description keeps the disk. */
  lemma SettledSpec(s: seq<Block>, k: nat)
    requires k <= |s| && |Files(s)| == k && Files(s[k..]) == []
    requires s[k..] == Frees(|s| - k)
    ensures CompactSpec(s) == s
  {
    FillNone(s[..k]);
    assert s == s[..k] + s[k..];
  }

  /** Only file blocks before `k` and only free blocks from `k` on: `k` file blocks, none of them beyond `k`. */
  lemma SplitFiles(s: seq<Block>, k: nat)
    requires k <= |s|
    requires forall q :: 0 <= q < k ==> s[q] != Empty
    requires forall p :: k <= p < |s| ==> s[p] == Empty
    ensures |Files(s)| == k && Files(s[k..]) == [] && s[k..] == Frees(|s| - k)
  {
    assert s == s[..k] + s[k..];
    FilesAllFiles(s[..k]);
    FilesAllFree(s[k..]);
    FilesAppend(s[..k], s[k..]);
  }

  lemma FilesSingle(b: Block)
    ensures Files([b]) == if b.File? then [b] else []
  {
    assert [b][..0] == [];
  }

  /** The file blocks around position `i`. */
  lemma FilesAround(s: seq<Block>, i: nat)
    requires i < |s|
    ensures Files(s) == Files(s[..i]) + Files([s[i]]) + Files(s[i + 1..])
  {
    Around(s, i);
    FilesAppend(s[..i] + [s[i]], s[i + 1..]);
    FilesAppend(s[..i], [s[i]]);
  }

  lemma Around(s: seq<Block>, i: nat)
    requires i < |s|
    ensures s == s[..i] + [s[i]] + s[i + 1..]
  {
  }

  /** A file block at `f`: at least one file block. */
  lemma FilesSome(s: seq<Block>, f: nat)
    requires f < |s| && s[f] != Empty
    ensures 0 < |Files(s)|
  {
    FilesAround(s, f);
    FilesSingle(s[f]);
  }

  /** A free block at `j`: fewer file blocks than blocks. */
  lemma FilesFewer(s: seq<Block>, j: nat)
    requires j < |s| && s[j] == Empty
    ensures |Files(s)| < |s|
  {
    FilesAround(s, j);
    FilesSingle(s[j]);
  }

  /** The counts behind one step: the first free block lies below `n` and the last file block at or above it. */
  lemma StepBounds(s: seq<Block>, f: nat, j: nat)
    requires j < f < |s| && s[j] == Empty && s[f] != Empty
    requires forall q :: 0 <= q < j ==> s[q] != Empty
    requires forall p :: f < p < |s| ==> s[p] == Empty
    ensures j < |Files(s)| <= f
  {
    FilesAround(s, j);
    FilesSingle(s[j]);
    FilesAllFiles(s[..j]);
    FilesSome(s[j + 1..], f - j - 1);
    FilesAround(s, f);
    FilesSingle(s[f]);
    FilesAllFree(s[f + 1..]);
    FilesFewer(s[..f], j);
  }

  /** One step of compaction keeps the description. */
  lemma CompactSpecStep(s: seq<Block>, f: nat, j: nat, t: seq<Block>)
    requires j < f < |s| && s[j] == Empty && s[f] != Empty
    requires forall q :: 0 <= q < j ==> s[q] != Empty
    requires forall p :: f < p < |s| ==> s[p] == Empty
    requires t == s[j := s[f]][f := Empty]
    ensures CompactSpec(t) == CompactSpec(s)
  {
    StepBounds(s, f, j);
    var n := |Files(s)|;
    StepCount(s, f, j, t);
    StepSlices(s, f, j, t, n);
    var a, b, i := s[n..], t[n..], f - n;
    var mid := Files(a[..i]);
    FilesAround(a, i);
    FilesAround(b, i);
    FilesSingle(s[f]);
    FilesSingle(Empty);
    FilesAllFree(a[i + 1..]);
    assert Files(a) == mid + [s[f]];
    assert Files(b) == mid;
    BackwardsSnoc(mid, s[f]);
    FillStep(s, t, n, j, s[f], Backwards(mid));
  }

  /** The description after a step, from the facts about its two parts. */
  lemma FillStep(s: seq<Block>, t: seq<Block>, n: nat, j: nat, b: Block, d: seq<Block>)
    requires j < n <= |s| == |t| && n == |Files(s)| == |Files(t)|
    requires s[j] == Empty && b != Empty && forall q :: 0 <= q < j ==> s[q] != Empty
    requires t[..n] == s[..n][j := b]
    requires Backwards(Files(s[n..])) == [b] + d && Backwards(Files(t[n..])) == d
    ensures CompactSpec(t) == CompactSpec(s)
  {
    var p, e := s[..n], Frees(|s| - n);
    assert forall q :: 0 <= q < j ==> p[q] != Empty;
    FillFirst(p, j, b, d);
    calc {
      CompactSpec(t);
      { CompactSpecAt(t, n, d); }
      Fill(t[..n], d) + e;
      Fill(p[j := b], d) + e;
      Fill(p, [b] + d) + e;
      { CompactSpecAt(s, n, [b] + d); }
      CompactSpec(s);
    }
  }

  lemma CompactSpecAt(s: seq<Block>, n: nat, donors: seq<Block>)
    requires n == |Files(s)| && donors == Backwards(Files(s[n..]))
    ensures CompactSpec(s) == Fill(s[..n], donors) + Frees(|s| - n)
  {
  }

  /** A step keeps the number of file blocks. */
  lemma StepCount(s: seq<Block>, f: nat, j: nat, t: seq<Block>)
    requires j < f < |s| && s[j] == Empty && t == s[j := s[f]][f := Empty]
    ensures |Files(t)| == |Files(s)|
  {
    assert t == s[j := s[f]][f := s[j]];
    assert multiset(t) == multiset(s);
    FilesCount(s);
    FilesCount(t);
  }

  /** Where a step writes, seen from position `n`. */
  lemma StepSlices(s: seq<Block>, f: nat, j: nat, t: seq<Block>, n: nat)
    requires j < n <= f < |s| && t == s[j := s[f]][f := Empty]
    ensures t[..n] == s[..n][j := s[f]]
    ensures t[n..][..f - n] == s[n..][..f - n]
    ensures t[n..][f - n + 1..] == s[n..][f - n + 1..]
    ensures t[n..][f - n] == Empty && s[n..][f - n] == s[f]
  {
  }

  lemma BackwardsSnoc(x: seq<Block>, b: Block)
    ensures Backwards(x + [b]) == [b] + Backwards(x)
  {
    assert (x + [b])[..|x|] == x;
  }

  /** Compaction is exactly the description: the loop's answer is fixed by the disk. */
  lemma {:induction false} CompactingIsSpec(s: seq<Block>)
    ensures Compacting(s) == CompactSpec(s)
    decreases FileEnd(s)
  {
    var k := FileEnd(s);
    var j := FirstEmpty(s);
    if k > 0 && j < k - 1 {
      var f: nat := k - 1;
      var t := s[j := s[f]][f := Empty];
      StepShrinks(s, j, k);
      FileEndFacts(s);
      FirstEmptyFacts(s);
      CompactingStep(s, f, j, t);
      CompactingIsSpec(t);
      CompactSpecStep(s, f, j, t);
    } else {
      CompactSpecDone(s);
    }
  }

  /** On `[File(0), Empty, File(1)]` the last file block fills the gap: `[File(0), File(1), Empty]`. */
  lemma CompactingExample()
    ensures Compacting([File(0), Empty, File(1)]) == [File(0), File(1), Empty]
    ensures Checksum(Compacting([File(0), Empty, File(1)])) == 1
  {
    var s := [File(0), Empty, File(1)];
    FileEndIs(s, 2);
    FirstEmptyIs(s, 1);
    var t := s[1 := s[2]][2 := Empty];
    CompactingStep(s, 2, 1, t);
    assert t == [File(0), File(1), Empty];
    FileEndIs(t, 1);
    FirstEmptyIs(t, 2);
    assert Compacting(t) == t;
    var u, v := [File(0), File(1)], [File(0)];
    assert t[..2] == u && u[..1] == v && v[..0] == [];
    assert Checksum(v) == 0;
    assert Checksum(u) == 1;
    assert Checksum(t) == 1;
  }

  /** The inner `for j in 0..i` of `part_one`: the first free block before `i`, or `i` if none. */
  method FirstEmptyBefore(a: array<Block>, i: nat) returns (j: nat)
    requires i <= a.Length
    ensures j <= i && (j < i ==> a[j] == Empty)
    ensures forall q :: 0 <= q < j ==> a[q] != Empty
  {
    j := 0;
    while j < i && a[j] != Empty
      invariant j <= i
      invariant forall q :: 0 <= q < j ==> a[q] != Empty
    {
      j := j + 1;
    }
  }

  /**
   * The loop of `part_one`: from the end of the disk downwards, every file
   * block is swapped with the leftmost free block before it, until a file
   * block has none. The result is false when `i -= 1` would underflow, which
   * happens exactly when the disk holds no file block; the disk is then
   * unchanged.
   */
  method Compact(a: array<Block>) returns (ok: bool)
    modifies a
    ensures a[..] == Compacting(old(a[..]))
    ensures ok <==> HasFile(old(a[..]))
  {
    var i: nat := a.Length;
    while true
      invariant i <= a.Length && Scanned(a[..], old(a[..]), i)
      decreases i
    {
      if i == 0 {
        ScanEmpty(a[..], old(a[..]));
        return false;
      }
      i := i - 1;
      if a[i] == Empty {
        continue;
      }
      var j := FirstEmptyBefore(a, i);
      ghost var before := a[..];
      if j == i {
        ScanDone(before, old(a[..]), i);
        return true;
      }
      a[i], a[j] := a[j], a[i];
      assert a[..] == before[i := before[j]][j := before[i]];
      SwapStep(before, old(a[..]), i, j, a[..]);
    }
  }

  /** The state of `part_one`'s loop at counter `i`: only free blocks from `i` on, on the way to the same result. */
  ghost predicate Scanned(s: seq<Block>, s0: seq<Block>, i: nat)
  {
    i <= |s| && (forall p :: i <= p < |s| ==> s[p] == Empty) &&
    Compacting(s) == Compacting(s0) && multiset(s) == multiset(s0)
  }

  /** The counter reached 0 with nothing but free blocks: the disk had no file and stays as it was. */
  lemma ScanEmpty(s: seq<Block>, s0: seq<Block>)
    requires Scanned(s, s0, 0)
    ensures !HasFile(s0) && s == Compacting(s0)
  {
    NoFileLeft(s);
    HasFileMultiset(s, s0);
    CompactingNoFile(s);
  }

  lemma NoFileLeft(s: seq<Block>)
    requires forall p :: 0 <= p < |s| ==> s[p] == Empty
    ensures !HasFile(s)
  {
  }

  /** A file block at `i` with no free block before it and only free blocks after it: compaction is done. */
  lemma ScanDone(s: seq<Block>, s0: seq<Block>, i: nat)
    requires Scanned(s, s0, i + 1) && i < |s| && s[i] != Empty
    requires forall q :: 0 <= q < i ==> s[q] != Empty
    ensures HasFile(s0) && s == Compacting(s0)
  {
    assert s[i].File?;
    HasFileMultiset(s, s0);
    FileEndIs(s, i);
    FirstEmptyFacts(s);
    assert FirstEmpty(s) >= i;
  }

  /** Swapping the file block at `i` into the first free block `j` is one step of compaction. */
  lemma SwapStep(s: seq<Block>, s0: seq<Block>, i: nat, j: nat, t: seq<Block>)
    requires Scanned(s, s0, i + 1) && j < i < |s| && s[i] != Empty && s[j] == Empty
    requires forall q :: 0 <= q < j ==> s[q] != Empty
    requires t == s[i := s[j]][j := s[i]]
    ensures Scanned(t, s0, i)
  {
    assert multiset(t) == multiset(s);
    SwapCompacting(s, i, j, t);
  }

  /** Swapping the last file block `i` into the first free block `j` is one step of compaction. */
  lemma SwapCompacting(s: seq<Block>, i: nat, j: nat, t: seq<Block>)
    requires j < i < |s| && s[j] == Empty && s[i] != Empty && t == s[i := s[j]][j := s[i]]
    requires forall q :: 0 <= q < j ==> s[q] != Empty
    requires forall p :: i < p < |s| ==> s[p] == Empty
    ensures Compacting(t) == Compacting(s)
  {
    FileEndIs(s, i);
    FirstEmptyIs(s, j);
    var u := s[j := s[i]][i := Empty];
    assert t == u;
    CompactingStep(s, i, j, u);
  }

  lemma FileEndIs(s: seq<Block>, f: nat)
    requires f < |s| && s[f].File? && forall p :: f < p < |s| ==> s[p] == Empty
    ensures FileEnd(s) == f + 1
  {
    FileEndFacts(s);
  }

  lemma FirstEmptyIs(s: seq<Block>, j: nat)
    requires j < |s| && s[j] == Empty && forall q :: 0 <= q < j ==> s[q] != Empty
    ensures FirstEmpty(s) == j
  {
    FirstEmptyFacts(s);
  }

  lemma CompactingStep(s: seq<Block>, f: nat, j: nat, u: seq<Block>)
    requires FileEnd(s) == f + 1 && FirstEmpty(s) == j && j < f && u == s[j := s[f]][f := Empty]
    ensures Compacting(s) == Compacting(u)
  {
  }

  /** `part_one`: the checksum of the compacted disk, or None where the source's loop counter underflows. */
  method PartOne(input: seq<Digit>) returns (r: Option<nat>, ghost final: seq<Block>)
    ensures r.Some? <==> HasFile(Layout(input))
    ensures final == Compacting(Layout(input)) == CompactSpec(Layout(input))
    ensures multiset(final) == multiset(Layout(input)) && Compacted(final)
    ensures r.Some? ==> r.value == Checksum(final)
  {
    var fs := FromInput(input);
    var a := new Block[|fs|](k requires 0 <= k < |fs| => fs[k]);
    assert a[..] == fs;
    var ok := Compact(a);
    final := a[..];
    CompactingCompacts(fs);
    CompactingIsSpec(fs);
    if ok {
      r := Some(Checksum(a[..]));
    } else {
      r := None;
    }
  }

  /** `Entry`: a file of `size` blocks with its id, or a free span of `size` blocks. */
  datatype Entry = FileEntry(id: nat, size: nat) | EmptyEntry(size: nat)

  /** The entry digit number `k` describes. */
  function EntryFor(k: nat, d: nat): Entry
  {
    if k % 2 == 0 then FileEntry(k / 2, d) else EmptyEntry(d)
  }

  /**
   * The map `Fs2::from_input` builds: each digit's entry keyed by the sum of
   * the digits before it. An entry inserted at a key already present replaces
   * the earlier one, which then has size zero.
   */
  function InputMap(input: seq<Digit>): map<nat, Entry>
  {
    if input == [] then map[]
    else
      var n := |input| - 1;
      InputMap(input[..n])[DigitSum(input[..n]) := EntryFor(n, input[n])]
  }

  ghost function Least(s: set<nat>): (k: nat)
    requires s != {}
    ensures k in s && forall j :: j in s ==> k <= j
    decreases |s|
  {
    var x :| x in s;
    if s == {x} then x
    else
      var m := Least(s - {x});
      assert forall j :: j in s && j != x ==> j in s - {x};
      if x < m then x else m
  }

  /** The smallest key of a non-empty key set: the next key an ordered map iteration yields. */
  function Min(s: set<nat>): (k: nat)
    requires s != {}
    ensures k in s && forall j :: j in s ==> k <= j
  {
    assert Least(s) in s && forall j :: j in s ==> Least(s) <= j;
    var k :| k in s && forall j :: j in s ==> k <= j;
    k
  }

  /** `f` summed over the entries under `keys`, taken in ascending key order. */
  function SumOver(m: map<nat, Entry>, keys: set<nat>, f: (nat, Entry) -> nat): nat
    requires keys <= m.Keys
    decreases |keys|
  {
    if keys == {} then 0
    else
      var k := Min(keys);
      f(k, m[k]) + SumOver(m, keys - {k}, f)
  }

  /** The sum does not depend on the order of the keys: any one can be taken out first. */
  lemma {:induction false} SumOverRemove(m: map<nat, Entry>, keys: set<nat>, f: (nat, Entry) -> nat, k: nat)
    requires keys <= m.Keys && k in keys
    ensures SumOver(m, keys, f) == f(k, m[k]) + SumOver(m, keys - {k}, f)
    decreases |keys|
  {
    var j := Min(keys);
    if j != k {
      SumOverRemove(m, keys - {j}, f, k);
      SumOverRemove(m, keys - {k}, f, j);
      assert keys - {j} - {k} == keys - {k} - {j};
    }
  }

  /** Only the entries under `keys` matter to the sum. */
  lemma {:induction false} SumOverAgree(m: map<nat, Entry>, m': map<nat, Entry>, keys: set<nat>, f: (nat, Entry) -> nat)
    requires keys <= m.Keys && keys <= m'.Keys
    requires forall k :: k in keys ==> m[k] == m'[k]
    ensures SumOver(m, keys, f) == SumOver(m', keys, f)
    decreases |keys|
  {
    if keys != {} {
      SumOverAgree(m, m', keys - {Min(keys)}, f);
    }
  }

  function Total(m: map<nat, Entry>, f: (nat, Entry) -> nat): nat
  {
    SumOver(m, m.Keys, f)
  }

  /** What an entry at `k` contributes to a total: nothing when there is none. */
  function At(m: map<nat, Entry>, k: nat, f: (nat, Entry) -> nat): nat
  {
    if k in m then f(k, m[k]) else 0
  }

  /** Inserting at `k` replaces what the old entry there contributed with what the new one does. */
  lemma TotalUpdate(m: map<nat, Entry>, k: nat, e: Entry, f: (nat, Entry) -> nat)
    ensures Total(m[k := e], f) + At(m, k, f) == Total(m, f) + f(k, e)
  {
    var m' := m[k := e];
    SumOverRemove(m', m'.Keys, f, k);
    assert m'.Keys - {k} == m.Keys - {k};
    SumOverAgree(m', m, m.Keys - {k}, f);
    if k in m {
      SumOverRemove(m, m.Keys, f, k);
    } else {
      assert m.Keys - {k} == m.Keys;
    }
  }

  /** Removing `k` takes away what its entry contributed. */
  lemma TotalRemove(m: map<nat, Entry>, k: nat, f: (nat, Entry) -> nat)
    ensures Total(m - {k}, f) + At(m, k, f) == Total(m, f)
  {
    var m' := m - {k};
    if k in m {
      SumOverRemove(m, m.Keys, f, k);
      assert m'.Keys == m.Keys - {k};
      SumOverAgree(m', m, m'.Keys, f);
    } else {
      assert m' == m;
    }
  }

  function RangeSum(a: nat, size: nat, id: nat): nat
  {
    if size == 0 then 0 else RangeSum(a, size - 1, id) + (a + size - 1) * id
  }

  /** `(a..a + size).map(|a| a * id).sum()` for a file, 0 for a free span. */
  function EntryWeight(a: nat, e: Entry): nat
  {
    match e
    case FileEntry(id, size) => RangeSum(a, size, id)
    case EmptyEntry(_) => 0
  }

  function EntrySize(a: nat, e: Entry): nat
  {
    e.size
  }

  /** `Fs2::checksum`: the weights of all entries. */
  function MapChecksum(m: map<nat, Entry>): nat
  {
    Total(m, EntryWeight)
  }

  /** The number of blocks the entries cover. */
  function TotalSize(m: map<nat, Entry>): nat
  {
    Total(m, EntrySize)
  }

  /** No two entries overlap: each ends at or before the next key. */
  ghost predicate Tiled(m: map<nat, Entry>)
  {
    forall a, b :: a in m && b in m && a < b ==> a + m[a].size <= b
  }

  ghost predicate EndsBy(m: map<nat, Entry>, end: nat)
  {
    forall a :: a in m ==> a + m[a].size <= end
  }

  /** The entries `Fs2::from_input` builds do not overlap and end by the digit sum. */
  lemma {:induction false} InputMapTiled(input: seq<Digit>)
    ensures Tiled(InputMap(input)) && EndsBy(InputMap(input), DigitSum(input))
  {
    if input != [] {
      var n := |input| - 1;
      InputMapTiled(input[..n]);
    }
  }

  lemma {:induction false} DigitSumPrefix(input: seq<Digit>, i: nat)
    requires i <= |input|
    ensures DigitSum(input[..i]) <= DigitSum(input)
  {
    if i < |input| {
      var n := |input| - 1;
      assert input[..n][..i] == input[..i];
      DigitSumPrefix(input[..n], i);
    } else {
      assert input[..i] == input;
    }
  }

  /** `Fs2::from_input` keys the entry of every non-empty digit by the sum of the digits before it. */
  lemma {:induction false} InputMapEntry(input: seq<Digit>, k: nat)
    requires k < |input| && input[k] > 0
    ensures DigitSum(input[..k]) in InputMap(input)
    ensures InputMap(input)[DigitSum(input[..k])] == EntryFor(k, input[k])
  {
    var n := |input| - 1;
    if k < n {
      var pre := input[..n];
      assert pre[..k] == input[..k] && pre[..k + 1] == input[..k + 1];
      InputMapEntry(pre, k);
      assert input[..k + 1][..k] == input[..k];
      DigitSumPrefix(pre, k + 1);
    }
  }

  /** The entries of `Fs2::from_input` cover exactly as many blocks as the digits add up to. */
  lemma {:induction false} InputMapSize(input: seq<Digit>)
    ensures TotalSize(InputMap(input)) == DigitSum(input)
  {
    if input != [] {
      var n := |input| - 1;
      var m := InputMap(input[..n]);
      InputMapSize(input[..n]);
      InputMapTiled(input[..n]);
      TotalUpdate(m, DigitSum(input[..n]), EntryFor(n, input[n]), EntrySize);
    } else {
      assert TotalSize(map[]) == 0;
    }
  }

  lemma {:induction false} RunChecksum(s: seq<Block>, k: nat, d: nat)
    ensures Checksum(s + Run(k, d)) == Checksum(s) + EntryWeight(|s|, EntryFor(k, d))
  {
    if d > 0 {
      RunChecksum(s, k, d - 1);
      RunStep(k, d - 1);
      assert (s + Run(k, d))[..|s| + d - 1] == s + Run(k, d - 1);
    } else {
      assert s + Run(k, d) == s;
    }
  }

  /** Both representations of the initial disk have the same checksum. */
  lemma {:induction false} ChecksumsAgree(input: seq<Digit>)
    ensures MapChecksum(InputMap(input)) == Checksum(Layout(input))
  {
    if input != [] {
      var n := |input| - 1;
      var m := InputMap(input[..n]);
      ChecksumsAgree(input[..n]);
      InputMapTiled(input[..n]);
      TotalUpdate(m, DigitSum(input[..n]), EntryFor(n, input[n]), EntryWeight);
      RunChecksum(Layout(input[..n]), n, input[n]);
    } else {
      assert MapChecksum(map[]) == 0;
    }
  }

  predicate Fits(m: map<nat, Entry>, a: nat, size: nat)
  {
    a in m && m[a].EmptyEntry? && m[a].size >= size
  }

  /** The lowest address of a free span of at least `size` blocks, if any. */
  function FirstFit(m: map<nat, Entry>, size: nat): (r: Option<nat>)
    ensures r.Some? ==> Fits(m, r.value, size) && forall a :: Fits(m, a, size) ==> r.value <= a
    ensures r.None? ==> forall a :: !Fits(m, a, size)
  {
    var fits := set a | a in m.Keys && Fits(m, a, size);
    assert forall a :: Fits(m, a, size) ==> a in fits;
    if fits == {} then None else Some(Min(fits))
  }

  /**
   * `Fs2::move_file` on the map: the file at `source` is taken out and a
   * free span of its size left there; the free span at `target` becomes the
   * file, and what remains of the span, merged with a free entry directly
   * after the old span, is keyed right after the file. None where the source
   * panics: no file at `source`, no free span at `target`, or a span too
   * small (`empty_size - file_size` underflows).
   */
  function Moved(m: map<nat, Entry>, source: nat, target: nat): Option<map<nat, Entry>>
  {
    if source !in m || !m[source].FileEntry? || target !in m || !m[target].EmptyEntry?
       || m[target].size < m[source].size then
      None
    else
      var m2 := Placed(m, source, target);
      var fileSize, emptySize := m[source].size, m[target].size;
      var delta := emptySize - fileSize;
      if delta == 0 then Some(m2)
      else Some(Remainder(m2, target + fileSize, target + emptySize, delta))
  }

  /** The file at `source` swapped with the free span at `target`, keeping its size at both. */
  function Placed(m: map<nat, Entry>, source: nat, target: nat): map<nat, Entry>
    requires source in m && m[source].FileEntry? && target in m
  {
    var id, fileSize := m[source].id, m[source].size;
    (m - {source} - {target})[source := EmptyEntry(fileSize)][target := FileEntry(id, fileSize)]
  }

  /**
   * The `delta` blocks a move leaves free, keyed at `key`, taking in the free
   * entry at `next` when there is one.
   */
  function Remainder(m: map<nat, Entry>, key: nat, next: nat, delta: nat): map<nat, Entry>
  {
    if next in m && m[next].EmptyEntry? then
      (m - {next})[key := EmptyEntry(delta + m[next].size)]
    else
      m[key := EmptyEntry(delta)]
  }

  lemma PlacedTotalSize(m: map<nat, Entry>, s: nat, t: nat)
    requires s in m && m[s].FileEntry? && t in m && t != s
    ensures TotalSize(Placed(m, s, t)) + m[t].size == TotalSize(m) + m[s].size
  {
    var id, fs := m[s].id, m[s].size;
    var mA := m - {s};
    var mB := mA - {t};
    var mC := mB[s := EmptyEntry(fs)];
    TotalRemove(m, s, EntrySize);
    TotalRemove(mA, t, EntrySize);
    TotalUpdate(mB, s, EmptyEntry(fs), EntrySize);
    TotalUpdate(mC, t, FileEntry(id, fs), EntrySize);
  }

  lemma RemainderTotalSize(m: map<nat, Entry>, key: nat, next: nat, delta: nat)
    requires At(m, key, EntrySize) == 0 && key != next
    ensures TotalSize(Remainder(m, key, next, delta)) == TotalSize(m) + delta
  {
    if next in m && m[next].EmptyEntry? {
      var m3 := m - {next};
      TotalRemove(m, next, EntrySize);
      assert At(m3, key, EntrySize) == 0;
      TotalUpdate(m3, key, EmptyEntry(delta + m[next].size), EntrySize);
    } else {
      TotalUpdate(m, key, EmptyEntry(delta), EntrySize);
    }
  }

  /** Inside a span of a tiled map there is no other key. */
  lemma NoKeyInside(m: map<nat, Entry>, t: nat, k: nat)
    requires Tiled(m) && t in m && k in m
    ensures !(t < k < t + m[t].size)
  {
  }

  /** Right after a file placed in a larger span there is no key, unless the file is empty. */
  lemma AfterFileFree(m: map<nat, Entry>, s: nat, t: nat)
    requires Tiled(m) && s in m && m[s].FileEntry? && t in m && m[s].size < m[t].size
    ensures t + m[s].size in Placed(m, s, t) ==> m[s].size == 0
  {
    var key := t + m[s].size;
    if key in m {
      NoKeyInside(m, t, key);
    }
  }

  /** `move_file` keeps the number of blocks the entries cover. */
  lemma MovedTotalSize(m: map<nat, Entry>, s: nat, t: nat)
    requires Tiled(m) && Moved(m, s, t).Some?
    ensures TotalSize(Moved(m, s, t).value) == TotalSize(m)
  {
    if m[s].size < m[t].size {
      AfterFileFree(m, s, t);
    }
    MovedSize(m, s, t);
  }

  lemma MovedSize(m: map<nat, Entry>, s: nat, t: nat)
    requires Moved(m, s, t).Some?
    requires m[s].size < m[t].size && t + m[s].size in Placed(m, s, t) ==> m[s].size == 0
    ensures TotalSize(Moved(m, s, t).value) == TotalSize(m)
  {
    var fs, es := m[s].size, m[t].size;
    var m2 := Placed(m, s, t);
    PlacedTotalSize(m, s, t);
    if fs < es {
      RemainderTotalSize(m2, t + fs, t + es, es - fs);
    }
  }

  /** Swapping the file into the span keeps every key, narrows the span and leaves other entries alone. */
  lemma PlacedFacts(m: map<nat, Entry>, s: nat, t: nat)
    requires s in m && m[s].FileEntry? && t in m && t != s
    ensures var r := Placed(m, s, t);
      r.Keys == m.Keys && r[s] == EmptyEntry(m[s].size) && r[t] == FileEntry(m[s].id, m[s].size)
      && forall k :: k in m && k != s && k != t ==> r[k] == m[k]
  {
    assert Placed(m, s, t).Keys == m.Keys;
  }

  lemma PlacedTiled(m: map<nat, Entry>, s: nat, t: nat)
    requires Tiled(m) && s in m && m[s].FileEntry? && t in m && t != s && m[s].size <= m[t].size
    ensures Tiled(Placed(m, s, t))
  {
    PlacedFacts(m, s, t);
  }

  /**
   * Keying the free remainder right after a file of size `fs` that sits at the
   * start of an old span `t..t + es` with no key inside keeps the map tiled.
   */
  lemma RemainderTiled(m: map<nat, Entry>, t: nat, fs: nat, es: nat)
    requires Tiled(m) && t in m && m[t].size == fs && fs < es
    requires NoKeyBetween(m, t, t + es)
    ensures Tiled(Remainder(m, t + fs, t + es, es - fs))
  {
    var key, n := t + fs, t + es;
    var r := Remainder(m, key, n, es - fs);
    var merged := n in m && m[n].EmptyEntry?;
    assert r[key].size == if merged then es - fs + m[n].size else es - fs;
    forall a, b | a in r && b in r && a < b
      ensures a + r[a].size <= b
    {
      if a == key {
        assert b in m && b != n ==> b > n;
        if merged {
          assert n + m[n].size <= b;
        }
      } else if b == key {
        assert a in m;
        if a != t {
          assert a + m[a].size <= t;
        }
      } else {
        assert a in m && b in m && r[a] == m[a];
      }
    }
  }

  ghost predicate NoKeyBetween(m: map<nat, Entry>, lo: nat, hi: nat)
  {
    forall k :: k in m ==> !(lo < k < hi)
  }

  /** `move_file` keeps the entries from overlapping. */
  lemma MovedTiled(m: map<nat, Entry>, s: nat, t: nat)
    requires Tiled(m) && Moved(m, s, t).Some?
    ensures Tiled(Moved(m, s, t).value)
  {
    var fs, es := m[s].size, m[t].size;
    if fs < es {
      var m2 := Placed(m, s, t);
      PlacedReady(m, s, t);
      assert Tiled(m2) && t in m2 && m2[t].size == fs && NoKeyBetween(m2, t, t + es);
      RemainderTiled(m2, t, fs, es);
      RemainderMoved(m, s, t);
    } else {
      PlacedTiled(m, s, t);
      PlacedMoved(m, s, t);
    }
  }

  /** What `RemainderTiled` needs of the swapped map. */
  lemma PlacedReady(m: map<nat, Entry>, s: nat, t: nat)
    requires Tiled(m) && s in m && m[s].FileEntry? && t in m && t != s && m[s].size < m[t].size
    ensures Tiled(Placed(m, s, t)) && t in Placed(m, s, t) && Placed(m, s, t)[t].size == m[s].size
    ensures NoKeyBetween(Placed(m, s, t), t, t + m[t].size)
  {
    PlacedTiled(m, s, t);
    PlacedGap(m, s, t);
  }

  /** No key of the swapped map falls inside the old span at `t`. */
  lemma PlacedGap(m: map<nat, Entry>, s: nat, t: nat)
    requires Tiled(m) && s in m && m[s].FileEntry? && t in m && t != s
    ensures NoKeyBetween(Placed(m, s, t), t, t + m[t].size)
  {
    PlacedFacts(m, s, t);
    forall k | k in m
      ensures !(t < k < t + m[t].size)
    {
      NoKeyInside(m, t, k);
    }
  }

  lemma RemainderMoved(m: map<nat, Entry>, s: nat, t: nat)
    requires Moved(m, s, t).Some? && m[s].size < m[t].size
    requires Tiled(Remainder(Placed(m, s, t), t + m[s].size, t + m[t].size, m[t].size - m[s].size))
    ensures Tiled(Moved(m, s, t).value)
  {
  }

  lemma PlacedMoved(m: map<nat, Entry>, s: nat, t: nat)
    requires Moved(m, s, t).Some? && m[s].size == m[t].size && Tiled(Placed(m, s, t))
    ensures Tiled(Moved(m, s, t).value)
  {
  }

  /**
   * A move never touches another file: every file other than the one moved
   * keeps its address and entry.
   */
  lemma MovedKeepsFiles(m: map<nat, Entry>, s: nat, t: nat)
    requires Tiled(m) && Moved(m, s, t).Some?
    ensures forall b :: b in m && b != s && m[b].FileEntry? ==>
      b in Moved(m, s, t).value && Moved(m, s, t).value[b] == m[b]
  {
    var fs, es := m[s].size, m[t].size;
    PlacedFacts(m, s, t);
    if fs < es {
      AfterFileFree(m, s, t);
    }
  }

  /** After a move no file is left at the source address. */
  lemma MovedSourceFree(m: map<nat, Entry>, s: nat, t: nat)
    requires Moved(m, s, t).Some?
    ensures var r := Moved(m, s, t).value; !(s in r && r[s].FileEntry?)
  {
    PlacedFacts(m, s, t);
  }

  /** The file lands at the target with its id and size, unless it has no blocks and leaves room. */
  lemma MovedTarget(m: map<nat, Entry>, s: nat, t: nat)
    requires Moved(m, s, t).Some?
    ensures var r := Moved(m, s, t).value;
      (m[s].size > 0 || m[s].size == m[t].size) ==> t in r && r[t] == m[s]
  {
    PlacedFacts(m, s, t);
  }

  /** `Fs2`: the disk as an ordered map from start address to entry. */
  class Fs2 {
    var entries: map<nat, Entry>

    /** `Fs2::from_input`: alternating file and free entries, keyed by where each starts. */
    constructor FromInput(input: seq<Digit>)
      ensures entries == InputMap(input)
    {
      var m: map<nat, Entry> := map[];
      var id: nat := 0;
      var file := true;
      var address: nat := 0;
      for k := 0 to |input|
        invariant m == InputMap(input[..k])
        invariant address == DigitSum(input[..k])
        invariant file <==> k % 2 == 0
        invariant file ==> id == k / 2
        invariant !file ==> id == k / 2 + 1
      {
        var d := input[k];
        assert input[..k + 1][..k] == input[..k];
        ParityStep(k);
        if file {
          m := m[address := FileEntry(id, d)];
          id := id + 1;
        } else {
          m := m[address := EmptyEntry(d)];
        }
        address := address + d;
        file := !file;
      }
      assert input[..|input|] == input;
      entries := m;
    }

    /** `Fs2::find_empty_at_least`: the lowest free span of at least `fileSize` blocks. */
    method FindEmptyAtLeast(fileSize: nat) returns (r: Option<nat>)
      ensures r == FirstFit(entries, fileSize)
    {
      var rest := entries.Keys;
      while rest != {}
        invariant rest <= entries.Keys
        invariant forall a :: a in entries && a !in rest ==> !Fits(entries, a, fileSize)
        invariant forall a, b :: a in entries && a !in rest && b in rest ==> a < b
        decreases |rest|
      {
        var a := Min(rest);
        if entries[a].EmptyEntry? && entries[a].size >= fileSize {
          assert Fits(entries, a, fileSize);
          return Some(a);
        }
        rest := rest - {a};
      }
      r := None;
    }

    /**
     * `Fs2::move_file`. Returns false, leaving the entries as they were,
     * where the source panics.
     */
    method MoveFile(source: nat, target: nat) returns (ok: bool)
      modifies this
      ensures ok == Moved(old(entries), source, target).Some?
      ensures ok ==> entries == Moved(old(entries), source, target).value
      ensures !ok ==> entries == old(entries)
    {
      if source !in entries || !entries[source].FileEntry? {
        return false;
      }
      var id, fileSize := entries[source].id, entries[source].size;
      var m := entries - {source};
      if target !in m || !m[target].EmptyEntry? {
        return false;
      }
      var emptySize := m[target].size;
      if emptySize < fileSize {
        return false;
      }
      m := m - {target};
      m := m[source := EmptyEntry(fileSize)];
      m := m[target := FileEntry(id, fileSize)];
      assert m == Placed(entries, source, target);
      var delta := emptySize - fileSize;
      if delta > 0 {
        var next := target + emptySize;
        if next in m && m[next].EmptyEntry? {
          var nextSize := m[next].size;
          m := m - {next};
          delta := delta + nextSize;
        }
        m := m[target + fileSize := EmptyEntry(delta)];
      }
      entries := m;
      ok := true;
    }
  }

  /** The start addresses of the files among `keys`, highest first. */
  function FileKeys(m: map<nat, Entry>, keys: set<nat>): (r: seq<nat>)
    requires keys <= m.Keys
    ensures forall a :: a in r <==> a in keys && m[a].FileEntry?
    ensures forall i, j :: 0 <= i < j < |r| ==> r[i] > r[j]
    decreases |keys|
  {
    if keys == {} then []
    else
      var k := Min(keys);
      var rest := FileKeys(m, keys - {k});
      assert forall i :: 0 <= i < |rest| ==> rest[i] in keys - {k};
      assert forall i :: 0 <= i < |rest| ==> rest[i] > k;
      if m[k].FileEntry? then rest + [k] else rest
  }

  /**
   * One round of `part_two`'s loop: the file at `a` goes to the lowest free
   * span that holds it when that span lies to its left. None where the
   * lookup of the file panics.
   */
  function Visit(m: map<nat, Entry>, a: nat): (r: Option<map<nat, Entry>>)
    ensures r.None? <==> a !in m || !m[a].FileEntry?
    ensures r.Some? && (forall e :: Fits(m, e, m[a].size) ==> a <= e) ==> r.value == m
  {
    if a !in m || !m[a].FileEntry? then None
    else
      match FirstFit(m, m[a].size)
      case Some(e) => if e < a then Moved(m, a, e) else Some(m)
      case None => Some(m)
  }

  function VisitAll(m: map<nat, Entry>, addrs: seq<nat>): Option<map<nat, Entry>>
    decreases |addrs|
  {
    if addrs == [] then Some(m)
    else
      match Visit(m, addrs[0])
      case Some(m') => VisitAll(m', addrs[1..])
      case None => None
  }

  /** The disk `part_two` ends with: every file visited once, highest address first. */
  function Defragmented(input: seq<Digit>): Option<map<nat, Entry>>
  {
    var m := InputMap(input);
    VisitAll(m, FileKeys(m, m.Keys))
  }

  /** The addresses are files of `m`, in strictly decreasing order. */
  ghost predicate Pending(m: map<nat, Entry>, addrs: seq<nat>)
  {
    (forall i :: 0 <= i < |addrs| ==> addrs[i] in m && m[addrs[i]].FileEntry?)
    && forall i, j :: 0 <= i < j < |addrs| ==> addrs[i] > addrs[j]
  }

  /**
   * Visiting files highest first never reaches a lookup that panics, and keeps
   * the entries from overlapping and the number of blocks they cover.
   */
  lemma {:induction false} VisitAllSafe(m: map<nat, Entry>, addrs: seq<nat>)
    requires Tiled(m) && Pending(m, addrs)
    ensures VisitAll(m, addrs).Some?
    ensures Tiled(VisitAll(m, addrs).value)
    ensures TotalSize(VisitAll(m, addrs).value) == TotalSize(m)
    decreases |addrs|
  {
    if addrs != [] {
      var a := addrs[0];
      var m' := Visit(m, a).value;
      var fit := FirstFit(m, m[a].size);
      if fit.Some? && fit.value < a {
        MovedTiled(m, a, fit.value);
        MovedTotalSize(m, a, fit.value);
        MovedKeepsFiles(m, a, fit.value);
      }
      assert Pending(m', addrs[1..]);
      VisitAllSafe(m', addrs[1..]);
    }
  }

  /** `part_two` never panics, and the disk it ends with covers as many blocks as the input says. */
  lemma DefragmentedSafe(input: seq<Digit>)
    ensures Defragmented(input).Some?
    ensures Tiled(Defragmented(input).value)
    ensures TotalSize(Defragmented(input).value) == DigitSum(input)
  {
    var m := InputMap(input);
    InputMapTiled(input);
    InputMapSize(input);
    VisitAllSafe(m, FileKeys(m, m.Keys));
  }

  /** `part_two`: the checksum of the disk after every file has been visited once. */
  method PartTwo(input: seq<Digit>) returns (r: nat)
    ensures Defragmented(input).Some? && r == MapChecksum(Defragmented(input).value)
  {
    var fs := new Fs2.FromInput(input);
    var addrs := FileKeys(fs.entries, fs.entries.Keys);
    ghost var m0 := fs.entries;
    DefragmentedSafe(input);
    for i := 0 to |addrs|
      invariant VisitAll(fs.entries, addrs[i..]) == VisitAll(m0, addrs)
    {
      assert addrs[i..][1..] == addrs[i + 1..];
      var a := addrs[i];
      var fileSize := fs.entries[a].size;
      var e := fs.FindEmptyAtLeast(fileSize);
      if e.Some? && e.value < a {
        var ok := fs.MoveFile(a, e.value);
      }
    }
    assert addrs[|addrs|..] == [];
    r := MapChecksum(fs.entries);
  }
}
