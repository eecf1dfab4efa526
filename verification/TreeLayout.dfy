/** On-disk layout of the treedisk file system: blocks of 128 words, a superblock,
    inode blocks, and one radix-128 tree of blocks per inode. Everything here is a
    function of the disk's contents; nothing depends on ghost state. */
module TreeLayout {
  import opened Basics

  const REFS_PER_BLOCK: nat := 128
  const INODES_PER_BLOCK: nat := 64
  const LOG_RPB: nat := 7

  type Block = b: seq<Word> | |b| == 128 witness seq<Word>(128, i => 0)

  /** The store below: an array of blocks that never fails within its size. */
  type Disk = seq<Block>

  function ZeroBlock(): (z: Block)
    ensures forall i :: 0 <= i < 128 ==> z[i] == 0
  {
    seq<Word>(128, i => 0)
  }

  // ----- Shifts and levels

  /** `x >> n` on an unsigned word, one bit at a time. */
  function ShiftRight(x: nat, n: nat): nat {
    if n == 0 then x else ShiftRight(x, n - 1) / 2
  }

  /** The shift the code uses: a count of 32 or more gives 0. */
  function LogShiftR(x: Word, nbits: nat): nat {
    if nbits >= 32 then 0 else ShiftRight(x, nbits)
  }

  /** The index, at level `l`, of the tree node whose subtree holds block `off`. */
  function Prefix(off: nat, l: nat): nat {
    if l == 0 then off else Prefix(off, l - 1) / 128
  }

  /** The slot taken inside a level-`l + 1` node on the way to block `off`. */
  function Slot(off: nat, l: nat): nat {
    Prefix(off, l) % 128
  }

  /** Number of indirect levels needed to reach block number `x`. */
  function LevelsFor(x: nat): nat {
    if x == 0 then 0 else 1 + LevelsFor(x / 128)
  }

  function Levels(size: nat): nat {
    if size == 0 then 0 else LevelsFor(size - 1)
  }

  lemma {:induction false} ShiftSeven(x: nat, l: nat)
    ensures ShiftRight(x, 7 * l) == Prefix(x, l)
  {
    if l > 0 {
      ShiftSeven(x, l - 1);
      var n := 7 * (l - 1);
      assert ShiftRight(x, n + 1) == ShiftRight(x, n) / 2;
      assert ShiftRight(x, n + 2) == ShiftRight(x, n) / 4;
      assert ShiftRight(x, n + 3) == ShiftRight(x, n) / 8;
      assert ShiftRight(x, n + 4) == ShiftRight(x, n) / 16;
      assert ShiftRight(x, n + 5) == ShiftRight(x, n) / 32;
      assert ShiftRight(x, n + 6) == ShiftRight(x, n) / 64;
      assert ShiftRight(x, n + 7) == ShiftRight(x, n) / 128;
    }
  }

  lemma {:induction false} PrefixStep(x: nat, l: nat)
    requires l > 0
    ensures Prefix(x, l) == Prefix(x / 128, l - 1)
  {
    if l > 1 { PrefixStep(x, l - 1); }
  }

  lemma {:induction false} PrefixMonotone(x: nat, y: nat, l: nat)
    requires x <= y
    ensures Prefix(x, l) <= Prefix(y, l)
  {
    if l > 0 { PrefixMonotone(x, y, l - 1); }
  }

  lemma {:induction false} PrefixSplit(off: nat, l: nat)
    ensures Prefix(off, l) == Prefix(off, l + 1) * 128 + Slot(off, l)
    ensures Slot(off, l) < 128
  {
  }

  lemma {:induction false} WordPrefix(x: Word, l: nat)
    requires l >= 5
    ensures Prefix(x, l) == 0
  {
    if l > 5 {
      WordPrefix(x, l - 1);
    } else {
      assert Prefix(x, 1) == x / 128;
      assert Prefix(x, 2) == x / 16384;
      assert Prefix(x, 3) == x / 2097152;
      assert Prefix(x, 4) == x / 268435456;
    }
  }

  /** The shift by `nlevels * log_rpb` used throughout is exactly the prefix. */
  lemma {:induction false} LogShiftIsPrefix(x: Word, l: nat)
    ensures LogShiftR(x, l * LOG_RPB) == Prefix(x, l)
  {
    ShiftSeven(x, l);
    if l * 7 >= 32 { WordPrefix(x, l); }
  }

  /** `LevelsFor(x)` is the least level at which the prefix of `x` vanishes. */
  lemma {:induction false} LevelsForLeast(x: nat, l: nat)
    ensures Prefix(x, l) == 0 <==> l >= LevelsFor(x)
  {
    if l > 0 {
      PrefixStep(x, l);
      if x > 0 { LevelsForLeast(x / 128, l - 1); } else { LevelsForLeast(0, l - 1); }
    }
  }

  lemma {:induction false} LevelsForMonotone(x: nat, y: nat)
    requires x <= y
    ensures LevelsFor(x) <= LevelsFor(y)
  {
    PrefixMonotone(x, y, LevelsFor(y));
    LevelsForLeast(y, LevelsFor(y));
    LevelsForLeast(x, LevelsFor(y));
  }

  // ----- Superblock and inodes

  function NInodeBlocks(d: Disk): nat
    requires |d| > 0
  {
    d[0][0]
  }

  ghost predicate Shaped(d: Disk) {
    && 0 < |d| <= WORD_LIMIT
    && NInodeBlocks(d) < |d|
    && NInodeBlocks(d) * 64 < WORD_LIMIT
  }

  function FreeHead(d: Disk): Word
    requires |d| > 0
  {
    d[0][1]
  }

  function NInodes(d: Disk): nat
    requires |d| > 0
  {
    NInodeBlocks(d) * 64
  }

  predicate HasInode(d: Disk, i: nat) {
    |d| > 0 && NInodeBlocks(d) < |d| && i < NInodes(d)
  }

  function Root(d: Disk, i: nat): Word
    requires HasInode(d, i)
  {
    d[1 + i / 64][2 * (i % 64)]
  }

  function Size(d: Disk, i: nat): Word
    requires HasInode(d, i)
  {
    d[1 + i / 64][2 * (i % 64) + 1]
  }

  // ----- File contents

  /** The block found at `off` when walking down from block `b` at level `l`. */
  function Lookup(d: Disk, b: nat, l: nat, off: nat): Block
    decreases l
  {
    if b == 0 || b >= |d| then ZeroBlock()
    else if l == 0 then d[b]
    else Lookup(d, d[b][Slot(off, l - 1)], l - 1, off)
  }

  function BlockAt(d: Disk, i: nat, off: nat): Block
    requires HasInode(d, i)
  {
    Lookup(d, Root(d, i), Levels(Size(d, i)), off)
  }

  /** The abstract file: a sequence of blocks as long as the inode's size. */
  function File(d: Disk, i: nat): seq<Block> {
    if HasInode(d, i) then seq(Size(d, i), (off: nat) => BlockAt(d, i, off)) else []
  }

  /** The abstract file system: one sequence of blocks per inode number. */
  function Files(d: Disk): seq<seq<Block>>
    requires |d| > 0
  {
    seq(NInodes(d), (i: nat) => File(d, i))
  }

  // ----- Reachable blocks

  /** Block `c` belongs to the tree hanging off the level-`l` block `b`. */
  ghost predicate InTree(d: Disk, b: nat, l: nat, c: nat)
    decreases l
  {
    && 0 < b < |d|
    && (c == b || (l > 0 && exists j :: 0 <= j < 128 && InTree(d, d[b][j], l - 1, c)))
  }

  ghost predicate InFile(d: Disk, i: nat, c: nat)
    requires HasInode(d, i)
  {
    InTree(d, Root(d, i), Levels(Size(d, i)), c)
  }

  /** Block `c` is met within the first `n` links of the free list that starts at
      `b`, as a list block or as a block named by one of its slots. */
  ghost predicate InList(d: Disk, b: nat, n: nat, c: nat)
    decreases n
  {
    && 0 < b < |d|
    && n > 0
    && (|| c == b
        || (c != 0 && exists j :: 1 <= j < 128 && d[b][j] == c)
        || InList(d, d[b][0], n - 1, c))
  }

  /** The list that starts at `b` reaches its end within `n` links. */
  ghost predicate ListEnds(d: Disk, b: nat, n: nat)
    decreases n
  {
    b == 0 || (b < |d| && n > 0 && ListEnds(d, d[b][0], n - 1))
  }

  // ----- What a write means

  function Zeros(n: nat): (z: seq<Block>)
    ensures |z| == n
  {
    seq(n, i => ZeroBlock())
  }

  /** Writing `blk` at `off`: overwrite in place, or pad with zero blocks and append. */
  function WriteSpec(f: seq<Block>, off: nat, blk: Block): (g: seq<Block>)
    ensures |g| == if off < |f| then |f| else off + 1
  {
    if off < |f| then f[off := blk] else f + Zeros(off - |f|) + [blk]
  }

  // ----- Cost of a write

  /** Blocks missing on the path to `off` below the reference `b`, which sits at level `l`. */
  function Holes(d: Disk, b: nat, l: nat, off: nat): nat
    decreases l
  {
    if b == 0 || b >= |d| then l + 1
    else if l == 0 then 0
    else Holes(d, d[b][Slot(off, l - 1)], l - 1, off)
  }

  function LevelsAfter(d: Disk, i: nat, off: nat): nat
    requires HasInode(d, i)
  {
    if off >= Size(d, i) then LevelsFor(off) else Levels(Size(d, i))
  }

  /** Number of blocks a write at `off` takes off the free list. */
  function Cost(d: Disk, i: nat, off: nat): nat
    requires HasInode(d, i)
  {
    var before, after := Levels(Size(d, i)), LevelsAfter(d, i, off);
    if after > before then 2 * after - before
    else Holes(d, Root(d, i), before, off)
  }
}
