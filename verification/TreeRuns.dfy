/** What a run of writes means, told without any disk: the last write to a block wins,
    holes read as zeros, and the size is one past the highest block written. */
module TreeRuns {
  import opened Basics
  import opened TreeLayout
  import opened TreeOwnership
  import opened TreeWrite
  import opened TreeDisk
  import opened TreeCreate

  datatype BlockWrite = BlockWrite(ino: Word, off: Word, block: Block)

  /** The abstract file system after a run of writes. */
  function Apply(fs: seq<seq<Block>>, ws: seq<BlockWrite>): (gs: seq<seq<Block>>)
    requires forall k :: 0 <= k < |ws| ==> ws[k].ino < |fs|
    ensures |gs| == |fs|
    decreases |ws|
  {
    if ws == [] then fs
    else
      var w := ws[|ws| - 1];
      var gs := Apply(fs, ws[..|ws| - 1]);
      gs[w.ino := WriteSpec(gs[w.ino], w.off, w.block)]
  }

  /** Position of the last write to block `off` of inode `i`, or -1. */
  function LastWrite(ws: seq<BlockWrite>, i: nat, off: nat): (k: int)
    ensures -1 <= k < |ws|
    ensures k >= 0 ==> ws[k].ino == i && ws[k].off == off
    ensures forall m :: k < m < |ws| ==> !(ws[m].ino == i && ws[m].off == off)
    decreases |ws|
  {
    if ws == [] then -1
    else if ws[|ws| - 1].ino == i && ws[|ws| - 1].off == off then |ws| - 1
    else LastWrite(ws[..|ws| - 1], i, off)
  }

  /** One past the highest block of inode `i` that was written. */
  function Extent(ws: seq<BlockWrite>, i: nat): (n: nat)
    ensures forall k :: 0 <= k < |ws| && ws[k].ino == i ==> ws[k].off < n
    ensures n > 0 ==> exists k :: 0 <= k < |ws| && ws[k].ino == i && ws[k].off == n - 1
    decreases |ws|
  {
    if ws == [] then 0
    else
      var w, n := ws[|ws| - 1], Extent(ws[..|ws| - 1], i);
      if w.ino == i && w.off >= n then w.off + 1 else n
  }

  /** After any run of writes to an empty file system, a file ends at its extent, and
      below it each block holds what was last written there, or zeros. */
  lemma {:induction false} LastWriteWins(n: nat, ws: seq<BlockWrite>, i: nat, off: nat)
    requires i < n && forall k :: 0 <= k < |ws| ==> ws[k].ino < n
    ensures
      var f := Apply(seq(n, (j: nat) => []), ws)[i];
      && |f| == Extent(ws, i)
      && (off < |f| ==> f[off] == if LastWrite(ws, i, off) < 0 then ZeroBlock()
                                 else ws[LastWrite(ws, i, off)].block)
    decreases |ws|
  {
    hide WriteSpec;
    if ws != [] {
      var w, before := ws[|ws| - 1], ws[..|ws| - 1];
      LastWriteWins(n, before, i, off);
      OneWrite(Apply(seq(n, (j: nat) => []), before)[i], w.off, w.block, off);
    }
  }

  lemma OneWrite(f: seq<Block>, at: nat, block: Block, off: nat)
    ensures var g := WriteSpec(f, at, block);
      && |g| == (if at < |f| then |f| else at + 1)
      && (off < |g| ==> g[off] == if off == at then block else if off < |f| then f[off] else ZeroBlock())
  {
  }

  /** The words of a disk: the superblock counts inode blocks and has the head of the free
      list; inode i is the pair of words at 2 * (i % 64) of block 1 + i / 64, the root and the
      size in blocks. The block numbers of a file of up to 128 blocks are in the root, in
      order, those of a longer one in the blocks the root names. */
  lemma OnDisk(d: Disk, own: Owners, i: nat, off: nat)
    requires Valid(d, own) && HasInode(d, i)
    ensures |Files(d)| == 64 * d[0][0] && (d[0][1] == 0 <==> FreeSet(own) == {})
    ensures
      var root, size := d[1 + i / 64][2 * (i % 64)], d[1 + i / 64][2 * (i % 64) + 1];
      && |Files(d)[i]| == size && (root == 0 <==> size == 0) && root < |d|
      && (size == 1 ==> Files(d)[i][0] == d[root])
      && (1 < size <= 128 && off < size ==> Files(d)[i][off] == Named(d, d[root][off]))
      && (128 < size <= 16384 && off < size ==> Files(d)[i][off] == Named(d, Named(d, d[root][off / 128])[off % 128]))
  {
    hide Files, FreeOk, Levels, Lookup;
    HeadMeansFree(d, own);
    FileBlock(d, i, off);
    FileBlock(d, i, 0);
    var root, size, h := Root(d, i), Size(d, i), HeightsOf(d);
    assert RootOk(d, own, h, i);
    FewLevels(size);
    if 0 < size <= 16384 { LookupNext(d, root, Levels(size), off); }
    if size == 1 { LookupNext(d, root, 0, 0); }
  }

  lemma FewLevels(size: nat)
    ensures size == 1 ==> Levels(size) == 0
    ensures 1 < size <= 128 ==> Levels(size) == 1
    ensures 128 < size <= 16384 ==> Levels(size) == 2
  {
    if 1 < size <= 16384 {
      var x := (size - 1) / 128;
      assert LevelsFor(size - 1) == 1 + LevelsFor(x) && (x > 0 ==> LevelsFor(x) == 1 + LevelsFor(x / 128));
    }
  }

  /** The block with that number; 0 stands for zeros. */
  function Named(d: Disk, b: nat): Block { if 0 < b < |d| then d[b] else ZeroBlock() }

  lemma FileBlock(d: Disk, i: nat, off: nat)
    requires HasInode(d, i)
    ensures |Files(d)| == NInodes(d) && |Files(d)[i]| == Size(d, i)
    ensures off < Size(d, i) ==> Files(d)[i][off] == Lookup(d, Root(d, i), Levels(Size(d, i)), off)
  {
    hide Lookup;
  }

  lemma LookupNext(d: Disk, b: nat, l: nat, off: nat)
    requires 0 < b < |d| && l <= 2
    ensures l == 0 ==> Lookup(d, b, l, off) == d[b]
    ensures l == 1 && off < 128 ==> Lookup(d, b, l, off) == Named(d, d[b][off])
    ensures l == 2 && off < 16384 ==> Lookup(d, b, l, off) == Named(d, Named(d, d[b][off / 128])[off % 128])
  {
    assert Slot(off, 0) == off % 128 && Slot(off, 1) == off / 128 % 128;
  }

  /** What a write costs: twice the new levels less the old ones when the tree grows, one
      block for the first block of a file, and at most one block per level otherwise. */
  lemma {:induction false} CostCases(d: Disk, own: Owners, i: nat, off: nat)
    requires Valid(d, own) && HasInode(d, i)
    ensures
      var before, after := Levels(Size(d, i)), LevelsAfter(d, i, off);
      && (after > before ==> Cost(d, i, off) == 2 * after - before)
      && (Size(d, i) == 0 && off == 0 ==> Cost(d, i, off) == 1)
      && (Size(d, i) > 0 && after <= before ==> Cost(d, i, off) <= before)
  {
    assert RootOk(d, own, HeightsOf(d), i);
    if Size(d, i) > 0 { HolesBound(d, own, HeightsOf(d), Root(d, i), Levels(Size(d, i)), off); }
  }

  lemma {:induction false} HolesBound(d: Disk, own: Owners, h: Heights, b: nat, l: nat, off: nat)
    requires TreesOk(d, own, h) && (b == 0 || (b < |d| && own[b].Node? && own[b].level == l))
    ensures Holes(d, b, l, off) <= if b == 0 then l + 1 else l
    decreases l
  {
    if b != 0 && l > 0 {
      ChildRole(d, own, h, b, Slot(off, l - 1));
      HolesBound(d, own, h, d[b][Slot(off, l - 1)], l - 1, off);
    }
  }

  /** No write costs more than ten blocks. */
  lemma CostBound(d: Disk, own: Owners, i: nat, off: Word)
    requires Valid(d, own) && HasInode(d, i)
    ensures Cost(d, i, off) <= 10
  {
    hide Cost, Valid, Levels, LevelsFor;
    CostCases(d, own, i, off);
    LevelsBound(Size(d, i));
    LevelsForMonotone(off, WORD_LIMIT - 1);
    LevelsNone(off);
  }

  lemma LevelsNone(off: nat)
    ensures Levels(0) == 0 && (LevelsFor(off) == 0 ==> off == 0)
  {
  }

  lemma FilesLength(d: Disk)
    requires |d| > 0
    ensures |Files(d)| == NInodes(d)
  {
  }

  lemma Extend(image: seq<Block>, b: nat)
    requires b < |image|
    ensures WriteSpec(image[..b], b, image[b]) == image[..b + 1]
  {
  }

  /** The disk and its owners when a run of writes came to a stop before write `at`. */
  datatype Stop = Stop(at: nat, disk: Disk, own: Owners)

  /** The next write does not fit: it needs more blocks than are free. */
  ghost predicate Stuck(s: Stop, fs: seq<seq<Block>>, i: nat, off: nat) {
    && Valid(s.disk, s.own) && HasInode(s.disk, i) && Files(s.disk) == fs
    && |FreeSet(s.own)| < Cost(s.disk, i, off)
  }

  /** Loads a file image into an empty inode block by block, as the disk image tool does.
      On success the file is the image and no other file moved. It halts only at a block
      that does not fit, with the image loaded up to there. */
  method LoadImage(store: Store, ino: Word, image: seq<Block>) returns (r: Outcome, ghost s: Stop)
    requires Valid(store.disk, store.own) && HasInode(store.disk, ino) && |image| < WORD_LIMIT
    requires Files(store.disk)[ino] == []
    modifies store
    ensures r.Done? || r.Halted?
    ensures r.Done? ==> Valid(store.disk, store.own)
    ensures r.Done? ==> Files(store.disk) == old(Files(store.disk))[ino := image]
    ensures r.Halted? ==> s.at < |image| && Stuck(s, old(Files(store.disk))[ino := image[..s.at]], ino, s.at)
  {
    hide Valid, Files, WriteSpec, Cost, Chain;
    assert |Files(store.disk)| == NInodes(store.disk) by { FilesLength(store.disk); }
    ghost var fs := Files(store.disk);
    assert fs[ino := image[..0]] == fs;
    var b := 0;
    s := Stop(0, store.disk, store.own);
    while b < |image|
      invariant 0 <= b <= |image|
      invariant Valid(store.disk, store.own) && HasInode(store.disk, ino) && ino < |fs|
      invariant Files(store.disk) == fs[ino := image[..b]]
    {
      Extend(image, b);
      s := Stop(b, store.disk, store.own);
      r := store.Write(ino, b, image[b]);
      if !r.Done? { return; }
      b := b + 1;
    }
    assert image[..b] == image;
    r := Done;
  }

  /** A write the tree layer takes. */
  predicate Writable(d: Disk, w: BlockWrite)
    requires |d| > 0
  {
    HasInode(d, w.ino) && w.off < WORD_LIMIT - 1
  }

  /** Any run of writes: if none halts, the files are what the run means; otherwise the
      first write that does not fit is the one that stopped it. */
  method WriteAll(store: Store, ws: seq<BlockWrite>) returns (r: Outcome, ghost s: Stop)
    requires Valid(store.disk, store.own) && |store.disk| > 0
    requires forall k :: 0 <= k < |ws| ==> Writable(store.disk, ws[k]) && ws[k].ino < |Files(store.disk)|
    modifies store
    ensures r.Done? || r.Halted?
    ensures r.Done? ==> |store.disk| == |old(store.disk)| && NInodeBlocks(store.disk) == NInodeBlocks(old(store.disk))
    ensures r.Done? ==> Valid(store.disk, store.own) && Files(store.disk) == Apply(old(Files(store.disk)), ws)
    ensures r.Halted? ==>
      && s.at < |ws|
      && Stuck(s, Apply(old(Files(store.disk)), ws[..s.at]), ws[s.at].ino, ws[s.at].off)
    ensures r.Halted? ==> |old(FreeSet(store.own))| < 10 * |ws|
  {
    hide Valid, Files, WriteSpec, Cost, Chain;
    ghost var fs, n := Files(store.disk), NInodeBlocks(store.disk);
    var k := 0;
    s := Stop(0, store.disk, store.own);
    while k < |ws|
      invariant 0 <= k <= |ws|
      invariant Valid(store.disk, store.own) && |store.disk| == |old(store.disk)| && NInodeBlocks(store.disk) == n
      invariant Files(store.disk) == Apply(fs, ws[..k])
      invariant |FreeSet(store.own)| + 10 * k >= |old(FreeSet(store.own))|
    {
      s := Stop(k, store.disk, store.own);
      assert Writable(old(store.disk), ws[k]);
      CostBound(store.disk, store.own, ws[k].ino, ws[k].off);
      r := store.Write(ws[k].ino, ws[k].off, ws[k].block);
      if !r.Done? { return; }
      assert ws[..k + 1][..k] == ws[..k];
      k := k + 1;
    }
    assert ws[..k] == ws;
    r := Done;
  }

  /** All blocks from `lo` on are free. */
  lemma FreeBehind(d: Disk, own: Owners, lo: nat)
    requires Valid(d, own) && lo <= |d| && forall b :: 0 <= b < |d| ==> own[b].Free() == (b >= lo)
    ensures |FreeSet(own)| == |d| - lo
  {
    Interval(lo, |d| - lo, FreeSet(own));
  }

  /** The number of inodes of a new file system: whole blocks of 64. */
  function NewInodes(ninodes: Word): nat { (ninodes + 63) % WORD_LIMIT / 64 * 64 }

  /** The block a reader is to see after a run of writes, if the file reaches it. */
  function Seen(ws: seq<BlockWrite>, i: nat, off: nat): Option<Block> {
    if off >= Extent(ws, i) then None
    else if LastWrite(ws, i, off) < 0 then Some(ZeroBlock())
    else Some(ws[LastWrite(ws, i, off)].block)
  }

  /** What a reader sees after creating a file system and any run of writes: the size is one
      past the highest block written, and a block is what was last written there, zeros in a
      hole, and nothing past the end. With ten blocks for each write no run is cut short. */
  method CreateWriteRead(store: Store, ninodes: Word, ws: seq<BlockWrite>, ino: Word, off: Word)
    returns (r: Outcome, size: int, b: Option<Block>)
    requires |store.disk| < WORD_LIMIT && |store.disk| >= NewInodes(ninodes) / 64 + 2 && store.disk[0][0] == 0
    requires forall k :: 0 <= k < |ws| ==> ws[k].ino < NewInodes(ninodes) && ws[k].off < WORD_LIMIT - 1
    modifies store
    ensures r.Done? || r.Halted?
    ensures r.Halted? ==> |old(store.disk)| - NewInodes(ninodes) / 64 - 1 < 10 * |ws|
    ensures r.Done? && ino < NewInodes(ninodes) ==>
      && b == Seen(ws, ino, off) && Extent(ws, ino) < WORD_LIMIT
      && size == if Extent(ws, ino) < 0x8000_0000 then Extent(ws, ino) else Extent(ws, ino) - WORD_LIMIT
    ensures r.Done? && ino >= NewInodes(ninodes) ==> size == -1 && b == None
  {
    hide Valid, Files, WriteSpec, Cost, Chain, Apply, LastWrite, Extent;
    size, b := -1, None;
    var ok := Create(store, ninodes);
    FilesLength(store.disk);
    FreeBehind(store.disk, store.own, NewInodes(ninodes) / 64 + 1);
    ghost var s;
    r, s := WriteAll(store, ws);
    if r.Halted? { return; }
    FilesLength(store.disk);
    if ino < NewInodes(ninodes) {
      LastWriteWins(NewInodes(ninodes), ws, ino, off);
      assert Files(store.disk) == Apply(seq(NewInodes(ninodes), (j: nat) => []), ws);
    }
    size := store.GetSize(ino);
    b := store.Read(ino, off);
  }
}
