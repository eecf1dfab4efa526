/** The steps of one treedisk write, as facts about disks and roles. Between steps the
    disk may lag behind one buffer still in memory: the inode block while levels are
    added, or an indirect block not yet written. `Working` holds of the disk with that
    buffer in place. */
module TreeWrite {
  import opened Basics
  import opened TreeLayout
  import opened TreeOwnership

  ghost predicate NoLoose(own: Owners) {
    forall b :: 0 <= b < |own| ==> own[b] != Loose
  }

  ghost predicate OnlyLoose(own: Owners, x: nat) {
    && x < |own|
    && own[x] == Loose
    && forall b :: 0 <= b < |own| && b != x ==> own[b] != Loose
  }

  // ----- Allocation

  /** Block `b` left the free list and nothing that was in use changed. */
  ghost predicate Allocated(d: Disk, own: Owners, d': Disk, own': Owners, b: nat) {
    && FreeOk(d, own) && FreeOk(d', own')
    && |d'| == |d|
    && NInodeBlocks(d') == NInodeBlocks(d)
    && b < |d| && own[b].Free() && own'[b] == Loose
    && (forall c :: 0 <= c < |d| && c != b ==> own'[c].Free() == own[c].Free())
    && UsedKept(d, own, d', own')
  }

  /** Every block in use keeps its role and, but for the superblock, its contents. */
  ghost predicate UsedKept(d: Disk, own: Owners, d': Disk, own': Owners) {
    && |d| == |own| == |d'| == |own'|
    && forall c :: 0 <= c < |d| && !own[c].Free() ==> own'[c] == own[c] && (c != 0 ==> d'[c] == d[c])
  }

  lemma AllocatedCount(d: Disk, own: Owners, d': Disk, own': Owners, b: nat)
    requires Allocated(d, own, d', own', b)
    ensures |FreeSet(own')| == |FreeSet(own)| - 1
  {
    assert FreeSet(own') == FreeSet(own) - {b};
  }

  lemma SpareAllocated(d: Disk, own: Owners, n: nat)
    requires FreeOk(d, own) && FreeHead(d) != 0 && 1 <= n < 128 && d[FreeHead(d)][n] != 0
    ensures d[FreeHead(d)][n] < |d|
    ensures Allocated(d, own, d[FreeHead(d) := d[FreeHead(d)][n := 0]], own[d[FreeHead(d)][n] := Loose],
                      d[FreeHead(d)][n])
  {
    TakeSpare(d, own, n);
  }

  lemma HeadAllocated(d: Disk, own: Owners)
    requires FreeOk(d, own) && FreeHead(d) != 0
    requires forall j :: 1 <= j < 128 ==> d[FreeHead(d)][j] == 0
    ensures ListBlockOk(d, own, FreeHead(d))
    ensures Allocated(d, own, d[0 := d[0][1 := d[FreeHead(d)][0]]], Unlink(own, FreeHead(d), d[FreeHead(d)][0]),
                      FreeHead(d))
  {
    TakeHead(d, own);
  }

  lemma AllocatedApart(d0: Disk, own0: Owners, d: Disk, own: Owners, d': Disk, own': Owners, b: nat, i: nat)
    requires Apart(d0, own0, d, own, i) && Allocated(d, own, d', own', b)
    ensures Apart(d0, own0, d', own', i)
  {
    ApartFrame(d, own, d', own', i);
  }

  // ----- Data blocks

  /** Apart from block `off` of inode i, both owners agree on which block holds which
      data, and those blocks hold what they held. */
  ghost predicate DataKept(d0: Disk, own0: Owners, d: Disk, own: Owners, i: nat, off: nat) {
    && |d| == |own| == |d0| == |own0|
    && (forall c :: 0 <= c < |d| && own0[c].Node? && own0[c].level == 0 && !own0[c].DataOf(i, off) ==>
          own[c].DataOf(own0[c].ino, own0[c].index) && d[c] == d0[c])
    && (forall c :: 0 <= c < |d| && own[c].Node? && own[c].level == 0 && !own[c].DataOf(i, off) ==>
          own0[c].DataOf(own[c].ino, own[c].index))
  }

  lemma {:induction false} InCapacity(size: nat, m: nat)
    requires m < size
    ensures Prefix(m, Levels(size)) == 0
  {
    PrefixMonotone(m, size - 1, Levels(size));
    LevelsForLeast(size - 1, Levels(size));
  }

  function NewSize(size: nat, off: nat): nat {
    if off >= size then off + 1 else size
  }

  /** Below the size, a file's block is the data block whose role names it, or zeros. */
  lemma BlockByRole(d: Disk, own: Owners, k: nat, m: nat)
    requires Valid(d, own) && k < NInodes(d) && m < Size(d, k)
    ensures forall c :: 0 <= c < |d| && own[c].DataOf(k, m) ==> BlockAt(d, k, m) == d[c]
    ensures (forall c :: 0 <= c < |d| ==> !own[c].DataOf(k, m)) ==> BlockAt(d, k, m) == ZeroBlock()
  {
    if c :| 0 <= c < |d| && own[c].DataOf(k, m) {
      forall c | 0 <= c < |d| && own[c].DataOf(k, m) ensures BlockAt(d, k, m) == d[c] {
        LookupHit(d, own, HeightsOf(d), c);
      }
    } else {
      InCapacity(Size(d, k), m);
      LookupHole(d, own, HeightsOf(d), k, m);
    }
  }

  /** A block of the new disk other than the one written. */
  lemma OtherBlock(d0: Disk, own0: Owners, d: Disk, own: Owners, i: nat, off: nat, k: nat, m: nat)
    requires Valid(d0, own0) && Valid(d, own) && NInodeBlocks(d) == NInodeBlocks(d0)
    requires DataKept(d0, own0, d, own, i, off)
    requires k < NInodes(d0) && m < Size(d, k) && !(k == i && m == off)
    ensures BlockAt(d, k, m) == if m < Size(d0, k) then BlockAt(d0, k, m) else ZeroBlock()
  {
    BlockByRole(d, own, k, m);
    if m < Size(d0, k) { BlockByRole(d0, own0, k, m); }
    assert forall c :: 0 <= c < |d| ==> own[c].DataOf(k, m) == own0[c].DataOf(k, m);
  }

  /** A write refines the write of the abstract file system. */
  lemma WriteRefines(d0: Disk, own0: Owners, d: Disk, own: Owners, i: nat, off: nat, c: nat)
    requires Valid(d0, own0) && Valid(d, own) && NInodeBlocks(d) == NInodeBlocks(d0)
    requires DataKept(d0, own0, d, own, i, off)
    requires i < NInodes(d0) && c < |d| && own[c].DataOf(i, off)
    requires forall k :: 0 <= k < NInodes(d0) ==>
      Size(d, k) == if k == i then NewSize(Size(d0, k), off) else Size(d0, k)
    ensures Files(d) == Files(d0)[i := WriteSpec(Files(d0)[i], off, d[c])]
  {
    var fs := Files(d0)[i := WriteSpec(Files(d0)[i], off, d[c])];
    forall k | 0 <= k < NInodes(d0) ensures File(d, k) == fs[k] {
      forall m | 0 <= m < Size(d, k) ensures BlockAt(d, k, m) == fs[k][m] {
        if k == i && m == off {
          LookupHit(d, own, HeightsOf(d), c);
        } else {
          OtherBlock(d0, own0, d, own, i, off, k, m);
        }
      }
    }
  }

  // ----- The state between two steps

  ghost predicate Working(d0: Disk, own0: Owners, i: nat, off: nat,
                          d: Disk, po: nat, pb: Block, own: Owners, h: Heights)
  {
    && Valid(d0, own0) && i < NInodes(d0)
    && FreeOk(d, own)
    && po < |d| && (own[po].NodeOf(i) || po == 1 + i / 64)
    && Apart(d0, own0, d, own, i)
    && Apart(d0, own0, d[po := pb], own, i)
    && TreesOk(d[po := pb], own, h)
    && DataKept(d0, own0, d[po := pb], own, i, off)
    && Size(d[po := pb], i) == NewSize(Size(d0, i), off)
    && |h| == NInodes(d0)
    && (forall k :: 0 <= k < |h| && k != i ==> h[k] == Levels(Size(d0, k)))
  }

  lemma BeginTree(d: Disk, own: Owners, h: Heights, i: nat, size: Word, d': Disk)
    requires TreesOk(d, own, h) && i < |h|
    requires d' == d[1 + i / 64 := d[1 + i / 64][2 * (i % 64) + 1 := size]]
    ensures TreesOk(d', own, h) && Apart(d, own, d', own, i) && Size(d', i) == size
  {
    assert own[1 + i / 64] == Inodes;
    assert Fixed(d', own);
    forall k | 0 <= k < |h|
      ensures Root(d', k) == Root(d, k) && (k != i ==> Size(d', k) == Size(d, k)) && RootOk(d', own, h, k)
    {
      assert RootOk(d, own, h, k);
      assert k != i ==> k / 64 != i / 64 || k % 64 != i % 64;
    }
    forall b | 0 <= b < |d| && own[b].Node? ensures NodeOk(d', own, h, b) {
      assert NodeOk(d, own, h, b);
    }
  }

  /** The size word holds the new size exactly for offsets below the last one: a write
      at 2^32 - 1 wraps it to 0 and leaves an empty file behind. */
  lemma SizeFits(d: Disk, i: nat, off: Word)
    requires Shaped(d) && HasInode(d, i)
    ensures
      var d' := d[1 + i / 64 := d[1 + i / 64][2 * (i % 64) + 1 := NewSize(Size(d, i), off) % WORD_LIMIT]];
      && (|File(d', i)| == NewSize(Size(d, i), off) <==> off < WORD_LIMIT - 1)
      && (off == WORD_LIMIT - 1 ==> File(d', i) == [])
  {
    SizeStored(d, i, NewSize(Size(d, i), off) % WORD_LIMIT);
  }

  /** No disk at all could hold what a write at the last offset is to leave behind: a file of
      2^32 blocks does not fit its size word. */
  lemma LastOffset(f: seq<Block>, blk: Block, d: Disk, i: nat)
    requires HasInode(d, i)
    ensures |File(d, i)| < WORD_LIMIT && File(d, i) != WriteSpec(f, WORD_LIMIT - 1, blk)
  {
    assert |WriteSpec(f, WORD_LIMIT - 1, blk)| >= WORD_LIMIT;
  }

  /** The block reached by n steps of a walk of l levels towards an offset, or 0. */
  function Down(d: Disk, b: nat, l: nat, off: nat, n: nat): nat
    requires n <= l
    decreases n
  {
    if n == 0 || b == 0 || b >= |d| then b else Down(d, d[b][Slot(off, l - 1)], l - 1, off, n - 1)
  }

  /** At the last offset the code does not grow the tree but walks five levels all the same. In
      a tree of L levels, fewer than five exactly for a file of at most 2^28 blocks, it stands
      after L steps at the data block whose number is the offset without its last 5 - L
      digits, or at a hole exactly if the file has no such block, with 5 - L levels to go. The
      words of a data block are then taken for block numbers. */
  lemma LastWalk(d: Disk, own: Owners, i: nat)
    requires Valid(d, own) && HasInode(d, i)
    ensures LevelsFor(WORD_LIMIT - 1) == 5 >= Levels(Size(d, i))
    ensures Levels(Size(d, i)) < 5 <==> Size(d, i) <= 0x1000_0000
    ensures
      var L := Levels(Size(d, i));
      var x := Prefix(WORD_LIMIT - 1, 5 - L);
      var b := Down(d, Root(d, i), 5, WORD_LIMIT - 1, L);
      && (b == 0 <==> forall c :: 0 <= c < |d| ==> !own[c].DataOf(i, x))
      && (b != 0 ==> b < |d| && own[b].DataOf(i, x) && x < Size(d, i))
  {
    hide LevelsFor, FreeOk;
    LevelsBound(Size(d, i));
    var h, L := HeightsOf(d), Levels(Size(d, i));
    var x := Prefix(WORD_LIMIT - 1, 5 - L);
    assert RootOk(d, own, h, i);
    DownShift(d, Root(d, i), L, 5 - L, WORD_LIMIT - 1, L);
    PrefixPrefix(WORD_LIMIT - 1, 5 - L, L);
    WordPrefix(WORD_LIMIT - 1, 5);
    DownData(d, own, h, i, Root(d, i), x);
    if c :| 0 <= c < |d| && own[c].DataOf(i, x) {
      DownVia(d, own, h, c, x);
      assert NodeOk(d, own, h, c);
    }
  }

  lemma {:induction false} PrefixPrefix(off: nat, k: nat, l: nat)
    ensures Prefix(off, l + k) == Prefix(Prefix(off, k), l)
  {
    if l > 0 { PrefixPrefix(off, k, l - 1); }
  }

  /** The first steps of a longer walk are the walk towards the leading digits. */
  lemma {:induction false} DownShift(d: Disk, b: nat, l: nat, k: nat, off: nat, n: nat)
    requires n <= l
    ensures Down(d, b, l + k, off, n) == Down(d, b, l, Prefix(off, k), n)
    decreases n
  {
    if n > 0 && b != 0 && b < |d| {
      PrefixPrefix(off, k, l - 1);
      DownShift(d, d[b][Slot(off, l + k - 1)], l - 1, k, off, n - 1);
    }
  }

  /** A walk down from a node on the path ends at the data block of the offset or in a hole. */
  lemma {:induction false} DownData(d: Disk, own: Owners, h: Heights, i: nat, b: nat, off: nat)
    requires TreesOk(d, own, h)
    requires b == 0 || (b < |d| && own[b].NodeOf(i) && own[b].index == Prefix(off, own[b].level))
    ensures b != 0 ==>
      var c := Down(d, b, own[b].level, off, own[b].level);
      c == 0 || (c < |d| && own[c].DataOf(i, off))
    decreases if b == 0 || b >= |d| || !own[b].Node? then 0 else own[b].level
  {
    if b != 0 && own[b].level > 0 {
      var l := own[b].level - 1;
      ChildRole(d, own, h, b, Slot(off, l));
      PrefixSplit(off, l);
      DownData(d, own, h, i, d[b][Slot(off, l)], off);
    }
  }

  /** A walk from the root passes every node on the path. */
  lemma {:induction false} DownVia(d: Disk, own: Owners, h: Heights, b: nat, off: nat)
    requires TreesOk(d, own, h) && b < |d| && own[b].Node? && own[b].ino < |h|
    requires own[b].index == Prefix(off, own[b].level)
    ensures var l := h[own[b].ino];
      Down(d, Root(d, own[b].ino), l, off, l) == Down(d, b, own[b].level, off, own[b].level)
    decreases h[own[b].ino] - own[b].level
  {
    assert NodeOk(d, own, h, b);
    var p := own[b].parent;
    if p != 0 {
      assert NodeOk(d, own, h, p);
      DownVia(d, own, h, p, off);
    }
  }

  lemma LevelsBound(size: Word)
    ensures LevelsFor(WORD_LIMIT - 1) == 5 >= Levels(size)
    ensures Levels(size) < 5 <==> size <= 0x1000_0000
  {
    var last: Word := WORD_LIMIT - 1;
    assert LevelsFor(last) == 5 by {
      WordPrefix(last, 5);
      LevelsForLeast(last, 5);
      LevelsForLeast(last, 4);
      FourDigits(last);
    }
    if size > 0 {
      LevelsForMonotone(size - 1, last);
      LevelsForLeast(size - 1, 4);
      FourDigits(size - 1);
    }
  }

  lemma FourDigits(x: nat)
    ensures Prefix(x, 4) == x / 0x1000_0000
  {
    assert Prefix(x, 1) == x / 128;
    assert Prefix(x, 2) == Prefix(x, 1) / 128;
    assert Prefix(x, 3) == Prefix(x, 2) / 128;
    assert Prefix(x, 4) == Prefix(x, 3) / 128;
  }

  lemma SizeStored(d: Disk, i: nat, size: Word)
    requires Shaped(d) && HasInode(d, i)
    ensures |File(d[1 + i / 64 := d[1 + i / 64][2 * (i % 64) + 1 := size]], i)| == size
  {
    var d' := d[1 + i / 64 := d[1 + i / 64][2 * (i % 64) + 1 := size]];
    assert HasInode(d', i) && Size(d', i) == size;
  }

  /** The in-memory inode with its new size is the first buffer. */
  lemma Begin(d0: Disk, own0: Owners, i: nat, off: Word, pb: Block)
    requires Valid(d0, own0) && i < NInodes(d0) && off < WORD_LIMIT - 1
    requires pb == d0[1 + i / 64][2 * (i % 64) + 1 := NewSize(Size(d0, i), off)]
    ensures Working(d0, own0, i, off, d0, 1 + i / 64, pb, own0, HeightsOf(d0))
    ensures NoLoose(own0) && 0 < |own0| == |d0| && own0[0] == Super && own0[1 + i / 64] == Inodes
    ensures |HeightsOf(d0)| == NInodes(d0) && HeightsOf(d0)[i] == Levels(Size(d0, i))
  {
    BeginTree(d0, own0, HeightsOf(d0), i, NewSize(Size(d0, i), off), d0[1 + i / 64 := pb]);
    assert own0[1 + i / 64] == Inodes;
  }

  /** One step: how the new disk, buffer and roles must relate to the old ones. */
  lemma WorkingStep(d0: Disk, own0: Owners, i: nat, off: nat,
                    d: Disk, po: nat, pb: Block, own: Owners, h: Heights,
                    d': Disk, po': nat, pb': Block, own': Owners, h': Heights)
    requires Working(d0, own0, i, off, d, po, pb, own, h)
    requires FreeOk(d', own') && po' < |d'| && (own'[po'].NodeOf(i) || po' == 1 + i / 64)
    requires Apart(d, own, d', own', i)
    requires Apart(d[po := pb], own, d'[po' := pb'], own', i)
    requires DataKept(d[po := pb], own, d'[po' := pb'], own', i, off)
    requires TreesOk(d'[po' := pb'], own', h')
    requires Size(d'[po' := pb'], i) == Size(d[po := pb], i)
    requires |h'| == |h| && forall k :: 0 <= k < |h| && k != i ==> h'[k] == h[k]
    ensures Working(d0, own0, i, off, d', po', pb', own', h')
  {
  }

  lemma ApartFrame(d: Disk, own: Owners, d': Disk, own': Owners, i: nat)
    requires Fixed(d, own) && Fixed(d', own')
    requires NInodeBlocks(d') == NInodeBlocks(d) && UsedKept(d, own, d', own')
    ensures Apart(d, own, d', own', i)
    ensures forall k :: 0 <= k < NInodes(d) ==> Size(d', k) == Size(d, k)
  {
    forall k | 0 <= k < NInodes(d) ensures Root(d', k) == Root(d, k) && Size(d', k) == Size(d, k) {
      assert own[1 + k / 64] == Inodes;
    }
  }

  /** The free list does not notice changes to blocks in use. */
  lemma FreeFrame(d: Disk, own: Owners, d': Disk, own': Owners)
    requires FreeOk(d, own) && Fixed(d', own') && |d'| == |d| && d'[0] == d[0]
    requires forall c :: 0 <= c < |d| ==> own'[c].Free() == own[c].Free()
    requires forall c :: 0 <= c < |d| && own[c].Free() ==> own'[c] == own[c] && d'[c] == d[c]
    ensures FreeOk(d', own') && FreeSet(own') == FreeSet(own)
  {
    forall c | 0 <= c < |d| && own'[c].ListBlock? ensures ListBlockOk(d', own', c) {
      assert ListBlockOk(d, own, c);
    }
    forall c | 0 <= c < |d| && own'[c].Spare? ensures SpareOk(d', own', c) {
      assert SpareOk(d, own, c);
    }
  }

  /** Taking a block off the free list disturbs neither the trees nor the buffer. */
  lemma AllocStep(d0: Disk, own0: Owners, i: nat, off: nat, d: Disk, po: nat, pb: Block, own: Owners, h: Heights,
                  d': Disk, own': Owners, b: nat)
    requires Working(d0, own0, i, off, d, po, pb, own, h) && NoLoose(own)
    requires Allocated(d, own, d', own', b)
    ensures Working(d0, own0, i, off, d', po, pb, own', h) && OnlyLoose(own', b)
  {
    var v, v' := d[po := pb], d'[po := pb];
    assert own[1 + i / 64] == Inodes && !own[po].Free();
    assert Fixed(v', own') && UsedKept(v, own, v', own');
    ApartFrame(d, own, d', own', i);
    ApartFrame(v, own, v', own', i);
    TreesFrame(v, own, v', own', h);
    WorkingStep(d0, own0, i, off, d, po, pb, own, h, d', po, pb, own', h);
  }

  /** Only inode i's nodes and the block in hand change, on disk and in their roles. */
  ghost predicate MineOnly(d: Disk, own: Owners, d': Disk, own': Owners, i: nat, b: nat) {
    && |d| == |own| == |d'| == |own'|
    && (forall c :: 0 <= c < |d| ==> own'[c] == own[c] || (own'[c].NodeOf(i) && (c == b || own[c].NodeOf(i))))
    && (forall c :: 0 <= c < |d| && c != b && !own[c].NodeOf(i) ==> d'[c] == d[c])
  }

  /** Writing the block in hand leaves the free list and the other inodes alone. */
  lemma MineApart(d: Disk, own: Owners, d': Disk, own': Owners, i: nat, b: nat)
    requires FreeOk(d, own) && b < |d| && own[b] == Loose && MineOnly(d, own, d', own', i, b)
    ensures FreeOk(d', own') && FreeSet(own') == FreeSet(own) && Apart(d, own, d', own', i)
  {
    assert Fixed(d', own');
    FreeFrame(d, own, d', own');
  }

  /** The tree side of adding a level. */
  lemma GrowTree(v: Disk, own: Owners, h: Heights, i: nat, off: nat, b: Word, v': Disk, own': Owners)
    requires TreesOk(v, own, h) && i < |h| && OnlyLoose(own, b)
    requires RootOk(v, own, h, i)
    requires v' == SetRoot(v[b := ZeroBlock()[0 := Root(v, i)]], i, b)
    requires own' == GrownOwners(own, h, i, Root(v, i), b)
    ensures TreesOk(v', own', h[i := h[i] + 1]) && NoLoose(own')
    ensures Apart(v, own, v', own', i) && DataKept(v, own, v', own', i, off) && Size(v', i) == Size(v, i)
  {
    GrowRoot(v, own, h, i, b);
    SetRootOnly(v[b := ZeroBlock()[0 := Root(v, i)]], i, b);
  }

  /** One more level: the old root goes into slot 0 of a new indirect block. */
  lemma GrowStep(d0: Disk, own0: Owners, i: nat, off: nat, d: Disk, po: nat, pb: Block, own: Owners, h: Heights,
                 b: Word)
    requires Working(d0, own0, i, off, d, po, pb, own, h) && OnlyLoose(own, b)
    requires po == 1 + i / 64
    ensures pb[2 * (i % 64)] < |own| && (pb[2 * (i % 64)] != 0 ==> own[pb[2 * (i % 64)]].Node?)
    ensures
      var root := pb[2 * (i % 64)];
      var own' := GrownOwners(own, h, i, root, b);
      && Working(d0, own0, i, off, d[b := ZeroBlock()[0 := root]], po, pb[2 * (i % 64) := b], own', h[i := h[i] + 1])
      && NoLoose(own') && FreeSet(own') == FreeSet(own)
  {
    var s := 2 * (i % 64);
    var root, v := pb[s], d[po := pb];
    assert RootOk(v, own, h, i) && own[po] == Inodes;
    var own' := GrownOwners(own, h, i, root, b);
    var tib := ZeroBlock()[0 := root];
    var d', pb' := d[b := tib], pb[s := b];
    assert d'[po := pb'] == SetRoot(v[b := tib], i, b);
    GrowTree(v, own, h, i, off, b, d'[po := pb'], own');
    MineApart(d, own, d', own', i, b);
    WorkingStep(d0, own0, i, off, d, po, pb, own, h, d', po, pb', own', h[i := h[i] + 1]);
  }

  /** The tree side of giving an inode its first block. */
  lemma RootTree(d: Disk, own: Owners, h: Heights, i: nat, off: nat, b: Word, blk: Block, own': Owners)
    requires TreesOk(d, own, h) && FreeOk(d, own) && i < |h| && OnlyLoose(own, b) && Root(d, i) == 0
    requires if h[i] == 0 then off == 0 else blk == ZeroBlock()
    requires own' == own[b := Node(i, h[i], 0, 0)]
    ensures FreeOk(SetRoot(d, i, b), own') && FreeSet(own') == FreeSet(own) && NoLoose(own')
    ensures Apart(d, own, SetRoot(d, i, b), own', i)
    ensures
      var v := SetRoot(d, i, b)[b := blk];
      && TreesOk(v, own', h)
      && Apart(d, own, v, own', i) && DataKept(d, own, v, own', i, off) && Size(v, i) == Size(d, i)
  {
    LinkRoot(d, own, h, i, b, blk);
    assert own[1 + i / 64] == Inodes;
    assert SetRoot(d, i, b)[b := blk] == SetRoot(d[b := blk], i, b);
    SetRootOnly(d[b := blk], i, b);
    SetRootOnly(d, i, b);
    FreeFrame(d, own, SetRoot(d, i, b), own');
  }

  /** Hanging a first block into an inode without a root. */
  lemma RootStep(d0: Disk, own0: Owners, i: nat, off: nat, d: Disk, po: nat, pb: Block, own: Owners, h: Heights,
                 b: Word, blk: Block)
    requires Working(d0, own0, i, off, d, po, pb, own, h) && OnlyLoose(own, b)
    requires po == 1 + i / 64 && d[po] == pb && pb[2 * (i % 64)] == 0
    requires if h[i] == 0 then off == 0 else blk == ZeroBlock()
    ensures
      var own' := own[b := Node(i, h[i], 0, 0)];
      && Working(d0, own0, i, off, d[po := pb[2 * (i % 64) := b]], b, blk, own', h)
      && NoLoose(own') && FreeSet(own') == FreeSet(own)
  {
    var own' := own[b := Node(i, h[i], 0, 0)];
    assert d[po := pb] == d;
    RootTree(d, own, h, i, off, b, blk, own');
    WorkingStep(d0, own0, i, off, d, po, pb, own, h, SetRoot(d, i, b), b, blk, own', h);
  }

  /** The tree side of filling an empty slot on the path to `off`. */
  lemma ChildTree(v: Disk, own: Owners, h: Heights, i: nat, off: nat, po: nat, b: Word, blk: Block,
                  v': Disk, own': Owners)
    requires TreesOk(v, own, h) && OnlyLoose(own, b) && po < |v|
    requires own[po].NodeOf(i) && own[po].level > 0 && own[po].index == Prefix(off, own[po].level)
    requires v[po][Slot(off, own[po].level - 1)] == 0
    requires own[po].level > 1 ==> blk == ZeroBlock()
    requires v' == v[po := v[po][Slot(off, own[po].level - 1) := b]][b := blk]
    requires own' == own[b := Node(i, own[po].level - 1, Prefix(off, own[po].level - 1), po)]
    ensures TreesOk(v', own', h) && NoLoose(own')
    ensures i < |h| && Apart(v, own, v', own', i) && DataKept(v, own, v', own', i, off) && Size(v', i) == Size(v, i)
  {
    PrefixSplit(off, own[po].level - 1);
    assert NodeOk(v, own, h, po);
    LinkChild(v, own, h, po, Slot(off, own[po].level - 1), b, blk);
  }

  /** Hanging a new block into an empty slot of an indirect block. */
  lemma ChildStep(d0: Disk, own0: Owners, i: nat, off: nat, d: Disk, po: nat, pb: Block, own: Owners, h: Heights,
                  b: Word, blk: Block)
    requires Working(d0, own0, i, off, d, po, pb, own, h) && OnlyLoose(own, b)
    requires own[po].NodeOf(i) && own[po].level > 0 && own[po].index == Prefix(off, own[po].level)
    requires pb[Slot(off, own[po].level - 1)] == 0
    requires own[po].level > 1 ==> blk == ZeroBlock()
    ensures
      var l := own[po].level - 1;
      var own' := own[b := Node(i, l, Prefix(off, l), po)];
      && Working(d0, own0, i, off, d[po := pb[Slot(off, l) := b]], b, blk, own', h)
      && NoLoose(own') && FreeSet(own') == FreeSet(own)
  {
    var l := own[po].level - 1;
    var own' := own[b := Node(i, l, Prefix(off, l), po)];
    var d', v: Disk := d[po := pb[Slot(off, l) := b]], d[po := pb];
    var w: Disk := v[po := v[po][Slot(off, l) := b]];
    assert d'[b := blk] == w[b := blk];
    ChildTree(v, own, h, i, off, po, b, blk, d'[b := blk], own');
    MineApart(d, own, d', own', i, b);
    WorkingStep(d0, own0, i, off, d, po, pb, own, h, d', b, blk, own', h);
  }

  /** Writing the buffer out. */
  lemma FlushStep(d0: Disk, own0: Owners, i: nat, off: nat, d: Disk, po: nat, pb: Block, own: Owners, h: Heights)
    requires Working(d0, own0, i, off, d, po, pb, own, h)
    ensures po < |d| && Working(d0, own0, i, off, d[po := pb], po, pb, own, h)
    ensures Apart(d0, own0, d[po := pb], own, i) && FreeOk(d[po := pb], own)
  {
    assert own[1 + i / 64] == Inodes && !own[po].Free() && po != 0;
    assert d[po := pb][po := pb] == d[po := pb];
    FreeFrame(d, own, d[po := pb], own);
  }

  /** Reading an existing block of the path into the buffer. */
  lemma MoveStep(d0: Disk, own0: Owners, i: nat, off: nat, d: Disk, po: nat, pb: Block, own: Owners, h: Heights, b: nat)
    requires Working(d0, own0, i, off, d, po, pb, own, h) && d[po] == pb
    requires b < |d| && own[b].NodeOf(i)
    ensures Working(d0, own0, i, off, d, b, d[b], own, h)
  {
    assert d[po := pb] == d && d[b := d[b]] == d;
  }

  lemma DataTree(v: Disk, own: Owners, h: Heights, b: nat, blk: Block)
    requires TreesOk(v, own, h) && b < |v| && own[b].Node? && own[b].level == 0
    ensures TreesOk(v[b := blk], own, h)
  {
    var v' := v[b := blk];
    assert Fixed(v', own);
    forall k | 0 <= k < |h| ensures RootOk(v', own, h, k) { assert RootOk(v, own, h, k); }
    forall c | 0 <= c < |v| && own[c].Node? ensures NodeOk(v', own, h, c) {
      assert NodeOk(v, own, h, c);
      if c != b { assert v'[c] == v[c]; }
      if own[c].parent != 0 { assert own[c].parent != b; }
    }
  }

  /** Replacing the contents of the data block being written. */
  lemma DataStep(d0: Disk, own0: Owners, i: nat, off: nat, d: Disk, b: nat, pb: Block, own: Owners, h: Heights,
                 blk: Block)
    requires Working(d0, own0, i, off, d, b, pb, own, h) && own[b].DataOf(i, off)
    ensures Working(d0, own0, i, off, d, b, blk, own, h)
  {
    DataTree(d[b := pb], own, h, b, blk);
    assert d[b := pb][b := blk] == d[b := blk];
    WorkingStep(d0, own0, i, off, d, b, pb, own, h, d, b, blk, own, h);
  }

  /** Once the disk has caught up, the invariant holds again and the write is done. */
  lemma Finish(d0: Disk, own0: Owners, i: nat, off: nat, d: Disk, b: nat, own: Owners, h: Heights)
    requires b < |d| && Working(d0, own0, i, off, d, b, d[b], own, h) && NoLoose(own)
    requires own[b].DataOf(i, off) && h[i] == Levels(NewSize(Size(d0, i), off))
    ensures Valid(d, own) && |d| == |d0| && NInodeBlocks(d) == NInodeBlocks(d0)
    ensures Files(d) == Files(d0)[i := WriteSpec(Files(d0)[i], off, d[b])]
  {
    assert d[b := d[b]] == d;
    assert h == HeightsOf(d);
    NodeReached(d, own, h, b, b);
    assert SizesOk(d, own);
    WriteRefines(d0, own0, d, own, i, off, b);
  }

  // ----- The path to the block being written

  /** Where the walk stands: the reference in slot `ps` of the buffer for block `po`
      leads to level `l` on the path to `off`. */
  ghost predicate OnPath(i: nat, off: nat, po: nat, ps: nat, own: Owners, h: Heights, l: nat) {
    && i < |h| && po < |own| && ps < 128
    && (if po == 1 + i / 64 then own[po] == Inodes && ps == 2 * (i % 64) && l == h[i] && Prefix(off, l) == 0
        else own[po].NodeOf(i) && own[po].level == l + 1 && own[po].index == Prefix(off, l + 1) && ps == Slot(off, l))
  }

  /** A reference met on the path names the next node of the path. */
  lemma PathDown(d: Disk, own: Owners, h: Heights, i: nat, off: nat, po: nat, ps: nat, l: nat)
    requires TreesOk(d, own, h) && OnPath(i, off, po, ps, own, h, l) && d[po][ps] != 0
    ensures d[po][ps] < |d| && own[d[po][ps]].NodeOf(i)
    ensures own[d[po][ps]].level == l && own[d[po][ps]].index == Prefix(off, l)
    ensures l > 0 ==> OnPath(i, off, d[po][ps], Slot(off, l - 1), own, h, l - 1)
  {
    if po == 1 + i / 64 {
      assert RootOk(d, own, h, i);
    } else {
      PrefixSplit(off, l);
      ChildRole(d, own, h, po, ps);
    }
    assert d[po][ps] != 1 + i / 64;
  }

  /** Following the reference the walk stands at, once the disk has caught up. */
  lemma DownStep(d0: Disk, own0: Owners, i: nat, off: nat, d: Disk, po: nat, pb: Block, ps: nat, own: Owners,
                 h: Heights, l: nat)
    requires Working(d0, own0, i, off, d, po, pb, own, h) && d[po] == pb
    requires OnPath(i, off, po, ps, own, h, l) && pb[ps] != 0
    ensures pb[ps] < |d| && Working(d0, own0, i, off, d, pb[ps], d[pb[ps]], own, h)
    ensures own[pb[ps]].NodeOf(i) && own[pb[ps]].level == l && own[pb[ps]].index == Prefix(off, l)
    ensures l > 0 ==> OnPath(i, off, pb[ps], Slot(off, l - 1), own, h, l - 1)
  {
    assert d[po := pb] == d;
    PathDown(d, own, h, i, off, po, ps, l);
    MoveStep(d0, own0, i, off, d, po, pb, own, h, pb[ps]);
  }

  /** Filling the empty reference the walk stands at. */
  lemma FillStep(d0: Disk, own0: Owners, i: nat, off: nat, d: Disk, po: nat, pb: Block, ps: nat, own: Owners,
                 h: Heights, l: nat, b: Word, blk: Block)
    returns (own': Owners)
    requires Working(d0, own0, i, off, d, po, pb, own, h) && OnlyLoose(own, b)
    requires OnPath(i, off, po, ps, own, h, l) && pb[ps] == 0
    requires po == 1 + i / 64 ==> d[po] == pb
    requires l > 0 ==> blk == ZeroBlock()
    ensures Working(d0, own0, i, off, d[po := pb[ps := b]], b, blk, own', h)
    ensures NoLoose(own') && FreeSet(own') == FreeSet(own) && 0 < |own'| == |own| && own'[0] == own[0]
    ensures 1 + i / 64 < |own'| && own'[1 + i / 64] == Inodes
    ensures own'[b].NodeOf(i) && own'[b].level == l && own'[b].index == Prefix(off, l)
    ensures l > 0 ==> OnPath(i, off, b, Slot(off, l - 1), own', h, l - 1)
  {
    if po == 1 + i / 64 {
      RootStep(d0, own0, i, off, d, po, pb, own, h, b, blk);
      own' := own[b := Node(i, h[i], 0, 0)];
    } else {
      ChildStep(d0, own0, i, off, d, po, pb, own, h, b, blk);
      own' := own[b := Node(i, l, Prefix(off, l), po)];
    }
    assert own[1 + i / 64] == Inodes;
  }

  // ----- Cost

  /** Holes are counted in tree blocks only, so the inode block may change. */
  lemma {:induction false} SameHoles(d: Disk, own: Owners, h: Heights, d': Disk, ib: nat, b: nat, l: nat, off: nat)
    requires TreesOk(d, own, h) && |d'| == |d| && ib < |d| && own[ib] == Inodes
    requires forall c :: 0 <= c < |d| && c != ib ==> d'[c] == d[c]
    requires b == 0 || (b < |d| && own[b].Node? && own[b].level == l)
    ensures Holes(d', b, l, off) == Holes(d, b, l, off)
    decreases l
  {
    if b != 0 && l > 0 {
      ChildRole(d, own, h, b, Slot(off, l - 1));
      SameHoles(d, own, h, d', ib, d[b][Slot(off, l - 1)], l - 1, off);
    }
  }

  /** A tree grown to reach `off` is entered through a slot other than 0. */
  lemma {:induction false} TopSlot(off: nat)
    requires LevelsFor(off) > 0
    ensures 1 <= Slot(off, LevelsFor(off) - 1) < 128
  {
    var l := LevelsFor(off);
    LevelsForLeast(off, l);
    LevelsForLeast(off, l - 1);
  }

  /** The walk starts at the inode's root reference. */
  lemma {:induction false} RootPath(d0: Disk, own0: Owners, i: nat, off: nat, d: Disk, po: nat, pb: Block,
                                    own: Owners, h: Heights)
    requires Working(d0, own0, i, off, d, po, pb, own, h) && po == 1 + i / 64
    requires h[i] == Levels(NewSize(Size(d0, i), off))
    ensures OnPath(i, off, po, 2 * (i % 64), own, h, h[i])
  {
    InCapacity(NewSize(Size(d0, i), off), off);
    assert own[po] == Inodes;
  }

  lemma {:induction false} LevelsGrow(size: nat, off: nat)
    ensures off >= size ==> Levels(size) <= LevelsFor(off)
    ensures Levels(NewSize(size, off)) == if off >= size then LevelsFor(off) else Levels(size)
  {
    if off >= size > 0 { LevelsForMonotone(size - 1, off); }
  }

  /** The cost of a write is the levels it adds plus the holes left on its path. */
  lemma {:induction false} CostSplit(d0: Disk, own0: Owners, i: nat, off: nat, d: Disk, root: nat)
    requires Valid(d0, own0) && i < NInodes(d0) && |d| == |d0|
    requires
      if LevelsAfter(d0, i, off) > Levels(Size(d0, i))
      then 0 < root < |d| && forall j :: 1 <= j < 128 ==> d[root][j] == 0
      else root == Root(d0, i) && forall c :: 0 <= c < |d| && c != 1 + i / 64 ==> d[c] == d0[c]
    ensures Levels(Size(d0, i)) <= LevelsAfter(d0, i, off) == Levels(NewSize(Size(d0, i), off))
    ensures Cost(d0, i, off) ==
            LevelsAfter(d0, i, off) - Levels(Size(d0, i)) + Holes(d, root, LevelsAfter(d0, i, off), off)
  {
    LevelsGrow(Size(d0, i), off);
    if LevelsAfter(d0, i, off) > Levels(Size(d0, i)) {
      GrownHoles(d, root, off);
    } else {
      assert RootOk(d0, own0, HeightsOf(d0), i) && own0[1 + i / 64] == Inodes;
      SameHoles(d0, own0, HeightsOf(d0), d, 1 + i / 64, root, Levels(Size(d0, i)), off);
    }
  }

  /** Below a new root every block of the path is missing. */
  lemma {:induction false} GrownHoles(d: Disk, root: nat, off: nat)
    requires 0 < root < |d| && LevelsFor(off) > 0
    requires forall j :: 1 <= j < 128 ==> d[root][j] == 0
    ensures Holes(d, root, LevelsFor(off), off) == LevelsFor(off)
  {
    TopSlot(off);
  }
}
