/** The treedisk operations, working in place on a disk of blocks. `own` records who
    owns each block and `trace` every disk that was visible below during file writes,
    one entry per block written. */
module TreeDisk {
  import opened Basics
  import opened TreeLayout
  import opened TreeOwnership
  import opened TreeWrite

  /** `Done` is the return of 0, `BadInode` the return of -1, `Halted` a panic. */
  datatype Outcome = Done | BadInode | Halted

  /** What a write starts from, for use in proofs only: the disk, its owners, the
      target of the write and the length of the trace. */
  datatype Op = Op(d0: Disk, own0: Owners, ino: nat, off: nat, start: nat)

  /** The buffers an operation works on: the superblock and one inode block. */
  class Snapshot {
    var superblock: Block
    var inodeblock: Block
    var blockno: nat
    var slot: nat

    constructor () {
      superblock, inodeblock, blockno, slot := ZeroBlock(), ZeroBlock(), 0, 0;
    }
  }

  /** An indirect block whose only reference can be in slot 0. */
  ghost predicate FreshRoot(d: Disk, root: nat) {
    0 < root < |d| && forall j :: 1 <= j < 128 ==> d[root][j] == 0
  }

  /** The logarithm of the number of references per block, counted up to. */
  method LogRefsPerBlock() returns (n: nat)
    ensures n == LOG_RPB
  {
    n := 1;
    while ShiftRight(REFS_PER_BLOCK - 1, n) != 0
      invariant 1 <= n <= 7
      decreases 7 - n
    {
      ShiftSeven(127, 1);
      n := n + 1;
    }
    assert ShiftRight(127, 1) == 63;
    assert ShiftRight(127, 2) == 31;
    assert ShiftRight(127, 3) == 15;
    assert ShiftRight(127, 4) == 7;
    assert ShiftRight(127, 5) == 3;
    assert ShiftRight(127, 6) == 1;
  }

  /** The loop that counts how many levels it takes to reach block number `x`. */
  method CountLevels(x: Word) returns (n: nat)
    ensures n == LevelsFor(x)
  {
    n := 0;
    LogShiftIsPrefix(x, 0);
    while LogShiftR(x, n * LOG_RPB) != 0
      invariant n <= LevelsFor(x)
      invariant LogShiftR(x, n * LOG_RPB) == Prefix(x, n)
      decreases LevelsFor(x) - n
    {
      LevelsForLeast(x, n);
      n := n + 1;
      LogShiftIsPrefix(x, n);
    }
    LevelsForLeast(x, n);
  }

  /** A word converted to a signed integer. */
  function Signed(w: Word): int { if w < 0x8000_0000 then w else w - WORD_LIMIT }

  /** Disk e is disk d with at most one block changed. */
  ghost predicate OneBlock(d: Disk, e: Disk) {
    |d| == |e| && exists b: nat :: b < |d| && e == d[b := e[b]]
  }

  /** The disk just before entry n of the trace was made. */
  ghost function Before(op: Op, trace: seq<Disk>, n: nat): Disk
    requires op.start <= n <= |trace|
  {
    if n == op.start then op.d0 else trace[n - 1]
  }

  /** The trace leads from the disk the write began with to this disk, one block at a time,
      and at every entry the other inodes are as they were. */
  ghost predicate Chain(op: Op, trace: seq<Disk>, disk: Disk) {
    && op.start <= |trace| && disk == Before(op, trace, |trace|)
    && forall n: nat {:trigger trace[n]} :: op.start <= n < |trace| ==>
         OneBlock(Before(op, trace, n), trace[n]) && Isolated(op.d0, trace[n], op.ino)
  }

  /** Block r is the last one named in the first list block, whose reference is cleared; or if
      it names none, the list block itself, and the list begins behind it. */
  ghost predicate Picked(d: Disk, r: nat, e: Disk) {
    && |d| > 0 && d[0][1] < |d|
    && var b := d[0][1];
    if forall j :: 1 <= j < 128 ==> d[b][j] == 0 then r == b && e == d[0 := d[0][1 := d[b][0]]]
    else
      exists n :: 1 <= n < 128 && d[b][n] == r != 0 && (forall j :: n < j < 128 ==> d[b][j] == 0) &&
        e == d[b := d[b][n := 0]]
  }

  lemma PickedAt(d: Disk, n: nat)
    requires |d| > 0 && d[0][1] < |d| && 1 <= n < 128
    requires d[d[0][1]][n] != 0 && forall j :: n < j < 128 ==> d[d[0][1]][j] == 0
    ensures Picked(d, d[d[0][1]][n], d[d[0][1] := d[d[0][1]][n := 0]])
  {
  }

  lemma OneChanged(d: Disk, b: nat, blk: Block)
    requires b < |d|
    ensures OneBlock(d, d[b := blk])
  {
    assert d[b := blk] == d[b := d[b := blk][b]];
  }

  lemma ChainStart(op: Op, trace: seq<Disk>, disk: Disk)
    requires op.start == |trace| && op.d0 == disk
    ensures Chain(op, trace, disk)
  {
  }

  lemma ChainNext(op: Op, trace: seq<Disk>, disk: Disk, b: nat, blk: Block)
    requires Chain(op, trace, disk) && b < |disk| && Isolated(op.d0, disk[b := blk], op.ino)
    ensures Chain(op, trace + [disk[b := blk]], disk[b := blk])
  {
    hide Isolated, OneBlock;
    var e := disk[b := blk];
    var more := trace + [e];
    OneChanged(disk, b, blk);
    forall n: nat | op.start <= n < |more|
      ensures OneBlock(Before(op, more, n), more[n]) && Isolated(op.d0, more[n], op.ino)
    {
      if n < |trace| {
        assert more[n] == trace[n] && Before(op, more, n) == Before(op, trace, n);
      } else {
        assert Before(op, more, n) == disk;
      }
    }
  }

  lemma ValidShaped(d: Disk, own: Owners)
    requires Valid(d, own)
    ensures Shaped(d) && |d| > 0
  {
  }

  lemma ReadStart(d: Disk, own: Owners, i: nat)
    requires Valid(d, own) && HasInode(d, i)
    ensures i < |Files(d)| && |Files(d)[i]| == Size(d, i) && |own| == |d|
    ensures Root(d, i) != 0 ==>
      Root(d, i) < |d| && own[Root(d, i)].Node? && own[Root(d, i)].level == Levels(Size(d, i))
  {
    assert RootOk(d, own, HeightsOf(d), i);
  }

  lemma ReadBlock(d: Disk, own: Owners, i: nat, off: nat)
    requires Valid(d, own) && HasInode(d, i) && off < Size(d, i)
    ensures i < |Files(d)| && off < |Files(d)[i]|
    ensures Files(d)[i][off] == Lookup(d, Root(d, i), Levels(Size(d, i)), off)
  {
    hide Lookup, Valid;
  }

  lemma LookupEnd(d: Disk, b: nat, l: nat, off: nat)
    requires b == 0 || b < |d|
    ensures b == 0 ==> Lookup(d, b, l, off) == ZeroBlock()
    ensures b != 0 && l == 0 ==> Lookup(d, b, l, off) == d[b]
  {
  }

  /** One level down: the same block is looked up from the child, if there is one. */
  lemma ReadStep(d: Disk, own: Owners, b: nat, l: nat, off: nat, index: nat)
    requires Valid(d, own) && 0 < b < |d| == |own| && own[b].Node? && own[b].level == l + 1
    requires index == Prefix(off, l) % 128
    ensures Lookup(d, b, l + 1, off) == Lookup(d, d[b][index], l, off)
    ensures d[b][index] != 0 ==> d[b][index] < |d| && own[d[b][index]].Node? && own[d[b][index]].level == l
  {
    hide Valid, Prefix;
    assert TreesOk(d, own, HeightsOf(d)) by { ValidTrees(d, own); }
    ChildRole(d, own, HeightsOf(d), b, index);
  }

  lemma ValidTrees(d: Disk, own: Owners)
    requires Valid(d, own)
    ensures TreesOk(d, own, HeightsOf(d))
  {
  }

  class Store {
    var disk: Disk
    ghost var own: Owners
    ghost var trace: seq<Disk>

    /** Since the write began, the disk came to be what it is block by block, and after every
        block written below the other inodes were safe. */
    ghost predicate Traced(op: Op)
      reads this
    {
      Chain(op, trace, disk)
    }

    /** One write to the store below, while a file is being written. */
    method Put(b: nat, blk: Block, ghost own': Owners, ghost op: Op)
      requires b < |disk| && Valid(op.d0, op.own0) && Traced(op)
      requires Apart(op.d0, op.own0, disk[b := blk], own', op.ino) && FreeOk(disk[b := blk], own')
      modifies this
      ensures disk == old(disk)[b := blk] && own == own'
      ensures trace == old(trace) + [disk] && Traced(op)
    {
      hide Isolated, Chain;
      ApartIsolated(op.d0, op.own0, HeightsOf(op.d0), disk[b := blk], own', op.ino);
      ChainNext(op, trace, disk, b, blk);
      disk := disk[b := blk];
      own := own';
      trace := trace + [disk];
    }

    method GetSnapshot(snap: Snapshot, ino: Word) returns (ok: bool)
      requires Shaped(disk)
      modifies snap
      ensures ok <==> HasInode(disk, ino)
      ensures ok ==> snap.superblock == disk[0] && snap.blockno == 1 + ino / 64 && snap.slot == ino % 64
      ensures ok ==> snap.inodeblock == disk[snap.blockno]
    {
      snap.superblock := disk[0];
      if ino >= (snap.superblock[0] as nat * INODES_PER_BLOCK) % WORD_LIMIT { return false; }
      snap.blockno := 1 + ino / INODES_PER_BLOCK;
      snap.inodeblock := disk[snap.blockno];
      snap.slot := ino % INODES_PER_BLOCK;
      return true;
    }

    /** The size as the signed integer the source returns: -1 for an inode that does not
        exist, and the length exactly if that is below 2^31. */
    method GetSize(ino: Word) returns (r: int)
      requires Valid(disk, own)
      ensures r ==
        if !HasInode(disk, ino) then -1
        else if |Files(disk)[ino]| < 0x8000_0000 then |Files(disk)[ino]| else |Files(disk)[ino]| - WORD_LIMIT
    {
      var snap := new Snapshot();
      var ok := GetSnapshot(snap, ino);
      if !ok { return -1; }
      return Signed(snap.inodeblock[2 * snap.slot + 1]);
    }

    /** Walks the tree of inode `ino` down to block `off`. */
    method Read(ino: Word, off: Word) returns (r: Option<Block>)
      requires Valid(disk, own)
      ensures r == if HasInode(disk, ino) && off < |Files(disk)[ino]| then Some(Files(disk)[ino][off]) else None
    {
      hide LogShiftR, Prefix, FreeOk, Valid, TreesOk, Files, Lookup, Slot;
      ValidShaped(disk, own);
      var snap := new Snapshot();
      var ok := GetSnapshot(snap, ino);
      if !ok { return None; }
      var nblocks := snap.inodeblock[2 * snap.slot + 1];
      ReadStart(disk, own, ino);
      if off >= nblocks { return None; }
      var nlevels: nat := CountLevels(nblocks - 1);
      var b: Word := snap.inodeblock[2 * snap.slot];
      ghost var target := Files(disk)[ino][off];
      ReadBlock(disk, own, ino, off);
      while true
        invariant b != 0 ==> b < |disk| && own[b].Node? && own[b].level == nlevels
        invariant Lookup(disk, b, nlevels, off) == target
        decreases nlevels
      {
        LookupEnd(disk, b, nlevels, off);
        if b == 0 { return Some(ZeroBlock()); }
        var block := disk[b];
        if nlevels == 0 { return Some(block); }
        nlevels := nlevels - 1;
        LogShiftIsPrefix(off, nlevels);
        var index := LogShiftR(off, nlevels * LOG_RPB) % REFS_PER_BLOCK;
        ReadStep(disk, own, b, nlevels, off, index);
        b := block[index];
      }
    }

    /** Takes a block off the free list; panics exactly when there is none. */
    method AllocBlock(snap: Snapshot, ghost op: Op)
      returns (r: Option<Word>)
      requires FreeOk(disk, own) && snap.superblock == disk[0]
      requires Valid(op.d0, op.own0) && Apart(op.d0, op.own0, disk, own, op.ino) && Traced(op)
      modifies this, snap`superblock
      ensures r.None? <==> old(FreeSet(own)) == {}
      ensures r.None? ==> disk == old(disk) && own == old(own) && trace == old(trace)
      ensures r.Some? ==> Allocated(old(disk), old(own), disk, own, r.value) && Picked(old(disk), r.value, disk)
      ensures old(trace) <= trace && Traced(op)
      ensures snap.superblock == disk[0] && Apart(op.d0, op.own0, disk, own, op.ino)
    {
      hide Chain;
      HeadMeansFree(disk, own);
      var b := snap.superblock[1];
      if b == 0 { return None; }
      var freelistblock: Block := disk[b];
      var n := REFS_PER_BLOCK - 1;
      while n > 0 && freelistblock[n] == 0
        invariant 0 <= n < 128
        invariant forall j :: n < j < 128 ==> freelistblock[j] == 0
      {
        n := n - 1;
      }
      if n == 0 {
        assert Picked(disk, b, disk[0 := disk[0][1 := freelistblock[0]]]);
        HeadAllocated(disk, own);
        snap.superblock := snap.superblock[1 := freelistblock[0]];
        ghost var own' := Unlink(own, b, freelistblock[0]);
        AllocatedApart(op.d0, op.own0, disk, own, disk[0 := snap.superblock], own', b, op.ino);
        Put(0, snap.superblock, own', op);
        return Some(b);
      } else {
        SpareAllocated(disk, own, n);
        var found := freelistblock[n];
        PickedAt(disk, n);
        freelistblock := freelistblock[n := 0];
        ghost var own' := own[found := Loose];
        AllocatedApart(op.d0, op.own0, disk, own, disk[b := freelistblock], own', found, op.ino);
        Put(b, freelistblock, own', op);
        return Some(found);
      }
    }

    /** `Working` for the current disk, with the buffer `pb` for block `po`. */
    ghost predicate Busy(op: Op, po: nat, pb: Block, h: Heights)
      reads this
    {
      && Working(op.d0, op.own0, op.ino, op.off, disk, po, pb, own, h)
      && NoLoose(own)
      && Traced(op)
      && op.ino < |h|
      && 0 < |own| == |disk| == |op.d0| && own[0] == Super
      && 1 + op.ino / 64 < |own| && own[1 + op.ino / 64] == Inodes
    }

    /** The snapshot is that of the inode being written. */
    ghost predicate Holds(op: Op, snap: Snapshot)
      reads this, snap
    {
      && |disk| > 0
      && snap.superblock == disk[0]
      && snap.blockno == 1 + op.ino / 64
      && snap.slot == op.ino % 64 < 64
    }

    /** Allocates a block in the middle of a write. */
    method Take(snap: Snapshot, po: nat, pb: Block, ghost op: Op, ghost h: Heights) returns (r: Option<Word>)
      requires Holds(op, snap) && Busy(op, po, pb, h)
      modifies this, snap`superblock
      ensures r.None? <==> |old(FreeSet(own))| == 0
      ensures old(trace) <= trace && Traced(op) && Holds(op, snap) && |disk| == old(|disk|)
      ensures r.Some? ==> Working(op.d0, op.own0, op.ino, op.off, disk, po, pb, own, h)
      ensures r.Some? ==> 0 < r.value < |disk| && |own| == |disk|
      ensures r.Some? ==> OnlyLoose(own, r.value) && |FreeSet(own)| == |old(FreeSet(own))| - 1
      ensures r.Some? ==> forall c :: 0 <= c < |disk| && !old(own)[c].Free() ==> own[c] == old(own)[c]
      ensures r.Some? ==> (disk[po] == pb <==> old(disk)[po] == pb)
    {
      hide Chain, Picked;
      ghost var d, o := disk, own;
      r := AllocBlock(snap, op);
      if r.Some? {
        AllocatedCount(d, o, disk, own, r.value);
        AllocStep(op.d0, op.own0, op.ino, op.off, d, po, pb, o, h, disk, own, r.value);
      }
    }

    /** Adds one indirect block above the root. */
    method GrowOne(snap: Snapshot, ghost op: Op, ghost h: Heights) returns (ok: bool)
      requires Holds(op, snap) && Busy(op, snap.blockno, snap.inodeblock, h)
      modifies this, snap`superblock, snap`inodeblock
      ensures ok <==> |old(FreeSet(own))| > 0
      ensures old(trace) <= trace && Traced(op)
      ensures ok ==> Holds(op, snap) && Busy(op, snap.blockno, snap.inodeblock, h[op.ino := h[op.ino] + 1])
      ensures ok ==> |FreeSet(own)| == |old(FreeSet(own))| - 1
      ensures ok ==> FreshRoot(disk, snap.inodeblock[2 * snap.slot]) && snap.inodeblock[2 * snap.slot] != snap.blockno
    {
      hide TreesOk, DataKept, FreeOk, Apart, Chain;
      var indir := Take(snap, snap.blockno, snap.inodeblock, op, h);
      if indir.None? { return false; }
      GrowStep(op.d0, op.own0, op.ino, op.off, disk, snap.blockno, snap.inodeblock, own, h, indir.value);
      var root := snap.inodeblock[2 * snap.slot];
      var tib: Block := ZeroBlock()[0 := root];
      snap.inodeblock := snap.inodeblock[2 * snap.slot := indir.value];
      Put(indir.value, tib, GrownOwners(own, h, op.ino, root, indir.value), op);
      return true;
    }

    /** Adds indirect blocks above the root until the tree has `after` levels. */
    method Grow(snap: Snapshot, nlevels: nat, after: nat, ghost op: Op, ghost h0: Heights)
      returns (ok: bool, ghost h: Heights)
      requires Holds(op, snap) && Busy(op, snap.blockno, snap.inodeblock, h0)
      requires h0[op.ino] == nlevels <= after
      modifies this, snap`superblock, snap`inodeblock
      ensures ok <==> |old(FreeSet(own))| >= after - nlevels
      ensures old(trace) <= trace && Traced(op)
      ensures ok ==> Holds(op, snap) && Busy(op, snap.blockno, snap.inodeblock, h)
      ensures ok ==> h[op.ino] == after && |FreeSet(own)| == |old(FreeSet(own))| - (after - nlevels)
      ensures ok && nlevels == after ==> disk == old(disk) && snap.inodeblock == old(snap.inodeblock)
      ensures ok && nlevels < after ==>
        FreshRoot(disk, snap.inodeblock[2 * snap.slot]) && snap.inodeblock[2 * snap.slot] != snap.blockno
    {
      hide Working, Chain;
      var n := nlevels;
      h := h0;
      ok := true;
      while after > n
        invariant nlevels <= n <= after
        invariant Holds(op, snap) && Busy(op, snap.blockno, snap.inodeblock, h)
        invariant h[op.ino] == n && old(trace) <= trace
        invariant |FreeSet(own)| == |old(FreeSet(own))| - (n - nlevels)
        invariant n == nlevels ==> disk == old(disk) && snap.inodeblock == old(snap.inodeblock)
        invariant n > nlevels ==>
          FreshRoot(disk, snap.inodeblock[2 * snap.slot]) && snap.inodeblock[2 * snap.slot] != snap.blockno
      {
        ok := GrowOne(snap, op, h);
        if !ok { return; }
        h := h[op.ino := n + 1];
        n := n + 1;
      }
    }

    /** Allocates the block missing at slot `ps` of the buffer `pb` and writes the buffer
        back to block `po`. The new block counts as `blk` from then on. */
    method Fill(snap: Snapshot, po: nat, pb: Block, ps: nat, l: nat, ghost blk: Block, ghost op: Op, ghost h: Heights)
      returns (r: Option<Word>)
      requires Holds(op, snap) && Busy(op, po, pb, h)
      requires OnPath(op.ino, op.off, po, ps, own, h, l) && pb[ps] == 0
      requires po == 1 + op.ino / 64 ==> disk[po] == pb
      requires l > 0 ==> blk == ZeroBlock()
      modifies this, snap`superblock
      ensures r.None? <==> |old(FreeSet(own))| == 0
      ensures old(trace) <= trace && Traced(op)
      ensures r.Some? ==> Holds(op, snap) && Busy(op, r.value, blk, h) && |FreeSet(own)| == |old(FreeSet(own))| - 1
      ensures r.Some? ==> r.value < |disk| && own[r.value].NodeOf(op.ino)
      ensures r.Some? ==> own[r.value].level == l && own[r.value].index == Prefix(op.off, l)
      ensures r.Some? && l > 0 ==> OnPath(op.ino, op.off, r.value, Slot(op.off, l - 1), own, h, l - 1)
    {
      hide TreesOk, DataKept, FreeOk, Apart, Chain;
      r := Take(snap, po, pb, op, h);
      if r.None? { return; }
      assert own[po] == old(own)[po] && own[1 + op.ino / 64] == Inodes;
      ghost var own' := FillStep(op.d0, op.own0, op.ino, op.off, disk, po, pb, ps, own, h, l, r.value, blk);
      Put(po, pb[ps := r.value], own', op);
    }

    /** Walks down to block `off`, filling every hole on the way. */
    method Descend(snap: Snapshot, levels: nat, off: Word, ghost op: Op, ghost h: Heights)
      returns (r: Option<Word>)
      requires Holds(op, snap) && Busy(op, snap.blockno, snap.inodeblock, h) && disk[snap.blockno] == snap.inodeblock
      requires op.off == off && OnPath(op.ino, off, snap.blockno, 2 * snap.slot, own, h, levels)
      modifies this, snap`superblock
      ensures old(trace) <= trace && Traced(op)
      ensures r.Some? <==> |old(FreeSet(own))| >= Holes(old(disk), snap.inodeblock[2 * snap.slot], levels, off)
      ensures r.Some? ==>
        |FreeSet(own)| == |old(FreeSet(own))| - Holes(old(disk), snap.inodeblock[2 * snap.slot], levels, off)
      ensures r.Some? ==> r.value < |disk| && Busy(op, r.value, disk[r.value], h) && own[r.value].DataOf(op.ino, off)
    {
      hide Working, Chain;
      var nlevels: nat := levels;
      var po: nat, pb: Block, ps: nat := snap.blockno, snap.inodeblock, 2 * snap.slot;
      ghost var filling, need := false, Holes(disk, pb[ps], levels, off);
      ghost var total := need;
      while true
        invariant Holds(op, snap) && Busy(op, po, pb, h) && OnPath(op.ino, off, po, ps, own, h, nlevels)
        invariant old(trace) <= trace
        invariant if filling then pb == ZeroBlock() && po != 1 + op.ino / 64 && need == nlevels + 1
                  else po < |disk| && disk[po] == pb && need == Holes(disk, pb[ps], nlevels, off)
        invariant |FreeSet(own)| + total == |old(FreeSet(own))| + need
        decreases nlevels
      {
        var tib: Block;
        var b: Word := pb[ps];
        if b == 0 {
          var found := Fill(snap, po, pb, ps, nlevels, ZeroBlock(), op, h);
          if found.None? { return None; }
          b := found.value;
          if nlevels == 0 {
            DataStep(op.d0, op.own0, op.ino, op.off, disk, b, ZeroBlock(), own, h, disk[b]);
            return Some(b);
          }
          tib := ZeroBlock();
          filling := true;
          need := need - 1;
        } else {
          DownStep(op.d0, op.own0, op.ino, op.off, disk, po, pb, ps, own, h, nlevels);
          if nlevels == 0 { return Some(b); }
          tib := disk[b];
        }
        nlevels := nlevels - 1;
        LogShiftIsPrefix(off, nlevels);
        ps := LogShiftR(off, nlevels * LOG_RPB) % REFS_PER_BLOCK;
        pb := tib;
        po := b;
      }
    }

    /** Counts the levels before and after the write and sets the new size in memory. */
    method Resize(snap: Snapshot, off: Word) returns (dirty: bool, nlevels: nat, levels: nat)
      requires snap.slot < 64
      modifies snap`inodeblock
      ensures
        var nblocks := old(snap.inodeblock)[2 * snap.slot + 1];
        && nlevels == Levels(nblocks) <= levels == Levels(NewSize(nblocks, off))
        && levels == (if off >= nblocks then LevelsFor(off) else Levels(nblocks))
        && dirty == (off >= nblocks)
        && snap.inodeblock == old(snap.inodeblock)[2 * snap.slot + 1 := NewSize(nblocks, off) % WORD_LIMIT]
    {
      var nblocks := snap.inodeblock[2 * snap.slot + 1];
      LevelsGrow(nblocks, off);
      nlevels := 0;
      if nblocks > 0 { nlevels := CountLevels(nblocks - 1); }
      levels := nlevels;
      dirty := false;
      if off >= nblocks {
        snap.inodeblock := snap.inodeblock[2 * snap.slot + 1 := (off + 1) % WORD_LIMIT];
        dirty := true;
        levels := CountLevels(off);
      }
    }

    /** Sets the new size, adds the missing levels and writes the inode back. */
    method Prepare(snap: Snapshot, off: Word, ghost op: Op) returns (ok: bool, levels: nat, ghost h: Heights)
      requires Valid(disk, own) && op == Op(disk, own, op.ino, off, |trace|) && off < WORD_LIMIT - 1
      requires HasInode(disk, op.ino) && Holds(op, snap) && snap.inodeblock == disk[snap.blockno]
      modifies this, snap`superblock, snap`inodeblock
      ensures old(trace) <= trace && Traced(op)
      ensures !ok ==> |old(FreeSet(own))| < Cost(old(disk), op.ino, off)
      ensures ok ==> Holds(op, snap) && Busy(op, snap.blockno, snap.inodeblock, h)
      ensures ok ==> disk[snap.blockno] == snap.inodeblock
      ensures ok ==> OnPath(op.ino, off, snap.blockno, 2 * snap.slot, own, h, levels)
      ensures ok ==> levels == Levels(NewSize(Size(old(disk), op.ino), off)) == h[op.ino]
      ensures ok ==>
        && |FreeSet(own)| <= |old(FreeSet(own))|
        && Cost(old(disk), op.ino, off) ==
           |old(FreeSet(own))| - |FreeSet(own)| + Holes(disk, snap.inodeblock[2 * snap.slot], levels, off)
    {
      hide Working, Valid, FreeOk, Apart, Chain, HeightsOf, NoLoose, Levels, Holes, LevelsFor;
      ChainStart(op, trace, disk);
      h := HeightsOf(disk);
      var dirty, nlevels;
      dirty, nlevels, levels := Resize(snap, off);
      Begin(op.d0, op.own0, op.ino, off, snap.inodeblock);
      ok, h := Grow(snap, nlevels, levels, op, h);
      if !ok { return; }
      if dirty {
        FlushStep(op.d0, op.own0, op.ino, off, disk, snap.blockno, snap.inodeblock, own, h);
        Put(snap.blockno, snap.inodeblock, own, op);
      }
      RootPath(op.d0, op.own0, op.ino, off, disk, snap.blockno, snap.inodeblock, own, h);
      CostSplit(op.d0, op.own0, op.ino, off, disk, snap.inodeblock[2 * snap.slot]);
    }

    /** Writes the data block, the last write below. */
    method PutData(b: nat, block: Block, ghost op: Op, ghost h: Heights)
      requires b < |disk| && Valid(op.d0, op.own0) && Busy(op, b, disk[b], h) && own[b].DataOf(op.ino, op.off)
      requires HasInode(op.d0, op.ino) && h[op.ino] == Levels(NewSize(Size(op.d0, op.ino), op.off))
      modifies this
      ensures Valid(disk, own) && own == old(own)
      ensures |disk| == |op.d0| && NInodeBlocks(disk) == NInodeBlocks(op.d0)
      ensures Files(disk) == Files(op.d0)[op.ino := WriteSpec(Files(op.d0)[op.ino], op.off, block)]
      ensures old(trace) <= trace && Traced(op)
    {
      hide Working, Valid, FreeOk, Apart, Chain, Files, WriteSpec, Levels;
      DataStep(op.d0, op.own0, op.ino, op.off, disk, b, disk[b], own, h, block);
      FlushStep(op.d0, op.own0, op.ino, op.off, disk, b, block, own, h);
      Put(b, block, own, op);
      Finish(op.d0, op.own0, op.ino, op.off, disk, b, own, h);
    }

    /** Writes one block. The file system afterwards is the abstract one with that block
        written; the free list pays exactly the cost of the path; the write halts exactly
        when it cannot pay; and at no moment does another inode notice. */
    method Write(ino: Word, off: Word, block: Block) returns (r: Outcome)
      requires Valid(disk, own) && off < WORD_LIMIT - 1
      modifies this
      ensures r.BadInode? <==> !HasInode(old(disk), ino)
      ensures r.BadInode? ==> disk == old(disk) && own == old(own) && trace == old(trace)
      ensures r.Halted? <==> HasInode(old(disk), ino) && |old(FreeSet(own))| < Cost(old(disk), ino, off)
      ensures r.Done? ==> Valid(disk, own) && |disk| == |old(disk)| && NInodeBlocks(disk) == NInodeBlocks(old(disk))
      ensures r.Done? ==> Files(disk) == Files(old(disk))[ino := WriteSpec(Files(old(disk))[ino], off, block)]
      ensures r.Done? ==> |FreeSet(own)| == |old(FreeSet(own))| - Cost(old(disk), ino, off)
      ensures old(trace) <= trace && Traced(Op(old(disk), old(own), ino, off, |old(trace)|))
    {
      hide Working, Valid, FreeOk, Apart, Chain, Files, NoLoose, Cost, Holes, OnPath, WriteSpec, NewSize, Levels;
      ValidShaped(disk, own);
      ghost var op := Op(disk, own, ino, off, |trace|);
      ChainStart(op, trace, disk);
      var snap := new Snapshot();
      var ok := GetSnapshot(snap, ino);
      if !ok { return BadInode; }
      ghost var h;
      var levels;
      ok, levels, h := Prepare(snap, off, op);
      if !ok { return Halted; }
      var found := Descend(snap, levels, off, op, h);
      if found.None? { return Halted; }
      PutData(found.value, block, op, h);
      return Done;
    }
  }
}
