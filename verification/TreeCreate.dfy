/** Making a new treedisk: the free list over all remaining blocks, the superblock and
    the empty inodes. */
module TreeCreate {
  import opened Basics
  import opened TreeLayout
  import opened TreeOwnership
  import opened TreeDisk

  /** The block before list block `b` in a free list laid out upwards from `lo`. */
  function Below(lo: nat, b: nat): nat {
    if b < lo + 128 then 0 else b - 128
  }

  /** `b` starts a group of 128 blocks, counted from `lo`. */
  predicate Leads(lo: nat, b: nat) {
    b >= lo && (b - lo) % 128 == 0
  }

  /** The free list over blocks lo .. n: every 128th block lists the 127 after it. */
  ghost predicate Listed(d: Disk, lo: nat, n: nat, b: nat)
    requires b < |d|
  {
    && d[b][0] == Below(lo, b)
    && forall j :: 1 <= j < 128 ==> d[b][j] == if b + j < n then b + j else 0
  }

  ghost function NewRole(lo: nat, n: nat, b: nat): Role {
    if b == 0 then Super
    else if b < lo then Inodes
    else if Leads(lo, b) then ListBlock((b - lo) / 128, if b + 128 < n then b + 128 else 0)
    else Spare(lo + (b - lo) / 128 * 128, (b - lo) % 128)
  }

  ghost function NewOwners(lo: nat, n: nat): (own: Owners)
    ensures |own| == n && forall b :: 0 <= b < n ==> own[b] == NewRole(lo, n, b)
  {
    seq(n, (b: nat) => NewRole(lo, n, b))
  }

  /** The last list block: the head of the list. */
  ghost predicate IsHead(lo: nat, n: nat, b: nat) {
    if lo >= n then b == 0 else Leads(lo, b) && b < n <= b + 128
  }

  /** A freshly made disk. */
  ghost predicate Fresh(d: Disk) {
    && Shaped(d) && |d| < WORD_LIMIT && NInodeBlocks(d) + 1 < |d|
    && IsHead(NInodeBlocks(d) + 1, |d|, FreeHead(d))
    && (forall b :: 1 <= b <= NInodeBlocks(d) ==> d[b] == ZeroBlock())
    && (forall b {:trigger Listed(d, NInodeBlocks(d) + 1, |d|, b)} ::
          0 <= b < |d| && Leads(NInodeBlocks(d) + 1, b) ==> Listed(d, NInodeBlocks(d) + 1, |d|, b))
  }

  lemma FreshListOk(d: Disk, own: Owners, b: nat)
    requires Fresh(d) && own == NewOwners(NInodeBlocks(d) + 1, |d|) && b < |d| && own[b].ListBlock?
    ensures ListBlockOk(d, own, b)
  {
    hide Leads;
    var lo := NInodeBlocks(d) + 1;
    GroupNext(lo, b);
    assert Listed(d, lo, |d|, b);
    if b + 128 < |d| { assert Listed(d, lo, |d|, b + 128); }
    forall j | 1 <= j < 128 && d[b][j] != 0 ensures own[d[b][j]] == Spare(b, j) {
      GroupMember(lo, b, j);
    }
    HeadOf(lo, |d|, b, FreeHead(d));
  }

  /** The group that reaches the end of the disk is the one of the head. */
  lemma HeadOf(lo: nat, n: nat, b: nat, head: nat)
    requires Leads(lo, b) && b < n && IsHead(lo, n, head)
    ensures head == b <==> b + 128 >= n
  {
  }

  lemma GroupMember(lo: nat, b: nat, j: nat)
    requires Leads(lo, b) && 1 <= j < 128
    ensures (b + j - lo) / 128 == (b - lo) / 128 && (b + j - lo) % 128 == j
    ensures !Leads(lo, b + j) && lo + (b + j - lo) / 128 * 128 == b
  {
  }

  lemma GroupNext(lo: nat, b: nat)
    requires Leads(lo, b)
    ensures Leads(lo, b + 128) && (b + 128 - lo) / 128 == (b - lo) / 128 + 1
    ensures b >= lo + 128 ==> Leads(lo, b - 128) && (b - 128 - lo) / 128 == (b - lo) / 128 - 1
    ensures b < lo + 128 ==> b == lo && (b - lo) / 128 == 0
  {
  }

  lemma FreshSpareOk(d: Disk, own: Owners, b: nat)
    requires Fresh(d) && own == NewOwners(NInodeBlocks(d) + 1, |d|) && b < |d| && own[b].Spare?
    ensures SpareOk(d, own, b)
  {
    assert Listed(d, NInodeBlocks(d) + 1, |d|, own[b].home);
  }

  lemma FreshFree(d: Disk, own: Owners)
    requires Fresh(d) && own == NewOwners(NInodeBlocks(d) + 1, |d|)
    ensures FreeOk(d, own)
  {
    forall b | 0 <= b < |d| && own[b].ListBlock? ensures ListBlockOk(d, own, b) { FreshListOk(d, own, b); }
    forall b | 0 <= b < |d| && own[b].Spare? ensures SpareOk(d, own, b) { FreshSpareOk(d, own, b); }
  }

  /** A fresh disk satisfies the invariant, with every file empty and every block
      after the inode blocks free. */
  lemma FreshValid(d: Disk, own: Owners)
    requires Fresh(d) && own == NewOwners(NInodeBlocks(d) + 1, |d|)
    ensures Valid(d, own)
    ensures Files(d) == seq(NInodes(d), (i: nat) => [])
    ensures forall b :: 0 <= b < |d| ==> own[b].Free() == (b > NInodeBlocks(d))
  {
    FreshFree(d, own);
    hide FreeOk;
    forall i | 0 <= i < NInodes(d) ensures Root(d, i) == 0 && Size(d, i) == 0 {
      assert d[1 + i / 64] == ZeroBlock();
    }
  }

  /** Fills one list block: the block before it and the up to 127 blocks after it. */
  method FillList(data: array<Word>, prev: Word, start: nat, n: Word) returns (next: nat)
    requires data.Length == 128 && start < n
    modifies data
    ensures data[0] == prev && forall j :: 1 <= j < 128 ==> data[j] == if start + j < n then start + j else 0
    ensures next == if start + 128 < n then start + 128 else n
  {
    data[0] := prev;
    next := start + 1;
    var i := 1;
    while i < REFS_PER_BLOCK && next < n
      invariant 1 <= i <= 128 && next == start + i <= n
      invariant data[0] == prev && forall j :: 1 <= j < i ==> data[j] == start + j
    {
      data[i] := next;
      next := next + 1;
      i := i + 1;
    }
    while i < REFS_PER_BLOCK
      invariant 1 <= i <= 128 && (i < 128 ==> next == n)
      invariant data[0] == prev
      invariant forall j :: 1 <= j < i ==> data[j] == if start + j < n then start + j else 0
    {
      data[i] := 0;
      i := i + 1;
    }
  }

  lemma NoList(lo: nat)
    ensures IsHead(lo, lo, 0) && Leads(lo, lo) && forall b :: 0 <= b < lo ==> !Leads(lo, b)
  {
  }

  lemma HeadBelow(lo: nat, start: nat, head: nat)
    requires lo > 0 && IsHead(lo, start, head) && Leads(lo, start)
    ensures head == Below(lo, start)
  {
  }

  /** After the group of `start` comes the next one, or the end. */
  lemma NextGroup(lo: nat, start: nat, next: nat, n: nat)
    requires Leads(lo, start) && start < n && next == if start + 128 < n then start + 128 else n
    ensures IsHead(lo, next, start) && (next < n ==> Leads(lo, next))
    ensures forall b :: start < b < next ==> !Leads(lo, b)
  {
  }

  /** Threads all blocks from `lo` on into a free list and returns its head. */
  method SetupFreelist(store: Store, lo: nat) returns (head: Word)
    requires 0 < lo <= |store.disk| < WORD_LIMIT
    modifies store
    ensures |store.disk| == |old(store.disk)| && forall b :: 0 <= b < lo ==> store.disk[b] == old(store.disk)[b]
    ensures IsHead(lo, |store.disk|, head)
    ensures forall b {:trigger Listed(store.disk, lo, |store.disk|, b)} ::
      0 <= b < |store.disk| && Leads(lo, b) ==> Listed(store.disk, lo, |store.disk|, b)
  {
    hide Leads, IsHead, Below;
    NoList(lo);
    var data := new Word[128](i => 0);
    var n, next := |store.disk|, lo;
    head := 0;
    while next < n
      invariant lo <= next <= n == |store.disk| == |old(store.disk)|
      invariant forall b :: 0 <= b < lo ==> store.disk[b] == old(store.disk)[b]
      invariant IsHead(lo, next, head) && (next < n ==> Leads(lo, next))
      invariant forall b {:trigger Listed(store.disk, lo, n, b)} ::
        0 <= b < next && Leads(lo, b) ==> Listed(store.disk, lo, n, b)
    {
      ghost var before := store.disk;
      var start: Word := next;
      HeadBelow(lo, start, head);
      next := FillList(data, head, start, n);
      head := start;
      store.disk := store.disk[head := data[..]];
      NextGroup(lo, start, next, n);
      forall b | 0 <= b < next && Leads(lo, b) ensures Listed(store.disk, lo, n, b) {
        if b < start { assert Listed(before, lo, n, b); }
      }
    }
  }

  /** Makes a file system with room for `ninodes` inodes, unless there is one already. */
  method Create(store: Store, ninodes: Word) returns (ok: bool)
    requires |store.disk| < WORD_LIMIT
    modifies store
    ensures
      var nib := (ninodes + 63) % WORD_LIMIT / 64;
      && (ok <==> |old(store.disk)| >= nib + 2)
      && (!ok || old(store.disk)[0][0] != 0 ==> store.disk == old(store.disk) && store.own == old(store.own))
      && (ok && old(store.disk)[0][0] == 0 ==>
            && |store.disk| == |old(store.disk)|
            && Valid(store.disk, store.own)
            && NInodeBlocks(store.disk) == nib
            && Files(store.disk) == seq(nib * 64, (i: nat) => [])
            && forall b :: 0 <= b < |store.disk| ==> store.own[b].Free() == (b > nib))
  {
    var nib: Word := (ninodes + INODES_PER_BLOCK - 1) % WORD_LIMIT / INODES_PER_BLOCK;
    if |store.disk| < nib + 2 { return false; }
    var superblock := store.disk[0];
    if superblock[0] == 0 {
      superblock := ZeroBlock();
      superblock := superblock[0 := nib];
      var head := SetupFreelist(store, nib + 1);
      superblock := superblock[1 := head];
      ghost var listed := store.disk;
      store.disk := store.disk[0 := superblock];
      var i := 1;
      while i <= nib
        invariant 1 <= i <= nib + 1 && |store.disk| == |listed| && store.disk[0] == superblock
        invariant forall b :: 1 <= b < i ==> store.disk[b] == ZeroBlock()
        invariant forall b :: nib < b < |listed| ==> store.disk[b] == listed[b]
      {
        store.disk := store.disk[i := ZeroBlock()];
        i := i + 1;
      }
      ghost var lo, n := nib + 1, |listed|;
      forall b | 0 <= b < n && Leads(lo, b) ensures Listed(store.disk, lo, n, b) {
        assert Listed(listed, lo, n, b);
      }
      store.own := NewOwners(lo, n);
      FreshValid(store.disk, store.own);
    }
    return true;
  }
}
