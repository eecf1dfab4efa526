/** Who owns each block of a treedisk. A role is given to every block of the disk;
    the invariant ties each role to the references on disk, in both directions, so
    that a block is referenced exactly as its role says and by nobody else. */
module TreeOwnership {
  import opened Basics
  import opened TreeLayout

  /** `Node(i, l, k, p)` is the node of inode i's tree at level l (0 is data) that
      covers the k-th run of 128^l blocks; p is its parent block, 0 for the root.
      `ListBlock(p, q)` is a free list block with p list blocks after it, reached
      from list block q, 0 for the superblock. `Spare(q, j)` is the free block named
      by slot j of list block q. `Loose` is a block in hand during an allocation. */
  datatype Role =
    | Super
    | Inodes
    | Node(ino: nat, level: nat, index: nat, parent: nat)
    | ListBlock(pos: nat, prev: nat)
    | Spare(home: nat, slot: nat)
    | Loose
  {
    predicate Free() { ListBlock? || Spare? }
    predicate NodeOf(i: nat) { Node? && ino == i }
    predicate DataOf(i: nat, off: nat) { Node? && ino == i && level == 0 && index == off }
  }

  type Owners = seq<Role>

  ghost predicate Fixed(d: Disk, own: Owners) {
    && Shaped(d)
    && |own| == |d|
    && own[0] == Super
    && (forall b :: 1 <= b <= NInodeBlocks(d) ==> own[b] == Inodes)
    && (forall b :: NInodeBlocks(d) < b < |d| ==> own[b] != Inodes)
    && (forall b :: 1 <= b < |d| ==> own[b] != Super)
  }

  // ----- The free list

  ghost predicate ListBlockOk(d: Disk, own: Owners, b: nat)
    requires 0 < |d| == |own| && b < |d| && own[b].ListBlock?
  {
    var next, prev := d[b][0], own[b].prev;
    && (if prev == 0 then FreeHead(d) == b
        else prev < |d| && own[prev].ListBlock? && own[prev].pos == own[b].pos + 1 && d[prev][0] == b)
    && (if next == 0 then own[b].pos == 0
        else next < |d| && own[b].pos > 0 && own[next] == ListBlock(own[b].pos - 1, b))
    && (forall j :: 1 <= j < 128 && d[b][j] != 0 ==> d[b][j] < |d| && own[d[b][j]] == Spare(b, j))
  }

  ghost predicate SpareOk(d: Disk, own: Owners, b: nat)
    requires 0 < |d| == |own| && b < |d| && own[b].Spare?
  {
    && own[b].home < |d|
    && 1 <= own[b].slot < 128
    && own[own[b].home].ListBlock?
    && d[own[b].home][own[b].slot] == b
  }

  ghost predicate FreeOk(d: Disk, own: Owners) {
    && Fixed(d, own)
    && (FreeHead(d) == 0 ==> forall b :: 0 <= b < |d| ==> !own[b].ListBlock?)
    && (FreeHead(d) != 0 ==>
          && FreeHead(d) < |d|
          && own[FreeHead(d)].ListBlock?
          && own[FreeHead(d)].prev == 0
          && forall b :: 0 <= b < |d| && own[b].ListBlock? ==> own[b].pos <= own[FreeHead(d)].pos)
    && (forall b {:trigger ListBlockOk(d, own, b)} :: 0 <= b < |d| && own[b].ListBlock? ==> ListBlockOk(d, own, b))
    && (forall b {:trigger SpareOk(d, own, b)} :: 0 <= b < |d| && own[b].Spare? ==> SpareOk(d, own, b))
  }

  ghost function FreeSet(own: Owners): set<nat> {
    set b | 0 <= b < |own| && own[b].Free()
  }

  /** The list is empty exactly when no block is free. */
  lemma HeadMeansFree(d: Disk, own: Owners)
    requires FreeOk(d, own)
    ensures FreeHead(d) == 0 <==> FreeSet(own) == {}
  {
    forall b | 0 <= b < |own| && own[b].Spare?
      ensures own[b].home < |own| && own[own[b].home].ListBlock?
    {
      assert SpareOk(d, own, b);
    }
    if FreeHead(d) != 0 { assert FreeHead(d) in FreeSet(own); }
  }

  /** Handing out the block named by slot `i` of the head list block. */
  lemma TakeSpare(d: Disk, own: Owners, i: nat)
    requires FreeOk(d, own) && FreeHead(d) != 0
    requires 1 <= i < 128 && d[FreeHead(d)][i] != 0
    ensures d[FreeHead(d)][i] < |d| && own[d[FreeHead(d)][i]] == Spare(FreeHead(d), i)
    ensures FreeOk(d[FreeHead(d) := d[FreeHead(d)][i := 0]], own[d[FreeHead(d)][i] := Loose])
  {
    var h := FreeHead(d);
    assert ListBlockOk(d, own, h);
    var b := d[h][i];
    var d', own' := d[h := d[h][i := 0]], own[b := Loose];
    assert h != 0 && own[h].ListBlock? && b != h;
    assert Fixed(d', own');
    forall c | 0 <= c < |d| && own'[c].ListBlock? ensures ListBlockOk(d', own', c) {
      assert ListBlockOk(d, own, c);
    }
    forall c | 0 <= c < |d| && own'[c].Spare? ensures SpareOk(d', own', c) {
      assert SpareOk(d, own, c);
    }
  }

  ghost function Unlink(own: Owners, b: nat, next: nat): Owners
    requires b < |own| && next < |own| && own[b].ListBlock? && (next != 0 ==> own[next].ListBlock?)
  {
    var o := own[b := Loose];
    if next == 0 then o else o[next := ListBlock(own[next].pos, 0)]
  }

  /** Handing out the head list block itself, once all of its slots are empty. */
  lemma TakeHead(d: Disk, own: Owners)
    requires FreeOk(d, own) && FreeHead(d) != 0
    requires forall j :: 1 <= j < 128 ==> d[FreeHead(d)][j] == 0
    ensures ListBlockOk(d, own, FreeHead(d))
    ensures FreeOk(d[0 := d[0][1 := d[FreeHead(d)][0]]], Unlink(own, FreeHead(d), d[FreeHead(d)][0]))
  {
    var b := FreeHead(d);
    assert ListBlockOk(d, own, b);
    var next := d[b][0];
    var d', own' := d[0 := d[0][1 := next]], Unlink(own, b, next);
    assert Fixed(d', own');
    forall c | 0 <= c < |d| && own'[c].ListBlock?
      ensures ListBlockOk(d', own', c) && next != 0 && own'[c].pos <= own'[next].pos
    {
      assert ListBlockOk(d, own, c);
    }
    forall c | 0 <= c < |d| && own'[c].Spare? ensures SpareOk(d', own', c) {
      assert SpareOk(d, own, c);
    }
  }

  // ----- Trees

  /** Heights: the number of levels of each inode's tree. */
  type Heights = seq<nat>

  ghost predicate RootOk(d: Disk, own: Owners, h: Heights, i: nat)
    requires Fixed(d, own) && |h| == NInodes(d) && i < |h|
  {
    Root(d, i) != 0 ==> Root(d, i) < |d| && own[Root(d, i)] == Node(i, h[i], 0, 0)
  }

  ghost predicate NodeOk(d: Disk, own: Owners, h: Heights, b: nat)
    requires Fixed(d, own) && |h| == NInodes(d) && b < |d| && own[b].Node?
  {
    var Node(i, l, k, p) := own[b];
    && i < |h|
    && l <= h[i]
    && (if p == 0 then l == h[i] && k == 0 && Root(d, i) == b
        else && p < |d| && own[p].NodeOf(i) && own[p].level == l + 1 && own[p].index == k / 128
             && d[p][k % 128] == b)
    && (l > 0 ==> forall j :: 0 <= j < 128 && d[b][j] != 0 ==>
                    d[b][j] < |d| && own[d[b][j]] == Node(i, l - 1, k * 128 + j, b))
  }

  ghost predicate TreesOk(d: Disk, own: Owners, h: Heights) {
    && Fixed(d, own)
    && |h| == NInodes(d)
    && (forall i {:trigger RootOk(d, own, h, i)} :: 0 <= i < |h| ==> RootOk(d, own, h, i))
    && (forall b {:trigger NodeOk(d, own, h, b)} :: 0 <= b < |d| && own[b].Node? ==> NodeOk(d, own, h, b))
  }

  /** A slot of an indirect block is a hole or names the node one level down. */
  lemma ChildRole(d: Disk, own: Owners, h: Heights, b: nat, j: nat)
    requires TreesOk(d, own, h) && b < |d| && own[b].Node? && own[b].level > 0 && j < 128
    ensures d[b][j] == 0 || (d[b][j] < |d|
              && own[d[b][j]] == Node(own[b].ino, own[b].level - 1, own[b].index * 128 + j, b))
  {
    assert NodeOk(d, own, h, b);
  }

  /** Data blocks lie below the file's size, and exactly the empty files have no root. */
  ghost predicate SizesOk(d: Disk, own: Owners)
    requires Fixed(d, own)
  {
    && (forall b :: 0 <= b < |d| && own[b].Node? && own[b].level == 0 ==>
          HasInode(d, own[b].ino) && own[b].index < Size(d, own[b].ino))
    && (forall i :: 0 <= i < NInodes(d) ==> (Size(d, i) == 0 <==> Root(d, i) == 0))
  }

  ghost function HeightsOf(d: Disk): Heights
    requires |d| > 0
  {
    seq(NInodes(d), (i: nat) => if HasInode(d, i) then Levels(Size(d, i)) else 0)
  }

  /** The invariant of the file system between operations. */
  ghost predicate Valid(d: Disk, own: Owners) {
    && FreeOk(d, own)
    && TreesOk(d, own, HeightsOf(d))
    && SizesOk(d, own)
    && (forall b :: 0 <= b < |d| ==> own[b] != Loose)
  }

  // ----- Roles decide what a lookup finds

  /** Walking from the root to block `off` passes through every node on its path. */
  lemma {:induction false} LookupVia(d: Disk, own: Owners, h: Heights, b: nat, off: nat)
    requires TreesOk(d, own, h) && b < |d| && own[b].Node? && own[b].ino < |h|
    requires own[b].index == Prefix(off, own[b].level)
    ensures Lookup(d, Root(d, own[b].ino), h[own[b].ino], off) == Lookup(d, b, own[b].level, off)
    decreases h[own[b].ino] - own[b].level
  {
    assert NodeOk(d, own, h, b);
    var Node(i, l, k, p) := own[b];
    if p != 0 {
      assert NodeOk(d, own, h, p);
      LookupVia(d, own, h, p, off);
    }
  }

  /** With no data block for `off` in the tree, a lookup that descends from any node
      of its path ends in a hole. */
  lemma {:induction false} LookupMiss(d: Disk, own: Owners, h: Heights, b: nat, off: nat)
    requires TreesOk(d, own, h) && b < |d| && own[b].Node? && own[b].ino < |h|
    requires own[b].index == Prefix(off, own[b].level)
    requires forall c :: 0 <= c < |d| ==> !own[c].DataOf(own[b].ino, off)
    ensures Lookup(d, b, own[b].level, off) == ZeroBlock()
    decreases own[b].level
  {
    assert NodeOk(d, own, h, b);
    var l := own[b].level;
    if l > 0 {
      var j := Slot(off, l - 1);
      var c := d[b][j];
      if c != 0 {
        PrefixSplit(off, l - 1);
        LookupMiss(d, own, h, c, off);
      }
    }
  }

  /** Inside the capacity of inode i's tree, a lookup returns the data block whose
      role names that offset, and zeros if there is none. */
  lemma LookupHit(d: Disk, own: Owners, h: Heights, c: nat)
    requires TreesOk(d, own, h) && c < |d| && own[c].Node? && own[c].level == 0
    ensures own[c].ino < |h| && Lookup(d, Root(d, own[c].ino), h[own[c].ino], own[c].index) == d[c]
  {
    assert NodeOk(d, own, h, c);
    LookupVia(d, own, h, c, own[c].index);
  }

  lemma LookupHole(d: Disk, own: Owners, h: Heights, i: nat, off: nat)
    requires TreesOk(d, own, h) && i < |h| && Prefix(off, h[i]) == 0
    requires forall c :: 0 <= c < |d| ==> !own[c].DataOf(i, off)
    ensures Lookup(d, Root(d, i), h[i], off) == ZeroBlock()
  {
    assert RootOk(d, own, h, i);
    if Root(d, i) != 0 { LookupMiss(d, own, h, Root(d, i), off); }
  }

  // ----- Steps that build trees

  /** Blocks that are no tree node may change freely, as may their roles. */
  lemma TreesFrame(d: Disk, own: Owners, d': Disk, own': Owners, h: Heights)
    requires TreesOk(d, own, h) && Fixed(d', own') && |d'| == |d| && NInodeBlocks(d') == NInodeBlocks(d)
    requires forall b :: 1 <= b <= NInodeBlocks(d) ==> d'[b] == d[b]
    requires forall b :: 0 <= b < |d| ==> own'[b].Node? == own[b].Node?
    requires forall b :: 0 <= b < |d| && own[b].Node? ==> own'[b] == own[b] && d'[b] == d[b]
    ensures TreesOk(d', own', h)
  {
    forall i | 0 <= i < |h| ensures RootOk(d', own', h, i) { assert RootOk(d, own, h, i); }
    forall b | 0 <= b < |d| && own'[b].Node? ensures NodeOk(d', own', h, b) {
      assert NodeOk(d, own, h, b);
    }
  }

  function SetRoot(d: Disk, i: nat, b: Word): Disk
    requires HasInode(d, i)
  {
    d[1 + i / 64 := d[1 + i / 64][2 * (i % 64) := b]]
  }

  lemma SetRootOnly(d: Disk, i: nat, b: Word)
    requires Shaped(d) && HasInode(d, i)
    ensures Shaped(SetRoot(d, i, b)) && SetRoot(d, i, b)[0] == d[0]
    ensures Root(SetRoot(d, i, b), i) == b && Size(SetRoot(d, i, b), i) == Size(d, i)
    ensures forall k :: 0 <= k < NInodes(d) && k != i ==>
      Root(SetRoot(d, i, b), k) == Root(d, k) && Size(SetRoot(d, i, b), k) == Size(d, k)
  {
    forall k | 0 <= k < NInodes(d) && k != i
      ensures Root(SetRoot(d, i, b), k) == Root(d, k) && Size(SetRoot(d, i, b), k) == Size(d, k)
    {
      assert k / 64 != i / 64 || k % 64 != i % 64;
    }
  }

  ghost function GrownOwners(own: Owners, h: Heights, i: nat, root: nat, b: nat): Owners
    requires i < |h| && root < |own| && b < |own| && (root != 0 ==> own[root].Node?)
  {
    var o := if root == 0 then own else own[root := own[root].(parent := b)];
    o[b := Node(i, h[i] + 1, 0, 0)]
  }

  /** A new root above the old one: the tree gains a level and keeps its contents. */
  lemma GrowRoot(d: Disk, own: Owners, h: Heights, i: nat, b: Word)
    requires TreesOk(d, own, h) && i < |h| && b < |d| && own[b] == Loose
    ensures RootOk(d, own, h, i)
    ensures TreesOk(SetRoot(d[b := ZeroBlock()[0 := Root(d, i)]], i, b),
                    GrownOwners(own, h, i, Root(d, i), b), h[i := h[i] + 1])
  {
    assert RootOk(d, own, h, i);
    var e := d[b := ZeroBlock()[0 := Root(d, i)]];
    var d', own', h' := SetRoot(e, i, b), GrownOwners(own, h, i, Root(d, i), b), h[i := h[i] + 1];
    SetRootOnly(e, i, b);
    assert Fixed(d', own');
    forall k | 0 <= k < |h'| ensures RootOk(d', own', h', k) { assert RootOk(d, own, h, k); }
    forall c | 0 <= c < |d| && own'[c].Node? ensures NodeOk(d', own', h', c) {
      GrownNode(d, own, h, i, b, d', own', h', c);
    }
  }

  lemma GrownNode(d: Disk, own: Owners, h: Heights, i: nat, b: Word,
                  d': Disk, own': Owners, h': Heights, c: nat)
    requires TreesOk(d, own, h) && i < |h| && 0 < b < |d| == |d'| && own[b] == Loose
    requires RootOk(d, own, h, i) && Fixed(d', own') && h' == h[i := h[i] + 1] && NInodes(d') == NInodes(d)
    requires d'[b] == ZeroBlock()[0 := Root(d, i)] && forall c :: 0 <= c < |d| && own[c].Node? ==> d'[c] == d[c]
    requires own' == GrownOwners(own, h, i, Root(d, i), b)
    requires forall k :: 0 <= k < |h| ==> Root(d', k) == if k == i then b else Root(d, k)
    requires c < |d| && own'[c].Node?
    ensures NodeOk(d', own', h', c)
  {
    if c == b {
      assert forall j :: 1 <= j < 128 ==> d'[b][j] == 0;
    } else {
      assert NodeOk(d, own, h, c) && d'[c] == d[c];
      if c != Root(d, i) && own[c].parent == 0 { assert own[c].ino != i; }
    }
  }

  /** A first root for a tree without one. */
  lemma LinkRoot(d: Disk, own: Owners, h: Heights, i: nat, b: Word, blk: Block)
    requires TreesOk(d, own, h) && i < |h| && b < |d| && own[b] == Loose
    requires Root(d, i) == 0 && (h[i] > 0 ==> blk == ZeroBlock())
    ensures TreesOk(SetRoot(d[b := blk], i, b), own[b := Node(i, h[i], 0, 0)], h)
  {
    var d', own' := SetRoot(d[b := blk], i, b), own[b := Node(i, h[i], 0, 0)];
    SetRootOnly(d[b := blk], i, b);
    assert Fixed(d', own');
    forall k | 0 <= k < |h| ensures RootOk(d', own', h, k) { assert RootOk(d, own, h, k); }
    forall c | 0 <= c < |d| && own'[c].Node? ensures NodeOk(d', own', h, c) {
      if c != b { assert NodeOk(d, own, h, c); }
    }
  }

  /** A new child in an empty slot of an indirect block. */
  lemma LinkChild(d: Disk, own: Owners, h: Heights, p: nat, j: nat, b: Word, blk: Block)
    requires TreesOk(d, own, h) && p < |d| && b < |d| && j < 128 && own[b] == Loose
    requires own[p].Node? && own[p].level > 0 && d[p][j] == 0
    requires own[p].level > 1 ==> blk == ZeroBlock()
    ensures TreesOk(d[p := d[p][j := b]][b := blk],
                    own[b := Node(own[p].ino, own[p].level - 1, own[p].index * 128 + j, p)], h)
  {
    var d' := d[p := d[p][j := b]][b := blk];
    var own' := own[b := Node(own[p].ino, own[p].level - 1, own[p].index * 128 + j, p)];
    assert NodeOk(d, own, h, p);
    assert Fixed(d', own');
    forall k | 0 <= k < |h| ensures RootOk(d', own', h, k) { assert RootOk(d, own, h, k); }
    forall c | 0 <= c < |d| && own'[c].Node? ensures NodeOk(d', own', h, c) {
      LinkedNode(d, own, h, p, j, b, blk, d', own', c);
    }
  }

  lemma LinkedNode(d: Disk, own: Owners, h: Heights, p: nat, j: nat, b: Word, blk: Block,
                   d': Disk, own': Owners, c: nat)
    requires TreesOk(d, own, h) && Fixed(d', own') && NInodes(d') == NInodes(d)
    requires p < |d| && b < |d| && j < 128 && own[b] == Loose && own[p].Node? && own[p].level > 0 && d[p][j] == 0
    requires own[p].level > 1 ==> blk == ZeroBlock()
    requires d' == d[p := d[p][j := b]][b := blk] && forall k :: 0 <= k < |h| ==> Root(d', k) == Root(d, k)
    requires own' == own[b := Node(own[p].ino, own[p].level - 1, own[p].index * 128 + j, p)]
    requires c < |d| && own'[c].Node?
    ensures NodeOk(d', own', h, c)
  {
    assert NodeOk(d, own, h, p);
    if c != b {
      assert NodeOk(d, own, h, c);
      assert forall m :: 0 <= m < 128 && d[c][m] != 0 ==> d'[c][m] == d[c][m];
    }
  }

  // ----- Isolation

  /** Seen from every inode but i, disk `d` is as `d0` was. */
  ghost predicate Apart(d0: Disk, own0: Owners, d: Disk, own: Owners, i: nat) {
    && Fixed(d0, own0)
    && |d| == |d0| && |own| == |own0|
    && NInodeBlocks(d) == NInodeBlocks(d0)
    && (forall b :: 0 <= b < |d| && own0[b].Node? && own0[b].ino != i ==> own[b] == own0[b] && d[b] == d0[b])
    && (forall k :: 0 <= k < NInodes(d0) && k != i ==> Root(d, k) == Root(d0, k) && Size(d, k) == Size(d0, k))
  }

  /** What the other inodes may count on at every moment of a write to inode i. */
  ghost predicate Isolated(d0: Disk, d: Disk, i: nat) {
    && |d| == |d0| > 0
    && NInodeBlocks(d) == NInodeBlocks(d0)
    && forall k :: 0 <= k < NInodes(d0) && k != i ==> File(d, k) == File(d0, k) && FreeApart(d, k)
  }

  /** The free list on disk shares no block with inode k's tree. */
  ghost predicate FreeApart(d: Disk, k: nat)
    requires |d| > 0
  {
    HasInode(d, k) ==> forall c, n :: InList(d, FreeHead(d), n, c) ==> !InFile(d, k, c)
  }

  lemma {:induction false} SameLookup(d0: Disk, own0: Owners, h: Heights, d: Disk, own: Owners, i: nat, b: nat,
                                      l: nat, off: nat)
    requires TreesOk(d0, own0, h) && Apart(d0, own0, d, own, i)
    requires b == 0 || (b < |d| && own0[b].Node? && own0[b].level == l && own0[b].ino != i)
    ensures Lookup(d, b, l, off) == Lookup(d0, b, l, off)
    decreases l
  {
    if b != 0 && l > 0 {
      assert NodeOk(d0, own0, h, b);
      SameLookup(d0, own0, h, d, own, i, d[b][Slot(off, l - 1)], l - 1, off);
    }
  }

  /** Everything reachable from a node of inode k's tree belongs to inode k. */
  lemma {:induction false} TreeRoles(d: Disk, own: Owners, h: Heights, b: nat, l: nat, c: nat)
    requires TreesOk(d, own, h) && InTree(d, b, l, c)
    requires own[b].Node? && own[b].level == l
    ensures c < |d| && own[c].NodeOf(own[b].ino)
    decreases l
  {
    if c != b {
      assert NodeOk(d, own, h, b);
      var j :| 0 <= j < 128 && InTree(d, d[b][j], l - 1, c);
      TreeRoles(d, own, h, d[b][j], l - 1, c);
    }
  }

  /** The same, on a later disk on which only inode i's blocks may differ. */
  lemma {:induction false} TreeRolesApart(d0: Disk, own0: Owners, h: Heights, d: Disk, own: Owners, i: nat,
                                          b: nat, l: nat, c: nat)
    requires TreesOk(d0, own0, h) && Apart(d0, own0, d, own, i)
    requires InTree(d, b, l, c) && own0[b].Node? && own0[b].level == l && own0[b].ino != i
    ensures c < |d| && own0[c].NodeOf(own0[b].ino) && own[c] == own0[c]
    decreases l
  {
    if c != b {
      assert NodeOk(d0, own0, h, b);
      var j :| 0 <= j < 128 && InTree(d, d[b][j], l - 1, c);
      TreeRolesApart(d0, own0, h, d, own, i, d[b][j], l - 1, c);
    }
  }

  lemma {:induction false} ListRoles(d: Disk, own: Owners, b: nat, n: nat, c: nat)
    requires FreeOk(d, own) && InList(d, b, n, c)
    requires own[b].ListBlock?
    ensures c < |d| && own[c].Free()
    decreases n
  {
    assert ListBlockOk(d, own, b);
    if c != b && !(c != 0 && exists j :: 1 <= j < 128 && d[b][j] == c) {
      ListRoles(d, own, d[b][0], n - 1, c);
    }
  }

  /** The roles of one moment of a write imply isolation of every other inode. */
  lemma ApartIsolated(d0: Disk, own0: Owners, h: Heights, d: Disk, own: Owners, i: nat)
    requires TreesOk(d0, own0, h) && h == HeightsOf(d0) && Apart(d0, own0, d, own, i) && FreeOk(d, own)
    ensures Isolated(d0, d, i)
  {
    forall k | 0 <= k < NInodes(d0) && k != i ensures File(d, k) == File(d0, k) && FreeApart(d, k) {
      assert RootOk(d0, own0, h, k);
      forall off: nat ensures BlockAt(d, k, off) == BlockAt(d0, k, off) {
        SameLookup(d0, own0, h, d, own, i, Root(d, k), h[k], off);
      }
      assert File(d, k) == File(d0, k);
      forall c, n | InList(d, FreeHead(d), n, c) && InFile(d, k, c) ensures false {
        ListRoles(d, own, FreeHead(d), n, c);
        TreeRolesApart(d0, own0, h, d, own, i, Root(d, k), h[k], c);
      }
    }
  }

  // ----- Every block is owned exactly once

  lemma {:induction false} NodeReached(d: Disk, own: Owners, h: Heights, b: nat, c: nat)
    requires TreesOk(d, own, h) && b < |d| && own[b].Node? && own[b].ino < |h|
    requires InTree(d, b, own[b].level, c)
    ensures InTree(d, Root(d, own[b].ino), h[own[b].ino], c)
    decreases h[own[b].ino] - own[b].level
  {
    assert NodeOk(d, own, h, b);
    var p := own[b].parent;
    if p != 0 {
      assert NodeOk(d, own, h, p);
      assert InTree(d, d[p][own[b].index % 128], own[b].level, c);
      NodeReached(d, own, h, p, c);
    }
  }

  /** A block is in inode i's tree exactly when its role says so. */
  lemma FileRoles(d: Disk, own: Owners, i: nat, c: nat)
    requires Valid(d, own) && HasInode(d, i)
    ensures InFile(d, i, c) <==> c < |d| && own[c].NodeOf(i)
  {
    var h := HeightsOf(d);
    assert RootOk(d, own, h, i);
    if InFile(d, i, c) { TreeRoles(d, own, h, Root(d, i), h[i], c); }
    if c < |d| && own[c].NodeOf(i) { NodeReached(d, own, h, c, c); }
  }

  lemma {:induction false} ListReached(d: Disk, own: Owners, b: nat, n: nat, c: nat)
    requires FreeOk(d, own) && b < |d| && own[b].ListBlock? && InList(d, b, n, c)
    ensures FreeHead(d) != 0
    ensures InList(d, FreeHead(d), n + own[FreeHead(d)].pos - own[b].pos, c)
    decreases own[FreeHead(d)].pos - own[b].pos
  {
    assert ListBlockOk(d, own, b);
    var q := own[b].prev;
    if q != 0 { ListReached(d, own, q, n + 1, c); }
  }

  lemma {:induction false} ListFinite(d: Disk, own: Owners, b: nat)
    requires FreeOk(d, own) && b < |d| && own[b].ListBlock?
    ensures ListEnds(d, b, own[b].pos + 1)
    decreases own[b].pos
  {
    assert ListBlockOk(d, own, b);
    if d[b][0] != 0 { ListFinite(d, own, d[b][0]); }
  }

  lemma {:induction false} InListMore(d: Disk, b: nat, n: nat, m: nat, c: nat)
    requires InList(d, b, n, c) && n <= m
    ensures InList(d, b, m, c)
    decreases n
  {
    if InList(d, d[b][0], n - 1, c) { InListMore(d, d[b][0], n - 1, m - 1, c); }
  }

  /** Number of list blocks on the free list. */
  ghost function ListLength(d: Disk, own: Owners): nat
    requires FreeOk(d, own)
  {
    if FreeHead(d) == 0 then 0 else own[FreeHead(d)].pos + 1
  }

  /** A block is on the free list exactly when its role says it is free. */
  lemma FreeRoles(d: Disk, own: Owners, c: nat)
    requires FreeOk(d, own)
    ensures InList(d, FreeHead(d), ListLength(d, own), c) <==> c in FreeSet(own)
  {
    if InList(d, FreeHead(d), ListLength(d, own), c) {
      ListRoles(d, own, FreeHead(d), ListLength(d, own), c);
    }
    if c in FreeSet(own) {
      if own[c].Spare? { assert SpareOk(d, own, c); }
      var b := if own[c].Spare? then own[c].home else c;
      ListReached(d, own, b, 1, c);
      InListMore(d, FreeHead(d), 1 + own[FreeHead(d)].pos - own[b].pos, ListLength(d, own), c);
    }
  }

  /** The kinds of use a block can have, read off the disk alone. */
  ghost predicate UsedBySystem(d: Disk, c: nat)
    requires |d| > 0
  {
    c <= NInodeBlocks(d)
  }

  ghost predicate UsedByFile(d: Disk, i: nat, c: nat)
    requires |d| > 0
  {
    HasInode(d, i) && InFile(d, i, c)
  }

  /** The whole disk, superblock, inode blocks, trees and an acyclic free list of n
      list blocks, is a partition: no block is leaked and none is shared. */
  ghost predicate Partitioned(d: Disk, n: nat)
    requires |d| > 0
  {
    && ListEnds(d, FreeHead(d), n)
    && (forall c: nat, i: nat, k: nat :: UsedByFile(d, i, c) && UsedByFile(d, k, c) ==> i == k)
    && (forall c: nat, i: nat :: UsedByFile(d, i, c) ==>
          c < |d| && !UsedBySystem(d, c) && !InList(d, FreeHead(d), n, c))
    && (forall c: nat :: InList(d, FreeHead(d), n, c) ==> c < |d| && !UsedBySystem(d, c))
    && (forall c :: 0 <= c < |d| && !UsedBySystem(d, c) && !InList(d, FreeHead(d), n, c) ==>
          exists i :: UsedByFile(d, i, c))
  }

  lemma ValidPartition(d: Disk, own: Owners)
    requires Valid(d, own)
    ensures Partitioned(d, ListLength(d, own))
  {
    var n := ListLength(d, own);
    if FreeHead(d) != 0 { ListFinite(d, own, FreeHead(d)); }
    forall c: nat, i: nat ensures UsedByFile(d, i, c) <==> HasInode(d, i) && c < |d| && own[c].NodeOf(i) {
      if HasInode(d, i) { FileRoles(d, own, i, c); }
    }
    forall c: nat ensures InList(d, FreeHead(d), n, c) <==> c in FreeSet(own) {
      FreeRoles(d, own, c);
    }
    forall c | 0 <= c < |d| && own[c].Node? ensures UsedByFile(d, own[c].ino, c) {
      assert NodeOk(d, own, HeightsOf(d), c);
    }
  }

  /** No block is referenced from two places, whether in trees or in the free list. */
  lemma NoSharing(d: Disk, own: Owners, b: nat, j: nat, b': nat, j': nat)
    requires Valid(d, own)
    requires b < |d| && (own[b].ListBlock? || (own[b].Node? && own[b].level > 0)) && j < 128
    requires b' < |d| && (own[b'].ListBlock? || (own[b'].Node? && own[b'].level > 0)) && j' < 128
    requires d[b][j] == d[b'][j'] != 0
    ensures b == b' && j == j'
  {
    var h := HeightsOf(d);
    assert own[b].Node? ==> NodeOk(d, own, h, b);
    assert own[b].ListBlock? ==> ListBlockOk(d, own, b);
    assert own[b'].Node? ==> NodeOk(d, own, h, b');
    assert own[b'].ListBlock? ==> ListBlockOk(d, own, b');
  }
}
