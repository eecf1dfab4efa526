/** Building an identity map with two-level page tables (RISC-V Sv32). The tables live in
    frames of the same pool they map; the proofs walk them as the hardware does. */
module IdentityMap {
  import opened Basics
  import opened SoftTlb

  type Table = t: seq<Word> | |t| == 1024 witness seq<Word>(1024, i => 0)

  const SLOT: nat := 0x400000            // bytes mapped by one leaf table
  const POOL_BASE: nat := 0x80800000     // address of the first pool frame
  const POOL_PAGE: nat := 0x80800        // its page number
  const USER_RWX: nat := 0xDF            // 0xC0 | 0x1F

  // ----- Bits

  /** Bitwise or. */
  function Or(a: nat, b: nat): (r: nat)
    decreases a + b
  {
    if a == 0 && b == 0 then 0
    else (if a % 2 == 1 || b % 2 == 1 then 1 else 0) + 2 * Or(a / 2, b / 2)
  }

  function Pow2(k: nat): nat { if k == 0 then 1 else 2 * Pow2(k - 1) }

  /** Or-ing in a value below 2^k leaves the bits from k on alone. */
  lemma {:induction false} OrHigh(a: nat, b: nat, k: nat)
    requires b < Pow2(k)
    ensures Pow2(k) > 0 && Or(a, b) / Pow2(k) == a / Pow2(k)
    decreases k
  {
    if k == 0 {
      OrZero(a);
    } else {
      OrHigh(a / 2, b / 2, k - 1);
      HalfDiv(a, k);
      HalfDiv(Or(a, b), k);
      if a != 0 || b != 0 { assert Or(a, b) / 2 == Or(a / 2, b / 2); }
    }
  }

  lemma {:induction false} OrZero(a: nat)
    ensures Or(a, 0) == a
  {
    if a != 0 { OrZero(a / 2); }
  }

  lemma HalfDiv(x: nat, k: nat)
    requires k > 0 && Pow2(k - 1) > 0
    ensures x / Pow2(k) == x / 2 / Pow2(k - 1)
  {
    var p := Pow2(k - 1);
    var q, r := x / 2 / p, x / 2 % p;
    assert x / 2 == q * p + r;
    assert x == q * (2 * p) + (2 * r + x % 2);
    DivUnique(x, 2 * p, q, 2 * r + x % 2);
  }

  lemma DivUnique(x: nat, d: nat, q: nat, r: nat)
    requires d > 0 && x == q * d + r && r < d
    ensures x / d == q
  {
    assert (x / d - q) * d == r - x % d;
    MulBound(x / d - q, d);
  }

  lemma MulBound(x: int, d: int)
    requires d > 0
    ensures x >= 1 ==> x * d >= d
    ensures x <= -1 ==> x * d <= 0 - d
  {
  }

  /** The low bits of an or. */
  lemma OrLow(a: nat, b: nat)
    ensures b % 2 == 1 ==> Or(a, b) % 2 == 1
    ensures b / 2 % 2 == 1 ==> Or(a, b) / 2 % 2 == 1
    ensures a % 2 == 0 ==> Or(a, 1) == a + 1
  {
    OrZero(a / 2);
    if a != 0 || b != 0 { assert Or(a, b) / 2 == Or(a / 2, b / 2); }
  }

  /** A bit of the second operand is a bit of the or. */
  lemma {:induction false} OrBit(a: nat, b: nat, k: nat)
    requires Pow2(k) > 0 && b / Pow2(k) % 2 == 1
    ensures Or(a, b) / Pow2(k) % 2 == 1
    decreases k
  {
    if k == 0 {
      OrLow(a, b);
    } else {
      assert Pow2(k) == 2 * Pow2(k - 1);
      HalfDiv(b, k);
      HalfDiv(Or(a, b), k);
      OrBit(a / 2, b / 2, k - 1);
      if a != 0 || b != 0 { assert Or(a, b) / 2 == Or(a / 2, b / 2); }
    }
  }

  // ----- The walk of the hardware, section 4.3.2 of the privileged specification v1.10

  predicate IsValid(pte: Word) { pte % 2 == 1 && !(pte / 2 % 2 == 0 && pte / 4 % 2 == 1) }

  /** Readable or executable: the entry is a leaf. */
  predicate IsLeaf(pte: Word) { pte / 2 % 2 == 1 || pte / 8 % 2 == 1 }

  function Ppn(pte: Word): nat { pte / 1024 }

  /** The table in page `ppn`, if that page is a frame of the pool. */
  function TableAt(frames: seq<Table>, ppn: nat): Option<Table> {
    if POOL_PAGE <= ppn < POOL_PAGE + |frames| then Some(frames[ppn - POOL_PAGE]) else None
  }

  /** The leaf entry for virtual address a and the number of bytes it maps, with the root
      table in frame `root`. */
  function FindLeaf(frames: seq<Table>, root: nat, a: Word): Option<(Word, nat)>
    requires root < |frames|
  {
    var pte1 := frames[root][a / SLOT];
    if !IsValid(pte1) then None
    else if IsLeaf(pte1) then Some((pte1, SLOT))
    else
      match TableAt(frames, Ppn(pte1))
      case None => None
      case Some(leaf) =>
        var pte0 := leaf[a / PAGE_SIZE % 1024];
        if !IsValid(pte0) || !IsLeaf(pte0) then None else Some((pte0, PAGE_SIZE))
  }

  /** The physical address of virtual address a. */
  function Walk(frames: seq<Table>, root: nat, a: Word): Option<nat>
    requires root < |frames|
  {
    match FindLeaf(frames, root, a)
    case None => None
    case Some((pte, size)) =>
      if size == SLOT then Some(Ppn(pte) * PAGE_SIZE + a % SLOT) else Some(Ppn(pte) * PAGE_SIZE + a % PAGE_SIZE)
  }

  /** The entry lets user code read, write and execute, and is marked accessed and dirty. */
  predicate Grants(pte: Word) {
    && pte / 2 % 2 == 1 && pte / 4 % 2 == 1 && pte / 8 % 2 == 1 && pte / 16 % 2 == 1
    && pte / 64 % 2 == 1 && pte / 128 % 2 == 1
  }

  // ----- The invariant of the tables

  /** Entry i of the root is empty or points to a leaf table in a frame of its own. */
  ghost predicate RootEntry(e: Word, f: int, frames: seq<Table>) {
    if f < 0 then e == 0
    else f < |frames| && e == PointerTo(f)
  }

  /** A root entry that points to frame f: its page number and the valid bit. */
  function PointerTo(f: nat): nat { (POOL_BASE + f * PAGE_SIZE) / 4 + 1 }

  lemma PointerFacts(f: nat)
    requires f < NFRAMES
    ensures PointerTo(f) < 0x1_0000_0000 && PointerTo(f) % 2 == 1
    ensures PointerTo(f) / 2 % 2 == 0 && PointerTo(f) / 4 % 2 == 0 && PointerTo(f) / 8 % 2 == 0
    ensures PointerTo(f) / 1024 == POOL_PAGE + f
    ensures PointerTo(f) * 4 % 0x1_0000_0000 / PAGE_SIZE * PAGE_SIZE == POOL_BASE + f * PAGE_SIZE
    ensures Or((POOL_BASE + f * PAGE_SIZE) / 4, 1) == PointerTo(f)
  {
    hide Or;
    var g := POOL_PAGE + f;
    FrameAddress(f, g);
    OrLow(g * 1024, 1);
    PointerBits(g, g * 1024 + 1);
  }

  lemma FrameAddress(f: nat, g: nat)
    requires g == POOL_PAGE + f
    ensures POOL_BASE + f * PAGE_SIZE == g * 4096
    ensures (POOL_BASE + f * PAGE_SIZE) / 4 == g * 1024 && g * 1024 % 2 == 0
  {
    assert POOL_BASE + f * PAGE_SIZE == g * 4096;
    EvenQuarter(g * 512);
  }

  lemma EvenQuarter(m: nat)
    ensures 8 * m / 4 == 2 * m && 2 * m % 2 == 0
  {
  }

  lemma PointerBits(g: nat, y: nat)
    requires g < 0x100000 && y == g * 1024 + 1
    ensures y < 0x1_0000_0000 && y % 2 == 1 && y / 1024 == g
    ensures y / 2 % 2 == 0 && y / 4 % 2 == 0 && y / 8 % 2 == 0
    ensures y * 4 % 0x1_0000_0000 / 4096 * 4096 == g * 4096
  {
    LowBits(g * 64, y);
    PageBits(g, y);
    PageBack(g, y);
  }

  lemma LowBits(h: nat, y: nat)
    requires y == 16 * h + 1
    ensures y % 2 == 1 && y / 2 % 2 == 0 && y / 4 % 2 == 0 && y / 8 % 2 == 0
  {
    DivUnique(y, 2, 8 * h, 1);
    DivUnique(y, 4, 4 * h, 1);
    DivUnique(y, 8, 2 * h, 1);
  }

  lemma PageBits(g: nat, y: nat)
    requires g < 0x100000 && y == g * 1024 + 1
    ensures y < 0x1_0000_0000 && y / 1024 == g
  {
    DivUnique(y, 1024, g, 1);
  }

  lemma PageBack(g: nat, y: nat)
    requires g < 0x100000 && y == g * 1024 + 1
    ensures y * 4 % 0x1_0000_0000 / 4096 * 4096 == g * 4096
  {
    assert y * 4 == g * 4096 + 4 < 0x1_0000_0000;
    DivUnique(y * 4, 4096, g, 4);
  }

  /** An entry of a leaf table is empty or maps its page to itself, readable. */
  predicate LeafEntry(e: Word, page: nat) {
    e == 0 || (Ppn(e) == page && e % 2 == 1 && e / 2 % 2 == 1)
  }

  ghost predicate LeafOk(t: Table, i: nat) {
    forall j :: 0 <= j < 1024 ==> LeafEntry(t[j], i * 1024 + j)
  }

  /** `at[i]` is the frame of the leaf table of slot i, or -1. Root and leaf tables sit in
      allocated frames, each in its own. */
  ghost predicate Tables(frames: seq<Table>, info: seq<Info>, root: nat, at: seq<int>) {
    && |frames| == |info| == NFRAMES && root < NFRAMES && info[root].use
    && |at| == 1024
    && (forall i :: 0 <= i < 1024 ==> RootEntry(frames[root][i], at[i], frames))
    && (forall i :: 0 <= i < 1024 && at[i] >= 0 ==> at[i] != root && info[at[i]].use && LeafOk(frames[at[i]], i))
    && (forall i, j :: 0 <= i < j < 1024 && at[i] >= 0 ==> at[i] != at[j])
  }

  /** The entry for page number p, or 0. */
  ghost function EntryAt(frames: seq<Table>, at: seq<int>, p: nat): Word
    requires |at| == 1024
  {
    if p < 0x100000 && 0 <= at[p / 1024] < |frames| then frames[at[p / 1024]][p % 1024] else 0
  }

  /** The tables translate every address with an entry to itself, by that entry, and no other
      address at all. */
  lemma WalkIsIdentity(frames: seq<Table>, info: seq<Info>, root: nat, at: seq<int>, a: Word)
    requires Tables(frames, info, root, at)
    ensures
      var e := EntryAt(frames, at, a / PAGE_SIZE);
      && FindLeaf(frames, root, a) == (if e != 0 then Some((e, PAGE_SIZE)) else None)
      && Walk(frames, root, a) == if e != 0 then Some(a) else None
  {
    hide PointerTo;
    var i, p := a / SLOT, a / PAGE_SIZE;
    SplitAddress(a);
    assert RootEntry(frames[root][i], at[i], frames);
    if at[i] >= 0 {
      PointerFacts(at[i]);
      assert LeafEntry(frames[at[i]][p % 1024], i * 1024 + p % 1024);
    }
  }

  lemma SplitAddress(a: Word)
    ensures a / PAGE_SIZE / 1024 == a / SLOT < 1024 && a / PAGE_SIZE < 0x100000
    ensures a / SLOT * 1024 + a / PAGE_SIZE % 1024 == a / PAGE_SIZE
    ensures a / PAGE_SIZE * PAGE_SIZE + a % PAGE_SIZE == a
  {
  }

  // ----- Building

  /** A flag that makes a leaf: below the page number, valid and readable. */
  predicate LeafFlag(flag: nat) { flag < 1024 && flag % 2 == 1 && flag / 2 % 2 == 1 }

  /** The entry written for the page that holds address x. */
  lemma EntryMapsItself(x: Word, flag: nat)
    requires LeafFlag(flag)
    ensures Or(x / 4, flag) < 0x1_0000_0000
    ensures Or(x / 4, flag) != 0 && LeafEntry(Or(x / 4, flag), x / PAGE_SIZE)
  {
    hide Or;
    assert Pow2(10) == 1024;
    OrHigh(x / 4, flag, 10);
    OrLow(x / 4, flag);
    Quarter(x);
  }

  /** The entry for page p in a region from `addr` on. */
  function RegionEntry(addr: Word, flag: nat, p: nat): nat
    requires addr / PAGE_SIZE <= p
  {
    Or((addr + (p - addr / PAGE_SIZE) * PAGE_SIZE) / 4, flag)
  }

  lemma RegionGrants(addr: Word, p: nat)
    requires addr / PAGE_SIZE <= p && RegionEntry(addr, USER_RWX, p) < 0x1_0000_0000
    ensures Grants(RegionEntry(addr, USER_RWX, p))
  {
    hide Or;
    var x := (addr + (p - addr / PAGE_SIZE) * PAGE_SIZE) / 4;
    assert Pow2(1) == 2 && Pow2(2) == 4 && Pow2(3) == 8 && Pow2(4) == 16;
    assert Pow2(6) == 64 && Pow2(7) == 128;
    OrBit(x, USER_RWX, 1);
    OrBit(x, USER_RWX, 2);
    OrBit(x, USER_RWX, 3);
    OrBit(x, USER_RWX, 4);
    OrBit(x, USER_RWX, 6);
    OrBit(x, USER_RWX, 7);
  }

  lemma Quarter(x: Word)
    ensures x / 4 / 1024 == x / PAGE_SIZE < 0x100000
  {
  }

  /** The region of n pages from the page of `addr` on. */
  predicate InPages(addr: nat, n: nat, p: nat) { addr / PAGE_SIZE <= p < addr / PAGE_SIZE + n }

  predicate IsRam(p: nat) { RAM_START / PAGE_SIZE <= p < RAM_END / PAGE_SIZE }

  /** Device regions: a start address and a number of pages. */
  type Regions = seq<(Word, nat)>

  datatype Platform = Arty | Qemu

  /** CLINT, UART and SPI, and on the Arty board the flash ROM and the Ethernet buffers. */
  function Devices(platform: Platform): Regions {
    match platform
    case Arty => [(0xF0010000, 16), (0xF0001000, 1), (0xF0008800, 1), (0x20400000, 1024),
                  (0xF0002000, 1), (0x90001000, 1), (0x90000000, 1)]
    case Qemu => [(0x02000000, 16), (0x10010000, 1), (0x10050000, 1)]
  }

  /** The devices by address: timer, serial line and SPI controller; on the Arty board also
      Ethernet control, its two buffers and the flash ROM. */
  predicate IsDevice(platform: Platform, a: nat) {
    match platform
    case Arty =>
      0xF0010000 <= a < 0xF0020000 || 0xF0001000 <= a < 0xF0002000 || 0xF0008000 <= a < 0xF0009000 ||
      0xF0002000 <= a < 0xF0003000 || 0x90000000 <= a < 0x90002000 || 0x20400000 <= a < 0x20800000
    case Qemu =>
      0x02000000 <= a < 0x02010000 || 0x10010000 <= a < 0x10011000 || 0x10050000 <= a < 0x10051000
  }

  /** Every device region stays in one slot. */
  lemma DevicesFit(platform: Platform, i: nat)
    requires i < |Devices(platform)|
    ensures var d := Devices(platform)[i]; d.0 / PAGE_SIZE % 1024 + d.1 <= 1024
  {
  }

  ghost predicate InDevices(devices: Regions, p: nat) {
    exists i :: 0 <= i < |devices| && InPages(devices[i].0, devices[i].1, p)
  }

  ghost function DeviceSlots(devices: Regions): set<nat> {
    set i | 0 <= i < |devices| :: devices[i].0 / SLOT
  }

  predicate IsSlot(a: nat) { a % SLOT == 0 }

  /** The 4 MB slots of RAM below `end`. */
  ghost function RamSlots(end: nat): set<nat> {
    set a: nat | RAM_START <= a < end && IsSlot(a) :: a / SLOT
  }

  /** The slots that have a leaf table. */
  ghost function Slots(at: seq<int>): set<nat> {
    set v: nat | v < |at| && at[v] >= 0
  }

  /** The tables have grown from the frames `mine0` to the frames `mine`. New ones were free
      and now belong to `pid`; no frame but the tables has changed. */
  ghost predicate Claims(info0: seq<Info>, f0: seq<Table>, mine0: set<nat>, pid: int,
                         info: seq<Info>, f: seq<Table>, mine: set<nat>)
  {
    && |info0| == |f0| == |info| == |f| && mine0 <= mine <= mine0 + FreeFrames(info0)
    && (forall i: nat :: i < |info| ==>
          info[i] == if i in mine - mine0 then info0[i].(use := true, pid := pid) else info0[i])
    && (forall i: nat :: i < |f| && i !in mine ==> f[i] == f0[i])
  }

  /** The frames that hold tables. */
  ghost function Mine(root: nat, at: seq<int>): set<nat> {
    {root} + set v | 0 <= v < |at| && at[v] >= 0 :: at[v] as nat
  }

  class Builder {
    var info: array<Info>
    var frames: array<Table>
    var root: nat
    ghost var at: seq<int>

    ghost predicate Valid()
      reads this, info, frames
    {
      Tables(frames[..], info[..], root, at)
    }

    /** The entry for page number p, or 0. */
    ghost function Entry(p: nat): Word
      requires |at| == 1024
      reads this, frames
    {
      EntryAt(frames[..], at, p)
    }

    constructor (info: array<Info>, frames: array<Table>)
      ensures this.info == info && this.frames == frames
    {
      this.info, this.frames, root, at := info, frames, 0, [];
    }

    /** Finds the leaf table of the 4 MB slot `vpn1`, or makes an empty one. */
    method Leaf(pid: int, vpn1: nat) returns (ok: bool, leaf: nat)
      requires Valid() && vpn1 < 1024
      modifies this`at, info, frames
      ensures ok <==> vpn1 in Slots(old(at)) || FreeFrames(old(info[..])) != {}
      ensures ok ==> Valid() && at[vpn1] == leaf && forall p: nat :: Entry(p) == old(Entry(p))
      ensures ok ==> Slots(at) == Slots(old(at)) + {vpn1}
      ensures ok ==> |FreeFrames(info[..])| + |Slots(at)| == |FreeFrames(old(info[..]))| + |Slots(old(at))|
      ensures ok ==>
        Claims(old(info[..]), old(frames[..]), Mine(root, old(at)), pid, info[..], frames[..], Mine(root, at))
    {
      hide Or, PointerTo, LeafOk, Tables, EntryAt, Slots, FreeFrames, Claims, RootEntry, Mine;
      ghost var f0, at0, info0 := frames[..], at, info[..];
      RootFacts(f0, info0, root, at0, vpn1);
      var e := frames[root][vpn1];
      if e % 2 == 1 {
        leaf := (e * 4 % 0x1_0000_0000 / PAGE_SIZE * PAGE_SIZE - POOL_BASE) / PAGE_SIZE;
        ok := true;
        NoSlot(at, vpn1);
        NoClaims(info0, f0, pid, Mine(root, at0));
      } else {
        ok, leaf := AllocFrame(info);
        if !ok { return; }
        FreeFacts(info0, leaf);
        PointerFacts(leaf);
        info[leaf] := info[leaf].(pid := pid);
        frames[leaf] := seq<Word>(1024, i => 0);
        frames[root] := frames[root][vpn1 := Or((POOL_BASE + leaf * PAGE_SIZE) / 4, 1)];
        at := at[vpn1 := leaf];
        LeafAdded(f0, frames[..], info0, info[..], root, at0, at, vpn1, leaf, pid);
      }
    }

    /** Maps `npages` pages from `addr` on to themselves, all in one 4 MB slot. Every other
        address translates as before. */
    method Setup(pid: int, addr: Word, npages: nat, flag: nat) returns (ok: bool)
      requires Valid() && addr / PAGE_SIZE % 1024 + npages <= 1024 && LeafFlag(flag)
      modifies this`at, info, frames
      ensures ok <==> addr / SLOT in Slots(old(at)) || FreeFrames(old(info[..])) != {}
      ensures ok ==> Valid() && forall p: nat ::
        Entry(p) == if InPages(addr, npages, p) then RegionEntry(addr, flag, p) else old(Entry(p))
      ensures ok ==> forall a: Word ::
        Walk(frames[..], root, a) ==
        if InPages(addr, npages, a / PAGE_SIZE) then Some(a) else old(Walk(frames[..], root, a))
      ensures ok ==> Slots(at) == Slots(old(at)) + {addr / SLOT}
      ensures ok ==> |FreeFrames(info[..])| + |Slots(at)| == |FreeFrames(old(info[..]))| + |Slots(old(at))|
      ensures ok ==>
        Claims(old(info[..]), old(frames[..]), Mine(root, old(at)), pid, info[..], frames[..], Mine(root, at))
    {
      hide Or, PointerTo, LeafOk, Tables, EntryAt, Walk, FindLeaf, Slots, FreeFrames, Claims, Mine, RegionEntry;
      SplitAddress(addr);
      var vpn1 := addr / SLOT;
      TableSizes(frames[..], info[..], root, at);
      ghost var f0, info0, at0 := frames[..], info[..], at;
      var leaf;
      ok, leaf := Leaf(pid, vpn1);
      if !ok { return; }
      TableSizes(frames[..], info[..], root, at);
      ghost var info1, at1 := info[..], at;
      var vpn0 := addr / PAGE_SIZE % 1024;
      var i := 0;
      while i < npages
        invariant 0 <= i <= npages && Valid() && |at| == 1024 && at == at1 && at[vpn1] == leaf && info[..] == info1
        invariant forall p: nat ::
          Entry(p) == if InPages(addr, i, p) then RegionEntry(addr, flag, p) else EntryAt(f0, at0, p)
        invariant Claims(info0, f0, Mine(root, at0), pid, info[..], frames[..], Mine(root, at))
      {
        var x := addr + i * PAGE_SIZE;
        StepAddress(addr, i);
        RegionNext(addr, flag, i);
        EntryMapsItself(x, flag);
        ghost var f := frames[..];
        frames[leaf] := frames[leaf][vpn0 + i := Or(x / 4, flag)];
        LeafMine(root, at, vpn1);
        ClaimsUpdate(info0, f0, Mine(root, at0), pid, info1, f, Mine(root, at), leaf, frames[leaf]);
        assert frames[..] == f[leaf := frames[leaf]];
        EntrySet(f, frames[..], info[..], root, at, vpn1, vpn0 + i, Or(x / 4, flag));
        i := i + 1;
      }
      forall a: Word
        ensures Walk(frames[..], root, a) ==
          if InPages(addr, npages, a / PAGE_SIZE) then Some(a) else Walk(f0, root, a)
      {
        WalkIsIdentity(f0, info0, root, at0, a);
        WalkIsIdentity(frames[..], info[..], root, at, a);
        if InPages(addr, npages, a / PAGE_SIZE) { RegionUsed(addr, flag, npages, a / PAGE_SIZE); }
      }
    }

    /** Starts an empty root table in a frame of its own. */
    method Start(pid: int) returns (ok: bool)
      requires frames.Length == info.Length == NFRAMES
      modifies this`root, this`at, info, frames
      ensures ok <==> FreeFrames(old(info[..])) != {}
      ensures ok ==> Valid() && Slots(at) == {} && forall p: nat :: Entry(p) == 0
      ensures ok ==> |FreeFrames(info[..])| == |FreeFrames(old(info[..]))| - 1
      ensures ok ==> Claims(old(info[..]), old(frames[..]), {}, pid, info[..], frames[..], Mine(root, at))
    {
      hide Tables, EntryAt, Slots, FreeFrames, Claims, Mine;
      ghost var info0, f0 := info[..], frames[..];
      var id;
      ok, id := AllocFrame(info);
      if !ok { return; }
      FreeFacts(info0, id);
      root := id;
      info[id] := info[id].(pid := pid);
      frames[id] := seq<Word>(1024, i => 0);
      at := seq(1024, i => -1);
      assert info[..] == info0[id := info0[id].(use := true, pid := pid)];
      EmptyRoot(f0, frames[..], info0, info[..], root, at, pid);
    }

    /** All entries are open to user code. */
    ghost predicate Open()
      requires |at| == 1024
      reads this, frames
    {
      forall p: nat :: Entry(p) != 0 ==> Grants(Entry(p))
    }

    /** Maps RAM in empty tables, with one leaf table per 4 MB slot. */
    method MapRam(pid: int) returns (ok: bool)
      requires Valid() && Slots(at) == {} && forall p: nat :: Entry(p) == 0
      modifies this`at, info, frames
      ensures ok <==> |FreeFrames(old(info[..]))| >= |RamSlots(RAM_END)|
      ensures ok ==> Valid() && Open() && forall p: nat :: Entry(p) != 0 <==> IsRam(p)
      ensures ok ==>
        Slots(at) == RamSlots(RAM_END) && |FreeFrames(info[..])| + |Slots(at)| == |FreeFrames(old(info[..]))|
      ensures ok ==>
        Claims(old(info[..]), old(frames[..]), Mine(root, old(at)), pid, info[..], frames[..], Mine(root, at))
    {
      hide Tables, EntryAt, LeafFlag, InPages, Slots, FreeFrames, Claims, Mine, Walk, Grants, RegionEntry, RamSlots;
      ghost var info0, f0, mine := info[..], frames[..], Mine(root, at);
      TableSizes(frames[..], info[..], root, at);
      NoClaims(info0, f0, pid, mine);
      UserFlag();
      NoSlots([]);
      ok := true;
      var addr := RAM_START;
      while addr < RAM_END
        invariant RAM_START <= addr <= RAM_END && IsSlot(addr) && Valid() && |at| == 1024 && ok
        invariant Open() && forall p: nat :: Entry(p) != 0 <==> RAM_START / PAGE_SIZE <= p < addr / PAGE_SIZE
        invariant Slots(at) == RamSlots(addr) && |FreeFrames(info[..])| + |Slots(at)| == |FreeFrames(info0)|
        invariant Claims(info0, f0, mine, pid, info[..], frames[..], Mine(root, at))
        decreases RAM_END - addr
      {
        SlotAddress(addr);
        MoreRam(addr);
        RegionOpen(addr, 1024);
        ghost var info1, f1, at1 := info[..], frames[..], at;
        ok := Setup(pid, addr, 1024, USER_RWX);
        if !ok {
          Smaller(Slots(at1), addr / SLOT, RamSlots(RAM_END));
          return;
        }
        RegionSlot(addr);
        TableSizes(frames[..], info[..], root, at);
        ClaimsMore(info0, f0, mine, pid, info1, f1, Mine(root, at1), info[..], frames[..], Mine(root, at));
        addr := addr + PAGE_SIZE * 1024;
      }
    }

    /** Maps the devices of the platform beside RAM. */
    method MapDevices(pid: int, platform: Platform) returns (ok: bool)
      requires Valid() && Open() && Slots(at) == RamSlots(RAM_END) && forall p: nat :: Entry(p) != 0 <==> IsRam(p)
      modifies this`at, info, frames
      ensures ok <==>
        |FreeFrames(old(info[..]))| + |RamSlots(RAM_END)| >= |RamSlots(RAM_END) + DeviceSlots(Devices(platform))|
      ensures ok ==>
        Valid() && Open() && forall p: nat :: Entry(p) != 0 <==> IsRam(p) || InDevices(Devices(platform), p)
      ensures ok ==>
        Claims(old(info[..]), old(frames[..]), Mine(root, old(at)), pid, info[..], frames[..], Mine(root, at))
    {
      hide Tables, EntryAt, LeafFlag, InPages, Slots, FreeFrames, Claims, Mine, Walk, Grants, RegionEntry;
      hide InDevices, RamSlots, DeviceSlots, Devices, IsRam;
      ghost var info0, f0, mine := info[..], frames[..], Mine(root, at);
      TableSizes(frames[..], info[..], root, at);
      NoClaims(info0, f0, pid, mine);
      UserFlag();
      var devices := Devices(platform);
      NoSlots(devices);
      ghost var ram, all := RamSlots(RAM_END), RamSlots(RAM_END) + DeviceSlots(devices);
      ok := true;
      var i := 0;
      while i < |devices|
        invariant 0 <= i <= |devices| && Valid() && |at| == 1024 && ok
        invariant Open() && forall p: nat :: Entry(p) != 0 <==> IsRam(p) || InDevices(devices[..i], p)
        invariant Slots(at) == ram + DeviceSlots(devices[..i])
        invariant |FreeFrames(info[..])| + |Slots(at)| == |FreeFrames(info0)| + |ram|
        invariant Claims(info0, f0, mine, pid, info[..], frames[..], Mine(root, at))
      {
        DevicesFit(platform, i);
        MoreDevices(devices, i);
        RegionOpen(devices[i].0, devices[i].1);
        ghost var info1, f1, at1 := info[..], frames[..], at;
        ok := Setup(pid, devices[i].0, devices[i].1, USER_RWX);
        if !ok {
          Smaller(Slots(at1), devices[i].0 / SLOT, all);
          return;
        }
        TableSizes(frames[..], info[..], root, at);
        ClaimsMore(info0, f0, mine, pid, info1, f1, Mine(root, at1), info[..], frames[..], Mine(root, at));
        i := i + 1;
      }
      assert devices[..i] == devices;
    }

    /** Builds the map of RAM and of the device regions of one platform. The hardware then
        translates exactly these addresses, each to itself and open to user code. It works
        whenever there are frames for the root and for one leaf table per 4 MB slot touched;
        it takes free frames for them and changes no other. */
    method Build(pid: int, platform: Platform) returns (ok: bool)
      requires frames.Length == info.Length == NFRAMES
      modifies this`root, this`at, info, frames
      ensures ok <==> |FreeFrames(old(info[..]))| >= if platform == Arty then 8 else 7
      ensures ok ==> Valid() && forall a: Word ::
        Walk(frames[..], root, a) == if RAM_START <= a < RAM_END || IsDevice(platform, a) then Some(a) else None
      ensures ok ==> forall a: Word ::
        FindLeaf(frames[..], root, a).Some? ==> Grants(FindLeaf(frames[..], root, a).value.0)
      ensures ok ==> Claims(old(info[..]), old(frames[..]), {}, pid, info[..], frames[..], Mine(root, at))
    {
      hide Tables, EntryAt, Slots, FreeFrames, Claims, Mine, Walk, FindLeaf, Grants;
      hide InDevices, RamSlots, DeviceSlots, Devices, IsDevice, IsRam;
      SlotCount(platform);
      ghost var info0, f0 := info[..], frames[..];
      ok := Start(pid);
      if !ok { return; }
      TableSizes(frames[..], info[..], root, at);
      ghost var info1, f1, mine1 := info[..], frames[..], Mine(root, at);
      ok := MapRam(pid);
      if !ok { return; }
      TableSizes(frames[..], info[..], root, at);
      ClaimsMore(info0, f0, {}, pid, info1, f1, mine1, info[..], frames[..], Mine(root, at));
      ghost var info2, f2, mine2 := info[..], frames[..], Mine(root, at);
      ok := MapDevices(pid, platform);
      if !ok { return; }
      ClaimsMore(info0, f0, {}, pid, info2, f2, mine2, info[..], frames[..], Mine(root, at));
      Translates(frames[..], info[..], root, at, platform);
    }
  }

  /** Entries for RAM and the devices, all open: what the hardware then translates. */
  lemma Translates(frames: seq<Table>, info: seq<Info>, root: nat, at: seq<int>, platform: Platform)
    requires Tables(frames, info, root, at)
    requires forall p: nat :: EntryAt(frames, at, p) != 0 <==> IsRam(p) || InDevices(Devices(platform), p)
    requires forall p: nat :: EntryAt(frames, at, p) != 0 ==> Grants(EntryAt(frames, at, p))
    ensures root < |frames| && forall a: Word ::
      Walk(frames, root, a) == if RAM_START <= a < RAM_END || IsDevice(platform, a) then Some(a) else None
    ensures forall a: Word :: FindLeaf(frames, root, a).Some? ==> Grants(FindLeaf(frames, root, a).value.0)
  {
    hide Tables, EntryAt, Walk, FindLeaf, Grants, InDevices, Devices, IsDevice, IsRam;
    TableSizes(frames, info, root, at);
    forall a: Word
      ensures Walk(frames, root, a) == if RAM_START <= a < RAM_END || IsDevice(platform, a) then Some(a) else None
      ensures FindLeaf(frames, root, a).Some? ==> Grants(FindLeaf(frames, root, a).value.0)
    {
      WalkIsIdentity(frames, info, root, at, a);
      DevicesAre(platform, a);
    }
  }

  // ----- Regions

  lemma RegionNext(addr: Word, flag: nat, i: nat)
    ensures RegionEntry(addr, flag, addr / PAGE_SIZE + i) == Or((addr + i * PAGE_SIZE) / 4, flag)
    ensures forall p: nat :: InPages(addr, i + 1, p) <==> InPages(addr, i, p) || p == addr / PAGE_SIZE + i
  {
    hide Or;
  }

  /** The entry of a page in a region is in use. */
  lemma RegionUsed(addr: Word, flag: nat, n: nat, p: nat)
    requires addr / PAGE_SIZE % 1024 + n <= 1024 && LeafFlag(flag) && InPages(addr, n, p)
    ensures 0 < RegionEntry(addr, flag, p) < 0x1_0000_0000
  {
    hide Or, LeafFlag;
    StepAddress(addr, p - addr / PAGE_SIZE);
    EntryMapsItself(addr + (p - addr / PAGE_SIZE) * PAGE_SIZE, flag);
  }

  lemma RegionOpen(addr: Word, n: nat)
    requires addr / PAGE_SIZE % 1024 + n <= 1024
    ensures forall p: nat {:trigger RegionEntry(addr, USER_RWX, p)} :: InPages(addr, n, p) ==>
      0 < RegionEntry(addr, USER_RWX, p) < 0x1_0000_0000 && Grants(RegionEntry(addr, USER_RWX, p))
  {
    hide RegionEntry, Grants;
    forall p: nat | InPages(addr, n, p)
      ensures 0 < RegionEntry(addr, USER_RWX, p) < 0x1_0000_0000 && Grants(RegionEntry(addr, USER_RWX, p))
    {
      UserFlag();
      RegionUsed(addr, USER_RWX, n, p);
      RegionGrants(addr, p);
    }
  }

  /** The regions of the list are the devices at their addresses. */
  lemma DevicesAre(platform: Platform, a: Word)
    ensures InDevices(Devices(platform), a / PAGE_SIZE) <==> IsDevice(platform, a)
    ensures IsRam(a / PAGE_SIZE) <==> RAM_START <= a < RAM_END
  {
    var ds, p := Devices(platform), a / PAGE_SIZE;
    assert InDevices(ds, p) <==>
      InPages(ds[0].0, ds[0].1, p) || InPages(ds[1].0, ds[1].1, p) || InPages(ds[2].0, ds[2].1, p) ||
      (platform == Arty && (InPages(ds[3].0, ds[3].1, p) || InPages(ds[4].0, ds[4].1, p) ||
                            InPages(ds[5].0, ds[5].1, p) || InPages(ds[6].0, ds[6].1, p)));
  }

  lemma RamSlotsAre()
    ensures RamSlots(RAM_END) == {0x200, 0x201, 0x202, 0x203}
  {
    forall a: nat | RAM_START <= a < RAM_END && IsSlot(a) ensures a / SLOT in {0x200, 0x201, 0x202, 0x203} { }
    assert IsSlot(0x80000000) && IsSlot(0x80400000) && IsSlot(0x80800000) && IsSlot(0x80C00000);
    assert 0x80000000 / SLOT == 0x200 && 0x80400000 / SLOT == 0x201;
    assert 0x80800000 / SLOT == 0x202 && 0x80C00000 / SLOT == 0x203;
  }

  lemma DeviceSlotsAre(platform: Platform)
    ensures DeviceSlots(Devices(platform)) == if platform == Arty then {0x3C0, 0x81, 0x240} else {8, 0x40}
  {
    var ds := Devices(platform);
    if platform == Arty {
      assert ds[0].0 / SLOT == 0x3C0 && ds[3].0 / SLOT == 0x81 && ds[5].0 / SLOT == 0x240;
    } else {
      assert ds[0].0 / SLOT == 8 && ds[1].0 / SLOT == 0x40;
    }
  }

  /** The leaf tables: four for RAM, and three or two for the devices. */
  lemma SlotCount(platform: Platform)
    ensures |RamSlots(RAM_END)| == 4
    ensures |RamSlots(RAM_END) + DeviceSlots(Devices(platform))| == if platform == Arty then 7 else 6
  {
    hide RamSlots, DeviceSlots, Devices;
    RamSlotsAre();
    DeviceSlotsAre(platform);
    if platform == Arty {
      assert RamSlots(RAM_END) + DeviceSlots(Devices(platform)) == {0x200, 0x201, 0x202, 0x203, 0x3C0, 0x81, 0x240};
    } else {
      assert RamSlots(RAM_END) + DeviceSlots(Devices(platform)) == {0x200, 0x201, 0x202, 0x203, 8, 0x40};
    }
  }

  // ----- Frames taken

  lemma NoClaims(info: seq<Info>, f: seq<Table>, pid: int, mine: set<nat>)
    requires |info| == |f|
    ensures Claims(info, f, mine, pid, info, f, mine)
  {
  }

  lemma ClaimsMore(info0: seq<Info>, f0: seq<Table>, mine0: set<nat>, pid: int, info1: seq<Info>, f1: seq<Table>,
                   mine1: set<nat>, info: seq<Info>, f: seq<Table>, mine: set<nat>)
    requires Claims(info0, f0, mine0, pid, info1, f1, mine1) && Claims(info1, f1, mine1, pid, info, f, mine)
    ensures Claims(info0, f0, mine0, pid, info, f, mine)
  {
  }

  /** Writing a table. */
  lemma ClaimsUpdate(info0: seq<Info>, f0: seq<Table>, mine0: set<nat>, pid: int, info: seq<Info>, f: seq<Table>,
                     mine: set<nat>, k: nat, t: Table)
    requires Claims(info0, f0, mine0, pid, info, f, mine) && k < |f| && k in mine
    ensures Claims(info0, f0, mine0, pid, info, f[k := t], mine)
  {
  }

  lemma LeafMine(root: nat, at: seq<int>, v: nat)
    requires v < |at| && at[v] >= 0
    ensures at[v] in Mine(root, at)
  {
  }

  lemma MineNext(root: nat, at: seq<int>, v: nat, leaf: nat)
    requires v < |at| && at[v] < 0
    ensures Mine(root, at[v := leaf]) == Mine(root, at) + {leaf}
  {
    var more := at[v := leaf];
    assert more[v] == leaf;
    forall k | 0 <= k < |at| && at[k] >= 0 ensures at[k] in Mine(root, more) { assert more[k] == at[k]; }
  }

  lemma Smaller(slots: set<nat>, v: nat, all: set<nat>)
    requires slots <= all && v in all && v !in slots
    ensures |slots| < |all|
  {
    assert slots <= all - {v};
    Subset(slots, all - {v});
  }

  lemma {:induction false} Subset(a: set<nat>, b: set<nat>)
    requires a <= b
    ensures |a| <= |b|
  {
    if a != {} {
      var x :| x in a;
      Subset(a - {x}, b - {x});
    }
  }

  lemma NoSlots(devices: Regions)
    ensures RamSlots(RAM_START) == {} && DeviceSlots(devices[..0]) == {}
    ensures forall p: nat :: !InDevices(devices[..0], p)
  {
  }

  lemma MoreRam(addr: nat)
    requires IsSlot(addr) && RAM_START <= addr < RAM_END
    ensures RamSlots(addr + PAGE_SIZE * 1024) == RamSlots(addr) + {addr / SLOT}
    ensures RamSlots(addr) <= RamSlots(RAM_END) && addr / SLOT in RamSlots(RAM_END)
    ensures addr + PAGE_SIZE * 1024 <= RAM_END && IsSlot(addr + PAGE_SIZE * 1024)
  {
    forall a: nat | addr <= a < addr + SLOT && IsSlot(a) ensures a == addr {}
  }

  lemma MoreDevices(devices: Regions, i: nat)
    requires i < |devices|
    ensures forall p: nat :: InDevices(devices[..i + 1], p) <==>
      InDevices(devices[..i], p) || InPages(devices[i].0, devices[i].1, p)
    ensures DeviceSlots(devices[..i + 1]) == DeviceSlots(devices[..i]) + {devices[i].0 / SLOT}
    ensures DeviceSlots(devices[..i + 1]) <= DeviceSlots(devices)
  {
    var less, more := devices[..i], devices[..i + 1];
    assert more[i] == devices[i];
    assert forall k :: 0 <= k < i ==> more[k] == less[k] == devices[k];
    forall v | v in DeviceSlots(more)
      ensures v in DeviceSlots(less) + {devices[i].0 / SLOT} && v in DeviceSlots(devices)
    {
      var k :| 0 <= k <= i && v == more[k].0 / SLOT;
    }
    forall v | v in DeviceSlots(less) ensures v in DeviceSlots(more) {
      var k :| 0 <= k < i && v == less[k].0 / SLOT;
      assert v == more[k].0 / SLOT;
    }
    forall p: nat
      ensures InDevices(more, p) <==> InDevices(less, p) || InPages(devices[i].0, devices[i].1, p)
    {
      if InDevices(less, p) {
        var k :| 0 <= k < i && InPages(less[k].0, less[k].1, p);
        assert more[k] == less[k];
      }
    }
  }

  lemma UserFlag()
    ensures LeafFlag(USER_RWX)
  {
  }

  lemma SlotAddress(a: Word)
    requires IsSlot(a)
    ensures a / PAGE_SIZE % 1024 == 0
  {
  }

  lemma RegionSlot(a: Word)
    requires IsSlot(a)
    ensures forall p: nat :: InPages(a, 1024, p) <==> a / PAGE_SIZE <= p < (a + PAGE_SIZE * 1024) / PAGE_SIZE
  {
  }

  lemma TableSizes(frames: seq<Table>, info: seq<Info>, root: nat, at: seq<int>)
    requires Tables(frames, info, root, at)
    ensures |frames| == |info| == NFRAMES && root < NFRAMES && |at| == 1024
    ensures forall i :: 0 <= i < 1024 ==> at[i] < NFRAMES
  {
    assert forall i :: 0 <= i < 1024 ==> RootEntry(frames[root][i], at[i], frames);
  }

  lemma StepAddress(addr: Word, i: nat)
    requires addr / PAGE_SIZE % 1024 + i < 1024
    ensures addr + i * PAGE_SIZE < 0x1_0000_0000
    ensures (addr + i * PAGE_SIZE) / PAGE_SIZE == addr / PAGE_SIZE + i
    ensures addr / PAGE_SIZE + i == addr / SLOT * 1024 + (addr / PAGE_SIZE % 1024 + i)
  {
    SplitAddress(addr);
  }

  /** Writing a self-mapping entry into a leaf table covers that page and no other. */
  lemma EntrySet(f0: seq<Table>, f: seq<Table>, info: seq<Info>, root: nat, at: seq<int>, v: nat, j: nat, e: Word)
    requires Tables(f0, info, root, at) && v < 1024 && j < 1024 && 0 <= at[v] < |f0|
    requires e != 0 && LeafEntry(e, v * 1024 + j) && f == f0[at[v] := f0[at[v]][j := e]]
    ensures Tables(f, info, root, at)
    ensures forall p: nat :: EntryAt(f, at, p) == if p == v * 1024 + j then e else EntryAt(f0, at, p)
  {
    hide PointerTo, LeafEntry;
    forall i | 0 <= i < 1024 && at[i] >= 0 ensures LeafOk(f[at[i]], i) {
      assert LeafOk(f0[at[i]], i);
    }
    forall i | 0 <= i < 1024 ensures RootEntry(f[root][i], at[i], f) {
      assert RootEntry(f0[root][i], at[i], f0);
    }
  }

  /** A zeroed table in a free frame is a root that maps nothing. */
  lemma EmptyRoot(f0: seq<Table>, f: seq<Table>, info0: seq<Info>, info: seq<Info>, root: nat, at: seq<int>, pid: int)
    requires |f0| == |f| == |info0| == NFRAMES && root < NFRAMES && !info0[root].use
    requires info == info0[root := info0[root].(use := true, pid := pid)]
    requires f == f0[root := f[root]] && forall j :: 0 <= j < 1024 ==> f[root][j] == 0
    requires |at| == 1024 && forall j :: 0 <= j < 1024 ==> at[j] == -1
    ensures Tables(f, info, root, at) && Slots(at) == {} && forall p: nat :: EntryAt(f, at, p) == 0
    ensures |FreeFrames(info)| == |FreeFrames(info0)| - 1
    ensures Claims(info0, f0, {}, pid, info, f, Mine(root, at))
  {
    hide FreeFrames;
    OneLess(info0, info, root);
    assert Mine(root, at) == {root};
  }

  lemma RootFacts(f: seq<Table>, info: seq<Info>, root: nat, at: seq<int>, v: nat)
    requires Tables(f, info, root, at) && v < 1024
    ensures |f| == |info| == NFRAMES && root < NFRAMES && info[root].use && |at| == 1024 && at[v] < NFRAMES
    ensures var e := f[root][v]; (e % 2 == 1 <==> v in Slots(at)) && (at[v] >= 0 <==> v in Slots(at))
    ensures at[v] >= 0 ==>
      (f[root][v] * 4 % 0x1_0000_0000 / PAGE_SIZE * PAGE_SIZE - POOL_BASE) / PAGE_SIZE == at[v]
  {
    hide PointerTo, Or;
    assert RootEntry(f[root][v], at[v], f);
    if at[v] >= 0 { PointerFacts(at[v]); }
  }

  lemma NoSlot(at: seq<int>, v: nat)
    requires v in Slots(at)
    ensures Slots(at) == Slots(at) + {v}
  {
  }

  lemma FreeFacts(info: seq<Info>, i: nat)
    ensures i in FreeFrames(info) <==> i < |info| && !info[i].use
  {
  }

  lemma OneLess(info: seq<Info>, info': seq<Info>, leaf: nat)
    requires leaf < |info| == |info'| && !info[leaf].use && info' == info[leaf := info'[leaf]] && info'[leaf].use
    ensures FreeFrames(info') == FreeFrames(info) - {leaf} && leaf in FreeFrames(info)
    ensures |FreeFrames(info')| == |FreeFrames(info)| - 1
  {
  }

  lemma OneMore(at: seq<int>, v: nat, leaf: nat)
    requires v < |at| && at[v] < 0
    ensures Slots(at[v := leaf]) == Slots(at) + {v} && |Slots(at[v := leaf])| == |Slots(at)| + 1
  {
  }

  /** A new empty leaf table keeps the invariant and covers nothing new. */
  lemma LeafAdded(f0: seq<Table>, f: seq<Table>, info0: seq<Info>, info: seq<Info>, root: nat,
                  at0: seq<int>, at: seq<int>, v: nat, leaf: nat, pid: int)
    requires Tables(f0, info0, root, at0) && v < 1024 && at0[v] < 0 && leaf < NFRAMES && !info0[leaf].use
    requires info == info0[leaf := info0[leaf].(use := true, pid := pid)] && at == at0[v := leaf]
    requires |f| == NFRAMES && PointerTo(leaf) < 0x1_0000_0000 && f[root] == f0[root][v := PointerTo(leaf)]
    requires forall j :: 0 <= j < 1024 ==> f[leaf][j] == 0
    requires forall k :: 0 <= k < NFRAMES && k != root && k != leaf ==> f[k] == f0[k]
    ensures Tables(f, info, root, at)
    ensures forall p: nat :: EntryAt(f, at, p) == EntryAt(f0, at0, p)
    ensures Slots(at) == Slots(at0) + {v}
    ensures |FreeFrames(info)| + |Slots(at)| == |FreeFrames(info0)| + |Slots(at0)|
    ensures Claims(info0, f0, Mine(root, at0), pid, info, f, Mine(root, at))
  {
    hide PointerTo, Slots, FreeFrames, RootEntry, LeafOk, Claims, Mine;
    TableSizes(f0, info0, root, at0);
    OneMore(at0, v, leaf);
    OneLess(info0, info, leaf);
    assert LeafOk(f[leaf], v) by { EmptyLeaf(f[leaf], v); }
    forall i | 0 <= i < 1024 ensures RootEntry(f[root][i], at[i], f) {
      RootKept(f0, f, root, at0, v, leaf, i);
    }
    forall i | 0 <= i < 1024 && at[i] >= 0 ensures at[i] != root && info[at[i]].use && LeafOk(f[at[i]], i) {
      if i != v { assert at[i] == at0[i]; }
    }
    LeafClaims(f0, f, info0, info, root, at0, v, leaf, pid);
  }

  lemma LeafClaims(f0: seq<Table>, f: seq<Table>, info0: seq<Info>, info: seq<Info>, root: nat, at0: seq<int>, v: nat,
                   leaf: nat, pid: int)
    requires Tables(f0, info0, root, at0) && v < 1024 && at0[v] < 0 && leaf < NFRAMES && !info0[leaf].use
    requires |f| == NFRAMES && info == info0[leaf := info0[leaf].(use := true, pid := pid)]
    requires forall k :: 0 <= k < NFRAMES && k != root && k != leaf ==> f[k] == f0[k]
    ensures Claims(info0, f0, Mine(root, at0), pid, info, f, Mine(root, at0[v := leaf]))
  {
    hide RootEntry, LeafOk;
    MineNext(root, at0, v, leaf);
    assert leaf !in Mine(root, at0);
    assert root in Mine(root, at0);
    hide Mine;
  }

  lemma EmptyLeaf(t: Table, v: nat)
    requires forall j :: 0 <= j < 1024 ==> t[j] == 0
    ensures LeafOk(t, v)
  {
  }

  lemma RootKept(f0: seq<Table>, f: seq<Table>, root: nat, at0: seq<int>, v: nat, leaf: nat, i: nat)
    requires |f0| == |f| == NFRAMES && root < NFRAMES && leaf < NFRAMES && |at0| == 1024 && v < 1024 && i < 1024
    requires PointerTo(leaf) < 0x1_0000_0000 && f[root] == f0[root][v := PointerTo(leaf)]
    requires RootEntry(f0[root][i], at0[i], f0)
    ensures RootEntry(f[root][i], at0[v := leaf][i], f)
  {
  }
}
