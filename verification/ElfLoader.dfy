/** Loading an executable into the memory of a process that is not running: pages are
    allocated, mapped and filled one by one through the software TLB. */
module ElfLoader {
  import opened Basics
  import opened SoftTlb

  const STACK_END: nat := 0x80800       // page number of APPS_STACK_TOP

  type Bytes = p: seq<Byte> | |p| == 4096 witness seq<Byte>(4096, i => 0)
  type Block = b: seq<Byte> | |b| == 512 witness seq<Byte>(512, i => 0)

  /** The fields of a program header the loader uses. */
  datatype Segment = Segment(vaddr: Word, memsz: Word, filesz: Word, offset: Word)

  /** The file behind the reader: its blocks, and what a read past them returns. */
  datatype Reader = Reader(blocks: seq<Block>, beyond: Block) {
    function Read(b: nat): Block { if b < |blocks| then blocks[b] else beyond }
  }

  // ----- What is loaded where

  function Ceil(n: nat, d: nat): nat
    requires d > 0
  {
    (n + d - 1) / d
  }

  function FirstPage(g: Segment): nat { g.vaddr / PAGE_SIZE }

  function EndPage(g: Segment): nat { (g.vaddr + g.memsz) % WORD_LIMIT / PAGE_SIZE }

  /** Number of pages mapped for a segment: those the file reaches into, and more up to,
      but not including, the page that holds the end of the segment. */
  function PageCount(g: Segment): nat {
    var file := Ceil(g.filesz, PAGE_SIZE);
    if FirstPage(g) + file < EndPage(g) then EndPage(g) - FirstPage(g) else file
  }

  /** Byte `x` of the file, counted from block `blk`. */
  function FileByte(reader: Reader, blk: nat, x: nat): Byte {
    reader.Read(blk + x / BLOCK_SIZE)[x % BLOCK_SIZE]
  }

  /** Byte x of page i of a segment when `limit` bytes of it have been read. */
  function PageByte(reader: Reader, blk: nat, limit: nat, i: nat, x: nat): Byte {
    var y := i * 4096 + x;
    if y < limit then FileByte(reader, blk, y) else 0
  }

  /** Page i of a segment when `limit` bytes of it have been read; the rest is zero. */
  function PageUpTo(reader: Reader, blk: nat, limit: nat, i: nat): Bytes {
    seq(4096, (x: nat) => PageByte(reader, blk, limit, i, x))
  }

  /** Memory with the first n pages of a segment mapped for process pid. */
  ghost function Image(m: Memory<Bytes>, pid: int, v: nat, n: nat, reader: Reader, blk: nat,
                       limit: nat): Memory<Bytes> {
    if n == 0 then m
    else Image(m, pid, v, n - 1, reader, blk, limit)[(pid, v + n - 1) := PageUpTo(reader, blk, limit, n - 1)]
  }

  ghost function SegmentImage(m: Memory<Bytes>, pid: int, g: Segment, reader: Reader): Memory<Bytes> {
    Image(m, pid, FirstPage(g), PageCount(g), reader, g.offset / BLOCK_SIZE, g.filesz)
  }

  /** What an image holds: the pages it maps, and everything else as before. */
  lemma {:induction false} ImageAt(m: Memory<Bytes>, pid: int, v: nat, n: nat, reader: Reader, blk: nat, limit: nat)
    ensures
      var r := Image(m, pid, v, n, reader, blk, limit);
      && (forall k :: k in r <==> k in m || (k.0 == pid && v <= k.1 < v + n))
      && (forall i :: 0 <= i < n ==> r[(pid, v + i)] == PageUpTo(reader, blk, limit, i))
      && (forall k :: k in m && !(k.0 == pid && v <= k.1 < v + n) ==> r[k] == m[k])
  {
    if n > 0 { ImageAt(m, pid, v, n - 1, reader, blk, limit); }
  }

  /** Reading further changes only pages that were not complete. */
  lemma {:induction false} ImageGrow(m: Memory<Bytes>, pid: int, v: nat, n: nat, reader: Reader, blk: nat,
                                     limit: nat, limit': nat)
    requires n * 4096 <= limit <= limit'
    ensures Image(m, pid, v, n, reader, blk, limit') == Image(m, pid, v, n, reader, blk, limit)
  {
    if n > 0 {
      ImageGrow(m, pid, v, n - 1, reader, blk, limit, limit');
      assert PageUpTo(reader, blk, limit', n - 1) == PageUpTo(reader, blk, limit, n - 1);
    }
  }

  // ----- Pages

  /** Allocates a frame and maps it as page v of process pid. */
  method NewPage(mmu: Mmu<Bytes>, pid: int, v: nat) returns (ok: bool, id: nat)
    requires mmu.Valid() && pid != 0 && pid != mmu.curr && UserPage(v) && (pid, v) !in Abs(mmu.View())
    modifies mmu.info
    ensures mmu.Valid() && mmu.curr == old(mmu.curr) && mmu.ram[..] == old(mmu.ram[..])
    ensures ok <==> |FreeFrames(old(mmu.info[..]))| > 0
    ensures ok ==> |FreeFrames(mmu.info[..])| == |FreeFrames(old(mmu.info[..]))| - 1
    ensures ok ==> id < NFRAMES && Stands(mmu.View(), id, pid, v)
    ensures ok ==> Abs(mmu.View()) == old(Abs(mmu.View()))[(pid, v) := mmu.ram[..][POOL + id]]
  {
    hide Abs;
    ghost var info := mmu.info[..];
    ok, id := mmu.Alloc();
    if !ok {
      assert FreeFrames(info) == {};
      return;
    }
    assert id in FreeFrames(info);
    mmu.Map(pid, v, id);
    assert FreeFrames(mmu.info[..]) == FreeFrames(info) - {id};
  }

  /** Writes a frame of a process that is not running. */
  method PutFrame(mmu: Mmu<Bytes>, id: nat, page: Bytes, ghost pid: int, ghost v: nat)
    requires mmu.Valid() && Stands(mmu.View(), id, pid, v) && pid != 0 && pid != mmu.curr
    modifies mmu.ram
    ensures mmu.Valid() && mmu.curr == old(mmu.curr) && mmu.info[..] == old(mmu.info[..])
    ensures mmu.ram[..] == old(mmu.ram[..])[POOL + id := page]
    ensures Abs(mmu.View()) == old(Abs(mmu.View()))[(pid, v) := page]
  {
    hide Abs;
    FillStep(mmu.View(), id, pid, v, page);
    mmu.ram[POOL + id] := page;
    assert mmu.ram[..] == old(mmu.ram[..])[POOL + id := page];
  }

  // ----- Segments

  function ZeroPage(): (z: Bytes)
    ensures forall x :: 0 <= x < 4096 ==> z[x] == 0
  {
    seq<Byte>(4096, i => 0)
  }

  /** `size` bytes of a block copied into a page at `at`. */
  function Overlay(page: Bytes, at: nat, buf: Block, size: nat): Bytes
    requires at + size <= 4096 && size <= 512
  {
    page[..at] + buf[..size] + page[at + size..]
  }

  /** One block read at `off` extends what the page holds by that block. */
  lemma OverlayStep(reader: Reader, blk: nat, off: nat, size: nat)
    requires off % 512 == 0 && 0 < size <= 512
    ensures off % 4096 + size <= 4096
    ensures Overlay(PageUpTo(reader, blk, off, off / 4096), off % 4096, reader.Read(blk + off / 512), size)
            == PageUpTo(reader, blk, off + size, off / 4096)
  {
    var i, at := off / 4096, off % 4096;
    var p := Overlay(PageUpTo(reader, blk, off, i), at, reader.Read(blk + off / 512), size);
    forall x | 0 <= x < 4096 ensures p[x] == PageUpTo(reader, blk, off + size, i)[x] {
      if at <= x < at + size {
        assert i * 4096 + x == off + (x - at);
        assert (off + (x - at)) / 512 == off / 512 && (off + (x - at)) % 512 == x - at;
      }
    }
  }

  lemma EmptyPage(reader: Reader, blk: nat, limit: nat, i: nat)
    requires limit <= i * 4096
    ensures PageUpTo(reader, blk, limit, i) == ZeroPage()
  {
  }

  /** Room for the pages of a segment: inside the user region and not mapped yet. */
  ghost predicate Room(m: Memory<Bytes>, pid: int, v: nat, n: nat) {
    forall k :: v <= k < v + n ==> UserPage(k) && (pid, k) !in m
  }

  /** The pages a segment has so far: n pages from page v on, holding `limit` bytes. */
  datatype Progress = Progress(m: Memory<Bytes>, pid: int, v: nat, blk: nat)

  ghost predicate Loaded(vm: Vm<Bytes>, g: Progress, n: nat, reader: Reader, limit: nat) {
    && SoftTlb.Ok(vm) && g.pid != 0 && g.pid != vm.curr
    && Abs(vm) == Image(g.m, g.pid, g.v, n, reader, g.blk, limit)
  }

  /** A fresh zeroed page behind the n pages mapped so far. */
  method AppendPage(mmu: Mmu<Bytes>, pid: int, page: nat, ghost g: Progress, ghost n: nat, ghost reader: Reader,
                    ghost limit: nat)
    returns (ok: bool, id: nat)
    requires mmu.Valid() && Loaded(mmu.View(), g, n, reader, limit) && limit <= n * 4096
    requires pid == g.pid && page == g.v + n && UserPage(page) && (pid, page) !in g.m
    modifies mmu.info, mmu.ram
    ensures mmu.Valid() && mmu.curr == old(mmu.curr) && mmu.info == old(mmu.info) && mmu.ram == old(mmu.ram)
    ensures ok <==> |FreeFrames(old(mmu.info[..]))| > 0
    ensures ok ==> |FreeFrames(mmu.info[..])| == |FreeFrames(old(mmu.info[..]))| - 1
    ensures ok ==> id < NFRAMES && Stands(mmu.View(), id, pid, page)
    ensures ok ==> |mmu.ram[..]| == RAM_PAGES && mmu.ram[..][POOL + id] == PageUpTo(reader, g.blk, limit, n)
    ensures ok ==> Loaded(mmu.View(), g, n + 1, reader, limit)
  {
    hide Abs, PageUpTo, SoftTlb.TableOk, FreeFrames;
    assert (pid, page) !in Abs(mmu.View()) by { ImageAt(g.m, pid, g.v, n, reader, g.blk, limit); }
    ok, id := NewPage(mmu, pid, page);
    if ok {
      PutFrame(mmu, id, ZeroPage(), pid, page);
      EmptyPage(reader, g.blk, limit, n);
    }
  }

  /** Reads one block into the last page. */
  method ReadBlock(mmu: Mmu<Bytes>, id: nat, off: nat, size: nat, buf: Block,
                   ghost g: Progress, ghost n: nat, ghost reader: Reader)
    requires mmu.Valid() && Loaded(mmu.View(), g, n, reader, off)
    requires off % 512 == 0 && 0 < size <= 512 && n == off / 4096 + 1
    requires Stands(mmu.View(), id, g.pid, g.v + n - 1) && id < NFRAMES
    requires mmu.ram[..][POOL + id] == PageUpTo(reader, g.blk, off, n - 1) && buf == reader.Read(g.blk + off / 512)
    modifies mmu.ram
    ensures mmu.Valid() && mmu.curr == old(mmu.curr) && mmu.info[..] == old(mmu.info[..])
    ensures Loaded(mmu.View(), g, n, reader, off + size) && Stands(mmu.View(), id, g.pid, g.v + n - 1)
    ensures |mmu.ram[..]| == RAM_PAGES && mmu.ram[..][POOL + id] == PageUpTo(reader, g.blk, off + size, n - 1)
  {
    hide Abs, PageUpTo, Overlay, SoftTlb.TableOk;
    OverlayStep(reader, g.blk, off, size);
    ImageGrow(g.m, g.pid, g.v, n - 1, reader, g.blk, off, off + size);
    PutFrame(mmu, id, Overlay(mmu.ram[POOL + id], off % PAGE_SIZE, buf, size), g.pid, g.v + n - 1);
  }

  function Min(a: nat, b: nat): nat { if a < b then a else b }

  lemma NoBlocks(filesz: nat)
    ensures Ceil(0, 4096) == 0 <= Ceil(filesz, 4096) && (filesz == 0 ==> Ceil(filesz, 4096) == 0)
  {
  }

  /** One block further: a page more just when the block starts one. */
  lemma BlockStep(off: nat, filesz: nat)
    requires off % 512 == 0 && off < filesz
    ensures (off + 512) % 512 == 0 && (off + 512) / 512 == off / 512 + 1
    ensures Ceil(off + 512, 4096) == off / 4096 + 1
    ensures Ceil(off + 512, 4096) == if off % 4096 == 0 then Ceil(off, 4096) + 1 else Ceil(off, 4096)
    ensures Ceil(off + 512, 4096) <= Ceil(filesz, 4096) && off <= 4096 * Ceil(off, 4096)
    ensures off + 512 >= filesz ==> Ceil(off + 512, 4096) == Ceil(filesz, 4096)
  {
    hide Ceil;
    var q, r := off / 4096, off % 4096;
    BlockOf(off, q, r);
    PageOf(q, r);
    PageOf(q, r + 512);
    PageOf(q, filesz - 4096 * q);
  }

  lemma BlockOf(off: nat, q: nat, r: nat)
    requires off % 512 == 0 && q == off / 4096 && r == off % 4096
    ensures off == 4096 * q + r && r <= 4096 - 512 && (off + 512) % 512 == 0 && (off + 512) / 512 == off / 512 + 1
  {
  }

  lemma PageOf(q: nat, x: nat)
    ensures x > 0 ==> Ceil(4096 * q + x, 4096) >= q + 1
    ensures 0 < x <= 4096 ==> Ceil(4096 * q + x, 4096) == q + 1
    ensures x == 0 ==> Ceil(4096 * q + x, 4096) == q
  {
  }

  /** Reads the file part of a segment, one page for every eight blocks. */
  method ReadFile(mmu: Mmu<Bytes>, pid: int, first: nat, filesz: Word, blk: nat, reader: Reader, ghost g: Progress)
    returns (ok: bool, page: nat)
    requires mmu.Valid() && Loaded(mmu.View(), g, 0, reader, 0)
    requires g == Progress(g.m, pid, first, blk) && Room(g.m, pid, first, Ceil(filesz, PAGE_SIZE))
    modifies mmu.info, mmu.ram
    ensures mmu.Valid() && mmu.curr == old(mmu.curr) && mmu.info == old(mmu.info) && mmu.ram == old(mmu.ram)
    ensures ok <==> |FreeFrames(old(mmu.info[..]))| >= Ceil(filesz, PAGE_SIZE)
    ensures ok ==> page == first + Ceil(filesz, PAGE_SIZE)
    ensures ok ==> Loaded(mmu.View(), g, Ceil(filesz, PAGE_SIZE), reader, filesz)
    ensures ok ==> |FreeFrames(mmu.info[..])| == |FreeFrames(old(mmu.info[..]))| - Ceil(filesz, PAGE_SIZE)
  {
    hide Abs, PageUpTo, SoftTlb.Ok, FreeFrames, Loaded, Stands, Mmu.Valid, Ceil;
    page := first;
    NoBlocks(filesz);
    var off: nat, blockno: nat, id: nat := 0, blk, 0;
    ghost var n := 0;
    while off < filesz
      invariant mmu.Valid() && mmu.curr == old(mmu.curr) && mmu.info == old(mmu.info) && mmu.ram == old(mmu.ram)
      invariant off % 512 == 0 && off < filesz + 512 && blockno == blk + off / 512
      invariant n == Ceil(off, 4096) <= Ceil(filesz, 4096) && page == first + n
      invariant (off >= filesz ==> n == Ceil(filesz, 4096)) && (off > 0 ==> n > 0)
      invariant Loaded(mmu.View(), g, n, reader, Min(off, filesz))
      invariant off % 4096 != 0 && off < filesz ==> id < NFRAMES && Stands(mmu.View(), id, pid, first + n - 1)
      invariant off % 4096 != 0 && off < filesz ==>
        |mmu.ram[..]| == RAM_PAGES && mmu.ram[..][POOL + id] == PageUpTo(reader, blk, off, n - 1)
      invariant |FreeFrames(mmu.info[..])| == |FreeFrames(old(mmu.info[..]))| - n
    {
      BlockStep(off, filesz);
      if off % PAGE_SIZE == 0 {
        ok, id := AppendPage(mmu, pid, page, g, n, reader, off);
        if !ok { return; }
        page := page + 1;
        n := n + 1;
      }
      var size := if off + BLOCK_SIZE < filesz then BLOCK_SIZE else filesz - off;
      var buf := reader.Read(blockno);
      blockno := blockno + 1;
      ReadBlock(mmu, id, off, size, buf, g, n, reader);
      off := off + BLOCK_SIZE;
    }
    ok := true;
  }

  /** Maps zeroed pages up to the last whole page of the segment. */
  method ZeroRest(mmu: Mmu<Bytes>, pid: int, page: nat, end: nat, ghost g: Progress, ghost n: nat,
                  ghost reader: Reader, ghost limit: nat)
    returns (ok: bool)
    requires mmu.Valid() && Loaded(mmu.View(), g, n, reader, limit) && limit <= n * 4096
    requires pid == g.pid && page == g.v + n && (page < end ==> Room(g.m, pid, g.v, end - g.v))
    modifies mmu.info, mmu.ram
    ensures mmu.Valid() && mmu.curr == old(mmu.curr) && mmu.info == old(mmu.info) && mmu.ram == old(mmu.ram)
    ensures ok <==> page >= end || |FreeFrames(old(mmu.info[..]))| >= end - page
    ensures ok ==> Loaded(mmu.View(), g, if page < end then end - g.v else n, reader, limit)
    ensures ok ==>
      |FreeFrames(mmu.info[..])| == |FreeFrames(old(mmu.info[..]))| - (if page < end then end - page else 0)
  {
    hide Abs, PageUpTo, SoftTlb.Ok, FreeFrames, Loaded, Stands, Mmu.Valid;
    var curr := page;
    ok := true;
    while curr < end
      invariant page <= curr && if page < end then curr <= end else curr == page
      invariant mmu.Valid() && mmu.curr == old(mmu.curr) && mmu.info == old(mmu.info) && mmu.ram == old(mmu.ram)
      invariant Loaded(mmu.View(), g, curr - g.v, reader, limit)
      invariant |FreeFrames(mmu.info[..])| == |FreeFrames(old(mmu.info[..]))| - (curr - page)
    {
      var id;
      ok, id := AppendPage(mmu, pid, curr, g, curr - g.v, reader, limit);
      if !ok { return; }
      curr := curr + 1;
    }
  }

  method LoadSegment(mmu: Mmu<Bytes>, pid: int, seg: Segment, reader: Reader) returns (ok: bool)
    requires mmu.Valid() && pid != 0 && pid != mmu.curr
    requires Room(Abs(mmu.View()), pid, FirstPage(seg), PageCount(seg))
    modifies mmu.info, mmu.ram
    ensures mmu.Valid() && mmu.curr == old(mmu.curr) && mmu.info == old(mmu.info) && mmu.ram == old(mmu.ram)
    ensures ok <==> |FreeFrames(old(mmu.info[..]))| >= PageCount(seg)
    ensures ok ==> Abs(mmu.View()) == SegmentImage(old(Abs(mmu.View())), pid, seg, reader)
    ensures ok ==> |FreeFrames(mmu.info[..])| == |FreeFrames(old(mmu.info[..]))| - PageCount(seg)
  {
    hide Abs, PageUpTo, SoftTlb.Ok, FreeFrames, Stands, Mmu.Valid;
    assert SoftTlb.Ok(mmu.View()) by { ValidOk(mmu); }
    ghost var g := Progress(Abs(mmu.View()), pid, FirstPage(seg), seg.offset / BLOCK_SIZE);
    var end := (seg.vaddr + seg.memsz) % WORD_LIMIT / PAGE_SIZE;
    var page;
    ok, page := ReadFile(mmu, pid, seg.vaddr / PAGE_SIZE, seg.filesz, seg.offset / BLOCK_SIZE, reader, g);
    if !ok { return; }
    ok := ZeroRest(mmu, pid, page, end, g, Ceil(seg.filesz, PAGE_SIZE), reader, seg.filesz);
  }

  lemma ValidOk(mmu: Mmu<Bytes>)
    requires mmu.Valid()
    ensures SoftTlb.Ok(mmu.View())
  {
  }

  // ----- All segments

  /** Page v is one of the segment's. Segments below RAM have none; others have the pages
      from their first one on that their file part reaches into, and all those before the
      page of their end. */
  predicate Covers(g: Segment, v: nat) {
    && g.vaddr >= RAM_START && g.vaddr / PAGE_SIZE <= v
    && ((v - g.vaddr / PAGE_SIZE) * PAGE_SIZE < g.filesz || v < (g.vaddr + g.memsz) % WORD_LIMIT / PAGE_SIZE)
  }

  /** The count of pages is that of the pages covered. */
  lemma CoversCount(g: Segment, v: nat)
    ensures Covers(g, v) <==> g.vaddr >= RAM_START && FirstPage(g) <= v < FirstPage(g) + PageCount(g)
  {
    hide Ceil;
    if v >= FirstPage(g) { CeilCount(g.filesz, v - FirstPage(g)); }
  }

  lemma CeilCount(n: nat, k: nat)
    ensures k * PAGE_SIZE < n <==> k < Ceil(n, PAGE_SIZE)
  {
    var c := Ceil(n, PAGE_SIZE);
    assert n + PAGE_SIZE - 1 == c * PAGE_SIZE + (n + PAGE_SIZE - 1) % PAGE_SIZE;
    if k < c { assert k * PAGE_SIZE <= (c - 1) * PAGE_SIZE; } else { assert k * PAGE_SIZE >= c * PAGE_SIZE; }
  }

  /** Segments lie in the code and data region and no two of them share a page. */
  ghost predicate Placed(segs: seq<Segment>) {
    && (forall i, v: nat :: 0 <= i < |segs| && Covers(segs[i], v) ==> USER_FIRST <= v < ARG_PAGE)
    && (forall i, j, v: nat :: 0 <= i < j < |segs| && Covers(segs[i], v) ==> !Covers(segs[j], v))
  }

  ghost function LoadedAll(m: Memory<Bytes>, pid: int, segs: seq<Segment>, reader: Reader): Memory<Bytes>
    decreases |segs|
  {
    if segs == [] then m
    else
      var g, m1 := segs[|segs| - 1], LoadedAll(m, pid, segs[..|segs| - 1], reader);
      if g.vaddr >= RAM_START then SegmentImage(m1, pid, g, reader) else m1
  }

  function PageTotal(segs: seq<Segment>): nat
    decreases |segs|
  {
    if segs == [] then 0
    else
      PageTotal(segs[..|segs| - 1]) + if segs[|segs| - 1].vaddr >= RAM_START then PageCount(segs[|segs| - 1]) else 0
  }

  ghost predicate SomeCovers(segs: seq<Segment>, v: nat) {
    exists i :: 0 <= i < |segs| && Covers(segs[i], v)
  }

  /** Loading maps exactly the pages of the segments and touches no other page. */
  lemma {:induction false} LoadedKeys(m: Memory<Bytes>, pid: int, segs: seq<Segment>, reader: Reader, k: (int, nat))
    ensures k in LoadedAll(m, pid, segs, reader) <==> k in m || (k.0 == pid && SomeCovers(segs, k.1))
    ensures k in m && !(k.0 == pid && SomeCovers(segs, k.1)) ==> LoadedAll(m, pid, segs, reader)[k] == m[k]
    decreases |segs|
  {
    if segs != [] {
      var g, rest := segs[|segs| - 1], segs[..|segs| - 1];
      LoadedKeys(m, pid, rest, reader, k);
      var m1 := LoadedAll(m, pid, rest, reader);
      ImageAt(m1, pid, FirstPage(g), PageCount(g), reader, g.offset / BLOCK_SIZE, g.filesz);
      CoversCount(g, k.1);
      assert SomeCovers(segs, k.1) <==> SomeCovers(rest, k.1) || Covers(g, k.1);
    }
  }

  /** The frames a load takes are as many as there are pages to map. */
  lemma {:induction false} TotalIsPages(segs: seq<Segment>, pages: set<nat>)
    requires Placed(segs) && forall v: nat :: v in pages <==> SomeCovers(segs, v)
    ensures PageTotal(segs) == |pages|
    decreases |segs|
  {
    hide Covers, PageCount, SomeCovers, Placed;
    if segs == [] {
      NoneCovers();
      assert pages == {};
    } else {
      var g, rest := segs[|segs| - 1], segs[..|segs| - 1];
      var mine := set v: nat | v in pages && Covers(g, v);
      LastCovers(segs, 0);
      forall v: nat ensures v in pages - mine <==> SomeCovers(rest, v) { LastCovers(segs, v); }
      forall v: nat ensures v in mine <==> g.vaddr >= RAM_START && FirstPage(g) <= v < FirstPage(g) + PageCount(g) {
        CoversCount(g, v);
        LastCovers(segs, v);
      }
      TotalIsPages(rest, pages - mine);
      Interval(FirstPage(g), if g.vaddr >= RAM_START then PageCount(g) else 0, mine);
      assert pages == (pages - mine) + mine;
    }
  }

  lemma NoneCovers()
    ensures forall v: nat :: !SomeCovers([], v)
  {
  }

  /** A page is the last segment's or an earlier one's, never both. */
  lemma LastCovers(segs: seq<Segment>, v: nat)
    requires segs != [] && Placed(segs)
    ensures Placed(segs[..|segs| - 1])
    ensures SomeCovers(segs, v) <==> SomeCovers(segs[..|segs| - 1], v) || Covers(segs[|segs| - 1], v)
    ensures !(SomeCovers(segs[..|segs| - 1], v) && Covers(segs[|segs| - 1], v))
  {
    hide Covers;
  }

  /** Each page of each segment holds its bytes of the file, and zeros past them. */
  lemma {:induction false} LoadedPage(m: Memory<Bytes>, pid: int, segs: seq<Segment>, reader: Reader, i: nat, j: nat)
    requires Placed(segs) && i < |segs| && Covers(segs[i], FirstPage(segs[i]) + j)
    ensures
      var r := LoadedAll(m, pid, segs, reader);
      var k := (pid, FirstPage(segs[i]) + j);
      k in r && r[k] == PageUpTo(reader, segs[i].offset / BLOCK_SIZE, segs[i].filesz, j)
    decreases |segs|
  {
    hide PageUpTo, Image, Covers, PageCount;
    var g, rest := segs[|segs| - 1], segs[..|segs| - 1];
    var m1 := LoadedAll(m, pid, rest, reader);
    ImageAt(m1, pid, FirstPage(g), PageCount(g), reader, g.offset / BLOCK_SIZE, g.filesz);
    CoversCount(g, FirstPage(segs[i]) + j);
    if i < |segs| - 1 { LoadedPage(m, pid, rest, reader, i, j); }
  }

  method LoadSegments(mmu: Mmu<Bytes>, pid: int, segs: seq<Segment>, reader: Reader) returns (ok: bool)
    requires mmu.Valid() && pid != 0 && pid != mmu.curr && Placed(segs)
    requires forall v: nat :: (pid, v) !in Abs(mmu.View())
    modifies mmu.info, mmu.ram
    ensures mmu.Valid() && mmu.curr == old(mmu.curr) && mmu.info == old(mmu.info) && mmu.ram == old(mmu.ram)
    ensures ok <==> |FreeFrames(old(mmu.info[..]))| >= PageTotal(segs)
    ensures ok ==> Abs(mmu.View()) == LoadedAll(old(Abs(mmu.View())), pid, segs, reader)
    ensures ok ==> |FreeFrames(mmu.info[..])| == |FreeFrames(old(mmu.info[..]))| - PageTotal(segs)
  {
    hide Abs, PageUpTo, SoftTlb.Ok, FreeFrames, Stands, Mmu.Valid, SegmentImage, Placed;
    ValidOk(mmu);
    ghost var m := Abs(mmu.View());
    var i := 0;
    while i < |segs|
      invariant 0 <= i <= |segs|
      invariant mmu.Valid() && SoftTlb.Ok(mmu.View())
      invariant mmu.curr == old(mmu.curr) && mmu.info == old(mmu.info) && mmu.ram == old(mmu.ram)
      invariant Abs(mmu.View()) == LoadedAll(m, pid, segs[..i], reader)
      invariant |FreeFrames(mmu.info[..])| + PageTotal(segs[..i]) == |FreeFrames(old(mmu.info[..]))|
    {
      assert segs[..i + 1][..i] == segs[..i] && segs[..i + 1][i] == segs[i];
      TotalMonotone(segs, i + 1);
      if segs[i].vaddr >= RAM_START {
        NextRoom(m, pid, segs, reader, i);
        ok := LoadSegment(mmu, pid, segs[i], reader);
        if !ok { return; }
        ValidOk(mmu);
      }
      i := i + 1;
    }
    assert segs[..i] == segs;
    ok := true;
  }

  lemma {:induction false} TotalMonotone(segs: seq<Segment>, i: nat)
    requires i <= |segs|
    ensures PageTotal(segs[..i]) <= PageTotal(segs)
    decreases |segs|
  {
    if i < |segs| {
      TotalMonotone(segs[..|segs| - 1], i);
      assert segs[..|segs| - 1][..i] == segs[..i];
    } else {
      assert segs[..i] == segs;
    }
  }

  /** The next segment finds room: nobody else has its pages. */
  lemma NextRoom(m: Memory<Bytes>, pid: int, segs: seq<Segment>, reader: Reader, i: nat)
    requires Placed(segs) && i < |segs| && segs[i].vaddr >= RAM_START && forall v: nat :: (pid, v) !in m
    ensures Room(LoadedAll(m, pid, segs[..i], reader), pid, FirstPage(segs[i]), PageCount(segs[i]))
  {
    forall k | FirstPage(segs[i]) <= k < FirstPage(segs[i]) + PageCount(segs[i])
      ensures UserPage(k) && (pid, k) !in LoadedAll(m, pid, segs[..i], reader)
    {
      CoversCount(segs[i], k);
      LoadedKeys(m, pid, segs[..i], reader, (pid, k));
    }
  }

  // ----- What this means for an executable

  /** The byte the process finds at virtual address a. */
  ghost function ByteAt(m: Memory<Bytes>, pid: int, a: nat): Byte
    requires (pid, a / PAGE_SIZE) in m
  {
    m[(pid, a / PAGE_SIZE)][a % PAGE_SIZE]
  }

  /** The byte at address a, in a page of segment i: x bytes from the start of the segment's
      first page is what is in the file x bytes from the start of its first block, and zero
      past the file size. */
  lemma SegmentBytes(m: Memory<Bytes>, pid: int, segs: seq<Segment>, reader: Reader, i: nat, a: nat)
    requires Placed(segs) && i < |segs| && Covers(segs[i], a / PAGE_SIZE)
    ensures
      var r := LoadedAll(m, pid, segs, reader);
      var x := a - segs[i].vaddr / PAGE_SIZE * PAGE_SIZE;
      && (pid, a / PAGE_SIZE) in r && x >= 0
      && ByteAt(r, pid, a) ==
           if x < segs[i].filesz then reader.Read(segs[i].offset / BLOCK_SIZE + x / BLOCK_SIZE)[x % BLOCK_SIZE] else 0
  {
    hide LoadedAll, Placed;
    LoadedPage(m, pid, segs, reader, i, a / PAGE_SIZE - segs[i].vaddr / PAGE_SIZE);
  }

  /** With segments aligned to pages in memory and to blocks in the file, that is the byte of
      the file at the same distance from the segment's start. */
  lemma AlignedByte(g: Segment, reader: Reader, x: nat)
    requires g.vaddr % PAGE_SIZE == 0 && g.offset % BLOCK_SIZE == 0
    ensures g.vaddr + x - g.vaddr / PAGE_SIZE * PAGE_SIZE == x
    ensures reader.Read(g.offset / BLOCK_SIZE + x / BLOCK_SIZE)[x % BLOCK_SIZE] ==
      reader.Read((g.offset + x) / BLOCK_SIZE)[(g.offset + x) % BLOCK_SIZE]
  {
  }

  /** All memory of an aligned segment is mapped exactly when its size is a whole number of
      pages or ends in a page the file reaches into; otherwise its last page is missing. */
  lemma MemoryMapped(g: Segment)
    requires g.vaddr % PAGE_SIZE == 0 && g.vaddr + g.memsz < WORD_LIMIT
    ensures (forall a: nat :: g.vaddr <= a < g.vaddr + g.memsz ==> Covers(g, a / PAGE_SIZE)) <==>
            g.memsz == 0 ||
            (g.vaddr >= RAM_START && (g.memsz % PAGE_SIZE == 0 || Ceil(g.filesz, PAGE_SIZE) * PAGE_SIZE >= g.memsz))
  {
    hide Ceil;
    if g.memsz == 0 || g.vaddr < RAM_START {
      assert g.memsz > 0 ==> !Covers(g, g.vaddr / PAGE_SIZE);
    } else if g.memsz % PAGE_SIZE == 0 || Ceil(g.filesz, PAGE_SIZE) * PAGE_SIZE >= g.memsz {
      forall a: nat | g.vaddr <= a < g.vaddr + g.memsz ensures Covers(g, a / PAGE_SIZE) {
        AddressCovered(g, a);
      }
    } else {
      LastMissing(g);
    }
  }

  lemma AddressCovered(g: Segment, a: nat)
    requires g.vaddr >= RAM_START && g.vaddr % PAGE_SIZE == 0 && g.vaddr <= a < g.vaddr + g.memsz < WORD_LIMIT
    requires g.memsz % PAGE_SIZE == 0 || Ceil(g.filesz, PAGE_SIZE) * PAGE_SIZE >= g.memsz
    ensures Covers(g, a / PAGE_SIZE)
  {
    hide Ceil;
    var k := a / PAGE_SIZE - FirstPage(g);
    assert k * PAGE_SIZE <= a - g.vaddr < g.memsz;
    if g.memsz % PAGE_SIZE == 0 {
      assert k < g.memsz / PAGE_SIZE;
    } else {
      assert k < Ceil(g.filesz, PAGE_SIZE);
      CeilCount(g.filesz, k);
    }
  }

  lemma LastMissing(g: Segment)
    requires g.vaddr % PAGE_SIZE == 0 && g.vaddr + g.memsz < WORD_LIMIT
    requires g.memsz % PAGE_SIZE != 0 && Ceil(g.filesz, PAGE_SIZE) * PAGE_SIZE < g.memsz
    ensures !Covers(g, (g.vaddr + g.memsz - 1) / PAGE_SIZE)
  {
    hide Ceil;
    var k := g.memsz / PAGE_SIZE;
    assert (g.vaddr + g.memsz - 1) / PAGE_SIZE == FirstPage(g) + k == EndPage(g);
    CeilCount(g.filesz, k);
  }

  /** A segment of one byte of zeros gets no page at all. */
  lemma MemoryMissing(v: nat)
    ensures !Covers(Segment(0x80400000, 1, 0, 0), v)
  {
  }

  // ----- Arguments

  function PutWord(p: Bytes, at: nat, w: Word): (q: Bytes)
    requires at + 4 <= 4096
    ensures GetWord(q, at) == w
    ensures forall x :: 0 <= x < 4096 && !(at <= x < at + 4) ==> q[x] == p[x]
  {
    WordBytes(w);
    p[..at] + [w % 256, w / 256 % 256, w / 65536 % 256, w / 16777216] + p[at + 4..]
  }

  lemma WordBytes(w: Word)
    ensures w % 256 + 256 * (w / 256 % 256) + 65536 * (w / 65536 % 256) + 16777216 * (w / 16777216) == w
    ensures w / 16777216 < 256
  {
    assert w / 65536 == w / 256 / 256 && w / 16777216 == w / 65536 / 256;
  }

  /** A little-endian word. */
  function GetWord(p: Bytes, at: nat): nat
    requires at + 4 <= 4096
  {
    p[at] as nat + 256 * (p[at + 1] as nat) + 65536 * (p[at + 2] as nat) + 16777216 * (p[at + 3] as nat)
  }

  type Arg = a: seq<Byte> | |a| == 32 witness seq<Byte>(32, i => 0)

  const ARGV: nat := 4                    // offset of the argument pointers
  const ARGS: nat := 4 + 4 * 16           // offset of the arguments

  /** The arguments copied behind the pointers. */
  function CopyArgs(p: Bytes, argv: seq<Arg>): (q: Bytes)
    requires |argv| <= CMD_NARGS
    ensures forall x :: 0 <= x < ARGS ==> q[x] == p[x]
    ensures forall i :: 0 <= i < |argv| ==> q[ARGS + CMD_ARG_LEN * i..ARGS + CMD_ARG_LEN * i + CMD_ARG_LEN] == argv[i]
    decreases |argv|
  {
    if argv == [] then p
    else
      var n := |argv| - 1;
      var q := CopyArgs(p, argv[..n]);
      var r := q[..ARGS + CMD_ARG_LEN * n] + argv[n] + q[ARGS + CMD_ARG_LEN * n + CMD_ARG_LEN..];
      assert r[ARGS + CMD_ARG_LEN * n..ARGS + CMD_ARG_LEN * n + CMD_ARG_LEN] == argv[n];
      assert forall i :: 0 <= i < n ==>
        && argv[..n][i] == argv[i]
        && r[ARGS + CMD_ARG_LEN * i..ARGS + CMD_ARG_LEN * i + CMD_ARG_LEN] ==
           q[ARGS + CMD_ARG_LEN * i..ARGS + CMD_ARG_LEN * i + CMD_ARG_LEN];
      r
  }

  lemma SameWord(p: Bytes, q: Bytes, at: nat)
    requires at + 4 <= 4096 && forall x :: at <= x < at + 4 ==> p[x] == q[x]
    ensures GetWord(p, at) == GetWord(q, at)
  {
  }

  /** What main() finds: the count, and pointers that lead to the arguments. */
  ghost predicate HasArgs(p: Bytes, argv: seq<Arg>)
    requires |argv| <= CMD_NARGS
  {
    && GetWord(p, 0) == |argv|
    && forall i :: 0 <= i < |argv| ==>
         && APPS_ARG <= Pointer(p, i) <= APPS_ARG + 4096 - CMD_ARG_LEN
         && p[Pointer(p, i) - APPS_ARG..Pointer(p, i) - APPS_ARG + CMD_ARG_LEN] == argv[i]
  }

  /** Entry i of argv. */
  function Pointer(p: Bytes, i: nat): nat
    requires i < CMD_NARGS
  {
    GetWord(p, ARGV + 4 * i)
  }

  /** Writes the count and the arguments into the frame of the argument page. */
  method PutTable(mmu: Mmu<Bytes>, id: nat, argv: seq<Arg>, ghost pid: int) returns (ghost page: Bytes)
    requires mmu.Valid() && id < NFRAMES && Stands(mmu.View(), id, pid, ARG_PAGE) && pid != 0 && pid != mmu.curr
    requires |argv| <= CMD_NARGS
    modifies mmu.ram
    ensures mmu.Valid() && mmu.curr == old(mmu.curr) && mmu.info[..] == old(mmu.info[..])
    ensures |mmu.ram[..]| == RAM_PAGES && mmu.ram[..][POOL + id] == page
    ensures Abs(mmu.View()) == old(Abs(mmu.View()))[(pid, ARG_PAGE) := page]
    ensures GetWord(page, 0) == |argv| && forall i :: 0 <= i < |argv| ==>
      page[ARGS + CMD_ARG_LEN * i..ARGS + CMD_ARG_LEN * i + CMD_ARG_LEN] == argv[i]
  {
    hide Abs, SoftTlb.TableOk, PutWord, CopyArgs, GetWord;
    var counted := PutWord(mmu.ram[POOL + id], 0, |argv|);
    PutFrame(mmu, id, counted, pid, ARG_PAGE);
    var filled := CopyArgs(mmu.ram[POOL + id], argv);
    PutFrame(mmu, id, filled, pid, ARG_PAGE);
    SameWord(counted, filled, 0);
    page := filled;
  }

  /** Writes the count, the arguments and the pointers into the frame of the argument page. */
  method PutArgs(mmu: Mmu<Bytes>, id: nat, argv: seq<Arg>, ghost pid: int)
    requires mmu.Valid() && id < NFRAMES && Stands(mmu.View(), id, pid, ARG_PAGE) && pid != 0 && pid != mmu.curr
    requires |argv| <= CMD_NARGS && (pid, ARG_PAGE) in Abs(mmu.View())
    modifies mmu.ram
    ensures mmu.Valid() && mmu.curr == old(mmu.curr) && mmu.info[..] == old(mmu.info[..])
    ensures (pid, ARG_PAGE) in Abs(mmu.View())
    ensures HasArgs(Abs(mmu.View())[(pid, ARG_PAGE)], argv)
    ensures Abs(mmu.View()) == old(Abs(mmu.View()))[(pid, ARG_PAGE) := Abs(mmu.View())[(pid, ARG_PAGE)]]
  {
    hide Abs, SoftTlb.TableOk, PutWord, CopyArgs, GetWord, Pointers, HasArgs;
    ghost var m := Abs(mmu.View());
    ghost var p0 := PutTable(mmu, id, argv, pid);
    NoPointers(p0);
    var i := 0;
    while i < |argv|
      invariant 0 <= i <= |argv| && mmu.Valid() && mmu.curr == old(mmu.curr) && mmu.info[..] == old(mmu.info[..])
      invariant Stands(mmu.View(), id, pid, ARG_PAGE)
      invariant Abs(mmu.View()) == m[(pid, ARG_PAGE) := mmu.ram[POOL + id]]
      invariant Pointers(p0, mmu.ram[POOL + id], i)
    {
      var ptr := APPS_ARG + 4 + 4 * CMD_NARGS + i * CMD_ARG_LEN;
      PointerStep(p0, mmu.ram[POOL + id], i, ptr);
      PutFrame(mmu, id, PutWord(mmu.ram[POOL + id], ARGV + 4 * i, ptr), pid, ARG_PAGE);
      i := i + 1;
    }
    ArgsDone(p0, mmu.ram[POOL + id], argv);
  }

  /** The first n pointers are in place and nothing else has changed. */
  ghost predicate Pointers(p0: Bytes, p: Bytes, n: nat) {
    && n <= CMD_NARGS
    && (forall i :: 0 <= i < n ==> Pointer(p, i) == APPS_ARG + ARGS + CMD_ARG_LEN * i)
    && (forall x :: 0 <= x < 4096 && !(ARGV <= x < ARGV + 4 * n) ==> p[x] == p0[x])
  }

  lemma NoPointers(p: Bytes)
    ensures Pointers(p, p, 0)
  {
  }

  lemma PointerStep(p0: Bytes, p: Bytes, n: nat, ptr: Word)
    requires Pointers(p0, p, n) && n < CMD_NARGS && ptr == APPS_ARG + ARGS + CMD_ARG_LEN * n
    ensures Pointers(p0, PutWord(p, ARGV + 4 * n, ptr), n + 1)
  {
    hide PutWord;
    var q := PutWord(p, ARGV + 4 * n, ptr);
    forall i | 0 <= i < n + 1 ensures Pointer(q, i) == APPS_ARG + ARGS + CMD_ARG_LEN * i {
      if i < n { assert Pointer(q, i) == Pointer(p, i); }
    }
  }

  lemma ArgsDone(p0: Bytes, p: Bytes, argv: seq<Arg>)
    requires |argv| <= CMD_NARGS && Pointers(p0, p, |argv|) && GetWord(p0, 0) == |argv|
    requires forall i :: 0 <= i < |argv| ==> p0[ARGS + CMD_ARG_LEN * i..ARGS + CMD_ARG_LEN * i + CMD_ARG_LEN] == argv[i]
    ensures HasArgs(p, argv)
  {
    assert GetWord(p, 0) == GetWord(p0, 0);
    forall i | 0 <= i < |argv| ensures p[ARGS + CMD_ARG_LEN * i..ARGS + CMD_ARG_LEN * i + CMD_ARG_LEN] == argv[i] {
      assert p[ARGS + CMD_ARG_LEN * i..ARGS + CMD_ARG_LEN * i + CMD_ARG_LEN] ==
        p0[ARGS + CMD_ARG_LEN * i..ARGS + CMD_ARG_LEN * i + CMD_ARG_LEN];
    }
  }

  // ----- The whole loader

  /** The pages every process gets besides its segments. */
  predicate Extra(v: nat) {
    v == ARG_PAGE || v == CALL_PAGE || v == STACK_END - 1 || v == STACK_END - 2
  }

  /** What the loader leaves behind: the segments as loaded, the argument page, the system
      call page and two stack pages, and every other process's memory untouched. */
  ghost predicate LoadedProcess(m: Memory<Bytes>, pid: int, segs: seq<Segment>, reader: Reader, argv: seq<Arg>,
                                r: Memory<Bytes>)
    requires |argv| <= CMD_NARGS
  {
    var image := LoadedAll(m, pid, segs, reader);
    && (forall k :: k in r <==> k in image || (k.0 == pid && Extra(k.1)))
    && (forall k :: k in image && !(k.0 == pid && Extra(k.1)) ==> r[k] == image[k])
    && (pid, ARG_PAGE) in r && HasArgs(r[(pid, ARG_PAGE)], argv)
  }

  /** The argument page. */
  method LoadArgs(mmu: Mmu<Bytes>, pid: int, argv: seq<Arg>) returns (ok: bool, ghost page: Bytes)
    requires mmu.Valid() && pid != 0 && pid != mmu.curr && |argv| <= CMD_NARGS && (pid, ARG_PAGE) !in Abs(mmu.View())
    modifies mmu.info, mmu.ram
    ensures mmu.Valid() && mmu.curr == old(mmu.curr) && mmu.info == old(mmu.info) && mmu.ram == old(mmu.ram)
    ensures ok <==> |FreeFrames(old(mmu.info[..]))| > 0
    ensures ok ==> |FreeFrames(mmu.info[..])| == |FreeFrames(old(mmu.info[..]))| - 1
    ensures ok ==> HasArgs(page, argv) && Abs(mmu.View()) == old(Abs(mmu.View()))[(pid, ARG_PAGE) := page]
  {
    hide Abs, SoftTlb.TableOk, FreeFrames, Stands, HasArgs;
    page := ZeroPage();
    var id;
    ok, id := NewPage(mmu, pid, APPS_ARG / PAGE_SIZE);
    if !ok { return; }
    PutArgs(mmu, id, argv, pid);
    page := Abs(mmu.View())[(pid, ARG_PAGE)];
  }

  /** r is m with some new pages of process pid. */
  ghost predicate Added(m: Memory<Bytes>, r: Memory<Bytes>, pid: int, pages: set<nat>) {
    && (forall k :: k in r <==> k in m || (k.0 == pid && k.1 in pages))
    && (forall k :: k in m ==> k in r && r[k] == m[k])
  }

  /** The stack pages mapped before turn i, counted down from the top. */
  ghost function StackPages(i: nat): (r: set<nat>)
    requires i <= 3
    ensures forall v :: v in r ==> STACK_END - i < v < STACK_END
  {
    if i <= 1 then {} else StackPages(i - 1) + {STACK_END - (i - 1)}
  }

  lemma AddedOne(m: Memory<Bytes>, r: Memory<Bytes>, pid: int, pages: set<nat>, v: nat, x: Bytes)
    requires Added(m, r, pid, pages) && (pid, v) !in m
    ensures Added(m, r[(pid, v) := x], pid, pages + {v})
  {
  }

  lemma NoneAdded(m: Memory<Bytes>, r: Memory<Bytes>, pid: int, pages: set<nat>, v: nat)
    requires Added(m, r, pid, pages) && (pid, v) !in m && v !in pages
    ensures (pid, v) !in r
  {
  }

  /** One more page, with whatever the frame holds. */
  method AddPage(mmu: Mmu<Bytes>, pid: int, v: nat, ghost m: Memory<Bytes>, ghost pages: set<nat>) returns (ok: bool)
    requires mmu.Valid() && pid != 0 && pid != mmu.curr && UserPage(v)
    requires (pid, v) !in m && v !in pages && Added(m, Abs(mmu.View()), pid, pages)
    modifies mmu.info
    ensures mmu.Valid() && mmu.curr == old(mmu.curr)
    ensures ok <==> |FreeFrames(old(mmu.info[..]))| > 0
    ensures ok ==> |FreeFrames(mmu.info[..])| == |FreeFrames(old(mmu.info[..]))| - 1
    ensures ok ==> Added(m, Abs(mmu.View()), pid, pages + {v})
  {
    hide Abs, SoftTlb.Ok, FreeFrames, Stands, Added, Mmu.Valid;
    ValidOk(mmu);
    ghost var r := Abs(mmu.View());
    NoneAdded(m, r, pid, pages, v);
    var id;
    ok, id := NewPage(mmu, pid, v);
    if ok {
      ValidOk(mmu);
      AddedOne(m, r, pid, pages, v, mmu.ram[..][POOL + id]);
    }
  }

  lemma TurnPages(i: nat)
    requires 1 <= i <= 2
    ensures {CALL_PAGE} + StackPages(i + 1) == {CALL_PAGE} + StackPages(i) + {STACK_END - i}
    ensures {CALL_PAGE} + StackPages(1) == {CALL_PAGE}
    ensures STACK_END - i !in {CALL_PAGE} + StackPages(i) && UserPage(STACK_END - i)
  {
  }

  /** Two stack pages. */
  method AddStack(mmu: Mmu<Bytes>, pid: int, ghost m: Memory<Bytes>) returns (ok: bool)
    requires mmu.Valid() && pid != 0 && pid != mmu.curr && Added(m, Abs(mmu.View()), pid, {CALL_PAGE})
    requires (pid, STACK_END - 1) !in m && (pid, STACK_END - 2) !in m
    modifies mmu.info
    ensures mmu.Valid() && mmu.curr == old(mmu.curr)
    ensures ok <==> |FreeFrames(old(mmu.info[..]))| >= 2
    ensures ok ==> Added(m, Abs(mmu.View()), pid, {CALL_PAGE} + StackPages(3))
  {
    hide Abs, SoftTlb.Ok, FreeFrames, Added, Mmu.Valid, StackPages, UserPage;
    ValidOk(mmu);
    TurnPages(1);
    var i := 1;
    ok := true;
    while i <= 2
      invariant 1 <= i <= 3 && ok
      invariant mmu.Valid() && mmu.curr == old(mmu.curr)
      invariant SoftTlb.Ok(mmu.View()) && Added(m, Abs(mmu.View()), pid, {CALL_PAGE} + StackPages(i))
      invariant |FreeFrames(mmu.info[..])| == |FreeFrames(old(mmu.info[..]))| - (i - 1)
    {
      TurnPages(i);
      assert (pid, STACK_END - i) !in m;
      ok := AddPage(mmu, pid, STACK_END - i, m, {CALL_PAGE} + StackPages(i));
      if !ok { return; }
      ValidOk(mmu);
      i := i + 1;
    }
  }

  /** The system call page and two stack pages. */
  method LoadStack(mmu: Mmu<Bytes>, pid: int) returns (ok: bool)
    requires mmu.Valid() && pid != 0 && pid != mmu.curr && (pid, CALL_PAGE) !in Abs(mmu.View())
    requires (pid, STACK_END - 1) !in Abs(mmu.View()) && (pid, STACK_END - 2) !in Abs(mmu.View())
    modifies mmu.info
    ensures mmu.Valid() && mmu.curr == old(mmu.curr)
    ensures ok <==> |FreeFrames(old(mmu.info[..]))| >= 3
    ensures ok ==> Added(old(Abs(mmu.View())), Abs(mmu.View()), pid, {CALL_PAGE} + StackPages(3))
  {
    hide Abs, SoftTlb.Ok, FreeFrames, Added, Mmu.Valid, StackPages;
    ValidOk(mmu);
    ghost var m := Abs(mmu.View());
    NothingAdded(m, pid);
    ok := AddPage(mmu, pid, CALL_PAGE, m, {});
    if !ok { return; }
    assert {} + {CALL_PAGE} == {CALL_PAGE};
    ok := AddStack(mmu, pid, m);
  }

  lemma NothingAdded(m: Memory<Bytes>, pid: int)
    ensures Added(m, m, pid, {})
  {
  }

  /** The last two steps leave a loaded process. */
  lemma ProcessDone(m: Memory<Bytes>, pid: int, segs: seq<Segment>, reader: Reader, argv: seq<Arg>, page: Bytes,
                    r: Memory<Bytes>)
    requires |argv| <= CMD_NARGS && HasArgs(page, argv)
    requires Added(LoadedAll(m, pid, segs, reader)[(pid, ARG_PAGE) := page], r, pid, {CALL_PAGE} + StackPages(3))
    ensures LoadedProcess(m, pid, segs, reader, argv, r)
  {
    hide LoadedAll, HasArgs;
    assert StackPages(2) == {STACK_END - 1} && StackPages(3) == StackPages(2) + {STACK_END - 2};
  }

  method Load(mmu: Mmu<Bytes>, pid: int, segs: seq<Segment>, reader: Reader, argv: seq<Arg>) returns (ok: bool)
    requires mmu.Valid() && pid != 0 && pid != mmu.curr && Placed(segs) && |argv| <= CMD_NARGS
    requires forall v: nat :: (pid, v) !in Abs(mmu.View())
    modifies mmu.info, mmu.ram
    ensures mmu.Valid() && mmu.curr == old(mmu.curr)
    ensures ok <==> |FreeFrames(old(mmu.info[..]))| >= PageTotal(segs) + 4
    ensures ok ==> LoadedProcess(old(Abs(mmu.View())), pid, segs, reader, argv, Abs(mmu.View()))
  {
    hide Abs, SoftTlb.Ok, FreeFrames, Stands, Mmu.Valid, Placed, LoadedAll, HasArgs;
    hide Added, StackPages, LoadedProcess, PageTotal;
    ValidOk(mmu);
    ghost var m := Abs(mmu.View());
    ok := LoadSegments(mmu, pid, segs, reader);
    if !ok { return; }
    ValidOk(mmu);
    ExtraFree(m, pid, segs, reader);
    ghost var page;
    ok, page := LoadArgs(mmu, pid, argv);
    if !ok { return; }
    ValidOk(mmu);
    ok := LoadStack(mmu, pid);
    if ok {
      ValidOk(mmu);
      ProcessDone(m, pid, segs, reader, argv, page, Abs(mmu.View()));
    }
  }

  lemma ExtraFree(m: Memory<Bytes>, pid: int, segs: seq<Segment>, reader: Reader)
    requires Placed(segs) && forall v: nat :: (pid, v) !in m
    ensures
      var image := LoadedAll(m, pid, segs, reader);
      && (pid, ARG_PAGE) !in image && (pid, CALL_PAGE) !in image
      && (pid, STACK_END - 1) !in image && (pid, STACK_END - 2) !in image
  {
    LoadedKeys(m, pid, segs, reader, (pid, ARG_PAGE));
    LoadedKeys(m, pid, segs, reader, (pid, CALL_PAGE));
    LoadedKeys(m, pid, segs, reader, (pid, STACK_END - 1));
    LoadedKeys(m, pid, segs, reader, (pid, STACK_END - 2));
  }

  /** What the loaded process finds in its memory: the pages of its segments and the four
      pages besides, no others, and in the pages of a segment its part of the file with
      zeros behind it. */
  lemma ProcessBytes(m: Memory<Bytes>, pid: int, segs: seq<Segment>, reader: Reader, argv: seq<Arg>,
                     r: Memory<Bytes>, a: nat)
    requires |argv| <= CMD_NARGS && LoadedProcess(m, pid, segs, reader, argv, r)
    requires Placed(segs) && forall v: nat :: (pid, v) !in m
    ensures (pid, a / PAGE_SIZE) in r <==>
      || 0x80600000 <= a < 0x80602000 || 0x807FE000 <= a < 0x80800000
      || exists i :: 0 <= i < |segs| && Covers(segs[i], a / PAGE_SIZE)
    ensures forall i :: 0 <= i < |segs| && Covers(segs[i], a / PAGE_SIZE) ==>
      var g, x := segs[i], a - segs[i].vaddr / PAGE_SIZE * PAGE_SIZE;
      && (pid, a / PAGE_SIZE) in r && x >= 0
      && ByteAt(r, pid, a) ==
           if x < g.filesz then reader.Read(g.offset / BLOCK_SIZE + x / BLOCK_SIZE)[x % BLOCK_SIZE] else 0
  {
    hide LoadedAll, HasArgs, Covers;
    LoadedKeys(m, pid, segs, reader, (pid, a / PAGE_SIZE));
    forall i | 0 <= i < |segs| && Covers(segs[i], a / PAGE_SIZE)
      ensures
        var g, x := segs[i], a - segs[i].vaddr / PAGE_SIZE * PAGE_SIZE;
        && (pid, a / PAGE_SIZE) in r && x >= 0
        && ByteAt(r, pid, a) ==
             if x < g.filesz then reader.Read(g.offset / BLOCK_SIZE + x / BLOCK_SIZE)[x % BLOCK_SIZE] else 0
    {
      SegmentBytes(m, pid, segs, reader, i, a);
    }
  }

  /** The little-endian word at address a. */
  ghost function WordAt(m: Memory<Bytes>, pid: int, a: nat): nat
    requires (pid, a / PAGE_SIZE) in m && a % PAGE_SIZE <= PAGE_SIZE - 4
  {
    var page, at := m[(pid, a / PAGE_SIZE)], a % PAGE_SIZE;
    page[at] as nat + 0x100 * (page[at + 1] as nat) +
    0x1_0000 * (page[at + 2] as nat) + 0x100_0000 * (page[at + 3] as nat)
  }

  /** What main() finds: argc at APPS_ARG, and behind it argv, whose pointers lead to the
      characters of the arguments. */
  lemma ProcessArgs(m: Memory<Bytes>, pid: int, segs: seq<Segment>, reader: Reader, argv: seq<Arg>,
                    r: Memory<Bytes>, i: nat, j: nat)
    requires |argv| <= CMD_NARGS && LoadedProcess(m, pid, segs, reader, argv, r)
    ensures (pid, 0x80600) in r && WordAt(r, pid, 0x80600000) == |argv|
    ensures i < |argv| && j < CMD_ARG_LEN ==>
      var ptr := WordAt(r, pid, 0x80600004 + 4 * i);
      (pid, (ptr + j) / PAGE_SIZE) in r && ByteAt(r, pid, ptr + j) == argv[i][j]
  {
    hide LoadedAll;
    var page := r[(pid, ARG_PAGE)];
    if i < |argv| && j < CMD_ARG_LEN {
      assert (0x80600004 + 4 * i) % PAGE_SIZE == 4 + 4 * i && (0x80600004 + 4 * i) / PAGE_SIZE == ARG_PAGE;
      var p := Pointer(page, i);
      assert page[p - APPS_ARG..p - APPS_ARG + CMD_ARG_LEN][j] == argv[i][j];
      assert (p + j) / PAGE_SIZE == ARG_PAGE && (p + j) % PAGE_SIZE == p - APPS_ARG + j;
    }
  }

  /** Nobody else's memory changes. */
  lemma OthersKept(m: Memory<Bytes>, pid: int, segs: seq<Segment>, reader: Reader, argv: seq<Arg>,
                   r: Memory<Bytes>, k: (int, nat))
    requires |argv| <= CMD_NARGS && LoadedProcess(m, pid, segs, reader, argv, r) && k.0 != pid
    ensures k in r <==> k in m
    ensures k in m ==> r[k] == m[k]
  {
    LoadedKeys(m, pid, segs, reader, k);
  }
}
