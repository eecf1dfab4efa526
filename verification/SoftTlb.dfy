/** The page allocator and the software TLB. One region of user pages is shared by all
    processes; each process owns frames of a pool, and a switch copies the pages of the
    old process out to its frames and the pages of the new process in. The proofs show
    that every process sees a private memory. */
module SoftTlb {

  const RAM_FIRST: nat := 0x80000   // page number of RAM_START
  const USER_FIRST: nat := 0x80400  // page number of APPS_ENTRY
  const USER_END: nat := 0x80800    // page number of APPS_STACK_TOP
  const POOL: nat := 0x800          // index in RAM of the first pool frame
  const NFRAMES: nat := 0x800       // number of pool frames
  const RAM_PAGES: nat := 0x1000

  /** An entry of the page table: `use`, owner and virtual page number. */
  datatype Info = Info(use: bool, pid: int, vpage: nat)

  const NO_INFO := Info(false, 0, 0)

  /** RAM as pages, the table of pool frames, and the process whose pages are in the
      user region. */
  datatype Vm<Page> = Vm(info: seq<Info>, ram: seq<Page>, curr: int)

  predicate UserPage(v: nat) { USER_FIRST <= v < USER_END }

  /** Index in RAM of virtual page v. */
  function At(v: nat): nat
    requires UserPage(v)
  {
    v - RAM_FIRST
  }

  predicate Owned(e: Info, pid: int) { e.use && e.pid == pid }

  /** A frame that holds a page of some process: 0 is the owner of unmapped frames. */
  predicate Held(e: Info) { e.use && e.pid != 0 }

  ghost predicate TableOk(info: seq<Info>) {
    && |info| == NFRAMES
    && (forall i :: 0 <= i < NFRAMES && Held(info[i]) ==> UserPage(info[i].vpage))
    && (forall i :: 0 <= i < NFRAMES && !info[i].use ==> info[i].pid == 0)
    && (forall i, j :: 0 <= i < j < NFRAMES && Held(info[i]) && Held(info[j]) && info[i].pid == info[j].pid ==>
          info[i].vpage != info[j].vpage)
  }

  ghost predicate Ok<Page>(vm: Vm<Page>) {
    TableOk(vm.info) && |vm.ram| == RAM_PAGES && vm.curr != 0
  }

  /** The frames nobody uses. */
  ghost function FreeFrames(info: seq<Info>): set<nat> {
    set i | 0 <= i < |info| && !info[i].use
  }

  // ----- The two copying loops

  /** Pages of `pid` copied from the user region to its first `n` frames. */
  function CopyOut<Page>(info: seq<Info>, ram: seq<Page>, pid: int, n: nat): (r: seq<Page>)
    requires TableOk(info) && |ram| == RAM_PAGES && pid != 0 && n <= NFRAMES
    ensures |r| == RAM_PAGES
    ensures forall k :: 0 <= k < POOL ==> r[k] == ram[k]
    ensures forall i {:trigger info[i]} :: 0 <= i < NFRAMES ==>
      r[POOL + i] == if i < n && Owned(info[i], pid) then ram[At(info[i].vpage)] else ram[POOL + i]
  {
    if n == 0 then ram
    else
      var r := CopyOut(info, ram, pid, n - 1);
      if Owned(info[n - 1], pid) then
        assert r[At(info[n - 1].vpage)] == ram[At(info[n - 1].vpage)];
        var saved := r[POOL + n - 1 := r[At(info[n - 1].vpage)]];
        assert forall i {:trigger info[i]} :: 0 <= i < NFRAMES && i != n - 1 ==> saved[POOL + i] == r[POOL + i];
        assert forall k :: 0 <= k < POOL ==> saved[k] == r[k];
        saved
      else r
  }

  /** Pages of `pid` copied from its first `n` frames to the user region. */
  function CopyIn<Page>(info: seq<Info>, ram: seq<Page>, pid: int, n: nat): (r: seq<Page>)
    requires TableOk(info) && |ram| == RAM_PAGES && pid != 0 && n <= NFRAMES
    ensures |r| == RAM_PAGES
    ensures forall k :: POOL <= k < RAM_PAGES ==> r[k] == ram[k]
    ensures forall i :: 0 <= i < n && Owned(info[i], pid) ==> r[At(info[i].vpage)] == ram[POOL + i]
    ensures forall k :: 0 <= k < POOL && !Target(info, pid, n, k) ==> r[k] == ram[k]
  {
    if n == 0 then ram
    else
      var r := CopyIn(info, ram, pid, n - 1);
      if Owned(info[n - 1], pid) then
        assert forall k {:trigger Target(info, pid, n, k)} :: !Target(info, pid, n, k) ==>
          !Target(info, pid, n - 1, k) && k != info[n - 1].vpage - RAM_FIRST;
        r[At(info[n - 1].vpage) := r[POOL + n - 1]]
      else r
  }

  /** One of the first n frames holds the page of `pid` that belongs at index k of RAM. */
  ghost predicate Target(info: seq<Info>, pid: int, n: nat, k: int)
    requires n <= |info|
  {
    exists i :: 0 <= i < n && Owned(info[i], pid) && info[i].vpage - RAM_FIRST == k
  }

  lemma CopyOutNext<Page>(info: seq<Info>, ram: seq<Page>, pid: int, n: nat)
    requires TableOk(info) && |ram| == RAM_PAGES && pid != 0 && n < NFRAMES
    ensures CopyOut(info, ram, pid, 0) == ram
    ensures var r := CopyOut(info, ram, pid, n);
      CopyOut(info, ram, pid, n + 1) == if Owned(info[n], pid) then r[POOL + n := r[At(info[n].vpage)]] else r
  {
  }

  lemma CopyInNext<Page>(info: seq<Info>, ram: seq<Page>, pid: int, n: nat)
    requires TableOk(info) && |ram| == RAM_PAGES && pid != 0 && n < NFRAMES
    ensures CopyIn(info, ram, pid, 0) == ram
    ensures var r := CopyIn(info, ram, pid, n);
      CopyIn(info, ram, pid, n + 1) == if Owned(info[n], pid) then r[At(info[n].vpage) := r[POOL + n]] else r
  {
  }

  function Switched<Page>(vm: Vm<Page>, pid: int): Vm<Page>
    requires Ok(vm) && pid != 0
  {
    if pid == vm.curr then vm
    else
      var out := CopyOut(vm.info, vm.ram, vm.curr, NFRAMES);
      Vm(vm.info, CopyIn(vm.info, out, pid, NFRAMES), pid)
  }

  // ----- Private memory

  /** What the owner of frame i sees in the page the frame stands for. */
  function Content<Page>(vm: Vm<Page>, i: nat): Page
    requires Ok(vm) && i < NFRAMES && Held(vm.info[i])
  {
    if vm.info[i].pid == vm.curr then vm.ram[At(vm.info[i].vpage)] else vm.ram[POOL + i]
  }

  /** The private memories of all processes, by process and virtual page. */
  type Memory<Page> = map<(int, nat), Page>

  function Key(e: Info): (int, nat) { (e.pid, e.vpage) }

  ghost predicate IsKey(info: seq<Info>, k: (int, nat)) {
    exists i :: 0 <= i < |info| && Held(info[i]) && Key(info[i]) == k
  }

  ghost function Abs<Page>(vm: Vm<Page>): (m: Memory<Page>)
    requires Ok(vm)
    ensures forall i :: 0 <= i < NFRAMES && Held(vm.info[i]) ==>
      Key(vm.info[i]) in m && m[Key(vm.info[i])] == Content(vm, i)
    ensures forall k {:trigger k in m} :: k in m <==> IsKey(vm.info, k)
  {
    map i | 0 <= i < NFRAMES && Held(vm.info[i]) :: Key(vm.info[i]) := Content(vm, i)
  }

  /** A map with the right keys and the right contents is the private memory. */
  lemma AbsUnique<Page>(vm: Vm<Page>, m: Memory<Page>)
    requires Ok(vm)
    requires forall i :: 0 <= i < NFRAMES && Held(vm.info[i]) ==>
      Key(vm.info[i]) in m && m[Key(vm.info[i])] == Content(vm, i)
    requires forall k {:trigger k in m} :: k in m ==> IsKey(vm.info, k)
    ensures Abs(vm) == m
  {
    hide Abs;
    var a := Abs(vm);
    forall k | k in a ensures k in m && m[k] == a[k] {
      var i :| 0 <= i < |vm.info| && Held(vm.info[i]) && Key(vm.info[i]) == k;
    }
  }

  /** Private memory depends on the table and on what the frames stand for, no more. */
  lemma SameContent<Page>(vm: Vm<Page>, vm': Vm<Page>)
    requires Ok(vm) && Ok(vm') && vm'.info == vm.info
    requires forall i :: 0 <= i < NFRAMES && Held(vm.info[i]) ==> Content(vm', i) == Content(vm, i)
    ensures Abs(vm') == Abs(vm)
  {
    hide Abs, Content;
    AbsUnique(vm', Abs(vm));
  }

  /** A switch is invisible to every process. */
  lemma SwitchInvisible<Page>(vm: Vm<Page>, pid: int)
    requires Ok(vm) && pid != 0
    ensures Ok(Switched(vm, pid)) && Switched(vm, pid).curr == pid
    ensures Abs(Switched(vm, pid)) == Abs(vm)
  {
    hide Abs;
    var vm' := Switched(vm, pid);
    if pid != vm.curr {
      var out := CopyOut(vm.info, vm.ram, vm.curr, NFRAMES);
      forall i | 0 <= i < NFRAMES && Held(vm.info[i]) ensures Content(vm', i) == Content(vm, i) {
        assert vm'.ram[POOL + i] == out[POOL + i];
      }
    }
    SameContent(vm, vm');
  }

  /** What a switch does to RAM, page by page: the frames of the old process get its pages,
      the pages of the new process come from its frames, and all else stays. */
  lemma SwitchPages<Page>(vm: Vm<Page>, pid: int)
    requires Ok(vm) && pid != 0 && pid != vm.curr
    ensures
      var vm' := Switched(vm, pid);
      && vm'.info == vm.info && |vm'.ram| == RAM_PAGES
      && (forall i :: 0 <= i < NFRAMES ==>
            vm'.ram[POOL + i] == if vm.info[i].use && vm.info[i].pid == vm.curr
                                 then vm.ram[vm.info[i].vpage - RAM_FIRST] else vm.ram[POOL + i])
      && (forall i :: 0 <= i < NFRAMES && vm.info[i].use && vm.info[i].pid == pid ==>
            vm'.ram[vm.info[i].vpage - RAM_FIRST] == vm.ram[POOL + i])
      && (forall k :: 0 <= k < POOL && !IsKey(vm.info, (pid, RAM_FIRST + k)) ==> vm'.ram[k] == vm.ram[k])
      && (forall k :: 0 <= k < USER_FIRST - RAM_FIRST ==> vm'.ram[k] == vm.ram[k])
  {
    hide CopyOut, CopyIn, Target, IsKey;
    var out := CopyOut(vm.info, vm.ram, vm.curr, NFRAMES);
    forall k | 0 <= k < POOL && Target(vm.info, pid, NFRAMES, k)
      ensures IsKey(vm.info, (pid, RAM_FIRST + k)) && k >= USER_FIRST - RAM_FIRST
    {
      TargetKey(vm.info, pid, k);
    }
  }

  lemma TargetKey(info: seq<Info>, pid: int, k: nat)
    requires TableOk(info) && pid != 0 && Target(info, pid, NFRAMES, k)
    ensures IsKey(info, (pid, RAM_FIRST + k)) && k >= USER_FIRST - RAM_FIRST
  {
    var i :| 0 <= i < NFRAMES && Owned(info[i], pid) && info[i].vpage - RAM_FIRST == k;
    assert Key(info[i]) == (pid, RAM_FIRST + k);
  }

  // ----- The other operations

  /** Index of the first free frame, or the number of frames. */
  function FirstFree(info: seq<Info>, from: nat): (i: nat)
    requires from <= |info|
    ensures from <= i <= |info| && (i < |info| ==> !info[i].use)
    ensures forall j :: from <= j < i ==> info[j].use
    decreases |info| - from
  {
    if from == |info| || !info[from].use then from else FirstFree(info, from + 1)
  }

  function Allocated(info: seq<Info>, i: nat): seq<Info>
    requires i < |info|
  {
    info[i := info[i].(use := true)]
  }

  function Mapped(info: seq<Info>, pid: int, v: nat, i: nat): seq<Info>
    requires i < |info|
  {
    info[i := info[i].(pid := pid, vpage := v)]
  }

  function Freed(info: seq<Info>, pid: int): (r: seq<Info>)
    ensures |r| == |info|
    ensures forall i :: 0 <= i < |info| ==> r[i] == if Owned(info[i], pid) then NO_INFO else info[i]
  {
    seq(|info|, (i: nat) => if i < |info| then (if Owned(info[i], pid) then NO_INFO else info[i]) else NO_INFO)
  }

  /** Frame i stands for page v of process p. */
  predicate Stands<Page>(vm: Vm<Page>, i: nat, p: int, v: nat) {
    i < |vm.info| && vm.info[i] == Info(true, p, v)
  }

  /** Steps: a store by the running process, a switch, an allocation, mapping an
      allocated frame that shows some contents, a write into a frame, freeing a process. */
  datatype VmStep<Page> =
    | Store(frame: nat, v: nat, page: Page)
    | SwitchTo(pid: int)
    | Alloc
    | Map(frame: nat, pid: int, v: nat, page: Page)
    | Fill(frame: nat, pid: int, v: nat, page: Page)
    | Free(pid: int)

  ghost predicate Allowed<Page>(vm: Vm<Page>, s: VmStep<Page>)
    requires Ok(vm)
  {
    match s
    case Store(i, v, _) => Stands(vm, i, vm.curr, v)
    case SwitchTo(pid) => pid != 0
    case Alloc => FirstFree(vm.info, 0) < NFRAMES
    case Map(i, pid, v, page) =>
      Mappable(vm, i, pid, v) && page == if pid == vm.curr then vm.ram[At(v)] else vm.ram[POOL + i]
    case Fill(i, pid, v, _) => pid != 0 && pid != vm.curr && Stands(vm, i, pid, v)
    case Free(pid) => pid != 0
  }

  function Exec<Page>(vm: Vm<Page>, s: VmStep<Page>): Vm<Page>
    requires Ok(vm) && Allowed(vm, s)
  {
    match s
    case Store(_, v, page) => vm.(ram := vm.ram[At(v) := page])
    case SwitchTo(pid) => Switched(vm, pid)
    case Alloc => vm.(info := Allocated(vm.info, FirstFree(vm.info, 0)))
    case Map(i, pid, v, _) => vm.(info := Mapped(vm.info, pid, v, i))
    case Fill(i, _, _, page) => vm.(ram := vm.ram[POOL + i := page])
    case Free(pid) => vm.(info := Freed(vm.info, pid))
  }

  function Without<Page>(m: Memory<Page>, pid: int): Memory<Page> {
    map k | k in m && k.0 != pid :: m[k]
  }

  /** The same steps on private memories. */
  ghost function Meaning<Page>(m: Memory<Page>, curr: int, s: VmStep<Page>): Memory<Page> {
    match s
    case Store(_, v, page) => m[(curr, v) := page]
    case SwitchTo(_) => m
    case Alloc => m
    case Map(_, pid, v, page) => m[(pid, v) := page]
    case Fill(_, pid, v, page) => m[(pid, v) := page]
    case Free(pid) => Without(m, pid)
  }

  lemma StoreStep<Page>(vm: Vm<Page>, i: nat, v: nat, page: Page)
    requires Ok(vm) && Stands(vm, i, vm.curr, v)
    ensures Ok(vm.(ram := vm.ram[At(v) := page]))
    ensures Abs(vm.(ram := vm.ram[At(v) := page])) == Abs(vm)[(vm.curr, v) := page]
  {
    hide Abs;
    var vm' := vm.(ram := vm.ram[At(v) := page]);
    forall j | 0 <= j < NFRAMES && Held(vm.info[j])
      ensures Content(vm', j) == if Key(vm.info[j]) == (vm.curr, v) then page else Content(vm, j)
    {
    }
    assert Held(vm.info[i]) && Key(vm.info[i]) == (vm.curr, v);
    AbsUnique(vm', Abs(vm)[(vm.curr, v) := page]);
  }

  lemma FillStep<Page>(vm: Vm<Page>, i: nat, pid: int, v: nat, page: Page)
    requires Ok(vm) && Stands(vm, i, pid, v) && pid != 0 && pid != vm.curr
    ensures Ok(vm.(ram := vm.ram[POOL + i := page]))
    ensures Abs(vm.(ram := vm.ram[POOL + i := page])) == Abs(vm)[(pid, v) := page]
  {
    hide Abs;
    var vm' := vm.(ram := vm.ram[POOL + i := page]);
    forall j | 0 <= j < NFRAMES && Held(vm.info[j])
      ensures Content(vm', j) == if Key(vm.info[j]) == (pid, v) then page else Content(vm, j)
    {
    }
    assert Held(vm.info[i]) && Key(vm.info[i]) == (pid, v);
    AbsUnique(vm', Abs(vm)[(pid, v) := page]);
  }

  lemma AllocStep<Page>(vm: Vm<Page>, i: nat)
    requires Ok(vm) && i < NFRAMES && !vm.info[i].use
    ensures Ok(vm.(info := Allocated(vm.info, i)))
    ensures Abs(vm.(info := Allocated(vm.info, i))) == Abs(vm)
  {
    hide Abs, Ok;
    AllocatedOk(vm, i);
    var vm' := vm.(info := Allocated(vm.info, i));
    forall k | k in Abs(vm) ensures IsKey(vm'.info, k) {
      var j :| 0 <= j < |vm.info| && Held(vm.info[j]) && Key(vm.info[j]) == k;
      assert Held(vm'.info[j]) && Key(vm'.info[j]) == k;
    }
    AbsUnique(vm', Abs(vm));
  }

  lemma AllocatedOk<Page>(vm: Vm<Page>, i: nat)
    requires Ok(vm) && i < NFRAMES && !vm.info[i].use
    ensures var info := Allocated(vm.info, i);
      && Ok(vm.(info := info)) && |vm.info| == |info| == NFRAMES && |vm.ram| == RAM_PAGES
      && forall j :: 0 <= j < NFRAMES ==>
           Held(info[j]) == Held(vm.info[j]) && (Held(info[j]) ==> info[j] == vm.info[j])
  {
  }

  /** A frame that can be mapped as page v of a process. */
  ghost predicate Mappable<Page>(vm: Vm<Page>, i: nat, pid: int, v: nat)
    requires Ok(vm)
  {
    && i < NFRAMES && vm.info[i].use && vm.info[i].pid == 0
    && pid != 0 && UserPage(v) && (pid, v) !in Abs(vm)
  }

  lemma MappedOk<Page>(vm: Vm<Page>, i: nat, pid: int, v: nat)
    requires Ok(vm) && Mappable(vm, i, pid, v)
    ensures Ok(vm.(info := Mapped(vm.info, pid, v, i))) && |vm.info| == NFRAMES && |vm.ram| == RAM_PAGES
  {
    hide Abs;
    var info' := Mapped(vm.info, pid, v, i);
    assert forall j :: 0 <= j < NFRAMES && j != i ==> info'[j] == vm.info[j];
    assert forall j :: 0 <= j < NFRAMES && Held(vm.info[j]) ==> Key(vm.info[j]) != (pid, v);
  }

  /** The page shows the frame if and only if the process is not the current one or the
      shared region happens to hold the same: the current process sees the shared region. */
  lemma MapShows<Page>(vm: Vm<Page>, i: nat, pid: int, v: nat)
    requires Ok(vm) && Mappable(vm, i, pid, v)
    ensures var vm' := vm.(info := Mapped(vm.info, pid, v, i));
      && Ok(vm')
      && Abs(vm') == Abs(vm)[(pid, v) := if pid == vm.curr then vm.ram[At(v)] else vm.ram[POOL + i]]
      && (Abs(vm')[(pid, v)] == vm.ram[POOL + i] <==> pid != vm.curr || vm.ram[At(v)] == vm.ram[POOL + i])
  {
    hide Abs, Ok;
    MappedOk(vm, i, pid, v);
    var vm' := vm.(info := Mapped(vm.info, pid, v, i));
    var page := if pid == vm.curr then vm.ram[At(v)] else vm.ram[POOL + i];
    assert forall j :: 0 <= j < NFRAMES && j != i ==> vm'.info[j] == vm.info[j];
    assert forall j :: 0 <= j < NFRAMES && Held(vm.info[j]) ==> Key(vm.info[j]) != (pid, v);
    assert Key(vm'.info[i]) == (pid, v) && Held(vm'.info[i]);
    forall k | k in Abs(vm) ensures IsKey(vm'.info, k) {
      var j :| 0 <= j < |vm.info| && Held(vm.info[j]) && Key(vm.info[j]) == k;
      assert Held(vm'.info[j]) && Key(vm'.info[j]) == k;
    }
    AbsUnique(vm', Abs(vm)[(pid, v) := page]);
  }

  lemma MapStep<Page>(vm: Vm<Page>, i: nat, pid: int, v: nat, page: Page)
    requires Ok(vm) && Allowed(vm, Map(i, pid, v, page))
    ensures Ok(vm.(info := Mapped(vm.info, pid, v, i)))
    ensures Abs(vm.(info := Mapped(vm.info, pid, v, i))) == Abs(vm)[(pid, v) := page]
  {
    hide Abs, Ok;
    MapShows(vm, i, pid, v);
  }

  lemma FreeStep<Page>(vm: Vm<Page>, pid: int)
    requires Ok(vm) && pid != 0
    ensures Ok(vm.(info := Freed(vm.info, pid)))
    ensures Abs(vm.(info := Freed(vm.info, pid))) == Without(Abs(vm), pid)
  {
    hide Abs;
    var vm' := vm.(info := Freed(vm.info, pid));
    assert forall j :: 0 <= j < NFRAMES && Held(vm'.info[j]) ==>
      vm'.info[j] == vm.info[j] && Held(vm.info[j]) && vm.info[j].pid != pid;
    forall k | k in Abs(vm) && k.0 != pid ensures IsKey(vm'.info, k) {
      var j :| 0 <= j < |vm.info| && Held(vm.info[j]) && Key(vm.info[j]) == k;
      assert Held(vm'.info[j]) && Key(vm'.info[j]) == k;
    }
    AbsUnique(vm', Without(Abs(vm), pid));
  }

  /** Every step of the shared memory is the same step on private memories. */
  lemma StepRefines<Page>(vm: Vm<Page>, s: VmStep<Page>)
    requires Ok(vm) && Allowed(vm, s)
    ensures Ok(Exec(vm, s)) && Abs(Exec(vm, s)) == Meaning(Abs(vm), vm.curr, s)
    ensures Exec(vm, s).curr == if s.SwitchTo? then s.pid else vm.curr
  {
    hide Abs;
    match s
    case Store(i, v, page) => StoreStep(vm, i, v, page);
    case SwitchTo(pid) => SwitchInvisible(vm, pid);
    case Alloc => AllocStep(vm, FirstFree(vm.info, 0));
    case Map(i, pid, v, page) => MapStep(vm, i, pid, v, page);
    case Fill(i, pid, v, page) => FillStep(vm, i, pid, v, page);
    case Free(pid) => FreeStep(vm, pid);
  }

  // ----- Runs

  ghost predicate Runs<Page>(vm: Vm<Page>, ss: seq<VmStep<Page>>)
    requires Ok(vm)
    decreases |ss|
  {
    ss == [] || (Allowed(vm, ss[0]) && Ok(Exec(vm, ss[0])) && Runs(Exec(vm, ss[0]), ss[1..]))
  }

  ghost function ExecAll<Page>(vm: Vm<Page>, ss: seq<VmStep<Page>>): Vm<Page>
    requires Ok(vm) && Runs(vm, ss)
    decreases |ss|
  {
    if ss == [] then vm else ExecAll(Exec(vm, ss[0]), ss[1..])
  }

  /** The process in the user region after step s. */
  function InRegion<Page>(curr: int, s: VmStep<Page>): int {
    if s.SwitchTo? then s.pid else curr
  }

  ghost function MeaningAll<Page>(m: Memory<Page>, curr: int, ss: seq<VmStep<Page>>): Memory<Page>
    decreases |ss|
  {
    if ss == [] then m else MeaningAll(Meaning(m, curr, ss[0]), InRegion(curr, ss[0]), ss[1..])
  }

  /** Any interleaving of stores, switches, allocations, maps, fills and frees leaves
      each process with exactly the private memory those steps describe, and what the
      running process reads in the user region is that memory. */
  lemma {:induction false} RunRefines<Page>(vm: Vm<Page>, ss: seq<VmStep<Page>>)
    requires Ok(vm) && Runs(vm, ss)
    ensures Ok(ExecAll(vm, ss)) && Abs(ExecAll(vm, ss)) == MeaningAll(Abs(vm), vm.curr, ss)
    ensures forall v: nat {:trigger UserPage(v)} :: UserPage(v) && (ExecAll(vm, ss).curr, v) in Abs(ExecAll(vm, ss)) ==>
      ExecAll(vm, ss).ram[At(v)] == Abs(ExecAll(vm, ss))[(ExecAll(vm, ss).curr, v)]
    decreases |ss|
  {
    hide Abs, Allowed, Meaning, Exec;
    if ss == [] {
      ReadsOwn(vm);
    } else {
      StepRefines(vm, ss[0]);
      RunRefines(Exec(vm, ss[0]), ss[1..]);
    }
  }

  lemma ReadsOwn<Page>(vm: Vm<Page>)
    requires Ok(vm)
    ensures forall v: nat {:trigger UserPage(v)} :: UserPage(v) && (vm.curr, v) in Abs(vm) ==>
      vm.ram[At(v)] == Abs(vm)[(vm.curr, v)]
  {
    hide Abs;
    forall v: nat | UserPage(v) && (vm.curr, v) in Abs(vm) ensures vm.ram[At(v)] == Abs(vm)[(vm.curr, v)] {
      assert IsKey(vm.info, (vm.curr, v));
    }
  }

  // ----- The memory management unit itself

  /** Takes the first frame that nobody uses. */
  method AllocFrame(info: array<Info>) returns (ok: bool, id: nat)
    modifies info
    ensures id == FirstFree(old(info[..]), 0) && (ok <==> FreeFrames(old(info[..])) != {})
    ensures info[..] == if id < |old(info[..])| then Allocated(old(info[..]), id) else old(info[..])
    ensures ok <==> id < info.Length
    ensures ok ==> info[id] == old(info[id]).(use := true)
    ensures ok ==> id in FreeFrames(old(info[..])) && FreeFrames(info[..]) == FreeFrames(old(info[..])) - {id}
  {
    id := 0;
    while id < info.Length && info[id].use
      invariant 0 <= id <= info.Length
      invariant forall j :: 0 <= j < id ==> info[j].use
    {
      id := id + 1;
    }
    ok := id < info.Length;
    assert ok ==> id in FreeFrames(info[..]);
    if ok { info[id] := info[id].(use := true); }
  }

  class Mmu<Page> {
    var info: array<Info>
    var ram: array<Page>
    var curr: int

    ghost predicate Valid()
      reads this, info, ram
    {
      (info as object) != (ram as object) && Ok(View())
    }

    ghost function View(): Vm<Page>
      reads this, info, ram
    {
      Vm(info[..], ram[..], curr)
    }

    /** Hands out the first free frame; fails exactly when every frame is in use. */
    method Alloc() returns (ok: bool, id: nat)
      requires Valid()
      modifies info
      ensures Valid() && ok == (exists i :: 0 <= i < NFRAMES && !old(info[..])[i].use)
      ensures id == old(FirstFree(info[..], 0))
      ensures ok ==> id < NFRAMES && info[..] == Allocated(old(info[..]), id)
      ensures !ok ==> info[..] == old(info[..])
      ensures ram[..] == old(ram[..]) && curr == old(curr)
      ensures Abs(View()) == old(Abs(View()))
    {
      hide Abs;
      ghost var vm := View();
      ok, id := AllocFrame(info);
      if ok { AllocStep(vm, id); }
    }

    /** Frees every frame of a process. */
    method Free(pid: int)
      requires Valid() && pid != 0
      modifies info
      ensures Valid() && ram[..] == old(ram[..]) && curr == old(curr)
      ensures info[..] == Freed(old(info[..]), pid)
      ensures Abs(View()) == Without(old(Abs(View())), pid)
    {
      hide Abs;
      ghost var vm := View();
      var i := 0;
      while i < info.Length
        invariant 0 <= i <= info.Length
        invariant forall j :: 0 <= j < i ==> info[j] == if Owned(vm.info[j], pid) then NO_INFO else vm.info[j]
        invariant forall j :: i <= j < info.Length ==> info[j] == vm.info[j]
      {
        if info[i].use && info[i].pid == pid { info[i] := NO_INFO; }
        i := i + 1;
      }
      assert info[..] == Freed(vm.info, pid);
      FreeStep(vm, pid);
    }

    /** Gives an allocated frame to a process. The page shows the frame, or for the current
        process what the shared region holds. */
    method Map(pid: int, v: nat, id: nat)
      requires Valid() && Mappable(View(), id, pid, v)
      modifies info
      ensures Valid() && ram[..] == old(ram[..]) && curr == old(curr)
      ensures info[..] == Mapped(old(info[..]), pid, v, id)
      ensures Abs(View()) == old(Abs(View()))[(pid, v) := ram[..][if pid == curr then At(v) else POOL + id]]
    {
      hide Abs;
      ghost var vm := View();
      MapShows(vm, id, pid, v);
      info[id] := info[id].(pid := pid);
      info[id] := info[id].(vpage := v);
      assert info[..] == Mapped(vm.info, pid, v, id);
    }

    /** Copies the pages of the old process out and those of the new one in. */
    method Switch(pid: int)
      requires Valid() && pid != 0
      modifies this`curr, ram
      ensures View() == Switched(old(View()), pid) && Valid()
      ensures Abs(View()) == old(Abs(View())) && curr == pid
    {
      hide Abs, CopyOut, CopyIn, Target;
      ghost var vm := View();
      SwitchInvisible(vm, pid);
      if pid == curr { return; }
      CopyOutNext(vm.info, vm.ram, vm.curr, 0);
      var i := 0;
      while i < info.Length
        invariant 0 <= i <= info.Length
        invariant curr == vm.curr && info[..] == vm.info
        invariant ram[..] == CopyOut(vm.info, vm.ram, vm.curr, i)
      {
        CopyOutNext(vm.info, vm.ram, vm.curr, i);
        if info[i].use && info[i].pid == curr {
          assert Owned(vm.info[i], curr);
          ram[POOL + i] := ram[At(info[i].vpage)];
        }
        i := i + 1;
      }
      ghost var out := ram[..];
      CopyInNext(vm.info, out, pid, 0);
      i := 0;
      while i < info.Length
        invariant 0 <= i <= info.Length
        invariant info[..] == vm.info
        invariant ram[..] == CopyIn(vm.info, out, pid, i)
      {
        CopyInNext(vm.info, out, pid, i);
        if info[i].use && info[i].pid == pid {
          assert Owned(vm.info[i], pid);
          ram[At(info[i].vpage)] := ram[POOL + i];
        }
        i := i + 1;
      }
      curr := pid;
    }
  }
}
