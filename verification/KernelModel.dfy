/** The scheduler and message passing of the kernel, as functions of its state: sixteen
    process slots, the running slot, the pid counter and the memory behind it. */
module KernelModel {
  import opened Basics
  import opened SoftTlb

  const NPROC: nat := 16
  const SYS_RECV: int := 1
  const SYS_SEND: int := 2
  const APPS_ENTRY: int := 0x80400000
  const MSG_WORDS: nat := 256          // SYSCALL_MSG_LEN bytes
  const CALL_WORDS: nat := 260         // the whole system call record

  /** A page of memory as words. */
  type Page = p: seq<int> | |p| == 1024 witness seq(1024, i => 0)

  datatype Status = Unused | Loading | Ready | Running | Runnable | Pending

  /** A system call record; `done` is the status DONE rather than PENDING. */
  datatype Call = Call(kind: int, sender: int, receiver: int, content: seq<int>, done: bool)

  datatype Context = Context(pc: int, a0: int, a1: int, others: seq<int>)

  datatype Process = Process(pid: int, call: Call, status: Status, ctx: Context)

  datatype State = State(procs: seq<Process>, cur: nat, lastPid: nat, vm: Vm<Page>)

  /** Why the kernel stops for good. */
  datatype Reason = NoProcess | UnknownReceiver | UnknownCall | NoSlot

  datatype Result<T> = Ok(value: T) | Fatal(reason: Reason)

  /** The record the kernel copies from the argument page, marked pending. */
  function ReadCall(p: Page): Call {
    Call(p[0], p[1], p[2], p[3..3 + MSG_WORDS], false)
  }

  /** The argument page after the kernel copies the record back. */
  function WriteCall(p: Page, c: Call): (q: Page)
    requires |c.content| == MSG_WORDS
    ensures q[0] == c.kind && q[1] == c.sender && q[2] == c.receiver
    ensures q[3..3 + MSG_WORDS] == c.content && q[3 + MSG_WORDS] == (if c.done then 1 else 0)
    ensures q[CALL_WORDS..] == p[CALL_WORDS..]
  {
    [c.kind, c.sender, c.receiver] + c.content + [if c.done then 1 else 0] + p[CALL_WORDS..]
  }

  // ----- Process table

  function SetStatus(ps: seq<Process>, pid: int, st: Status): (r: seq<Process>)
    ensures |r| == |ps|
    ensures forall k :: 0 <= k < |ps| ==> r[k] == if ps[k].pid == pid then ps[k].(status := st) else ps[k]
  {
    if ps == [] then []
    else SetStatus(ps[..|ps| - 1], pid, st) +
         [if ps[|ps| - 1].pid == pid then ps[|ps| - 1].(status := st) else ps[|ps| - 1]]
  }

  /** First slot from `i` on in use by process `pid`, or the number of slots. */
  function Find(ps: seq<Process>, pid: int, i: nat): (r: nat)
    requires i <= |ps|
    ensures i <= r <= |ps| && (r < |ps| ==> ps[r].pid == pid && ps[r].status != Unused)
    ensures forall k :: i <= k < r ==> !(ps[k].pid == pid && ps[k].status != Unused)
    decreases |ps| - i
  {
    if i == |ps| || (ps[i].pid == pid && ps[i].status != Unused) then i else Find(ps, pid, i + 1)
  }

  function FirstUnused(ps: seq<Process>, i: nat): (r: nat)
    requires i <= |ps|
    ensures i <= r <= |ps| && (r < |ps| ==> ps[r].status == Unused)
    ensures forall k :: i <= k < r ==> ps[k].status != Unused
    decreases |ps| - i
  {
    if i == |ps| || ps[i].status == Unused then i else FirstUnused(ps, i + 1)
  }

  // ----- System calls

  /** A receive in slot `r` is waiting and takes messages from process `pid`. */
  predicate Accepts(c: Call, pid: int) {
    c.kind == SYS_RECV && !c.done && (c.sender == GPID_ALL || c.sender == pid)
  }

  function Latch(dst: Process, src: Process): Process {
    dst.(call := dst.call.(done := true, sender := src.pid, content := src.call.content))
  }

  /** An attempt at the send of slot k. The first slot in use by the receiver gets the
      message if it is in a receive from anyone or from this sender that has none yet;
      otherwise nothing changes. */
  function TrySend(ps: seq<Process>, k: nat): (res: Result<seq<Process>>)
    requires k < |ps|
    ensures res.Fatal? <==> forall j :: 0 <= j < |ps| && ps[j].status != Unused ==> ps[j].pid != ps[k].call.receiver
    ensures res.Fatal? ==> res.reason == UnknownReceiver
    ensures res.Ok? ==>
      var r := Find(ps, ps[k].call.receiver, 0);
      && |res.value| == |ps| && r < |ps| && (forall j :: 0 <= j < |ps| && j != r ==> res.value[j] == ps[j])
      && (if ps[r].call.kind == SYS_RECV && !ps[r].call.done &&
             (ps[r].call.sender == GPID_ALL || ps[r].call.sender == ps[k].pid)
          then res.value[r] ==
                 ps[r].(call := Call(SYS_RECV, ps[k].pid, ps[r].call.receiver, ps[k].call.content, true))
          else res.value[r] == ps[r])
  {
    var r := Find(ps, ps[k].call.receiver, 0);
    if r == |ps| then Fatal(UnknownReceiver)
    else if !Accepts(ps[r].call, ps[k].pid) then Ok(ps)
    else Ok(ps[r := Latch(ps[r], ps[k])])
  }

  /** The memory can be addressed and process `pid` has an argument page. */
  ghost predicate HasArg(vm: Vm<Page>, pid: int) {
    SoftTlb.Ok(vm) && pid != 0 && (pid, CALL_PAGE) in Abs(vm)
  }

  function Deliver(vm: Vm<Page>, p: Process): Vm<Page>
    requires SoftTlb.Ok(vm) && p.pid != 0 && |p.call.content| == MSG_WORDS
  {
    var vm1 := Switched(vm, p.pid);
    vm1.(ram := vm1.ram[At(CALL_PAGE) := WriteCall(vm1.ram[At(CALL_PAGE)], p.call)])
  }

  /** What every kernel function may rely on about slots and memory. */
  ghost predicate SlotsOk(ps: seq<Process>) {
    && |ps| == NPROC
    && (forall k :: 0 <= k < NPROC ==> |ps[k].call.content| == MSG_WORDS)
    && (forall k :: 0 <= k < NPROC && ps[k].status != Unused ==> ps[k].pid > 0)
    && (forall k :: 0 <= k < NPROC && ps[k].call.done ==> ps[k].call.sender > 0)
  }

  ghost predicate Sane(s: State) {
    SlotsOk(s.procs) && s.cur < NPROC && SoftTlb.Ok(s.vm)
  }

  function TryRecv(s: State, k: nat): State
    requires Sane(s) && k < NPROC && s.procs[k].status != Unused
  {
    var p := s.procs[k];
    if !p.call.done then s
    else s.(vm := Deliver(s.vm, p),
            procs := SetStatus(SetStatus(s.procs, p.pid, Runnable), p.call.sender, Runnable))
  }

  function TrySyscall(s: State, k: nat): Result<State>
    requires Sane(s) && k < NPROC && s.procs[k].status != Unused
  {
    var kind := s.procs[k].call.kind;
    if kind == SYS_RECV then Ok(TryRecv(s, k))
    else if kind == SYS_SEND then
      match TrySend(s.procs, k)
      case Ok(ps) => Ok(s.(procs := ps))
      case Fatal(why) => Fatal(why)
    else Fatal(UnknownCall)
  }

  // ----- Scheduling

  predicate CanRun(st: Status) { st == Ready || st == Runnable }

  function Entry(p: Process): Process {
    p.(ctx := p.ctx.(pc := APPS_ENTRY, a0 := APPS_ARG, a1 := APPS_ARG + 4))
  }

  function Dispatch(s: State, k: nat): State
    requires Sane(s) && k < NPROC && CanRun(s.procs[k].status)
  {
    var ps := if s.procs[k].status == Ready then s.procs[k := Entry(s.procs[k])] else s.procs;
    State(SetStatus(ps, s.procs[k].pid, Running), k, s.lastPid, Switched(s.vm, s.procs[k].pid))
  }

  /** The slot visited `i` steps after the running one. */
  function Visit(cur: nat, i: nat): nat { (cur + i) % NPROC }

  /** One visit of the sweep: retry a pending call. */
  function Retry(s: State, i: nat): Result<State>
    requires Sane(s)
  {
    var k := Visit(s.cur, i);
    if s.procs[k].status == Pending then TrySyscall(s, k) else Ok(s)
  }

  lemma RetrySane(s: State, i: nat)
    requires Sane(s)
    ensures Retry(s, i).Ok? ==> Sane(Retry(s, i).value) && Retry(s, i).value.cur == s.cur
  {
    var k := Visit(s.cur, i);
    if s.procs[k].status == Pending && s.procs[k].call.kind == SYS_RECV && s.procs[k].call.done {
      hide Abs;
      SwitchInvisible(s.vm, s.procs[k].pid);
    }
  }

  /** The sweep from visit `i` on: the first slot that can run after its retry is
      dispatched; with none after a full turn the kernel stops. */
  function Sweep(s: State, i: nat): Result<State>
    requires Sane(s) && 1 <= i <= NPROC + 1
    decreases NPROC + 1 - i
  {
    if i > NPROC then Fatal(NoProcess)
    else
      match Retry(s, i)
      case Fatal(why) => Fatal(why)
      case Ok(s1) =>
        RetrySane(s, i);
        if CanRun(s1.procs[Visit(s.cur, i)].status) then Ok(Dispatch(s1, Visit(s.cur, i)))
        else Sweep(s1, i + 1)
  }

  /** The current process, if it was running, may run again. */
  function Requeue(s: State): State
    requires s.cur < |s.procs|
  {
    if s.procs[s.cur].status == Running then
      s.(procs := SetStatus(s.procs, s.procs[s.cur].pid, Runnable))
    else s
  }

  function Yield(s: State): Result<State>
    requires Sane(s) && s.procs[s.cur].pid > 0
  {
    Sweep(Requeue(s), 1)
  }

  /** Saving the context of the process that trapped. */
  function Save(s: State, ctx: Context): State
    requires s.cur < |s.procs|
  {
    s.(procs := s.procs[s.cur := s.procs[s.cur].(ctx := ctx)])
  }

  /** The record the running process left on its argument page. */
  function Request(s: State): Call
    requires Sane(s) && s.procs[s.cur].pid > 0
  {
    ReadCall(Switched(s.vm, s.procs[s.cur].pid).ram[At(CALL_PAGE)])
  }

  /** A system call up to its first attempt: the record is copied in, the process is
      pending, and it will resume after the trapping instruction. */
  function Begin(s: State): State
    requires Sane(s) && s.procs[s.cur].pid > 0
  {
    var p := s.procs[s.cur];
    var q := p.(call := Request(s), ctx := p.ctx.(pc := p.ctx.pc + 4));
    s.(vm := Switched(s.vm, p.pid), procs := SetStatus(s.procs[s.cur := q], p.pid, Pending))
  }

  lemma BeginSane(s: State)
    requires Sane(s) && s.procs[s.cur].pid > 0
    ensures Sane(Begin(s)) && Begin(s).cur == s.cur && Begin(s).procs[s.cur].pid == s.procs[s.cur].pid
    ensures Begin(s).procs[s.cur].status == Pending
  {
    SwitchInvisible(s.vm, s.procs[s.cur].pid);
  }

  function Syscall(s: State): Result<State>
    requires Sane(s) && s.procs[s.cur].pid > 0
  {
    BeginSane(s);
    match Retry(Begin(s), 0)
    case Fatal(why) => Fatal(why)
    case Ok(s1) =>
      RetrySane(Begin(s), 0);
      RetryKeepsPids(Begin(s), 0);
      Yield(s1)
  }

  lemma RetryKeepsPids(s: State, i: nat)
    requires Sane(s)
    ensures Retry(s, i).Ok? ==>
      && |Retry(s, i).value.procs| == NPROC
      && forall k :: 0 <= k < NPROC ==> Retry(s, i).value.procs[k].pid == s.procs[k].pid
  {
  }

  // ----- Steps of the whole machine

  /** A timer interrupt; a system call; and, by the process server while it runs: taking
      a slot, marking a loaded process ready, freeing a process that exited. A memory
      step is a store of the running process or a step of the loader. */
  datatype Action =
    | Tick(ctx: Context)
    | Ecall(ctx: Context)
    | Spawn
    | MakeReady(pid: int)
    | Exit(pid: int)
    | Memory(step: VmStep<Page>)

  ghost predicate Legal(s: State, a: Action)
    requires Sane(s)
  {
    match a
    case Tick(_) => true
    case Ecall(_) => true
    case Spawn => true
    case MakeReady(pid) =>
      var k := Find(s.procs, pid, 0);
      k < NPROC && s.procs[k].status == Loading && HasArg(s.vm, pid)
    case Exit(pid) =>
      var k := Find(s.procs, pid, 0);
      k < NPROC && s.procs[k].status != Pending && s.procs[k].status != Running
    case Memory(step) => Allowed(s.vm, step) && !step.SwitchTo? && !step.Free?
  }

  function Next(s: State, a: Action): Result<State>
    requires Sane(s) && s.procs[s.cur].pid > 0 && Legal(s, a)
  {
    match a
    case Tick(ctx) => Yield(Save(s, ctx))
    case Ecall(ctx) => Syscall(Save(s, ctx))
    case Spawn =>
      var k := FirstUnused(s.procs, 0);
      if k == |s.procs| then Fatal(NoSlot)
      else Ok(s.(procs := s.procs[k := s.procs[k].(pid := s.lastPid + 1, status := Loading)], lastPid := s.lastPid + 1))
    case MakeReady(pid) => Ok(s.(procs := SetStatus(s.procs, pid, Ready)))
    case Exit(pid) => Ok(s.(procs := SetStatus(s.procs, pid, Unused), vm := s.vm.(info := Freed(s.vm.info, pid))))
    case Memory(step) => Ok(s.(vm := Exec(s.vm, step)))
  }

  // ----- Freeing all user processes

  predicate IsUser(p: Process) { p.pid >= USER_START && p.status != Unused }

  function KilledProcs(ps: seq<Process>): (r: seq<Process>)
    ensures |r| == |ps|
    ensures forall i :: 0 <= i < |ps| ==> r[i] == if ps[i].pid >= USER_START then ps[i].(status := Unused) else ps[i]
  {
    seq(|ps|, i requires 0 <= i < |ps| => if IsUser(ps[i]) then ps[i].(status := Unused) else ps[i])
  }

  /** The frame table after the user processes in the first n slots are freed. */
  function KilledInfo(ps: seq<Process>, info: seq<Info>, n: nat): (r: seq<Info>)
    requires n <= |ps|
    ensures |r| == |info|
  {
    if n == 0 then info
    else
      var r := KilledInfo(ps, info, n - 1);
      if IsUser(ps[n - 1]) then Freed(r, ps[n - 1].pid) else r
  }

  function KillAll(s: State): State {
    s.(procs := KilledProcs(s.procs), vm := s.vm.(info := KilledInfo(s.procs, s.vm.info, |s.procs|)))
  }
}
