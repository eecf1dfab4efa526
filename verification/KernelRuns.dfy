/** Runs of the whole machine: the invariant at every step, no false deadlock, and bounded
    waiting. */
module KernelRuns {
  import opened Basics
  import opened SoftTlb
  import opened KernelModel
  import opened KernelSweep

  predicate IsTrap(a: Action) { a.Tick? || a.Ecall? }

  /** The state in which the sweep of a trap starts. */
  function Launch(s: State, a: Action): Result<State>
    requires Sane(s) && s.procs[s.cur].pid > 0 && IsTrap(a)
  {
    var t := Save(s, a.ctx);
    if a.Tick? then Ok(Requeue(t))
    else
      assert Sane(t);
      BeginSane(t);
      Retry(Begin(t), 0)
  }

  /** Changing only what no other slot looks at: the running slot. */
  lemma RunningSlot(ps: seq<Process>, lastPid: nat, k: nat, p: Process)
    requires ProcsOk(ps, lastPid) && k < NPROC && ps[k].status == Running
    requires p.pid == ps[k].pid && |p.call.content| == MSG_WORDS
    requires p.status == Running || p.status == Runnable ==> p.call == ps[k].call
    requires p.status != Running && p.status != Runnable ==>
      p.status == Pending && !p.call.done && (p.call.kind == SYS_RECV || p.call.kind == SYS_SEND)
    ensures ProcsOk(ps[k := p], lastPid)
  {
    var ps' := ps[k := p];
    forall j | 0 <= j < NPROC && Latched(ps'[j]) ensures LatchOk(ps', j) {
      assert LatchOk(ps, j);
      SameFind(ps, ps', ps[j].call.sender);
    }
  }

  /** The status of one process is set in its own slot only. */
  lemma SetOne(ps: seq<Process>, lastPid: nat, k: nat, st: Status)
    requires PidsOk(ps, lastPid) && k < |ps| && ps[k].pid != 0
    ensures SetStatus(ps, ps[k].pid, st) == ps[k := ps[k].(status := st)]
  {
  }

  /** The running process stops running: by the timer, or pending on a call. */
  lemma Stopped(s: State, p: Process, vm: Vm<Page>, l: State)
    requires Inv(s) && SoftTlb.Ok(vm) && l == s.(procs := s.procs[s.cur := p], vm := vm)
    requires p.pid == s.procs[s.cur].pid && |p.call.content| == MSG_WORDS
    requires || (p.status == Runnable && p.call == s.procs[s.cur].call)
             || (p.status == Pending && !p.call.done && (p.call.kind == SYS_RECV || p.call.kind == SYS_SEND))
    ensures Core(l) && forall k :: 0 <= k < NPROC ==> l.procs[k].status != Running
    ensures forall r: nat, q: nat :: Match(l.procs, r, q) && q != s.cur ==> 1 <= Pos(s.cur, q) < Pos(s.cur, r)
  {
    hide SoftTlb.Ok, ProcsOk, Pos;
    assert p.status != Unused && s.procs[s.cur].pid > 0;
    RunningSlot(s.procs, s.lastPid, s.cur, p);
    forall r: nat, q: nat | Match(l.procs, r, q) && q != s.cur ensures 1 <= Pos(s.cur, q) < Pos(s.cur, r) {
      if r != s.cur {
        assert Match(s.procs, r, q);
      } else {
        VisitPos(s.cur, q);
        LastVisit(s.cur, q);
      }
    }
  }

  /** The running slot is visited last. */
  lemma LastVisit(cur: nat, q: nat)
    requires cur < NPROC && q < NPROC && q != cur
    ensures Pos(cur, cur) == NPROC && Pos(cur, q) < NPROC
  {
  }

  lemma StartSweep(l: State)
    requires Core(l) && Ordered(l, 1) && forall k :: 0 <= k < NPROC ==> l.procs[k].status != Running
    ensures Sweeping(l, 1)
  {
    hide SoftTlb.Ok, ProcsOk;
  }

  lemma TickStart(s: State, a: Action)
    requires Inv(s) && a.Tick?
    ensures Sane(s) && Launch(s, a).Ok? && Sweeping(Launch(s, a).value, 1)
    ensures
      var l := Launch(s, a).value;
      l == s.(procs := s.procs[s.cur := s.procs[s.cur].(ctx := a.ctx, status := Runnable)])
  {
    hide SoftTlb.Ok, Sweeping;
    var t, l := Save(s, a.ctx), Launch(s, a).value;
    var p := s.procs[s.cur].(ctx := a.ctx, status := Runnable);
    SetOne(t.procs, s.lastPid, s.cur, Runnable);
    assert l == s.(procs := s.procs[s.cur := p]);
    Stopped(s, p, s.vm, l);
    StartSweep(l);
  }

  /** The slot of a process that has just made a system call. */
  function Caller(s: State, a: Action): Process
    requires Sane(s) && s.procs[s.cur].pid > 0 && a.Ecall?
  {
    s.procs[s.cur].(call := Request(s), status := Pending, ctx := a.ctx.(pc := a.ctx.pc + 4))
  }

  lemma BeginIs(s: State, a: Action)
    requires Inv(s) && a.Ecall?
    ensures Sane(s) && Sane(Save(s, a.ctx))
    ensures Begin(Save(s, a.ctx)) == s.(procs := s.procs[s.cur := Caller(s, a)])
  {
    hide SoftTlb.Ok;
    var t := Save(s, a.ctx);
    var p := t.procs[s.cur];
    assert Switched(s.vm, p.pid) == s.vm;
    var q := p.(call := Request(t), ctx := p.ctx.(pc := p.ctx.pc + 4));
    SetOne(t.procs[s.cur := q], s.lastPid, s.cur, Pending);
    assert t.procs[s.cur := q][s.cur := q.(status := Pending)] == s.procs[s.cur := Caller(s, a)];
  }

  lemma CallStart(s: State, a: Action)
    requires Inv(s) && a.Ecall? && Sane(s) && Launch(s, a).Ok?
    ensures
      var b := s.(procs := s.procs[s.cur := Caller(s, a)]);
      && Core(b) && VisitEffect(b, s.cur, Launch(s, a).value) && !Latched(b.procs[s.cur])
    ensures Sweeping(Launch(s, a).value, 1) && Requeue(Launch(s, a).value) == Launch(s, a).value
  {
    hide SoftTlb.Ok, Sweeping, Request, ProcsOk, Inv, Launch, Retry, Ordered, Match;
    InvSane(s);
    CallBegins(s, a);
    var b, l := s.(procs := s.procs[s.cur := Caller(s, a)]), Launch(s, a).value;
    assert !Latched(b.procs[s.cur]) && s.cur < NPROC;
    CallOrdered(b, s.cur, l);
    StartSweep(l);
  }

  /** The first attempt at a call, as a visit of the caller. */
  lemma CallBegins(s: State, a: Action)
    requires Inv(s) && a.Ecall? && Sane(s) && Launch(s, a).Ok?
    ensures
      var b := s.(procs := s.procs[s.cur := Caller(s, a)]);
      && Core(b) && VisitEffect(b, s.cur, Launch(s, a).value)
      && Caller(s, a).status == Pending && !Caller(s, a).call.done
      && (forall k :: 0 <= k < NPROC ==> b.procs[k].status != Running)
      && (forall r: nat, q: nat :: Match(b.procs, r, q) && q != s.cur ==> 1 <= Pos(s.cur, q) < Pos(s.cur, r))
  {
    hide SoftTlb.Ok, Request, ProcsOk, Ordered, VisitEffect;
    BeginIs(s, a);
    var b, p := Begin(Save(s, a.ctx)), Caller(s, a);
    assert p.call.kind == SYS_RECV || p.call.kind == SYS_SEND;
    RequestFacts(s);
    Stopped(s, p, s.vm, b);
    VisitStep(b, 0);
  }

  lemma CallOrdered(b: State, k: nat, l: State)
    requires Core(b) && k == b.cur && VisitEffect(b, k, l) && !Latched(b.procs[k])
    requires forall j :: 0 <= j < NPROC ==> b.procs[j].status != Running
    requires forall r: nat, q: nat :: Match(b.procs, r, q) && q != k ==> 1 <= Pos(k, q) < Pos(k, r)
    ensures Core(l) && Ordered(l, 1) && l.cur == k && forall j :: 0 <= j < NPROC ==> l.procs[j].status != Running
  {
    hide SoftTlb.Ok, ProcsOk, Pos, LatchOk;
    forall r: nat, q: nat | Match(l.procs, r, q) ensures 1 <= Pos(k, q) < Pos(k, r) {
      assert Match(b.procs, r, q);
    }
  }

  lemma RequestFacts(s: State)
    requires Sane(s) && s.procs[s.cur].pid > 0
    ensures |Request(s).content| == MSG_WORDS && !Request(s).done
  {
  }

  /** A trap is its launch followed by a full sweep. */
  lemma TrapIsSweep(s: State, a: Action)
    requires Inv(s) && IsTrap(a)
    ensures Sane(s) && Legal(s, a)
    ensures Launch(s, a).Fatal? ==> Next(s, a) == Fatal(Launch(s, a).reason)
    ensures Launch(s, a).Ok? ==> Sweeping(Launch(s, a).value, 1) && Sane(Launch(s, a).value)
    ensures Launch(s, a).Ok? ==> Next(s, a) == Sweep(Launch(s, a).value, 1)
  {
    hide Sweeping, VisitEffect, SoftTlb.Ok;
    if a.Tick? {
      TickStart(s, a);
    } else if Launch(s, a).Ok? {
      CallStart(s, a);
    }
    if Launch(s, a).Ok? { SweepingCore(Launch(s, a).value, 1); }
  }

  // ----- The invariant

  lemma SpawnProcs(ps: seq<Process>, lastPid: nat, k: nat)
    requires ProcsOk(ps, lastPid) && k < NPROC && ps[k].status == Unused
    ensures ProcsOk(ps[k := ps[k].(pid := lastPid + 1, status := Loading)], lastPid + 1)
  {
    var ps' := ps[k := ps[k].(pid := lastPid + 1, status := Loading)];
    assert PidsOk(ps', lastPid + 1);
    forall j | 0 <= j < NPROC && Latched(ps'[j]) ensures LatchOk(ps', j) {
      assert LatchOk(ps, j);
      FindUnique(ps', lastPid + 1, Find(ps, ps[j].call.sender, 0));
    }
  }

  lemma SpawnInv(s: State)
    requires Inv(s) && FirstUnused(s.procs, 0) < NPROC
    ensures
      var k := FirstUnused(s.procs, 0);
      var ps := s.procs[k := s.procs[k].(pid := s.lastPid + 1, status := Loading)];
      Inv(s.(procs := ps, lastPid := s.lastPid + 1))
  {
    hide SoftTlb.Ok, Pos, ProcsOk;
    var k := FirstUnused(s.procs, 0);
    SpawnProcs(s.procs, s.lastPid, k);
    var ps := s.procs[k := s.procs[k].(pid := s.lastPid + 1, status := Loading)];
    forall r: nat, q: nat | Match(ps, r, q) ensures Match(s.procs, r, q) { }
  }

  lemma IdleProcs(ps: seq<Process>, lastPid: nat, k: nat, st: Status)
    requires ProcsOk(ps, lastPid) && k < NPROC && ps[k].status != Unused && ps[k].status != Pending
    requires st == Ready || st == Unused
    ensures ProcsOk(ps[k := ps[k].(status := st)], lastPid)
  {
    var ps' := ps[k := ps[k].(status := st)];
    forall j | 0 <= j < NPROC && Latched(ps'[j]) ensures LatchOk(ps', j) {
      assert LatchOk(ps, j);
      FindUnique(ps', lastPid, Find(ps, ps[j].call.sender, 0));
    }
  }

  /** Changing the status of a process that is neither pending nor running. */
  lemma IdleInv(s: State, k: nat, st: Status, vm: Vm<Page>)
    requires Inv(s) && k < NPROC && s.procs[k].status != Unused
    requires s.procs[k].status != Pending && s.procs[k].status != Running && (st == Ready || st == Unused)
    requires SoftTlb.Ok(vm) && vm.curr == s.vm.curr
    ensures Inv(s.(procs := s.procs[k := s.procs[k].(status := st)], vm := vm))
  {
    hide SoftTlb.Ok, Pos, ProcsOk;
    IdleProcs(s.procs, s.lastPid, k, st);
    var ps := s.procs[k := s.procs[k].(status := st)];
    forall r: nat, q: nat | Match(ps, r, q) ensures Match(s.procs, r, q) { }
  }

  /** Slot k is freed on the way from ps to ps'. */
  predicate Gone(ps: seq<Process>, ps': seq<Process>, k: nat) {
    k < |ps| == |ps'| && ps[k].status != Unused && ps'[k].status == Unused
  }

  /** ps' is ps with some slots freed. */
  ghost predicate SomeFreed(ps: seq<Process>, ps': seq<Process>) {
    && |ps'| == |ps|
    && forall k: nat :: k < |ps| ==> ps'[k] == if Gone(ps, ps', k) then ps[k].(status := Unused) else ps[k]
  }

  /** Nobody freed waits for a message, and nobody freed is the sender of one that is
      latched into a slot that stays. */
  ghost predicate Harmless(ps: seq<Process>, ps': seq<Process>) {
    && (forall k: nat :: Gone(ps, ps', k) ==> !Waiting(ps[k]))
    && (forall k: nat, r: nat :: Gone(ps, ps', k) && r < |ps| && !Gone(ps, ps', r) && Latched(ps[r]) ==>
          ps[r].call.sender != ps[k].pid)
  }

  /** Freeing slots keeps the table in order exactly when it is harmless. */
  lemma FreeProcs(ps: seq<Process>, lastPid: nat, ps': seq<Process>)
    requires ProcsOk(ps, lastPid) && SomeFreed(ps, ps')
    ensures ProcsOk(ps', lastPid) <==> Harmless(ps, ps')
  {
    hide LatchOk;
    if k: nat :| Gone(ps, ps', k) && Waiting(ps[k]) {
      assert ps'[k].call.kind == SYS_RECV && !ps'[k].call.done && ps'[k].status != Pending;
    } else if k: nat, r: nat :|
      Gone(ps, ps', k) && r < |ps| && !Gone(ps, ps', r) && Latched(ps[r]) && ps[r].call.sender == ps[k].pid {
      LatchLost(ps, lastPid, ps', k, r);
    } else {
      FreeKeeps(ps, lastPid, ps');
    }
  }

  lemma FreeKeeps(ps: seq<Process>, lastPid: nat, ps': seq<Process>)
    requires ProcsOk(ps, lastPid) && SomeFreed(ps, ps') && Harmless(ps, ps')
    ensures ProcsOk(ps', lastPid)
  {
    hide LatchOk;
    assert forall k: nat :: k < NPROC ==> ps'[k].pid == ps[k].pid && ps'[k].call == ps[k].call;
    forall j | 0 <= j < NPROC && Latched(ps'[j]) ensures LatchOk(ps', j) {
      LatchStays(ps, lastPid, ps', j);
    }
  }

  lemma LatchLost(ps: seq<Process>, lastPid: nat, ps': seq<Process>, k: nat, r: nat)
    requires ProcsOk(ps, lastPid) && SomeFreed(ps, ps') && Gone(ps, ps', k)
    requires r < |ps| && !Gone(ps, ps', r) && Latched(ps[r]) && ps[r].call.sender == ps[k].pid
    ensures Latched(ps'[r]) && !LatchOk(ps', r)
  {
    assert LatchOk(ps, r);
    FindUnique(ps, lastPid, k);
  }

  lemma LatchStays(ps: seq<Process>, lastPid: nat, ps': seq<Process>, j: nat)
    requires ProcsOk(ps, lastPid) && SomeFreed(ps, ps') && Harmless(ps, ps') && j < NPROC && Latched(ps'[j])
    ensures LatchOk(ps', j)
  {
    assert ps'[j] == ps[j] && LatchOk(ps, j);
    var q := Find(ps, ps[j].call.sender, 0);
    assert !Gone(ps, ps', q);
    FindUnique(ps', lastPid, q);
  }

  /** Freeing processes keeps the invariant exactly when the running one stays and it is
      harmless. */
  lemma FreeSome(s: State, ps': seq<Process>, vm: Vm<Page>)
    requires Inv(s) && SomeFreed(s.procs, ps') && SoftTlb.Ok(vm) && vm.curr == s.vm.curr
    ensures Inv(s.(procs := ps', vm := vm)) <==> !Gone(s.procs, ps', s.cur) && Harmless(s.procs, ps')
  {
    hide SoftTlb.Ok, Pos, ProcsOk, Harmless;
    FreeProcs(s.procs, s.lastPid, ps');
    forall r: nat, q: nat | Match(ps', r, q) ensures Match(s.procs, r, q) { }
  }

  /** Freeing one process that is not running keeps the invariant exactly when it neither
      waits for a message nor is the sender of one that is latched but not yet taken. */
  lemma FreeExact(s: State, k: nat)
    requires Inv(s) && k < NPROC && k != s.cur && s.procs[k].status != Unused
    ensures Inv(s.(procs := s.procs[k := s.procs[k].(status := Unused)])) <==>
            !Waiting(s.procs[k]) &&
            forall r :: 0 <= r < NPROC && r != k && Latched(s.procs[r]) ==> s.procs[r].call.sender != s.procs[k].pid
  {
    hide SoftTlb.Ok, Pos, ProcsOk;
    var ps' := s.procs[k := s.procs[k].(status := Unused)];
    assert forall j: nat :: Gone(s.procs, ps', j) <==> j == k;
    FreeSome(s, ps', s.vm);
  }

  /** Freeing all user processes keeps the invariant exactly when a server is running that
      asked for it, no user process waits for a message, and no message latched into a
      server comes from a user process. */
  lemma KillAllExact(s: State)
    requires Inv(s) && Sane(s)
    ensures Inv(KillAll(s)) <==>
            && s.procs[s.cur].pid < USER_START
            && (forall k :: 0 <= k < NPROC && IsUser(s.procs[k]) ==> !Waiting(s.procs[k]))
            && (forall r :: 0 <= r < NPROC && !IsUser(s.procs[r]) && Latched(s.procs[r]) ==>
                  s.procs[r].call.sender < USER_START)
  {
    hide SoftTlb.Ok, Pos, ProcsOk, Abs, KilledInfo;
    var ps, ps' := s.procs, KilledProcs(s.procs);
    assert forall j: nat :: Gone(ps, ps', j) <==> j < NPROC && IsUser(ps[j]);
    KilledMemory(ps, s.vm, NPROC);
    FreeSome(s, ps', KillAll(s).vm);
    forall r: nat | r < NPROC && Latched(ps[r])
      ensures exists k: nat :: k < NPROC && ps[k].status != Unused && ps[k].pid == ps[r].call.sender
    {
      LatchSender(s, r);
    }
  }

  /** Such a state: process 2, a server, has taken the latch of a message from process 5, which
      is blocked in the send, when process 1 frees all user processes. */
  lemma KillAllBreaks(s: State, ctx: Context, words: seq<int>)
    requires SoftTlb.Ok(s.vm) && s.vm.curr == 1 && s.cur == 0 && s.lastPid == 5 && |words| == MSG_WORDS
    requires
      var none := Process(0, Call(0, 0, 0, words, false), Unused, ctx);
      var server := Process(2, Call(SYS_RECV, 5, 0, words, true), Pending, ctx);
      var user := Process(5, Call(SYS_SEND, 0, 2, words, false), Pending, ctx);
      s.procs == [none.(pid := 1, status := Running), server, user] + seq(NPROC - 3, i => none)
    ensures Inv(s) && !Inv(KillAll(s))
  {
    hide SoftTlb.Ok, Abs;
    var ps := s.procs;
    assert forall k :: 3 <= k < NPROC ==> ps[k].status == Unused && ps[k].pid == 0 && ps[k].call.kind == 0;
    assert Find(ps, 5, 0) == 2 by { assert Find(ps, 5, 1) == Find(ps, 5, 2); }
    assert LatchOk(ps, 1);
    assert Latched(ps[1]) && !IsUser(ps[1]) && ps[1].call.sender == 5;
    KillAllExact(s);
  }

  lemma LatchSender(s: State, r: nat)
    requires Inv(s) && r < NPROC && Latched(s.procs[r])
    ensures exists k: nat :: k < NPROC && s.procs[k].status != Unused && s.procs[k].pid == s.procs[r].call.sender
  {
    assert LatchOk(s.procs, r);
    var q := Find(s.procs, s.procs[r].call.sender, 0);
    assert s.procs[q].pid == s.procs[r].call.sender;
  }

  /** Process `pid` is a user process in one of the first n slots. */
  ghost predicate UserIn(ps: seq<Process>, n: nat, pid: int)
    requires n <= |ps|
  {
    exists i :: 0 <= i < n && ps[i].status != Unused && ps[i].pid >= USER_START && ps[i].pid == pid
  }

  lemma UserNext(ps: seq<Process>, n: nat, pid: int)
    requires 0 < n <= |ps|
    ensures UserIn(ps, n, pid) <==> UserIn(ps, n - 1, pid) || (IsUser(ps[n - 1]) && ps[n - 1].pid == pid)
  {
  }

  /** The memory of the user processes among the first n slots is gone, all other is kept. */
  lemma {:induction false} KilledMemory(ps: seq<Process>, vm: Vm<Page>, n: nat)
    requires SoftTlb.Ok(vm) && n <= |ps|
    ensures var vm' := vm.(info := KilledInfo(ps, vm.info, n));
      && SoftTlb.Ok(vm')
      && (forall k :: k in Abs(vm') <==> k in Abs(vm) && !UserIn(ps, n, k.0))
      && (forall k :: k in Abs(vm') ==> Abs(vm')[k] == Abs(vm)[k])
  {
    hide SoftTlb.Ok, Abs;
    if n > 0 {
      KilledMemory(ps, vm, n - 1);
      forall pid ensures UserIn(ps, n, pid) <==> UserIn(ps, n - 1, pid) || (IsUser(ps[n - 1]) && ps[n - 1].pid == pid) {
        UserNext(ps, n, pid);
      }
      assert IsUser(ps[n - 1]) ==> ps[n - 1].pid != 0;
      hide UserIn, IsUser;
      if IsUser(ps[n - 1]) { FreeStep(vm.(info := KilledInfo(ps, vm.info, n - 1)), ps[n - 1].pid); }
    }
  }

  /** What goes wrong otherwise: the receiver takes the message of a freed sender and
      makes its unused slot runnable again. */
  lemma FreedSenderRevived(s: State, r: nat)
    requires Inv(s) && r < NPROC && Latched(s.procs[r])
    ensures
      var q := Find(s.procs, s.procs[r].call.sender, 0);
      && q < NPROC
      && var s1 := s.(procs := SetStatus(s.procs, s.procs[q].pid, Unused));
      && s1.procs[q].status == Unused && Sane(s1) && s1.procs[r].status != Unused
      && TryRecv(s1, r).procs[q].status == Runnable
  {
    hide SoftTlb.Ok, Deliver, Ordered;
    assert LatchOk(s.procs, r);
  }

  /** Every step of the machine keeps the invariant. */
  lemma NextInv(s: State, a: Action)
    requires Inv(s) && Sane(s) && Legal(s, a) && Next(s, a).Ok?
    ensures Inv(Next(s, a).value)
  {
    hide Inv, Next, Legal, Sane;
    InvSane(s);
    match a
    case Spawn => SpawnedInv(s);
    case MakeReady(pid) => ReadyInv(s, pid);
    case Exit(pid) => ExitInv(s, pid);
    case Memory(step) => MemoryInv(s, step);
    case _ => TrapInv(s, a);
  }

  lemma SpawnedInv(s: State)
    requires Inv(s) && Sane(s) && Next(s, Spawn).Ok?
    ensures Inv(Next(s, Spawn).value)
  {
    hide Inv;
    InvSane(s);
    SpawnInv(s);
  }

  lemma ReadyInv(s: State, pid: int)
    requires Inv(s) && Sane(s) && Legal(s, MakeReady(pid))
    ensures Next(s, MakeReady(pid)).Ok? && Inv(Next(s, MakeReady(pid)).value)
  {
    hide Abs, Ordered, CallsOk, SoftTlb.Ok;
    var k := Find(s.procs, pid, 0);
    SetOne(s.procs, s.lastPid, k, Ready);
    IdleInv(s, k, Ready, s.vm);
  }

  lemma ExitInv(s: State, pid: int)
    requires Inv(s) && Sane(s) && Legal(s, Exit(pid))
    ensures Next(s, Exit(pid)).Ok? && Inv(Next(s, Exit(pid)).value)
  {
    hide Abs, Ordered, CallsOk, SoftTlb.Ok;
    var k := Find(s.procs, pid, 0);
    SetOne(s.procs, s.lastPid, k, Unused);
    FreeStep(s.vm, pid);
    IdleInv(s, k, Unused, s.vm.(info := Freed(s.vm.info, pid)));
  }

  lemma MemoryInv(s: State, step: VmStep<Page>)
    requires Inv(s) && Sane(s) && Legal(s, Memory(step))
    ensures Next(s, Memory(step)).Ok? && Inv(Next(s, Memory(step)).value)
  {
    hide Abs, Exec, ProcsOk, Pos;
    StepRefines(s.vm, step);
  }

  lemma TrapInv(s: State, a: Action)
    requires Inv(s) && IsTrap(a) && Sane(s) && Legal(s, a) && Next(s, a).Ok?
    ensures Inv(Next(s, a).value)
  {
    hide Inv, Sane, Launch, Next, Sweeping, Sweep;
    InvSane(s);
    TrapIsSweep(s, a);
    SweepInv(Launch(s, a).value);
  }

  lemma InvSane(s: State)
    requires Inv(s)
    ensures Sane(s) && s.cur < NPROC == |s.procs| && s.procs[s.cur].pid > 0
  {
  }

  // ----- Deadlock

  /** The kernel stops with no process to run only when, with the trapping process off
      the processor, nothing is ready, nothing is latched and no send matches a receive.
      Otherwise the first slot after the trapping one for which one of these holds runs. */
  lemma NoFalseDeadlock(s: State, a: Action)
    requires Inv(s) && IsTrap(a) && Sane(s) && Legal(s, a)
    ensures Next(s, a) == Fatal(NoProcess) ==>
      Launch(s, a).Ok? && forall k: nat :: !Wanted(Launch(s, a).value.procs, k)
    ensures Next(s, a).Ok? ==>
      && Launch(s, a).Ok? && s.cur < NPROC == |Launch(s, a).value.procs|
      && FirstWanted(Launch(s, a).value.procs, s.cur, Next(s, a).value.cur)
    ensures a.Tick? ==> Next(s, a) != Fatal(NoProcess)
  {
    hide Inv, Sane, Next, Sweeping, Sweep, Wanted;
    InvSane(s);
    TrapIsSweep(s, a);
    if Launch(s, a).Ok? {
      DeadlockExact(Launch(s, a).value);
    } else {
      LaunchReason(s, a);
    }
    if a.Tick? { TickWanted(s, a); }
  }

  lemma LaunchReason(s: State, a: Action)
    requires Inv(s) && IsTrap(a) && Sane(s) && Launch(s, a).Fatal?
    ensures Launch(s, a).reason != NoProcess
  {
  }

  lemma TickWanted(s: State, a: Action)
    requires Inv(s) && a.Tick? && Sane(s)
    ensures Launch(s, a).Ok? && Wanted(Launch(s, a).value.procs, s.cur)
  {
    TickStart(s, a);
  }

  // ----- What one trap does

  /** The memory after the last visit of a sweep. */
  function Delivered(vm: Vm<Page>, p: Process): Vm<Page>
    requires SoftTlb.Ok(vm) && p.pid != 0 && |p.call.content| == MSG_WORDS
  {
    if Latched(p) then Deliver(vm, p) else vm
  }

  /** A trap that ends well: receivers may have been latched on the way to `mid`; then
      slot k, latched or ready, is dispatched, a latched one together with its sender. */
  ghost predicate EndingSlots(l: seq<Process>, mid: seq<Process>, ps: seq<Process>, k: nat) {
    && |l| == |mid| == |ps| == NPROC && k < NPROC && Drift(l, mid)
    && (Latched(mid[k]) <==> l[k].status == Pending)
    && (if Latched(mid[k]) then LatchOk(mid, k) else CanRun(mid[k].status))
    && (forall j :: 0 <= j < NPROC && j != k ==>
          ps[j] == if Latched(mid[k]) && j == Find(mid, mid[k].call.sender, 0)
                   then mid[j].(status := Runnable) else mid[j])
    && ps[k].pid == mid[k].pid && ps[k].call == mid[k].call && ps[k].status == Running
    && ps[k].ctx == (if mid[k].status == Ready then Entry(mid[k]).ctx else mid[k].ctx)
  }

  ghost predicate Ending(l: State, mid: State, s': State) {
    && Core(l) && Core(mid) && Core(s') && mid == l.(procs := mid.procs)
    && EndingSlots(l.procs, mid.procs, s'.procs, s'.cur)
    && mid.procs[s'.cur].pid > 0 && |mid.procs[s'.cur].call.content| == MSG_WORDS
    && Abs(s'.vm) == Abs(Delivered(l.vm, mid.procs[s'.cur]))
  }

  lemma TrapShape(s: State, a: Action) returns (mid: State)
    requires Inv(s) && IsTrap(a) && Sane(s) && Legal(s, a) && Next(s, a).Ok?
    ensures Launch(s, a).Ok? && Ending(Launch(s, a).value, mid, Next(s, a).value)
  {
    hide Inv, Sane, Next, Sweeping, Sweep, Launch, Retry, Dispatch, VisitEffect, Visit, Abs, Ending, Core, Drift;
    InvSane(s);
    TrapIsSweep(s, a);
    var l := Launch(s, a).value;
    SweepingCore(l, 1);
    assert Drift(l.procs, l.procs) by { SameDrift(l.procs); }
    var n;
    mid, n := SweepShape(l, l, 1);
    SweepingCore(mid, n);
    AfterVisit(mid, n, Retry(mid, n).value);
    EndingFacts(l, mid, n, Retry(mid, n).value);
  }

  lemma EndingFacts(l: State, mid: State, n: nat, s1: State)
    requires 1 <= n <= NPROC && Sweeping(mid, n) && mid == l.(procs := mid.procs) && Drift(l.procs, mid.procs)
    requires Core(l) && VisitEffect(mid, Visit(mid.cur, n), s1) && CanRun(s1.procs[Visit(mid.cur, n)].status)
    requires Core(s1) && Ordered(s1, n) && forall k :: 0 <= k < NPROC ==> s1.procs[k].status != Running
    ensures Ending(l, mid, Dispatch(s1, Visit(mid.cur, n)))
  {
    hide SoftTlb.Ok, Pos, Abs, Ordered, Switched, Deliver, Match, LatchOk, CallsOk, PidsOk;
    CoreSane(s1);
    DispatchStep(s1, n);
    hide Dispatch;
    var k := Visit(mid.cur, n);
    assert Core(Dispatch(s1, k)) by { InvCore(Dispatch(s1, k)); }
    DriftStatus(l.procs, mid.procs, k);
    if !Latched(mid.procs[k]) {
      assert s1.procs[k] == mid.procs[k] by {
        if Match(mid.procs, k, k) { MatchParts(mid.procs, k, k); }
      }
      assert forall j :: 0 <= j < NPROC ==> s1.procs[j] == mid.procs[j] by { ReadySlots(mid, k, s1); }
    }
    assert EndingSlots(l.procs, mid.procs, Dispatch(s1, k).procs, k);
  }

  /** Visiting a slot that can run changes nothing. */
  lemma ReadySlots(s: State, k: nat, s1: State)
    requires Core(s) && k < NPROC && VisitEffect(s, k, s1) && CanRun(s.procs[k].status)
    ensures forall j :: 0 <= j < NPROC ==> s1.procs[j] == s.procs[j]
  {
    hide SoftTlb.Ok, ProcsOk, LatchOk;
  }

  lemma CoreSane(s: State)
    requires Core(s)
    ensures Sane(s)
  {
  }

  lemma InvCore(s: State)
    requires Inv(s)
    ensures Core(s)
  {
  }

  lemma DriftStatus(ps: seq<Process>, ps': seq<Process>, j: nat)
    requires Drift(ps, ps') && j < |ps|
    ensures ps'[j].status == ps[j].status && ps'[j].pid == ps[j].pid
    ensures ps'[j].call.kind == ps[j].call.kind && ps'[j].ctx == ps[j].ctx
  {
  }

  /** The registers a process resumes with are those it trapped with, past the trapping
      instruction after a system call; a new process starts at its entry point. */
  lemma ContextKept(s: State, a: Action, j: nat)
    requires Inv(s) && IsTrap(a) && Sane(s) && Legal(s, a) && Next(s, a).Ok? && j < NPROC
    ensures
      var s' := Next(s, a).value;
      var saved := if j != s.cur then s.procs[j].ctx
                   else if a.Ecall? then a.ctx.(pc := a.ctx.pc + 4) else a.ctx;
      j < |s'.procs| && s'.procs[j].ctx ==
        if j == s'.cur && s.procs[j].status == Ready
        then saved.(pc := APPS_ENTRY, a0 := APPS_ARG, a1 := APPS_ARG + 4) else saved
  {
    hide Inv, Sane, Next, Abs, Drift, Core, Delivered, Launch;
    InvSane(s);
    var mid := TrapShape(s, a);
    LaunchContext(s, a, j);
    DriftStatus(Launch(s, a).value.procs, mid.procs, j);
  }

  lemma LaunchContext(s: State, a: Action, j: nat)
    requires Inv(s) && IsTrap(a) && Sane(s) && Launch(s, a).Ok? && j < NPROC
    ensures
      var ps := Launch(s, a).value.procs;
      && j < |ps| && j < |s.procs|
      && ps[j].ctx == (if j != s.cur then s.procs[j].ctx
                       else if a.Ecall? then a.ctx.(pc := a.ctx.pc + 4) else a.ctx)
      && (ps[j].status == Ready <==> s.procs[j].status == Ready)
  {
    hide SoftTlb.Ok, ProcsOk, Ordered, Sweeping, Launch, LatchOk;
    if a.Tick? { TickStart(s, a); } else { CallStart(s, a); }
  }

  lemma TrapPids(s: State, a: Action, k: nat)
    requires Inv(s) && IsTrap(a) && Sane(s) && Legal(s, a) && Next(s, a).Ok? && k < NPROC
    ensures k < |Next(s, a).value.procs| && k < |s.procs| && Next(s, a).value.procs[k].pid == s.procs[k].pid
  {
    hide Inv, Sane, Next, Abs, Drift, Core, Delivered, Launch;
    InvSane(s);
    var mid := TrapShape(s, a);
    LaunchPids(s, a, k);
    DriftStatus(Launch(s, a).value.procs, mid.procs, k);
  }

  lemma LaunchPids(s: State, a: Action, k: nat)
    requires Inv(s) && IsTrap(a) && Sane(s) && Launch(s, a).Ok? && k < NPROC
    ensures k < |Launch(s, a).value.procs| && k < |s.procs| && Launch(s, a).value.procs[k].pid == s.procs[k].pid
  {
    hide SoftTlb.Ok, ProcsOk, Ordered, Sweeping, Launch, LatchOk;
    if a.Tick? { TickStart(s, a); } else { CallStart(s, a); }
  }

  // ----- Bounded waiting

  /** The trap itself leaves a wanted slot wanted. */
  lemma LaunchWanted(s: State, a: Action, k: nat)
    requires Inv(s) && IsTrap(a) && Sane(s) && Launch(s, a).Ok?
    requires Wanted(s.procs, k) && k != s.cur
    ensures Wanted(Launch(s, a).value.procs, k) && Launch(s, a).value.cur == s.cur
  {
    hide SoftTlb.Ok, ProcsOk, Ordered, VisitEffect, Sweeping, Launch;
    var p := if a.Tick? then s.procs[s.cur].(ctx := a.ctx, status := Runnable) else Caller(s, a);
    var b := s.(procs := s.procs[s.cur := p]);
    assert Wanted(b.procs, k) by {
      if q: nat :| Match(s.procs, k, q) { assert q != s.cur && Match(b.procs, k, q); }
    }
    if a.Tick? {
      TickStart(s, a);
    } else {
      CallStart(s, a);
      var l := Launch(s, a).value;
      StillWanted(b, s.cur, l, k);
      EffectCore(b, s.cur, l);
    }
  }

  /** Each trap either dispatches a wanted slot or brings the sweep strictly closer to it. */
  lemma TrapProgress(s: State, a: Action, k: nat)
    requires Inv(s) && IsTrap(a) && Sane(s) && Legal(s, a) && Next(s, a).Ok?
    requires Wanted(s.procs, k) && k != s.cur && k < NPROC
    ensures
      var s' := Next(s, a).value;
      && s'.cur < NPROC
      && (s'.cur == k || (Wanted(s'.procs, k) && Pos(s'.cur, k) < Pos(s.cur, k)))
  {
    hide Inv, Sane, Next, Sweeping, Sweep, Wanted, Launch, Pos, Visit;
    InvSane(s);
    TrapIsSweep(s, a);
    LaunchWanted(s, a, k);
    VisitPos(s.cur, k);
    var s' := Next(s, a).value;
    SweepFinds(Launch(s, a).value, 1, k);
    VisitPos(s.cur, s'.cur);
    if s'.cur != k { PosMove(s.cur, s'.cur, k); }
  }

  /** Between traps nothing takes a wanted slot away, unless the process is freed. */
  lemma QuietWanted(s: State, a: Action, k: nat)
    requires Inv(s) && !IsTrap(a) && Sane(s) && Legal(s, a) && Next(s, a).Ok?
    requires Wanted(s.procs, k) && k < NPROC && a != Exit(s.procs[k].pid)
    ensures Wanted(Next(s, a).value.procs, k) && Next(s, a).value.cur == s.cur
    ensures Next(s, a).value.procs[k].pid == s.procs[k].pid
  {
    hide SoftTlb.Ok, Abs, Exec, CallsOk, Ordered, Wanted;
    var ps' := Next(s, a).value.procs;
    WantedSlot(s.procs, k);
    match a {
      case MakeReady(pid) => SetOne(s.procs, s.lastPid, Find(s.procs, pid, 0), Ready);
      case Exit(pid) => SetOne(s.procs, s.lastPid, Find(s.procs, pid, 0), Unused);
      case _ =>
    }
    StaysWanted(s.procs, ps', k);
  }

  /** Only slots that are neither pending nor the one wanted may change. */
  lemma StaysWanted(ps: seq<Process>, ps': seq<Process>, k: nat)
    requires |ps| == |ps'| == NPROC && Wanted(ps, k) && k < NPROC
    requires ps'[k].status == ps[k].status || (CanRun(ps[k].status) && CanRun(ps'[k].status))
    requires ps'[k].call == ps[k].call && ps'[k].pid == ps[k].pid
    requires forall j :: 0 <= j < NPROC && j != k && ps[j].status == Pending ==> ps'[j] == ps[j]
    ensures Wanted(ps', k)
  {
    if q: nat :| Match(ps, k, q) { assert Match(ps', k, q); }
  }

  /** A run: consecutive states joined by legal steps that did not stop the machine. */
  ghost predicate Run(ss: seq<State>, acts: seq<Action>) {
    && |ss| == |acts| + 1
    && Inv(ss[0])
    && forall i {:trigger acts[i]} :: 0 <= i < |acts| ==> Joined(ss[i], acts[i], ss[i + 1])
  }

  ghost predicate Joined(s: State, a: Action, s': State) {
    Sane(s) && s.procs[s.cur].pid > 0 && Legal(s, a) && Next(s, a) == Ok(s')
  }

  function Traps(acts: seq<Action>): nat {
    if acts == [] then 0 else (if IsTrap(acts[0]) then 1 else 0) + Traps(acts[1..])
  }

  /** The invariant holds in every state of every run; in particular exactly one process
      is running whenever the kernel returns. */
  lemma {:induction false} RunInv(ss: seq<State>, acts: seq<Action>, i: nat)
    requires Run(ss, acts) && i < |ss|
    ensures Inv(ss[i])
    decreases i
  {
    hide Inv, Sane, Next, Legal;
    if i > 0 {
      RunInv(ss, acts, i - 1);
      assert Joined(ss[i - 1], acts[i - 1], ss[i]);
      NextInv(ss[i - 1], acts[i - 1]);
    }
  }

  lemma RunTail(ss: seq<State>, acts: seq<Action>)
    requires Run(ss, acts) && |acts| > 0
    ensures Joined(ss[0], acts[0], ss[1]) && Inv(ss[1]) && Run(ss[1..], acts[1..])
  {
    hide Inv, Sane, Next, Legal;
    assert Joined(ss[0], acts[0], ss[1]);
    NextInv(ss[0], acts[0]);
    assert forall i {:trigger acts[1..][i]} :: 0 <= i < |acts[1..]| ==> acts[1..][i] == acts[i + 1];
  }

  /** Bounded waiting: a slot that is ready, or whose receive is latched or matched, is
      dispatched within as many traps as its distance, at most sixteen, unless its
      process is freed meanwhile. */
  lemma {:induction false} BoundedWaiting(ss: seq<State>, acts: seq<Action>, k: nat)
    requires Run(ss, acts) && k < NPROC && Wanted(ss[0].procs, k) && k != ss[0].cur
    requires forall i :: 0 <= i < |acts| ==> acts[i] != Exit(ss[0].procs[k].pid)
    requires ss[0].cur < NPROC && Traps(acts) >= Pos(ss[0].cur, k)
    ensures Pos(ss[0].cur, k) <= NPROC && exists i :: 0 < i < |ss| && ss[i].cur == k
    decreases |acts|
  {
    hide Inv, Sane, Next, Legal, Wanted, Pos;
    VisitPos(ss[0].cur, k);
    assert acts != [];
    RunTail(ss, acts);
    var s, a := ss[0], acts[0];
    if IsTrap(a) {
      TrapProgress(s, a, k);
      TrapPids(s, a, k);
    } else {
      QuietWanted(s, a, k);
    }
    if ss[1].cur != k {
      BoundedWaiting(ss[1..], acts[1..], k);
      var i :| 0 < i < |ss[1..]| && ss[1..][i].cur == k;
      assert ss[i + 1].cur == k;
    }
  }
}
