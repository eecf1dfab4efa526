/** The kernel working in place: a table of sixteen process slots and the memory behind
    it. Each method does to the table what its function in `KernelModel` says. */
module Kernel {
  import opened Basics
  import opened SoftTlb
  import opened KernelModel
  import opened KernelHistory

  class Machine {
    var procs: array<Process>
    var cur: nat
    var lastPid: nat
    var mmu: Mmu<Page>

    /** The kernel after it has created and switched to its first process. */
    constructor (mmu: Mmu<Page>)
      requires mmu.Valid()
      ensures this.mmu == mmu && fresh(procs) && View() == Boot(mmu.View()) && Valid()
    {
      procs := new Process[NPROC](i => if i == 0 then EMPTY.(pid := 1, status := Running) else EMPTY);
      cur := 0;
      lastPid := 1;
      this.mmu := mmu;
      new;
      assert procs[..] == Boot(mmu.View()).procs;
    }

    ghost function View(): State
      reads this, procs, mmu, mmu.info, mmu.ram
    {
      State(procs[..], cur, lastPid, mmu.View())
    }

    ghost predicate Valid()
      reads this, procs, mmu, mmu.info, mmu.ram
    {
      mmu.Valid() && Sane(View())
    }

    method SetStatus(pid: int, st: Status)
      modifies procs
      ensures procs[..] == KernelModel.SetStatus(old(procs[..]), pid, st)
    {
      var i := 0;
      while i < procs.Length
        invariant 0 <= i <= procs.Length
        invariant forall k :: 0 <= k < i ==>
          procs[k] == if old(procs[k]).pid == pid then old(procs[k]).(status := st) else old(procs[k])
        invariant forall k :: i <= k < procs.Length ==> procs[k] == old(procs[k])
      {
        if procs[i].pid == pid { procs[i] := procs[i].(status := st); }
        i := i + 1;
      }
    }

    method TrySend(k: nat) returns (fatal: bool)
      requires k < procs.Length
      modifies procs
      ensures fatal <==> KernelModel.TrySend(old(procs[..]), k).Fatal?
      ensures !fatal ==> KernelModel.TrySend(old(procs[..]), k) == KernelModel.Result.Ok(procs[..])
    {
      ghost var ps := procs[..];
      var sender := procs[k];
      var i := 0;
      while i < procs.Length
        invariant 0 <= i <= procs.Length && procs[..] == ps
        invariant Find(ps, sender.call.receiver, 0) == Find(ps, sender.call.receiver, i)
      {
        var dst := procs[i];
        if dst.pid == sender.call.receiver && dst.status != Unused {
          if !(dst.call.kind == SYS_RECV && !dst.call.done) { return false; }
          if !(dst.call.sender == GPID_ALL || dst.call.sender == sender.pid) { return false; }
          dst := dst.(call := dst.call.(done := true));
          dst := dst.(call := dst.call.(sender := sender.pid));
          dst := dst.(call := dst.call.(content := sender.call.content));
          procs[i] := dst;
          assert procs[..] == ps[i := Latch(ps[i], ps[k])];
          return false;
        }
        i := i + 1;
      }
      return true;
    }

    /** Completes a receive whose message is latched. */
    method TryRecv(k: nat)
      requires Valid() && k < NPROC && procs[k].status != Unused
      modifies procs, mmu`curr, mmu.ram
      ensures Valid() && View() == KernelModel.TryRecv(old(View()), k)
      ensures procs == old(procs) && mmu == old(mmu) && mmu.info == old(mmu.info) && mmu.ram == old(mmu.ram)
    {
      hide Abs, Switched, WriteCall;
      var receiver := procs[k];
      if !receiver.call.done { return; }
      mmu.Switch(receiver.pid);
      mmu.ram[At(CALL_PAGE)] := WriteCall(mmu.ram[At(CALL_PAGE)], receiver.call);
      SetStatus(receiver.pid, Runnable);
      SetStatus(receiver.call.sender, Runnable);
    }

    method TrySyscall(k: nat) returns (fatal: bool)
      requires Valid() && k < NPROC && procs[k].status != Unused
      modifies procs, mmu`curr, mmu.ram
      ensures fatal <==> KernelModel.TrySyscall(old(View()), k).Fatal?
      ensures !fatal ==> KernelModel.TrySyscall(old(View()), k) == KernelModel.Result.Ok(View())
      ensures procs == old(procs) && mmu == old(mmu) && mmu.info == old(mmu.info) && mmu.ram == old(mmu.ram)
      ensures cur == old(cur)
    {
      hide Abs, Switched, WriteCall, KernelModel.TryRecv, KernelModel.TrySend;
      var kind := procs[k].call.kind;
      if kind == SYS_RECV {
        TryRecv(k);
        return false;
      } else if kind == SYS_SEND {
        fatal := TrySend(k);
      } else {
        return true;
      }
    }

    /** Switches the processor to slot k. */
    method Dispatch(k: nat)
      requires Valid() && k < NPROC && CanRun(procs[k].status)
      modifies this`cur, procs, mmu`curr, mmu.ram
      ensures View() == KernelModel.Dispatch(old(View()), k) && mmu.Valid()
      ensures procs == old(procs) && mmu == old(mmu) && mmu.info == old(mmu.info) && mmu.ram == old(mmu.ram)
    {
      hide Abs, Switched;
      cur := k;
      var pid := procs[cur].pid;
      mmu.Switch(pid);
      if procs[cur].status == Ready {
        procs[cur] := procs[cur].(ctx := procs[cur].ctx.(a0 := APPS_ARG));
        procs[cur] := procs[cur].(ctx := procs[cur].ctx.(a1 := APPS_ARG + 4));
        procs[cur] := procs[cur].(ctx := procs[cur].ctx.(pc := APPS_ENTRY));
      }
      assert procs[..] ==
             if old(procs[k]).status == Ready then old(procs[..])[k := Entry(old(procs[k]))] else old(procs[..]);
      SetStatus(pid, Running);
    }

    /** One visit of the sweep: retries a pending call. */
    method Visit(i: nat) returns (fatal: bool)
      requires Valid()
      modifies procs, mmu`curr, mmu.ram
      ensures fatal <==> Retry(old(View()), i).Fatal?
      ensures !fatal ==> Retry(old(View()), i) == KernelModel.Result.Ok(View()) && Valid()
      ensures procs == old(procs) && mmu == old(mmu) && mmu.info == old(mmu.info) && mmu.ram == old(mmu.ram)
      ensures cur == old(cur)
    {
      hide Abs, Switched, KernelModel.TrySyscall;
      RetrySane(View(), i);
      var k := (cur + i) % NPROC;
      fatal := false;
      if procs[k].status == Pending { fatal := TrySyscall(k); }
    }

    /** Sweeps the slots after the current one and dispatches the first that can run. */
    method RunSweep() returns (fatal: bool)
      requires Valid()
      modifies this`cur, procs, mmu`curr, mmu.ram
      ensures fatal <==> Sweep(old(View()), 1).Fatal?
      ensures !fatal ==> Sweep(old(View()), 1) == KernelModel.Result.Ok(View()) && mmu.Valid()
      ensures procs == old(procs) && mmu == old(mmu) && mmu.info == old(mmu.info) && mmu.ram == old(mmu.ram)
    {
      hide Abs, Switched, Retry, KernelModel.Dispatch, SoftTlb.TableOk;
      ghost var start := View();
      var i := 1;
      while i <= NPROC
        invariant 1 <= i <= NPROC + 1 && Valid() && cur == start.cur
        invariant procs == old(procs) && mmu == old(mmu) && mmu.info == old(mmu.info) && mmu.ram == old(mmu.ram)
        invariant Sweep(start, 1) == Sweep(View(), i)
      {
        var k := (cur + i) % NPROC;
        fatal := Visit(i);
        if fatal { return true; }
        if CanRun(procs[k].status) {
          Dispatch(k);
          return false;
        }
        i := i + 1;
      }
      return true;
    }

    /** Gives up the processor. */
    method Yield() returns (fatal: bool)
      requires Valid() && procs[cur].pid > 0
      modifies this`cur, procs, mmu`curr, mmu.ram
      ensures fatal <==> KernelModel.Yield(old(View())).Fatal?
      ensures !fatal ==> KernelModel.Yield(old(View())) == KernelModel.Result.Ok(View()) && mmu.Valid()
      ensures procs == old(procs) && mmu == old(mmu) && mmu.info == old(mmu.info) && mmu.ram == old(mmu.ram)
    {
      hide Abs, Switched, Sweep;
      if procs[cur].status == Running { SetStatus(procs[cur].pid, Runnable); }
      assert View() == Requeue(old(View()));
      fatal := RunSweep();
    }

    /** The kernel entered by a timer interrupt. */
    method Tick(ctx: Context) returns (fatal: bool)
      requires Valid() && procs[cur].pid > 0
      modifies this`cur, procs, mmu`curr, mmu.ram
      ensures fatal <==> Next(old(View()), Action.Tick(ctx)).Fatal?
      ensures !fatal ==> Next(old(View()), Action.Tick(ctx)) == KernelModel.Result.Ok(View()) && mmu.Valid()
    {
      hide Abs, Switched, KernelModel.Yield;
      procs[cur] := procs[cur].(ctx := ctx);
      assert View() == Save(old(View()), ctx);
      fatal := Yield();
    }

    /** Copies the system call record in and marks the caller pending. */
    method Enter()
      requires Valid() && procs[cur].pid > 0
      modifies procs, mmu`curr, mmu.ram
      ensures View() == Begin(old(View())) && Valid() && procs[cur].pid > 0
      ensures procs == old(procs) && mmu == old(mmu) && mmu.info == old(mmu.info) && mmu.ram == old(mmu.ram)
      ensures cur == old(cur)
      ensures old((procs[cur].pid, CALL_PAGE) in Abs(mmu.View())) ==>
        var page := old(Abs(mmu.View())[(procs[cur].pid, CALL_PAGE)]);
        procs[cur].call == Call(page[0], page[1], page[2], page[3..3 + MSG_WORDS], false)
    {
      hide Abs, Switched;
      BeginSane(View());
      var pid := procs[cur].pid;
      mmu.Switch(pid);
      procs[cur] := procs[cur].(call := ReadCall(mmu.ram[At(CALL_PAGE)]));
      procs[cur] := procs[cur].(ctx := procs[cur].ctx.(pc := procs[cur].ctx.pc + 4));
      SetStatus(pid, Pending);
      assert View() == Begin(old(View()));
    }

    /** The kernel entered by a system call. */
    method Ecall(ctx: Context) returns (fatal: bool)
      requires Valid() && procs[cur].pid > 0
      modifies this`cur, procs, mmu`curr, mmu.ram
      ensures fatal <==> Next(old(View()), Action.Ecall(ctx)).Fatal?
      ensures !fatal ==> Next(old(View()), Action.Ecall(ctx)) == KernelModel.Result.Ok(View()) && mmu.Valid()
    {
      hide Abs, Switched, KernelModel.Yield, Retry, Begin;
      procs[cur] := procs[cur].(ctx := ctx);
      ghost var t := View();
      assert t == Save(old(View()), ctx);
      BeginSane(t);
      Enter();
      RetryKeepsPids(Begin(t), 0);
      fatal := Visit(0);
      if fatal { return; }
      fatal := Yield();
    }

    /** Takes the first unused slot for a new process with a fresh pid. */
    method Alloc() returns (fatal: bool, pid: nat)
      requires Valid() && procs[cur].pid > 0
      modifies this`lastPid, procs
      ensures fatal <==> Next(old(View()), Spawn).Fatal?
      ensures !fatal ==> Next(old(View()), Spawn) == KernelModel.Result.Ok(View()) && mmu.Valid()
      ensures fatal <==> forall k :: 0 <= k < procs.Length ==> old(procs[k]).status != Unused
      ensures !fatal ==> pid == old(lastPid) + 1 == lastPid
      ensures !fatal ==>
        var k := FirstUnused(old(procs[..]), 0);
        k < procs.Length && procs[..] == old(procs[..])[k := old(procs[k]).(pid := pid, status := Loading)]
    {
      hide Abs;
      ghost var ps := procs[..];
      var i := 0;
      while i < procs.Length
        invariant 0 <= i <= procs.Length && procs[..] == ps && lastPid == old(lastPid)
        invariant FirstUnused(ps, 0) == FirstUnused(ps, i)
      {
        if procs[i].status == Unused {
          lastPid := lastPid + 1;
          procs[i] := procs[i].(pid := lastPid);
          procs[i] := procs[i].(status := Loading);
          assert procs[..] == ps[i := ps[i].(pid := old(lastPid) + 1, status := Loading)];
          return false, lastPid;
        }
        i := i + 1;
      }
      return true, 0;
    }

    /** Marks a loaded process ready to run. */
    method MakeReady(pid: int)
      modifies procs
      ensures procs[..] == KernelModel.SetStatus(old(procs[..]), pid, Ready)
      ensures old(Valid() && procs[cur].pid > 0 && Legal(View(), Action.MakeReady(pid))) ==>
        Next(old(View()), Action.MakeReady(pid)) == KernelModel.Result.Ok(View()) && mmu.Valid()
    {
      SetStatus(pid, Ready);
    }

    /** Frees the memory and the slot of one process. */
    method Free(pid: int)
      requires mmu.Valid() && pid != 0
      modifies procs, mmu.info
      ensures procs[..] == KernelModel.SetStatus(old(procs[..]), pid, Unused) && mmu.Valid()
      ensures mmu.View() == old(mmu.View()).(info := Freed(old(mmu.info[..]), pid))
      ensures old(Valid() && procs[cur].pid > 0 && Legal(View(), Exit(pid))) ==>
        Next(old(View()), Exit(pid)) == KernelModel.Result.Ok(View())
    {
      hide Abs;
      mmu.Free(pid);
      SetStatus(pid, Unused);
    }

    /** Frees the memory and the slots of all user processes. */
    method FreeAll()
      requires mmu.Valid()
      modifies procs, mmu.info
      ensures View() == KillAll(old(View())) && mmu.Valid()
      ensures forall k :: 0 <= k < procs.Length ==>
        procs[k] == if old(procs[k]).pid >= USER_START then old(procs[k]).(status := Unused) else old(procs[k])
    {
      hide Abs, KilledInfo;
      ghost var s := View();
      KilledNone(s.procs, s.vm.info);
      var i := 0;
      while i < procs.Length
        invariant 0 <= i <= procs.Length && mmu.Valid() && mmu.ram[..] == s.vm.ram && mmu.curr == s.vm.curr
        invariant forall k :: 0 <= k < i ==>
          procs[k] == if IsUser(s.procs[k]) then s.procs[k].(status := Unused) else s.procs[k]
        invariant forall k :: i <= k < procs.Length ==> procs[k] == s.procs[k]
        invariant mmu.info[..] == KilledInfo(s.procs, s.vm.info, i)
      {
        KilledNext(s.procs, s.vm.info, i);
        if procs[i].pid >= USER_START && procs[i].status != Unused {
          mmu.Free(procs[i].pid);
          procs[i] := procs[i].(status := Unused);
        }
        i := i + 1;
      }
      assert procs[..] == KilledProcs(s.procs);
    }
  }

  lemma KilledNone(ps: seq<Process>, info: seq<Info>)
    ensures KilledInfo(ps, info, 0) == info
  {
  }

  lemma KilledNext(ps: seq<Process>, info: seq<Info>, i: nat)
    requires i < |ps|
    ensures var r := KilledInfo(ps, info, i);
      KilledInfo(ps, info, i + 1) == if IsUser(ps[i]) then Freed(r, ps[i].pid) else r
  {
  }
}
