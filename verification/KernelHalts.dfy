/** The other ways the kernel stops: a send to a process that is not there, and a call of an
    unknown kind. */
module KernelHalts {
  import opened Basics
  import opened SoftTlb
  import opened KernelModel
  import opened KernelSweep
  import opened KernelRuns
  import opened KernelHistory

  /** Every blocked sender has a receiver that is there. */
  ghost predicate Known(ps: seq<Process>) {
    forall q: nat :: q < |ps| && Sending(ps[q]) ==> Find(ps, ps[q].call.receiver, 0) < |ps|
  }

  /** The same processes, and no sender that was not one before. */
  ghost predicate Steady(ps: seq<Process>, ps': seq<Process>) {
    && |ps'| == |ps|
    && forall k {:trigger ps'[k]} {:trigger ps[k]} :: 0 <= k < |ps| ==>
         && ps'[k].pid == ps[k].pid && (ps'[k].status == Unused <==> ps[k].status == Unused)
         && (Sending(ps'[k]) ==> Sending(ps[k]) && ps'[k].call.receiver == ps[k].call.receiver)
  }

  lemma KnownSteady(ps: seq<Process>, ps': seq<Process>)
    requires Known(ps) && Steady(ps, ps')
    ensures Known(ps')
  {
    forall q: nat | q < |ps'| && Sending(ps'[q]) ensures Find(ps', ps'[q].call.receiver, 0) < |ps'| {
      assert Find(ps, ps[q].call.receiver, 0) < |ps|;
      SameFind(ps, ps', ps[q].call.receiver);
    }
  }

  lemma VisitSteady(s: State, k: nat, s1: State)
    requires Core(s) && k < NPROC && VisitEffect(s, k, s1)
    ensures Steady(s.procs, s1.procs)
  {
    hide SoftTlb.Ok, Deliver;
    forall j | 0 <= j < NPROC
      ensures s1.procs[j].pid == s.procs[j].pid && (s1.procs[j].status == Unused <==> s.procs[j].status == Unused)
      ensures Sending(s1.procs[j]) ==> Sending(s.procs[j]) && s1.procs[j].call.receiver == s.procs[j].call.receiver
    {
    }
  }

  /** A visit stops the machine exactly at a sender whose receiver is not there. */
  lemma RetryExact(s: State, i: nat)
    requires Core(s)
    ensures Visit(s.cur, i) < NPROC && Sane(s)
    ensures Retry(s, i).Fatal? <==>
      var p := s.procs[Visit(s.cur, i)]; Sending(p) && Find(s.procs, p.call.receiver, 0) == NPROC
  {
    hide SoftTlb.Ok, Deliver, TryRecv;
  }

  lemma RetryKnown(s: State, i: nat)
    requires Core(s) && Known(s.procs)
    ensures Retry(s, i).Ok?
  {
    hide Retry, Core;
    RetryExact(s, i);
  }

  lemma {:induction false} SweepKnown(s: State, i: nat)
    requires 1 <= i <= NPROC + 1 && Sweeping(s, i) && Known(s.procs)
    ensures Sweep(s, i) != Fatal(UnknownReceiver) && Sweep(s, i) != Fatal(UnknownCall)
    ensures Sweep(s, i).Ok? ==> Known(Sweep(s, i).value.procs)
    decreases NPROC + 1 - i
  {
    hide Core, Sane, Sweeping, VisitEffect, Retry, Dispatch, Visit, Known;
    SweepingCore(s, i);
    if i <= NPROC {
      RetryKnown(s, i);
      VisitStep(s, i);
      var v, s1 := Visit(s.cur, i), Retry(s, i).value;
      EffectCore(s, v, s1);
      VisitSteady(s, v, s1);
      KnownSteady(s.procs, s1.procs);
      if CanRun(s1.procs[v].status) {
        AfterVisit(s, i, s1);
        DispatchKnown(s1, i);
      } else {
        SweepOn(s, i, s1);
        SweepKnown(s1, i + 1);
      }
    }
  }

  lemma DispatchKnown(s: State, i: nat)
    requires 1 <= i <= NPROC && Core(s) && Ordered(s, i) && Known(s.procs)
    requires (forall j :: 0 <= j < NPROC ==> s.procs[j].status != Running) && CanRun(s.procs[Visit(s.cur, i)].status)
    ensures Sane(s) && Visit(s.cur, i) < NPROC && Known(Dispatch(s, Visit(s.cur, i)).procs)
  {
    hide SoftTlb.Ok, Abs, Known, Dispatch, CallsOk, Ordered;
    DispatchSizes(s, i);
    DispatchStep(s, i);
    var s' := Dispatch(s, Visit(s.cur, i));
    assert s'.procs[s'.cur].status == Running;
    KnownSteady(s.procs, s'.procs);
  }

  /** The running process asks to send to a process that is not there. */
  predicate Stray(s: State, a: Action)
    requires Sane(s) && s.procs[s.cur].pid > 0
  {
    a.Ecall? && Request(s).kind == SYS_SEND && Find(s.procs, Request(s).receiver, 0) == NPROC
  }

  /** The running process makes a call that is neither a send nor a receive. */
  predicate Odd(s: State, a: Action)
    requires Sane(s) && s.procs[s.cur].pid > 0
  {
    a.Ecall? && Request(s).kind != SYS_SEND && Request(s).kind != SYS_RECV
  }

  /** The first attempt at a call: it stops the machine exactly for a stray or odd call. */
  lemma LaunchHalts(s: State, a: Action)
    requires Inv(s) && IsTrap(a) && Sane(s)
    ensures Launch(s, a) == Fatal(UnknownReceiver) <==> Stray(s, a)
    ensures Launch(s, a) == Fatal(UnknownCall) <==> Odd(s, a)
    ensures Launch(s, a).Ok? <==> !Stray(s, a) && !Odd(s, a)
  {
    hide SoftTlb.Ok, Ordered, Request, Retry, Begin, CallsOk, Find;
    if a.Ecall? {
      BeginIs(s, a);
      BeginSane(Save(s, a.ctx));
      var ps' := s.procs[s.cur := Caller(s, a)];
      SameFind(s.procs, ps', Request(s).receiver);
      AttemptHalts(s.(procs := ps'));
    }
  }

  lemma AttemptHalts(b: State)
    requires Sane(b) && b.procs[b.cur].status == Pending
    ensures var c := b.procs[b.cur].call;
      && (Retry(b, 0) == Fatal(UnknownReceiver) <==> c.kind == SYS_SEND && Find(b.procs, c.receiver, 0) == NPROC)
      && (Retry(b, 0) == Fatal(UnknownCall) <==> c.kind != SYS_SEND && c.kind != SYS_RECV)
      && (Retry(b, 0).Fatal? ==> Retry(b, 0).reason == UnknownReceiver || Retry(b, 0).reason == UnknownCall)
  {
    hide SoftTlb.Ok, TryRecv, Find;
  }

  lemma LaunchKnown(s: State, a: Action)
    requires Inv(s) && IsTrap(a) && Sane(s) && Known(s.procs) && Launch(s, a).Ok?
    ensures Known(Launch(s, a).value.procs)
  {
    hide Known, Launch, SoftTlb.Ok, Ordered, Request, VisitEffect;
    if a.Tick? {
      TickStart(s, a);
      KnownSteady(s.procs, Launch(s, a).value.procs);
    } else {
      LaunchHalts(s, a);
      CallBegins(s, a);
      var b := s.(procs := s.procs[s.cur := Caller(s, a)]);
      CallerKnown(s, a);
      VisitSteady(b, s.cur, Launch(s, a).value);
      KnownSteady(b.procs, Launch(s, a).value.procs);
    }
  }

  lemma CallerKnown(s: State, a: Action)
    requires Inv(s) && Sane(s) && a.Ecall? && Known(s.procs) && !Stray(s, a)
    ensures Known(s.procs[s.cur := Caller(s, a)])
  {
    hide SoftTlb.Ok, Ordered, Request;
    var ps' := s.procs[s.cur := Caller(s, a)];
    forall q: nat | q < NPROC && Sending(ps'[q]) ensures Find(ps', ps'[q].call.receiver, 0) < NPROC {
      SameFind(s.procs, ps', ps'[q].call.receiver);
      if q != s.cur { assert Sending(s.procs[q]); }
    }
  }

  /** With every receiver there, a trap stops on an unknown receiver exactly if the running
      process itself names one, and on an unknown call exactly if it makes one. Otherwise
      every receiver is there afterwards too. */
  lemma TrapHalts(s: State, a: Action)
    requires Inv(s) && IsTrap(a) && Sane(s) && Legal(s, a) && Known(s.procs)
    ensures Next(s, a) == Fatal(UnknownReceiver) <==> Stray(s, a)
    ensures Next(s, a) == Fatal(UnknownCall) <==> Odd(s, a)
    ensures Next(s, a).Ok? ==> Known(Next(s, a).value.procs)
  {
    hide Inv, Sane, Next, Sweeping, Sweep, Known, Launch, Stray, Odd;
    InvSane(s);
    TrapIsSweep(s, a);
    LaunchHalts(s, a);
    if Launch(s, a).Ok? {
      LaunchKnown(s, a);
      SweepKnown(Launch(s, a).value, 1);
    }
  }

  /** Somebody is blocked sending to the process. */
  ghost predicate Wooed(ps: seq<Process>, pid: int) {
    exists q: nat :: q < |ps| && Sending(ps[q]) && ps[q].call.receiver == pid
  }

  lemma Finds(ps: seq<Process>, pid: int, j: nat)
    requires j < |ps| && ps[j].pid == pid && ps[j].status != Unused
    ensures Find(ps, pid, 0) < |ps|
  {
  }

  /** Outside the traps every receiver stays there, unless one exits that somebody is blocked
      sending to: exactly then a sender is left whose next attempt stops the machine. */
  lemma QuietHalts(s: State, a: Action)
    requires Inv(s) && !IsTrap(a) && Sane(s) && Legal(s, a) && Next(s, a).Ok? && Known(s.procs)
    ensures Known(Next(s, a).value.procs) <==> !(a.Exit? && Wooed(s.procs, a.pid))
  {
    hide Next, Known, Inv, Legal;
    InvSane(s);
    match a
    case Spawn => SpawnKnown(s);
    case MakeReady(pid) => ReadyKnown(s, pid);
    case Exit(pid) => ExitKnown(s, pid);
    case Memory(step) => assert Next(s, a).value.procs == s.procs by { MemoryProcs(s, step); }
  }

  lemma MemoryProcs(s: State, step: VmStep<Page>)
    requires Inv(s) && Sane(s) && Legal(s, Memory(step))
    ensures Next(s, Memory(step)).Ok? && Next(s, Memory(step)).value.procs == s.procs
  {
    hide Exec, Abs, SoftTlb.Ok;
  }

  lemma SpawnKnown(s: State)
    requires Inv(s) && Sane(s) && Next(s, Spawn).Ok? && Known(s.procs)
    ensures Known(Next(s, Spawn).value.procs)
  {
    hide SoftTlb.Ok, Ordered, CallsOk;
    var ps, ps' := s.procs, Next(s, Spawn).value.procs;
    forall q: nat | q < NPROC && Sending(ps'[q]) ensures Find(ps', ps'[q].call.receiver, 0) < NPROC {
      assert Sending(ps[q]) && ps'[q] == ps[q];
      Finds(ps', ps[q].call.receiver, Find(ps, ps[q].call.receiver, 0));
    }
  }

  lemma ReadyKnown(s: State, pid: int)
    requires Inv(s) && Sane(s) && Legal(s, MakeReady(pid)) && Known(s.procs)
    ensures Next(s, MakeReady(pid)).Ok? && Known(Next(s, MakeReady(pid)).value.procs)
  {
    hide SoftTlb.Ok, Abs, Ordered, CallsOk, Known;
    SetOne(s.procs, s.lastPid, Find(s.procs, pid, 0), Ready);
    KnownSteady(s.procs, Next(s, MakeReady(pid)).value.procs);
  }

  lemma ExitKnown(s: State, pid: int)
    requires Inv(s) && Sane(s) && Legal(s, Exit(pid)) && Known(s.procs)
    ensures Next(s, Exit(pid)).Ok? && (Known(Next(s, Exit(pid)).value.procs) <==> !Wooed(s.procs, pid))
  {
    hide SoftTlb.Ok, Ordered, CallsOk;
    var ps, k := s.procs, Find(s.procs, pid, 0);
    SetOne(ps, s.lastPid, k, Unused);
    FreedKnown(ps, s.lastPid, k);
  }

  lemma FreedKnown(ps: seq<Process>, lastPid: nat, k: nat)
    requires PidsOk(ps, lastPid) && Known(ps) && k < |ps| && ps[k].pid != 0 && ps[k].status != Unused
    requires ps[k].status != Pending
    ensures Known(ps[k := ps[k].(status := Unused)]) <==> !Wooed(ps, ps[k].pid)
  {
    var ps', pid := ps[k := ps[k].(status := Unused)], ps[k].pid;
    if q: nat :| q < |ps| && Sending(ps[q]) && ps[q].call.receiver == pid {
      assert Sending(ps'[q]) && Find(ps', pid, 0) == |ps|;
    } else {
      forall q: nat | q < |ps'| && Sending(ps'[q]) ensures Find(ps', ps'[q].call.receiver, 0) < |ps'| {
        assert Sending(ps[q]);
        Finds(ps', ps[q].call.receiver, Find(ps, ps[q].call.receiver, 0));
      }
    }
  }

  lemma BootKnown(vm: Vm<Page>)
    ensures Known(Boot(vm).procs)
  {
    assert forall k :: 1 <= k < NPROC ==> Boot(vm).procs[k] == EMPTY;
  }

  /** In a run where nobody exits that somebody is blocked sending to, every receiver is there
      in every state: the machine stops on an unknown receiver only at a call that names one. */
  lemma {:induction false} RunKnown(ss: seq<State>, acts: seq<Action>, i: nat)
    requires Run(ss, acts) && i < |ss| && Known(ss[0].procs)
    requires forall j {:trigger acts[j]} :: 0 <= j < i && acts[j].Exit? ==> !Wooed(ss[j].procs, acts[j].pid)
    ensures Known(ss[i].procs)
    decreases i
  {
    hide Known, Next, Legal, Sane, Inv, Wooed;
    if i > 0 {
      RunKnown(ss, acts, i - 1);
      RunInv(ss, acts, i - 1);
      var s, a := ss[i - 1], acts[i - 1];
      assert Joined(s, a, ss[i]);
      if IsTrap(a) { TrapHalts(s, a); } else { QuietHalts(s, a); }
    }
  }
}
