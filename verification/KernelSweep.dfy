/** The invariant behind the round-robin sweep. A send latches its message into a waiting
    receiver, and the receive completes only when the sweep visits the receiver; the
    sweep can miss none of them because every sender that could still latch is visited
    before its receiver. */
module KernelSweep {
  import opened Basics
  import opened SoftTlb
  import opened KernelModel

  // ----- The order of visits

  /** How many visits after `cur` slot k is reached: 1 .. 16. */
  function Pos(cur: nat, k: nat): nat
    requires cur < NPROC && k < NPROC
  {
    (k + NPROC - cur - 1) % NPROC + 1
  }

  lemma PosIs(cur: nat, k: nat)
    requires cur < NPROC && k < NPROC
    ensures Pos(cur, k) == if k > cur then k - cur else k + NPROC - cur
  {
  }

  lemma PosVisit(cur: nat, i: nat)
    requires cur < NPROC && 1 <= i <= NPROC
    ensures Visit(cur, i) < NPROC && Pos(cur, Visit(cur, i)) == i
  {
  }

  lemma VisitPos(cur: nat, k: nat)
    requires cur < NPROC && k < NPROC
    ensures 1 <= Pos(cur, k) <= NPROC && Visit(cur, Pos(cur, k)) == k
  {
  }

  /** Distances shrink by the distance moved, for slots not yet passed. */
  lemma PosMove(cur: nat, next: nat, k: nat)
    requires cur < NPROC && next < NPROC && k < NPROC && Pos(cur, next) < Pos(cur, k)
    ensures Pos(next, k) == Pos(cur, k) - Pos(cur, next)
  {
    hide Pos;
    PosIs(cur, next);
    PosIs(cur, k);
    PosIs(next, k);
  }

  /** Meeting q before r means that `cur` lies cyclically at or after r and before q. */
  lemma Between(cur: nat, r: nat, q: nat)
    requires cur < NPROC && r < NPROC && q < NPROC
    ensures Pos(cur, q) < Pos(cur, r) <==> (cur + NPROC - r) % NPROC < (q + NPROC - r) % NPROC
  {
    hide Pos;
    assert (cur + NPROC - r) % NPROC == if cur >= r then cur - r else cur + NPROC - r;
    assert (q + NPROC - r) % NPROC == if q >= r then q - r else q + NPROC - r;
    PosIs(cur, q);
    PosIs(cur, r);
  }

  // ----- Who waits for whom

  predicate Waiting(p: Process) { p.status == Pending && p.call.kind == SYS_RECV && !p.call.done }

  predicate Latched(p: Process) { p.status == Pending && p.call.kind == SYS_RECV && p.call.done }

  predicate Sending(p: Process) { p.status == Pending && p.call.kind == SYS_SEND }

  /** Slot r waits for a message that slot q is trying to send. */
  predicate Match(ps: seq<Process>, r: nat, q: nat) {
    && r < |ps| && q < |ps|
    && Waiting(ps[r]) && Sending(ps[q])
    && ps[q].call.receiver == ps[r].pid
    && (ps[r].call.sender == GPID_ALL || ps[r].call.sender == ps[q].pid)
  }

  /** The message latched into slot r is that of one sender, still blocked on it. */
  predicate LatchOk(ps: seq<Process>, r: nat)
    requires r < |ps|
  {
    var q := Find(ps, ps[r].call.sender, 0);
    q < |ps| && Sending(ps[q]) && ps[q].call.receiver == ps[r].pid && ps[q].call.content == ps[r].call.content
  }

  ghost predicate PidsOk(ps: seq<Process>, lastPid: nat) {
    && (forall k :: 0 <= k < |ps| ==> 0 <= ps[k].pid <= lastPid)
    && (forall j, k :: 0 <= j < |ps| && 0 <= k < |ps| && ps[j].pid == ps[k].pid && j != k ==> ps[j].pid == 0)
  }

  ghost predicate CallsOk(ps: seq<Process>) {
    && (forall k :: 0 <= k < |ps| && ps[k].call.kind == SYS_RECV && !ps[k].call.done ==> ps[k].status == Pending)
    && (forall k :: 0 <= k < |ps| && ps[k].status == Pending ==>
          ps[k].call.kind == SYS_RECV || ps[k].call.kind == SYS_SEND)
    && (forall k {:trigger LatchOk(ps, k)} :: 0 <= k < |ps| && Latched(ps[k]) ==> LatchOk(ps, k))
  }

  /** What holds of the slots at every moment, inside the kernel and outside. */
  ghost predicate ProcsOk(ps: seq<Process>, lastPid: nat) {
    SlotsOk(ps) && PidsOk(ps, lastPid) && CallsOk(ps)
  }

  ghost predicate Core(s: State) {
    && s.cur < NPROC == |s.procs| && SoftTlb.Ok(s.vm)
    && ProcsOk(s.procs, s.lastPid)
    && s.procs[s.cur].pid > 0
  }

  /** Each sender that could still latch is met before its receiver. */
  ghost predicate Ordered(s: State, i: nat)
    requires s.cur < NPROC == |s.procs|
  {
    forall r: nat, q: nat :: Match(s.procs, r, q) ==> i <= Pos(s.cur, q) < Pos(s.cur, r)
  }

  /** Before visit `i` of a sweep: nobody runs, and no slot passed could have been taken. */
  ghost predicate Sweeping(s: State, i: nat) {
    && Core(s)
    && (forall k :: 0 <= k < NPROC ==> s.procs[k].status != Running)
    && Ordered(s, i)
    && (forall k :: 0 <= k < NPROC && Pos(s.cur, k) < i ==> !CanRun(s.procs[k].status) && !Latched(s.procs[k]))
  }

  // ----- One visit

  lemma FindUnique(ps: seq<Process>, lastPid: nat, k: nat)
    requires PidsOk(ps, lastPid) && k < |ps| && ps[k].status != Unused && ps[k].pid != 0
    ensures Find(ps, ps[k].pid, 0) == k
  {
  }

  /** A send attempt latches its receiver if it waits for it, and otherwise changes
      nothing; afterwards nobody waits for this sender. */
  lemma SendStep(ps: seq<Process>, lastPid: nat, k: nat)
    requires ProcsOk(ps, lastPid) && k < NPROC && Sending(ps[k]) && TrySend(ps, k).Ok?
    ensures
      var ps' := TrySend(ps, k).value;
      && ProcsOk(ps', lastPid)
      && (forall r: nat, q: nat :: Match(ps', r, q) ==> Match(ps, r, q) && q != k)
      && (forall j :: 0 <= j < NPROC ==>
            ps'[j] == if Match(ps, j, k) then Latch(ps[j], ps[k]) else ps[j])
  {
    var r := Find(ps, ps[k].call.receiver, 0);
    var ps' := TrySend(ps, k).value;
    if Accepts(ps[r].call, ps[k].pid) { LatchStep(ps, lastPid, r, k); }
    forall j: nat | Match(ps, j, k) ensures j == r { FindUnique(ps, lastPid, j); }
  }

  lemma LatchStep(ps: seq<Process>, lastPid: nat, r: nat, k: nat)
    requires ProcsOk(ps, lastPid) && k < NPROC && r < NPROC && Match(ps, r, k)
    ensures ProcsOk(ps[r := Latch(ps[r], ps[k])], lastPid)
  {
    var ps' := ps[r := Latch(ps[r], ps[k])];
    FindUnique(ps, lastPid, k);
    forall j | 0 <= j < NPROC && Latched(ps'[j]) ensures LatchOk(ps', j) {
      SameFind(ps, ps', ps'[j].call.sender);
      if j != r { assert LatchOk(ps, j); }
    }
  }

  /** A completed receive frees the receiver and its one sender, and nobody else. */
  lemma RecvStep(ps: seq<Process>, lastPid: nat, k: nat)
    requires ProcsOk(ps, lastPid) && k < NPROC && Latched(ps[k])
    ensures LatchOk(ps, k)
    ensures
      var ps' := SetStatus(SetStatus(ps, ps[k].pid, Runnable), ps[k].call.sender, Runnable);
      && ProcsOk(ps', lastPid)
      && (forall r: nat, q: nat :: Match(ps', r, q) ==> Match(ps, r, q) && q != k)
      && (forall j :: 0 <= j < NPROC ==>
            ps'[j] == if j == k || j == Find(ps, ps[k].call.sender, 0) then ps[j].(status := Runnable) else ps[j])
  {
    assert LatchOk(ps, k);
    var q := Find(ps, ps[k].call.sender, 0);
    var ps' := SetStatus(SetStatus(ps, ps[k].pid, Runnable), ps[k].call.sender, Runnable);
    assert forall j :: 0 <= j < NPROC ==>
      ps'[j] == if j == k || j == q then ps[j].(status := Runnable) else ps[j];
    ReleaseStep(ps, lastPid, k, q, ps');
  }

  lemma ReleaseStep(ps: seq<Process>, lastPid: nat, k: nat, q: nat, ps': seq<Process>)
    requires ProcsOk(ps, lastPid) && k < NPROC && q < NPROC && Latched(ps[k]) && |ps'| == NPROC
    requires Sending(ps[q]) && ps[q].call.receiver == ps[k].pid
    requires forall j :: 0 <= j < NPROC ==>
      ps'[j] == if j == k || j == q then ps[j].(status := Runnable) else ps[j]
    ensures ProcsOk(ps', lastPid)
  {
    forall j | 0 <= j < NPROC && Latched(ps'[j]) ensures LatchOk(ps', j) {
      assert LatchOk(ps, j);
      SameFind(ps, ps', ps[j].call.sender);
    }
  }

  /** Finding a process looks at pids and at which slots are in use. */
  lemma SameFind(ps: seq<Process>, ps': seq<Process>, pid: int)
    requires |ps'| == |ps|
    requires forall k :: 0 <= k < |ps| ==>
      ps'[k].pid == ps[k].pid && (ps'[k].status == Unused <==> ps[k].status == Unused)
    ensures Find(ps', pid, 0) == Find(ps, pid, 0)
  {
  }

  /** One visit leaves every slot as it was, except that a send may latch its receiver
      and a latched receive completes together with its sender. */
  ghost predicate VisitEffect(s: State, k: nat, s1: State)
    requires Core(s) && k < NPROC
  {
    && Core(s1) && s1.cur == s.cur && s1.lastPid == s.lastPid
    && (forall r: nat, q: nat :: Match(s1.procs, r, q) ==> Match(s.procs, r, q) && q != k)
    && if Latched(s.procs[k]) then
         && LatchOk(s.procs, k)
         && s1.vm == Deliver(s.vm, s.procs[k])
         && forall j :: 0 <= j < NPROC ==>
              s1.procs[j] == if j == k || j == Find(s.procs, s.procs[k].call.sender, 0)
                             then s.procs[j].(status := Runnable) else s.procs[j]
       else
         && s1.vm == s.vm
         && forall j :: 0 <= j < NPROC ==>
              s1.procs[j] == if Match(s.procs, j, k) then Latch(s.procs[j], s.procs[k]) else s.procs[j]
  }

  lemma DeliverOk(vm: Vm<Page>, p: Process)
    requires SoftTlb.Ok(vm) && p.pid != 0 && |p.call.content| == MSG_WORDS
    ensures SoftTlb.Ok(Deliver(vm, p))
  {
    SwitchInvisible(vm, p.pid);
  }

  lemma VisitLatched(s: State, k: nat)
    requires Core(s) && k < NPROC && Latched(s.procs[k])
    ensures VisitEffect(s, k, TryRecv(s, k))
  {
    hide SoftTlb.Ok, CallsOk, PidsOk, Match, LatchOk;
    RecvStep(s.procs, s.lastPid, k);
    DeliverOk(s.vm, s.procs[k]);
  }

  lemma VisitSending(s: State, k: nat)
    requires Core(s) && k < NPROC && Sending(s.procs[k]) && TrySend(s.procs, k).Ok?
    ensures VisitEffect(s, k, s.(procs := TrySend(s.procs, k).value))
  {
    hide SoftTlb.Ok, CallsOk, PidsOk, Match, LatchOk, TrySend;
    SendStep(s.procs, s.lastPid, k);
    assert !Match(s.procs, s.cur, k) || Latch(s.procs[s.cur], s.procs[k]).pid == s.procs[s.cur].pid;
  }

  lemma VisitIdle(s: State, k: nat)
    requires Core(s) && k < NPROC && !Latched(s.procs[k]) && !Sending(s.procs[k])
    ensures VisitEffect(s, k, s)
  {
  }

  lemma VisitStep(s: State, i: nat)
    requires Core(s) && Retry(s, i).Ok?
    ensures VisitEffect(s, Visit(s.cur, i), Retry(s, i).value)
  {
    hide SoftTlb.Ok, CallsOk, PidsOk, VisitEffect, TrySend;
    var k := Visit(s.cur, i);
    if Latched(s.procs[k]) {
      VisitLatched(s, k);
    } else if Sending(s.procs[k]) {
      VisitSending(s, k);
    } else {
      VisitIdle(s, k);
    }
  }

  lemma MatchParts(ps: seq<Process>, r: nat, q: nat)
    requires Match(ps, r, q)
    ensures r < |ps| && q < |ps| && Waiting(ps[r]) && Sending(ps[q])
  {
  }

  /** A visit that finds nobody to run hands the sweep on to the next slot. */
  lemma SweepOn(s: State, i: nat, s1: State)
    requires 1 <= i <= NPROC && Sweeping(s, i) && VisitEffect(s, Visit(s.cur, i), s1)
    requires !CanRun(s1.procs[Visit(s.cur, i)].status)
    ensures Sweeping(s1, i + 1) && !Latched(s.procs[Visit(s.cur, i)]) && s1.vm == s.vm
  {
    hide SoftTlb.Ok, ProcsOk, Pos, Visit, LatchOk;
    var k := Visit(s.cur, i);
    PosVisit(s.cur, i);
    forall r: nat, q: nat | Match(s1.procs, r, q) ensures i + 1 <= Pos(s.cur, q) < Pos(s.cur, r) {
      VisitPos(s.cur, q);
    }
    forall j | 0 <= j < NPROC && Pos(s.cur, j) < i + 1
      ensures !CanRun(s1.procs[j].status) && !Latched(s1.procs[j])
    {
      VisitPos(s.cur, j);
    }
  }

  // ----- The whole sweep

  /** The invariant whenever a process runs: it is the only one running, its pages are
      the ones in the user region, and senders are met before their receivers. */
  ghost predicate Inv(s: State) {
    && Core(s)
    && Ordered(s, 1)
    && s.procs[s.cur].status == Running
    && (forall k :: 0 <= k < NPROC && k != s.cur ==> s.procs[k].status != Running)
    && s.vm.curr == s.procs[s.cur].pid
  }

  lemma DispatchStep(s: State, i: nat)
    requires 1 <= i <= NPROC && Core(s) && Ordered(s, i)
    requires forall j :: 0 <= j < NPROC ==> s.procs[j].status != Running
    requires CanRun(s.procs[Visit(s.cur, i)].status)
    ensures
      var k := Visit(s.cur, i);
      var s' := Dispatch(s, k);
      && Inv(s') && s'.cur == k && s'.lastPid == s.lastPid
      && (forall j :: 0 <= j < NPROC && j != k ==> s'.procs[j] == s.procs[j])
      && s'.procs[k].pid == s.procs[k].pid && s'.procs[k].call == s.procs[k].call
      && s'.procs[k].ctx == (if s.procs[k].status == Ready then Entry(s.procs[k]).ctx else s.procs[k].ctx)
      && Abs(s'.vm) == Abs(s.vm)
  {
    hide Abs, SoftTlb.Ok, Pos, Visit, Switched;
    PosVisit(s.cur, i);
    var k := Visit(s.cur, i);
    var s' := Dispatch(s, k);
    SwitchInvisible(s.vm, s.procs[k].pid);
    assert forall j :: 0 <= j < NPROC && j != k ==> s'.procs[j] == s.procs[j];
    assert ProcsOk(s'.procs, s'.lastPid) by { RunningOk(s.procs, s.lastPid, k, s'.procs); }
    forall r: nat, q: nat | Match(s'.procs, r, q) ensures 1 <= Pos(k, q) < Pos(k, r) {
      assert Match(s.procs, r, q);
      VisitPos(s.cur, q);
      PosMove(s.cur, k, q);
      PosMove(s.cur, k, r);
    }
  }

  lemma RunningOk(ps: seq<Process>, lastPid: nat, k: nat, ps': seq<Process>)
    requires ProcsOk(ps, lastPid) && k < NPROC == |ps'| && CanRun(ps[k].status)
    requires forall j :: 0 <= j < NPROC && j != k ==> ps'[j] == ps[j]
    requires ps'[k].pid == ps[k].pid && ps'[k].call == ps[k].call && ps'[k].status == Running
    ensures ProcsOk(ps', lastPid)
  {
    forall j | 0 <= j < NPROC && Latched(ps'[j]) ensures LatchOk(ps', j) {
      assert LatchOk(ps, j);
      SameFind(ps, ps', ps[j].call.sender);
    }
  }

  /** Slots change during a sweep only by being latched, by a sender of the start. */
  ghost predicate Drift(ps: seq<Process>, ps': seq<Process>) {
    && |ps'| == |ps|
    && (forall j :: 0 <= j < |ps| ==> ps'[j] == ps[j] || GotLatched(ps, j, ps'[j]))
    && (forall r: nat, q: nat :: Match(ps', r, q) ==> Match(ps, r, q))
  }

  ghost predicate GotLatched(ps: seq<Process>, j: nat, p: Process)
    requires j < |ps|
  {
    exists q: nat :: Match(ps, j, q) && p == Latch(ps[j], ps[q])
  }

  lemma VisitDrift(ps: seq<Process>, s: State, k: nat, s1: State)
    requires Core(s) && k < NPROC && VisitEffect(s, k, s1) && !Latched(s.procs[k])
    requires Drift(ps, s.procs)
    ensures Drift(ps, s1.procs)
  {
    hide SoftTlb.Ok, ProcsOk;
    forall j | 0 <= j < |ps| ensures s1.procs[j] == ps[j] || GotLatched(ps, j, s1.procs[j]) {
      if Match(s.procs, j, k) {
        assert Match(ps, j, k);
        assert s.procs[k] == ps[k] && s.procs[j] == ps[j];
      }
    }
  }

  /** A sweep that succeeds: some visits that change nothing but latches, then one visit
      after which the slot can run and is dispatched. */
  lemma {:induction false} SweepShape(s0: State, s: State, i: nat) returns (mid: State, n: nat)
    requires 1 <= i <= NPROC + 1 && Sweeping(s, i) && Sweep(s, i).Ok?
    requires Drift(s0.procs, s.procs)
    ensures i <= n <= NPROC && Sweeping(mid, n) && Drift(s0.procs, mid.procs) && mid == s.(procs := mid.procs)
    ensures Retry(mid, n).Ok? && VisitEffect(mid, Visit(s.cur, n), Retry(mid, n).value)
    ensures CanRun(Retry(mid, n).value.procs[Visit(s.cur, n)].status)
    ensures Sweep(s, i).value == Dispatch(Retry(mid, n).value, Visit(s.cur, n))
    decreases NPROC + 1 - i
  {
    hide Core, Sane, Sweeping, VisitEffect, Drift, Retry, Dispatch, Visit;
    SweepingCore(s, i);
    VisitStep(s, i);
    var s1 := Retry(s, i).value;
    EffectCore(s, Visit(s.cur, i), s1);
    if CanRun(s1.procs[Visit(s.cur, i)].status) {
      return s, i;
    }
    SweepOn(s, i, s1);
    VisitDrift(s0.procs, s, Visit(s.cur, i), s1);
    mid, n := SweepShape(s0, s1, i + 1);
  }

  lemma SweepingCore(s: State, i: nat)
    requires Sweeping(s, i)
    ensures Core(s) && Sane(s) && |s.procs| == NPROC && Visit(s.cur, i) < NPROC
  {
  }

  lemma EffectCore(s: State, k: nat, s1: State)
    requires Core(s) && k < NPROC && VisitEffect(s, k, s1)
    ensures Core(s1) && Sane(s1) && |s1.procs| == NPROC && s1.cur == s.cur && s1.lastPid == s.lastPid
  {
  }

  lemma AfterVisit(s: State, i: nat, s1: State)
    requires 1 <= i <= NPROC && Sweeping(s, i) && VisitEffect(s, Visit(s.cur, i), s1)
    ensures Core(s1) && Ordered(s1, i) && s1.cur == s.cur
    ensures forall k :: 0 <= k < NPROC ==> s1.procs[k].status != Running
  {
    hide SoftTlb.Ok, ProcsOk, Pos, Visit, LatchOk;
    PosVisit(s.cur, i);
  }

  /** A sweep that ends with a dispatch restores the invariant. */
  lemma SweepInv(s: State)
    requires Sweeping(s, 1) && Sweep(s, 1).Ok?
    ensures Inv(Sweep(s, 1).value)
  {
    hide Core, Sweeping, VisitEffect, Retry, Dispatch, Visit, Abs, Inv, Sweep, Ordered;
    var mid, n := SweepShape(s, s, 1);
    SweepingCore(mid, n);
    AfterVisit(mid, n, Retry(mid, n).value);
    DispatchStep(Retry(mid, n).value, n);
  }

  // ----- Nobody is missed

  /** Slot k could go on: it is ready, or its receive is latched, or a sender matches. */
  ghost predicate Wanted(ps: seq<Process>, k: nat) {
    && k < |ps|
    && (ps[k].status == Ready || ps[k].status == Runnable || Latched(ps[k]) || exists q: nat :: Match(ps, k, q))
  }

  /** A visit to another slot leaves a wanted slot wanted. */
  lemma StillWanted(s: State, v: nat, s1: State, k: nat)
    requires Core(s) && v < NPROC && VisitEffect(s, v, s1)
    requires Wanted(s.procs, k) && k != v
    ensures Wanted(s1.procs, k)
  {
    hide SoftTlb.Ok, ProcsOk, LatchOk;
    if q: nat :| Match(s.procs, k, q) {
      if q == v {
        assert !Latched(s.procs[v]);
        assert Latched(s1.procs[k]);
      } else if Latched(s.procs[v]) {
        OtherSender(s, v, k, q);
        assert Match(s1.procs, k, q);
      } else if Match(s.procs, k, v) {
        assert Latched(s1.procs[k]);
      } else {
        assert s1.procs[q] == s.procs[q];
        assert Match(s1.procs, k, q);
      }
    }
  }

  /** The sender freed by a completed receive was sending to that receiver only. */
  lemma OtherSender(s: State, v: nat, k: nat, q: nat)
    requires Core(s) && v < NPROC && Latched(s.procs[v]) && LatchOk(s.procs, v)
    requires Match(s.procs, k, q)
    ensures k != v && q != Find(s.procs, s.procs[v].call.sender, 0) && q != v
    ensures k != Find(s.procs, s.procs[v].call.sender, 0)
  {
    hide SoftTlb.Ok;
  }

  /** At its own visit a wanted slot can run. */
  lemma WantedRuns(s: State, i: nat, s1: State)
    requires 1 <= i <= NPROC && Sweeping(s, i) && VisitEffect(s, Visit(s.cur, i), s1)
    requires Wanted(s.procs, Visit(s.cur, i))
    ensures CanRun(s1.procs[Visit(s.cur, i)].status)
  {
    hide SoftTlb.Ok, ProcsOk, Pos, Visit, LatchOk;
    PosVisit(s.cur, i);
  }

  /** A sweep stops at or before any wanted slot that it has not passed; if it stops
      before it, the slot is still wanted. */
  lemma {:induction false} SweepFinds(s: State, i: nat, k: nat)
    requires 1 <= i <= NPROC + 1 && Sweeping(s, i)
    requires Wanted(s.procs, k) && k < NPROC && i <= Pos(s.cur, k)
    ensures Sweep(s, i) != Fatal(NoProcess)
    ensures Sweep(s, i).Ok? ==>
      var s' := Sweep(s, i).value;
      && s'.cur < NPROC && Pos(s.cur, s'.cur) <= Pos(s.cur, k)
      && (s'.cur == k || Wanted(s'.procs, k))
    decreases NPROC + 1 - i
  {
    hide Core, Sane, Sweeping, VisitEffect, Retry, Dispatch, Visit, Pos, Wanted;
    SweepingCore(s, i);
    VisitPos(s.cur, k);
    PosVisit(s.cur, i);
    if Retry(s, i).Fatal? {
      RetryReason(s, i);
    } else {
      var v, s1 := Visit(s.cur, i), Retry(s, i).value;
      VisitStep(s, i);
      EffectCore(s, v, s1);
      if k != v { StillWanted(s, v, s1, k); } else { WantedRuns(s, i, s1); }
      if CanRun(s1.procs[v].status) {
        AfterVisit(s, i, s1);
        DispatchKeepsWanted(s1, i, k);
      } else {
        SweepOn(s, i, s1);
        SweepFinds(s1, i + 1, k);
      }
    }
  }

  lemma RetryReason(s: State, i: nat)
    requires Core(s) && Retry(s, i).Fatal?
    ensures Retry(s, i).reason == UnknownReceiver
  {
    hide SoftTlb.Ok;
  }

  lemma DispatchKeepsWanted(s: State, i: nat, k: nat)
    requires 1 <= i <= NPROC && Core(s) && Ordered(s, i) && CanRun(s.procs[Visit(s.cur, i)].status)
    requires forall j :: 0 <= j < NPROC ==> s.procs[j].status != Running
    requires k < NPROC && k != Visit(s.cur, i) ==> Wanted(s.procs, k)
    ensures Dispatch(s, Visit(s.cur, i)).cur == Visit(s.cur, i)
    ensures k < NPROC && k != Visit(s.cur, i) ==> Wanted(Dispatch(s, Visit(s.cur, i)).procs, k)
  {
    hide Core, Ordered, Visit, Dispatch, Abs, Inv;
    DispatchSizes(s, i);
    DispatchStep(s, i);
    var v := Visit(s.cur, i);
    var s' := Dispatch(s, v);
    if k < NPROC && k != v {
      if q: nat :| Match(s.procs, k, q) { assert q != v; assert Match(s'.procs, k, q); }
    }
  }

  lemma DispatchSizes(s: State, i: nat)
    requires Core(s) && CanRun(s.procs[Visit(s.cur, i)].status)
    ensures Sane(s) && Visit(s.cur, i) < NPROC == |s.procs| == |Dispatch(s, Visit(s.cur, i)).procs|
  {
  }

  /** With nobody wanted, a sweep changes nothing and dispatches nobody. */
  lemma {:induction false} SweepNothing(s: State, i: nat)
    requires 1 <= i <= NPROC + 1 && Sweeping(s, i)
    requires forall k: nat :: !Wanted(s.procs, k)
    ensures Sweep(s, i).Fatal?
    decreases NPROC + 1 - i
  {
    hide Core, Sane, Sweeping, VisitEffect, Retry, Dispatch, Visit;
    SweepingCore(s, i);
    if i <= NPROC && Retry(s, i).Ok? {
      VisitStep(s, i);
      var v, s1 := Visit(s.cur, i), Retry(s, i).value;
      EffectCore(s, v, s1);
      NothingMoves(s, i, s1);
      SweepOn(s, i, s1);
      SweepNothing(s1, i + 1);
    }
  }

  lemma NothingMoves(s: State, i: nat, s1: State)
    requires 1 <= i <= NPROC && Sweeping(s, i) && VisitEffect(s, Visit(s.cur, i), s1)
    requires forall k: nat :: !Wanted(s.procs, k)
    ensures s1 == s && !CanRun(s1.procs[Visit(s.cur, i)].status)
  {
    hide SoftTlb.Ok, ProcsOk, Pos, Visit, LatchOk, Ordered;
    PosVisit(s.cur, i);
    assert !Wanted(s.procs, Visit(s.cur, i));
    forall j | 0 <= j < NPROC ensures s1.procs[j] == s.procs[j] {
      assert !Wanted(s.procs, j);
    }
    assert s1.procs == s.procs;
  }

  /** Nobody else is dispatched: the slot was wanted when the sweep began. */
  lemma SweepWants(s: State)
    requires Sweeping(s, 1) && Sweep(s, 1).Ok?
    ensures Wanted(s.procs, Sweep(s, 1).value.cur)
  {
    hide Core, Sweeping, VisitEffect, Retry, Sweep, Drift, Wanted, Visit;
    SweepingCore(s, 1);
    assert Drift(s.procs, s.procs) by { SameDrift(s.procs); }
    var mid, n := SweepShape(s, s, 1);
    SweepingCore(mid, n);
    TakenWanted(s.procs, mid, Visit(s.cur, n), Retry(mid, n).value);
  }

  lemma SameDrift(ps: seq<Process>)
    ensures Drift(ps, ps)
  {
  }

  /** Slot k, which can run after its visit, could run, was latched or had a match at first. */
  lemma TakenWanted(ps: seq<Process>, mid: State, k: nat, s1: State)
    requires Drift(ps, mid.procs) && Core(mid) && k < NPROC && VisitEffect(mid, k, s1)
    requires CanRun(s1.procs[k].status)
    ensures Wanted(ps, k)
  {
    hide SoftTlb.Ok, ProcsOk, LatchOk;
    if Latched(mid.procs[k]) && mid.procs[k] != ps[k] {
      assert GotLatched(ps, k, mid.procs[k]);
    }
  }

  /** No false deadlock: a full sweep gives up for want of a process only if nothing is
      ready, no receive is latched and no send matches a receive. If it dispatches, then
      the first slot in its order for which one of these holds. */
  lemma DeadlockExact(s: State)
    requires Sweeping(s, 1)
    ensures Sweep(s, 1) == Fatal(NoProcess) ==> forall k: nat :: !Wanted(s.procs, k)
    ensures Sweep(s, 1).Ok? ==> FirstWanted(s.procs, s.cur, Sweep(s, 1).value.cur)
    ensures Sweep(s, 1).Fatal? ==> Sweep(s, 1).reason == NoProcess || Sweep(s, 1).reason == UnknownReceiver
  {
    hide Core, Sweeping, Wanted, Sweep, Pos;
    SweepingCore(s, 1);
    forall k: nat | Wanted(s.procs, k)
      ensures Sweep(s, 1) != Fatal(NoProcess)
      ensures k < NPROC && (Sweep(s, 1).Ok? ==>
        Sweep(s, 1).value.cur < NPROC && Pos(s.cur, Sweep(s, 1).value.cur) <= Pos(s.cur, k))
    {
      WantedSlot(s.procs, k);
      VisitPos(s.cur, k);
      SweepFinds(s, 1, k);
    }
    if Sweep(s, 1).Ok? { SweepWants(s); }
    SweepReason(s, 1);
  }

  /** Slot c is the first wanted one after slot `cur`, in cyclic order. */
  ghost predicate FirstWanted(ps: seq<Process>, cur: nat, c: nat)
    requires cur < NPROC == |ps|
  {
    Wanted(ps, c) && forall k: nat :: Wanted(ps, k) ==> Pos(cur, c) <= Pos(cur, k)
  }

  lemma WantedSlot(ps: seq<Process>, k: nat)
    requires Wanted(ps, k)
    ensures k < |ps| && (CanRun(ps[k].status) || ps[k].status == Pending)
  {
  }

  lemma {:induction false} SweepReason(s: State, i: nat)
    requires 1 <= i <= NPROC + 1 && Sweeping(s, i)
    ensures Sweep(s, i).Fatal? ==> Sweep(s, i).reason == NoProcess || Sweep(s, i).reason == UnknownReceiver
    decreases NPROC + 1 - i
  {
    hide Core, Sane, Sweeping, VisitEffect, Retry, Dispatch, Visit;
    SweepingCore(s, i);
    if i <= NPROC {
      if Retry(s, i).Fatal? {
        RetryReason(s, i);
      } else {
        VisitStep(s, i);
        var v, s1 := Visit(s.cur, i), Retry(s, i).value;
        EffectCore(s, v, s1);
        if !CanRun(s1.procs[v].status) {
          SweepOn(s, i, s1);
          SweepReason(s1, i + 1);
        }
      }
    }
  }
}
