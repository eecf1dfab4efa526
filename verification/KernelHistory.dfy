/** Message passing over whole runs. Every system call gets a ticket; every completed
    receive is recorded with the ticket of the send it took. In every run each delivery
    pairs one send with one receive that accepts it, no ticket is delivered twice, none
    is lost, and the receiver finds on its argument page the words the sender had put on
    its own. */
module KernelHistory {
  import opened Basics
  import opened SoftTlb
  import opened KernelModel
  import opened KernelSweep
  import opened KernelRuns

  /** A system call as it was made: the caller, and its argument page at the trap. Words 0
      to 2 of the page are the type, the sender and the receiver; the message follows. */
  datatype Ticket = Ticket(pid: int, page: Page)

  /** A completed receive: the tickets of the send and of the receive, and the argument page
      the receiver sees when it resumes. */
  datatype Delivery = Delivery(send: nat, recv: nat, page: Page)

  /** `open[k]` is the ticket slot k is blocked on, or -1. */
  datatype History = History(calls: seq<Ticket>, open: seq<int>, done: seq<Delivery>)

  // ----- What is recorded

  /** The argument page of the running process, in its private memory. */
  ghost function OwnPage(s: State): Page
    requires Sane(s) && HasArg(s.vm, s.procs[s.cur].pid)
  {
    Abs(s.vm)[(s.procs[s.cur].pid, CALL_PAGE)]
  }

  ghost function Opened(h: History, s: State): History
    requires Sane(s) && HasArg(s.vm, s.procs[s.cur].pid) && s.cur < |h.open|
  {
    History(h.calls + [Ticket(s.procs[s.cur].pid, OwnPage(s))], h.open[s.cur := |h.calls|], h.done)
  }

  function Closed(h: History, r: nat, q: nat, page: Page): History {
    if r < |h.open| && q < |h.open| && h.open[r] >= 0 && h.open[q] >= 0 then
      History(h.calls, h.open[r := -1][q := -1], h.done + [Delivery(h.open[q], h.open[r], page)])
    else h
  }

  /** The record after a step: a system call opens a ticket, and a trap that resumes a
      process that was blocked closes its ticket and that of its sender. */
  ghost function Record(h: History, s: State, a: Action, s': State): History
    requires Sane(s) && s.procs[s.cur].pid > 0 && |h.open| == NPROC && Sane(s')
    requires HasArg(s.vm, s.procs[s.cur].pid) && HasArg(s'.vm, s'.procs[s'.cur].pid)
  {
    var h1 := if a.Ecall? then Opened(h, s) else h;
    if IsTrap(a) && Launch(s, a).Ok? && s'.cur < |Launch(s, a).value.procs| &&
       Launch(s, a).value.procs[s'.cur].status == Pending
    then Closed(h1, s'.cur, Find(s'.procs, s'.procs[s'.cur].call.sender, 0), OwnPage(s'))
    else h1
  }

  // ----- What the record satisfies

  /** Slot p is blocked on that call: its record is what the page said, or the message has
      come in meanwhile, from a sender the page names. */
  predicate TicketOk(t: Ticket, p: Process) {
    && t.pid == p.pid
    && (Latched(p) ==>
          && t.page[0] == SYS_RECV && (t.page[1] == GPID_ALL || t.page[1] == p.call.sender)
          && t.page[2] == p.call.receiver)
    && (!Latched(p) ==> p.call == Call(t.page[0], t.page[1], t.page[2], t.page[3..3 + MSG_WORDS], false))
  }

  /** The page as a process finds it after a call that went as the record says. */
  predicate Shows(page: Page, c: Call) {
    && page[0] == c.kind && page[1] == c.sender && page[2] == c.receiver
    && page[3..3 + MSG_WORDS] == c.content && page[3 + MSG_WORDS] == (if c.done then 1 else 0)
  }

  /** The receive accepted the send, and the receiver's page carries the sender's words. */
  predicate DeliveryOk(calls: seq<Ticket>, d: Delivery) {
    && d.send < |calls| && d.recv < |calls|
    && var snd, rcv := calls[d.send], calls[d.recv];
    && snd.page[0] == SYS_SEND && rcv.page[0] == SYS_RECV
    && snd.page[2] == rcv.pid
    && (rcv.page[1] == GPID_ALL || rcv.page[1] == snd.pid)
    && d.page[0] == SYS_RECV && d.page[1] == snd.pid && d.page[2] == rcv.page[2]
    && d.page[3..3 + MSG_WORDS] == snd.page[3..3 + MSG_WORDS] && d.page[3 + MSG_WORDS] == 1
  }

  predicate Closes(d: Delivery, t: int) { d.send == t || d.recv == t }

  /** Ticket t is settled by some delivery. */
  ghost predicate Settled(done: seq<Delivery>, t: int) {
    exists i :: 0 <= i < |done| && Closes(done[i], t)
  }

  /** Open tickets are exactly those of the blocked slots, each its own. */
  ghost predicate OpenOk(h: History, ps: seq<Process>) {
    && |h.open| == |ps|
    && (forall k :: 0 <= k < |ps| ==> -1 <= h.open[k] < |h.calls| && (h.open[k] >= 0 <==> ps[k].status == Pending))
    && (forall k :: 0 <= k < |ps| && h.open[k] >= 0 ==> TicketOk(h.calls[h.open[k]], ps[k]))
    && (forall j, k :: 0 <= j < k < |ps| && h.open[j] >= 0 ==> h.open[j] != h.open[k])
  }

  /** Deliveries are sound and settle each ticket once, never an open one. */
  ghost predicate DoneOk(h: History) {
    && (forall i :: 0 <= i < |h.done| ==> DeliveryOk(h.calls, h.done[i]))
    && (forall i, j :: 0 <= i < j < |h.done| ==>
          !Closes(h.done[j], h.done[i].send) && !Closes(h.done[j], h.done[i].recv))
    && (forall k :: 0 <= k < |h.open| && h.open[k] >= 0 ==> !Settled(h.done, h.open[k]))
  }

  /** Nothing is lost: a ticket is settled, or somebody is still blocked on it. */
  ghost predicate NothingLost(h: History) {
    forall t :: 0 <= t < |h.calls| ==> t in h.open || Settled(h.done, t)
  }

  ghost predicate HistOk(h: History, ps: seq<Process>) {
    OpenOk(h, ps) && DoneOk(h) && NothingLost(h)
  }

  // ----- Opening a ticket

  lemma OpenStep(h: History, ps: seq<Process>, k: nat, p: Process, t: Ticket)
    requires HistOk(h, ps) && k < |ps| && ps[k].status != Pending
    requires p.status == Pending && !Latched(p) && TicketOk(t, p)
    ensures HistOk(History(h.calls + [t], h.open[k := |h.calls|], h.done), ps[k := p])
  {
    var h' := History(h.calls + [t], h.open[k := |h.calls|], h.done);
    assert h.open[k] == -1;
    forall i | 0 <= i < |h.done| ensures DeliveryOk(h'.calls, h.done[i]) && !Closes(h.done[i], |h.calls|) {
      assert DeliveryOk(h.calls, h.done[i]);
    }
    forall u | 0 <= u < |h'.calls| ensures u in h'.open || Settled(h.done, u) {
      if u == |h.calls| {
        assert h'.open[k] == u;
      } else if u in h.open {
        var j :| 0 <= j < |h.open| && h.open[j] == u;
        assert h'.open[j] == u;
      }
    }
  }

  /** Slots that keep what tickets talk about: pid, and for blocked slots the record. */
  lemma KeepStep(h: History, ps: seq<Process>, ps': seq<Process>)
    requires HistOk(h, ps) && |ps'| == |ps|
    requires forall k :: 0 <= k < |ps| ==> (ps'[k].status == Pending <==> ps[k].status == Pending)
    requires forall k :: 0 <= k < |ps| && ps[k].status == Pending ==> ps'[k] == ps[k] || GotLatched(ps, k, ps'[k])
    ensures HistOk(h, ps')
  {
    forall k | 0 <= k < |ps| && h.open[k] >= 0 ensures TicketOk(h.calls[h.open[k]], ps'[k]) {
      assert TicketOk(h.calls[h.open[k]], ps[k]);
    }
  }

  // ----- Closing two tickets

  /** Slot r holds the message of slot q, which is blocked on sending it. */
  predicate Handover(ps: seq<Process>, r: nat, q: nat) {
    && r < |ps| && q < |ps| && r != q
    && Latched(ps[r]) && Sending(ps[q])
    && ps[r].call.sender == ps[q].pid && ps[q].call.receiver == ps[r].pid
    && ps[q].call.content == ps[r].call.content
  }

  lemma CloseStep(h: History, ps: seq<Process>, r: nat, q: nat, page: Page, ps': seq<Process>)
    requires HistOk(h, ps) && Handover(ps, r, q) && |ps'| == |ps|
    requires Shows(page, ps[r].call)
    requires ps'[r].status != Pending && ps'[q].status != Pending
    requires forall k :: 0 <= k < |ps| && k != r && k != q ==> ps'[k] == ps[k]
    ensures HistOk(Closed(h, r, q, page), ps')
  {
    var d := HandoverOk(h, ps, r, q, page);
    assert Closed(h, r, q, page) == History(h.calls, h.open[r := -1][q := -1], h.done + [d]);
    CloseDone(h, r, q, d);
    CloseLost(h, r, q, d);
    hide TicketOk, DoneOk, NothingLost, DeliveryOk;
  }

  /** The two tickets make a sound delivery. */
  lemma HandoverOk(h: History, ps: seq<Process>, r: nat, q: nat, page: Page) returns (d: Delivery)
    requires OpenOk(h, ps) && Handover(ps, r, q) && Shows(page, ps[r].call)
    ensures h.open[r] >= 0 && h.open[q] >= 0 && h.open[r] != h.open[q]
    ensures d == Delivery(h.open[q], h.open[r], page) && DeliveryOk(h.calls, d)
  {
    d := Delivery(h.open[q], h.open[r], page);
    assert TicketOk(h.calls[h.open[r]], ps[r]) && TicketOk(h.calls[h.open[q]], ps[q]);
  }

  lemma CloseLost(h: History, r: nat, q: nat, d: Delivery)
    requires NothingLost(h) && r < |h.open| && q < |h.open| && d.send == h.open[q] && d.recv == h.open[r]
    ensures NothingLost(History(h.calls, h.open[r := -1][q := -1], h.done + [d]))
  {
    var h' := History(h.calls, h.open[r := -1][q := -1], h.done + [d]);
    forall t: int | Settled(h.done, t) ensures Settled(h'.done, t) {
      var i :| 0 <= i < |h.done| && Closes(h.done[i], t);
      assert Closes(h'.done[i], t);
    }
    assert Closes(h'.done[|h.done|], h.open[q]) && Closes(h'.done[|h.done|], h.open[r]);
    forall t | 0 <= t < |h'.calls| ensures t in h'.open || Settled(h'.done, t) {
      if t in h.open && t != h.open[r] && t != h.open[q] {
        var j :| 0 <= j < |h.open| && h.open[j] == t;
        assert h'.open[j] == t;
      }
    }
  }

  lemma CloseDone(h: History, r: nat, q: nat, d: Delivery)
    requires DoneOk(h) && r < |h.open| && q < |h.open| && h.open[r] >= 0 && h.open[q] >= 0
    requires d.send == h.open[q] && d.recv == h.open[r] && DeliveryOk(h.calls, d)
    requires forall j, k :: 0 <= j < k < |h.open| && h.open[j] >= 0 ==> h.open[j] != h.open[k]
    ensures DoneOk(History(h.calls, h.open[r := -1][q := -1], h.done + [d]))
  {
    var h' := History(h.calls, h.open[r := -1][q := -1], h.done + [d]);
    assert !Settled(h.done, h.open[r]) && !Settled(h.done, h.open[q]);
    forall i | 0 <= i < |h.done| ensures !Closes(d, h.done[i].send) && !Closes(d, h.done[i].recv) {
      assert !Closes(h.done[i], h.open[r]) && !Closes(h.done[i], h.open[q]);
    }
    forall k | 0 <= k < |h'.open| && h'.open[k] >= 0 ensures !Settled(h'.done, h'.open[k]) {
      assert h'.open[k] == h.open[k] && !Closes(d, h.open[k]) && !Settled(h.done, h.open[k]);
    }
  }

  // ----- Memory

  /** Every process that was loaded has its argument page. */
  ghost predicate ArgsOk(s: State)
    requires SoftTlb.Ok(s.vm)
  {
    forall k :: 0 <= k < |s.procs| && s.procs[k].status != Unused && s.procs[k].status != Loading ==>
      (s.procs[k].pid, CALL_PAGE) in Abs(s.vm)
  }

  /** Copying the record back changes the receiver's argument page and no other page of
      any process, across the switch of address spaces. */
  lemma DeliverMeaning(vm: Vm<Page>, p: Process)
    requires HasArg(vm, p.pid) && |p.call.content| == MSG_WORDS
    ensures SoftTlb.Ok(Deliver(vm, p)) && Deliver(vm, p).curr == p.pid
    ensures Abs(Deliver(vm, p)) == Abs(vm)[(p.pid, CALL_PAGE) := WriteCall(Abs(vm)[(p.pid, CALL_PAGE)], p.call)]
  {
    hide Abs, Switched, WriteCall;
    SwitchInvisible(vm, p.pid);
    var vm1 := Switched(vm, p.pid);
    assert UserPage(CALL_PAGE);
    ReadsOwn(vm1);
    var i := KeyFrame(vm1, p.pid, CALL_PAGE);
    StoreStep(vm1, i, CALL_PAGE, WriteCall(vm1.ram[At(CALL_PAGE)], p.call));
  }

  lemma KeyFrame(vm: Vm<Page>, pid: int, v: nat) returns (i: nat)
    requires SoftTlb.Ok(vm) && (pid, v) in Abs(vm)
    ensures Stands(vm, i, pid, v)
  {
    hide Abs;
    assert IsKey(vm.info, (pid, v));
    i :| i < |vm.info| && Held(vm.info[i]) && Key(vm.info[i]) == (pid, v);
  }

  /** What a trap does to memory: nothing, or the one delivery. The resumed receiver
      finds the delivered record on its own argument page. */
  lemma TrapMemory(s: State, a: Action, mid: State)
    requires Inv(s) && IsTrap(a) && Sane(s) && Legal(s, a) && Next(s, a).Ok? && Launch(s, a).Ok?
    requires ArgsOk(s) && Ending(Launch(s, a).value, mid, Next(s, a).value)
    ensures
      var s' := Next(s, a).value;
      var p := mid.procs[s'.cur];
      && ArgsOk(s')
      && (!Latched(p) ==> Abs(s'.vm) == Abs(s.vm))
      && (Latched(p) ==>
            && (p.pid, CALL_PAGE) in Abs(s.vm)
            && Abs(s'.vm) == Abs(s.vm)[(p.pid, CALL_PAGE) := s'.vm.ram[At(CALL_PAGE)]]
            && Shows(s'.vm.ram[At(CALL_PAGE)], p.call)
            && s'.vm.ram[At(CALL_PAGE)][CALL_WORDS..] == Abs(s.vm)[(p.pid, CALL_PAGE)][CALL_WORDS..])
  {
    hide Abs, SoftTlb.Ok, Deliver, Launch, Next, Drift, CallsOk, PidsOk, WriteCall, Ordered;
    var s', l := Next(s, a).value, Launch(s, a).value;
    var k := s'.cur;
    var p := mid.procs[k];
    LaunchMemory(s, a);
    EndingStatus(l, mid, s');
    assert s'.vm.curr == p.pid by { NextInv(s, a); }
    if Latched(p) {
      DeliverMeaning(l.vm, p);
      assert UserPage(CALL_PAGE);
      ReadsOwn(s'.vm);
    }
  }

  lemma LaunchMemory(s: State, a: Action)
    requires Inv(s) && IsTrap(a) && Sane(s) && Launch(s, a).Ok?
    ensures |Launch(s, a).value.procs| == NPROC && Launch(s, a).value.vm == s.vm
    ensures forall j :: 0 <= j < NPROC ==>
      && Launch(s, a).value.procs[j].pid == s.procs[j].pid
      && (j != s.cur ==> Launch(s, a).value.procs[j].status == s.procs[j].status)
      && (Launch(s, a).value.procs[s.cur].status == if a.Tick? then Runnable else Pending)
  {
    hide SoftTlb.Ok, ProcsOk, Ordered, Sweeping, Launch, LatchOk;
    if a.Tick? { TickStart(s, a); } else { CallStart(s, a); }
  }

  /** A trap never takes a slot from loading or unused to anything else, or back. */
  lemma EndingStatus(l: State, mid: State, s': State)
    requires Ending(l, mid, s')
    ensures forall j :: 0 <= j < NPROC ==>
      && s'.procs[j].pid == l.procs[j].pid
      && (s'.procs[j].status == l.procs[j].status
          || (l.procs[j].status != Unused && l.procs[j].status != Loading))
  {
    hide SoftTlb.Ok, Abs, Delivered, ProcsOk;
    forall j | 0 <= j < NPROC
      ensures s'.procs[j].pid == l.procs[j].pid
      ensures s'.procs[j].status == l.procs[j].status || (l.procs[j].status != Unused && l.procs[j].status != Loading)
    {
      DriftStatus(l.procs, mid.procs, j);
    }
  }

  // ----- Every step

  /** The state and the record of a run. */
  ghost predicate Good(s: State, h: History) {
    Inv(s) && ArgsOk(s) && HistOk(h, s.procs)
  }

  /** The running process has its argument page. */
  ghost predicate HasOwn(s: State) {
    Sane(s) && s.procs[s.cur].pid > 0 && HasArg(s.vm, s.procs[s.cur].pid)
  }

  lemma GoodOwn(s: State, h: History)
    requires Good(s, h)
    ensures HasOwn(s)
  {
    hide HistOk;
  }

  /** The record of a call is, word for word, what the caller has on its own argument page. */
  lemma SentFromOwnPage(s: State)
    requires Inv(s) && HasOwn(s)
    ensures
      var p := Abs(s.vm)[(s.procs[s.cur].pid, CALL_PAGE)];
      && Request(s).kind == p[0] && Request(s).sender == p[1] && Request(s).receiver == p[2]
      && Request(s).content == p[3..3 + MSG_WORDS] && !Request(s).done
  {
    hide Abs;
    assert UserPage(CALL_PAGE);
    ReadsOwn(s.vm);
  }

  lemma CallOpens(s: State, h: History, a: Action)
    requires Good(s, h) && a.Ecall? && Sane(s) && Launch(s, a).Ok?
    ensures HasOwn(s) && HistOk(Opened(h, s), Launch(s, a).value.procs)
  {
    hide SoftTlb.Ok, Request, HistOk, Ordered, ProcsOk, Launch, Sweeping, ArgsOk, LatchOk;
    HistSizes(h, s.procs);
    CallStart(s, a);
    RequestFacts(s);
    var b, l := s.(procs := s.procs[s.cur := Caller(s, a)]), Launch(s, a).value;
    GoodOwn(s, h);
    SentFromOwnPage(s);
    OpenStep(h, s.procs, s.cur, Caller(s, a), Ticket(s.procs[s.cur].pid, OwnPage(s)));
    SameDrift(b.procs);
    VisitDrift(b.procs, b, s.cur, l);
    forall k | 0 <= k < NPROC ensures l.procs[k].status == b.procs[k].status {
      DriftStatus(b.procs, l.procs, k);
    }
    KeepStep(Opened(h, s), b.procs, l.procs);
  }

  lemma TickKeeps(s: State, h: History, a: Action)
    requires Good(s, h) && a.Tick? && Sane(s) && Launch(s, a).Ok?
    ensures HistOk(h, Launch(s, a).value.procs)
  {
    hide SoftTlb.Ok, HistOk, Ordered, ProcsOk, Launch, Sweeping, ArgsOk;
    TickStart(s, a);
    KeepStep(h, s.procs, Launch(s, a).value.procs);
  }

  /** From the start of the sweep to the dispatch. */
  lemma EndCloses(l: State, mid: State, s': State, h: History, page: Page)
    requires Ending(l, mid, s') && HistOk(h, l.procs) && Sane(s')
    requires Latched(mid.procs[s'.cur]) ==> Shows(page, mid.procs[s'.cur].call)
    ensures HistOk(if l.procs[s'.cur].status == Pending
                   then Closed(h, s'.cur, Find(s'.procs, s'.procs[s'.cur].call.sender, 0), page)
                   else h, s'.procs)
  {
    hide Abs, Delivered, HistOk, CallsOk, SlotsOk, SoftTlb.TableOk;
    forall k | 0 <= k < NPROC ensures mid.procs[k].status == l.procs[k].status {
      DriftStatus(l.procs, mid.procs, k);
    }
    KeepStep(h, l.procs, mid.procs);
    var r := s'.cur;
    var p := mid.procs[r];
    if Latched(p) {
      EndingStatus(l, mid, s');
      SameFind(mid.procs, s'.procs, p.call.sender);
      CloseStep(h, mid.procs, r, Find(mid.procs, p.call.sender, 0), page, s'.procs);
    } else {
      KeepStep(h, mid.procs, s'.procs);
    }
  }

  lemma TrapGood(s: State, h: History, a: Action)
    requires Good(s, h) && IsTrap(a) && Sane(s) && Legal(s, a) && Next(s, a).Ok?
    ensures HasOwn(s) && HasOwn(Next(s, a).value)
    ensures Good(Next(s, a).value, Record(h, s, a, Next(s, a).value))
  {
    hide Abs, SoftTlb.Ok, Launch, Next, HistOk, Closed, Drift, ProcsOk, Ordered, WriteCall, Delivered;
    var s' := Next(s, a).value;
    HistSizes(h, s.procs);
    NextInv(s, a);
    InvSane(s');
    var mid := TrapShape(s, a);
    TrapMemory(s, a, mid);
    var l := Launch(s, a).value;
    var h1 := if a.Ecall? then Opened(h, s) else h;
    if a.Ecall? { CallOpens(s, h, a); } else { TickKeeps(s, h, a); }
    EndCloses(l, mid, s', h1, OwnPage(s'));
  }

  lemma HistSizes(h: History, ps: seq<Process>)
    requires HistOk(h, ps)
    ensures |h.open| == |ps|
  {
  }

  /** A slot that is neither blocked nor running changes its status. */
  lemma IdleGood(s: State, h: History, pid: int, st: Status, vm: Vm<Page>)
    requires Good(s, h) && Sane(s) && Find(s.procs, pid, 0) < NPROC && (st == Ready || st == Unused)
    requires s.procs[Find(s.procs, pid, 0)].status != Pending && s.procs[Find(s.procs, pid, 0)].status != Running
    requires SoftTlb.Ok(vm) && vm.curr == s.vm.curr
    requires forall p :: (p, CALL_PAGE) in Abs(s.vm) && (st == Ready || p != pid) ==> (p, CALL_PAGE) in Abs(vm)
    requires st == Ready ==> (pid, CALL_PAGE) in Abs(vm)
    ensures Good(s.(procs := SetStatus(s.procs, pid, st), vm := vm), h)
  {
    hide Abs, SoftTlb.Ok, HistOk, CallsOk, Ordered, ArgsOk;
    var k := Find(s.procs, pid, 0);
    SetOne(s.procs, s.lastPid, k, st);
    IdleInv(s, k, st, vm);
    IdleArgs(s, k, st, vm);
    KeepStep(h, s.procs, s.procs[k := s.procs[k].(status := st)]);
  }

  lemma IdleArgs(s: State, k: nat, st: Status, vm: Vm<Page>)
    requires Inv(s) && ArgsOk(s) && k < NPROC && s.procs[k].pid != 0 && (st == Ready || st == Unused) && SoftTlb.Ok(vm)
    requires forall p :: (p, CALL_PAGE) in Abs(s.vm) && (st == Ready || p != s.procs[k].pid) ==>
      (p, CALL_PAGE) in Abs(vm)
    requires st == Ready ==> (s.procs[k].pid, CALL_PAGE) in Abs(vm)
    ensures ArgsOk(s.(procs := s.procs[k := s.procs[k].(status := st)], vm := vm))
  {
    hide Abs, SoftTlb.Ok, CallsOk, Ordered;
  }

  lemma SpawnGood(s: State, h: History)
    requires Good(s, h) && Sane(s) && Next(s, Spawn).Ok?
    ensures Good(Next(s, Spawn).value, h)
  {
    hide Abs, SoftTlb.Ok, HistOk, CallsOk, Ordered, PidsOk;
    SpawnInv(s);
    KeepStep(h, s.procs, Next(s, Spawn).value.procs);
  }

  lemma MemoryGood(s: State, h: History, step: VmStep<Page>)
    requires Good(s, h) && Sane(s) && Legal(s, Memory(step))
    ensures Good(Next(s, Memory(step)).value, h)
  {
    hide Abs, SoftTlb.Ok, HistOk, ProcsOk, Ordered, Exec, Allowed;
    StepRefines(s.vm, step);
    StepKeeps(s.vm, step);
    assert Inv(Next(s, Memory(step)).value) by { NextInv(s, Memory(step)); }
  }

  /** Steps other than traps touch no blocked slot and drop no argument page in use. */
  lemma QuietGood(s: State, h: History, a: Action)
    requires Good(s, h) && !IsTrap(a) && Sane(s) && Legal(s, a) && Next(s, a).Ok?
    ensures HasOwn(s) && HasOwn(Next(s, a).value) && |h.open| == NPROC
    ensures Good(Next(s, a).value, Record(h, s, a, Next(s, a).value))
  {
    hide Abs, SoftTlb.Ok, Good, ProcsOk, Exec, Allowed;
    GoodSizes(s, h);
    GoodOwn(s, h);
    NextInv(s, a);
    InvSane(Next(s, a).value);
    match a {
      case Spawn => SpawnGood(s, h);
      case MakeReady(pid) => IdleGood(s, h, pid, Ready, s.vm);
      case Exit(pid) =>
        FreeStep(s.vm, pid);
        IdleGood(s, h, pid, Unused, s.vm.(info := Freed(s.vm.info, pid)));
      case Memory(step) => MemoryGood(s, h, step);
    }
    GoodOwn(Next(s, a).value, h);
  }

  /** Memory steps other than frees drop no page. */
  lemma StepKeeps(vm: Vm<Page>, step: VmStep<Page>)
    requires SoftTlb.Ok(vm) && Allowed(vm, step) && !step.Free?
    ensures SoftTlb.Ok(Exec(vm, step)) && forall k :: k in Abs(vm) ==> k in Abs(Exec(vm, step))
  {
    hide Abs;
    StepRefines(vm, step);
  }

  lemma NextGood(s: State, h: History, a: Action)
    requires Good(s, h) && Sane(s) && Legal(s, a) && Next(s, a).Ok?
    ensures HasOwn(s) && HasOwn(Next(s, a).value) && |h.open| == NPROC
    ensures Good(Next(s, a).value, Record(h, s, a, Next(s, a).value))
  {
    hide Good, Next, Record;
    assert |h.open| == NPROC by { GoodSizes(s, h); }
    if IsTrap(a) { TrapGood(s, h, a); } else { QuietGood(s, h, a); }
  }

  lemma GoodSizes(s: State, h: History)
    requires Good(s, h)
    ensures |h.open| == NPROC && Inv(s) && Sane(s)
  {
  }

  // ----- Every run

  /** A run together with what is recorded along it, from a start with nothing blocked. */
  ghost predicate Recorded(ss: seq<State>, acts: seq<Action>, hs: seq<History>) {
    && Run(ss, acts) && |hs| == |ss|
    && Good(ss[0], hs[0]) && hs[0].calls == [] && hs[0].done == []
    && forall i {:trigger acts[i]} :: 0 <= i < |acts| ==> Noted(hs[i], ss[i], acts[i], ss[i + 1], hs[i + 1])
  }

  ghost predicate Noted(h: History, s: State, a: Action, s': State, h': History) {
    HasOwn(s) && HasOwn(s') && |h.open| == NPROC && h' == Record(h, s, a, s')
  }

  /** The slot of the first process, and an empty slot, when the kernel starts. */
  const EMPTY := Process(0, Call(0, 0, 0, seq(MSG_WORDS, i => 0), false), Unused, Context(0, 0, 0, []))

  function Boot(vm: Vm<Page>): State {
    State([EMPTY.(pid := 1, status := Running)] + seq(NPROC - 1, i => EMPTY), 0, 1, vm)
  }

  /** The kernel starts out right once the first process is loaded and switched to. */
  lemma BootGood(vm: Vm<Page>)
    requires SoftTlb.Ok(vm) && vm.curr == 1 && (1, CALL_PAGE) in Abs(vm)
    ensures Good(Boot(vm), History([], seq(NPROC, i => -1), []))
  {
    hide SoftTlb.Ok, Abs;
    var ps := Boot(vm).procs;
    assert forall k :: 1 <= k < NPROC ==> ps[k] == EMPTY;
  }

  /** Exactly-once rendezvous, for every state of every run. */
  lemma {:induction false} ExactlyOnce(ss: seq<State>, acts: seq<Action>, hs: seq<History>, i: nat)
    requires Recorded(ss, acts, hs) && i < |ss|
    ensures Good(ss[i], hs[i])
    decreases i
  {
    hide Good, Next, Record, Legal, Sane, Inv;
    if i > 0 {
      ExactlyOnce(ss, acts, hs, i - 1);
      assert Joined(ss[i - 1], acts[i - 1], ss[i]);
      assert Noted(hs[i - 1], ss[i - 1], acts[i - 1], ss[i], hs[i]);
      NextGood(ss[i - 1], hs[i - 1], acts[i - 1]);
    }
  }

}
