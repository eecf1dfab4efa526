/** The shell and the process server: which reply answers which command, over every
    interleaving with the applications they start. Sends and receives meet as the kernel
    makes them meet, one sender with one receiver. */
module Handshake {
  import opened Basics

  const CMD_OK: int := 0
  const CMD_ERROR: int := 1
  const PROC_SPAWN: int := 0
  const PROC_EXIT: int := 1
  const PROC_KILLALL: int := 2

  /** A command line of the shell, numbered as issued. */
  datatype Command = Command(id: nat, background: bool)

  datatype Request = Spawn(cmd: Command) | Exit(pid: int) | KillAll

  /** What a reply is about. It is not in the message, which has only the type. */
  datatype Origin = OfSpawn(id: nat) | OfExit(id: nat)
  datatype Reply = Reply(typ: int, origin: Origin)

  // ----- The server

  /** What one turn of the server's loop comes to. */
  datatype Served = Served(appPid: int, shellWaiting: bool, reply: Option<Reply>)

  /** `found`: the program is in the directory; `pid`: the next process number; `owner`: the
      command that started the sender of an exit. */
  function Serve(appPid: int, shellWaiting: bool, req: Request, found: bool, pid: int, owner: nat): Served {
    match req
    case Spawn(cmd) =>
      if found then Served(pid, !cmd.background, Some(Reply(CMD_OK, OfSpawn(cmd.id))))
      else Served(appPid, false, Some(Reply(CMD_ERROR, OfSpawn(cmd.id))))
    case Exit(sender) =>
      Served(appPid, shellWaiting,
             if shellWaiting && appPid == sender then Some(Reply(PROC_EXIT, OfExit(owner))) else None)
    case KillAll => Served(appPid, shellWaiting, None)
  }

  /** The server's message buffer. A request and a reply start with the same word, `typ`; the
      argument table of a request lies behind it. */
  datatype Buffer = Buffer(typ: int, argc: int, argv: seq<string>)

  /** The buffer holds a request, as a message of that sender. */
  predicate Carries(buf: Buffer, req: Request, sender: int) {
    match req
    case Spawn(cmd) =>
      && buf.typ == PROC_SPAWN && 1 <= buf.argc <= |buf.argv| == CMD_NARGS && buf.argv[buf.argc - 1] != []
      && (cmd.background <==> buf.argv[buf.argc - 1][0] == '&')
    case Exit(pid) => buf.typ == PROC_EXIT && sender == pid
    case KillAll => buf.typ == PROC_KILLALL
  }

  class Server {
    var appPid: int
    var shellWaiting: bool
    var buf: Buffer

    constructor (garbage: bool, buf: Buffer)
      ensures appPid == 0 && shellWaiting == garbage && this.buf == buf
    {
      appPid, shellWaiting, this.buf := 0, garbage, buf;
    }

    /** One turn of the loop on the request in the buffer, up to the reply. The reply is
        written over the request, and the argument table is read after that. `args` is the
        argument count of the process it starts and `freed` what it frees. It halts on a
        type that is none. */
    method Turn(sender: int, found: bool, pid: int, ghost req: Request, ghost owner: nat)
      returns (fatal: bool, reply: Option<int>, args: Option<int>, freed: Option<int>)
      requires PROC_SPAWN <= buf.typ <= PROC_KILLALL ==> Carries(buf, req, sender)
      modifies this
      ensures fatal <==> !(PROC_SPAWN <= old(buf).typ <= PROC_KILLALL)
      ensures !fatal ==>
        var r := Serve(old(appPid), old(shellWaiting), req, found, pid, owner);
        && appPid == r.appPid && shellWaiting == r.shellWaiting
        && reply == if r.reply.None? then None else Some(r.reply.value.typ)
      ensures buf == old(buf).(typ := if reply.Some? then reply.value else old(buf).typ)
      ensures old(buf).typ == PROC_SPAWN ==>
        var b, background := old(buf), old(buf).argv[old(buf).argc - 1][0] == '&';
        && reply == Some(if found then CMD_OK else CMD_ERROR)
        && appPid == (if found then pid else old(appPid)) && (shellWaiting <==> found && !background)
        && args == (if !found then None else if background then Some(b.argc - 1) else Some(b.argc)) && freed == None
      ensures old(buf).typ == PROC_EXIT ==>
        && reply == (if old(shellWaiting) && old(appPid) == sender then Some(PROC_EXIT) else None)
        && args == None && freed == Some(sender)
      ensures old(buf).typ == PROC_KILLALL ==> reply == None && args == None && freed == Some(GPID_ALL)
      ensures old(buf).typ != PROC_SPAWN ==> appPid == old(appPid) && shellWaiting == old(shellWaiting)
    {
      fatal, reply, args, freed := false, None, None, None;
      if buf.typ == PROC_SPAWN {
        var typ := CMD_ERROR;
        if found {
          args := Some(if buf.argv[buf.argc - 1][0] == '&' then buf.argc - 1 else buf.argc);
          appPid := pid;
          typ := CMD_OK;
        }
        buf := buf.(typ := typ);
        shellWaiting := buf.argv[buf.argc - 1][0] != '&' && buf.typ == CMD_OK;
        reply := Some(buf.typ);
      } else if buf.typ == PROC_EXIT {
        freed := Some(sender);
        if shellWaiting && appPid == sender { reply := Some(buf.typ); }
      } else if buf.typ == PROC_KILLALL {
        freed := Some(GPID_ALL);
      } else {
        fatal := true;
      }
    }
  }

  // ----- The system

  datatype ShellPc =
    | Prompt
    | SendSpawn(cmd: Command)
    | AwaitReply(cmd: Command)
    | AwaitExit(cmd: Command)
    | SendKill

  datatype ServerPc = Receive | Handle(req: Request) | SendToShell(reply: Reply)

  /** An application: running, blocked in the send of its exit request, or past it. */
  datatype Status = Running | Exiting | Sent
  datatype App = App(cmd: Command, status: Status)

  /** A reply as the shell took it: for which command, and whether by its second receive. */
  datatype Receipt = Receipt(id: nat, second: bool, origin: Origin)

  /** How a command went: in the background or not, found or not. */
  datatype Result = Result(background: bool, ok: bool)

  /** A request the server handled; for a spawn, whether the program was found and the
      number its process got. */
  datatype Handled = Handled(req: Request, found: bool, pid: int)

  /** `entered`: what the user had the shell request; `handled`: what the server did;
      `sent`: the replies it began to send; `receipts`: those the shell took; `results`: of
      the commands whose first reply was taken. */
  datatype State = State(
    shell: ShellPc, server: ServerPc, appPid: int, shellWaiting: bool, apps: map<int, App>, nextPid: int,
    issued: nat, entered: seq<Request>, handled: seq<Handled>, sent: seq<Origin>, receipts: seq<Receipt>,
    results: seq<Result>)

  datatype Action =
    | Issue(background: bool)      // the user enters a command
    | IssueKill                    // the user enters killall
    | TakeShell                    // the server receives from the shell
    | TakeExit(pid: int)           // the server receives the exit request of an application
    | Finish(pid: int)             // an application calls exit
    | Work(found: bool)            // the server handles the request it has
    | Deliver                      // the shell receives the reply

  predicate Enabled(s: State, a: Action) {
    match a
    case Issue(_) => s.shell.Prompt?
    case IssueKill => s.shell.Prompt?
    case TakeShell => s.server.Receive? && (s.shell.SendSpawn? || s.shell.SendKill?)
    case TakeExit(pid) => s.server.Receive? && pid in s.apps && s.apps[pid].status.Exiting?
    case Finish(pid) => pid in s.apps && s.apps[pid].status.Running?
    case Work(_) => s.server.Handle?
    case Deliver => s.server.SendToShell? && (s.shell.AwaitReply? || s.shell.AwaitExit?)
  }

  /** The applications after the server has handled a request. */
  function Apps(s: State, req: Request, found: bool): map<int, App> {
    match req
    case Spawn(cmd) => if found then s.apps[s.nextPid := App(cmd, Running)] else s.apps
    case Exit(pid) => s.apps - {pid}
    case KillAll => map[]
  }

  function Owner(s: State, req: Request): nat {
    if req.Exit? && req.pid in s.apps then s.apps[req.pid].cmd.id else 0
  }

  function Worked(s: State, found: bool): State
    requires s.server.Handle?
  {
    var req := s.server.req;
    var r := Serve(s.appPid, s.shellWaiting, req, found, s.nextPid, Owner(s, req));
    s.(appPid := r.appPid, shellWaiting := r.shellWaiting, apps := Apps(s, req, found),
       nextPid := if req.Spawn? && found then s.nextPid + 1 else s.nextPid,
       handled := s.handled + [Handled(req, found, s.nextPid)],
       server := if r.reply.None? then Receive else SendToShell(r.reply.value),
       sent := if r.reply.None? then s.sent else s.sent + [r.reply.value.origin])
  }

  /** The shell takes the message as the answer to what it is waiting for, whatever it is. */
  function Delivered(s: State): State
    requires Enabled(s, Deliver)
  {
    var reply, cmd := s.server.reply, s.shell.cmd;
    if s.shell.AwaitReply? then
      var ok := reply.typ == CMD_OK;
      s.(server := Receive, shell := if ok && !cmd.background then AwaitExit(cmd) else Prompt,
         receipts := s.receipts + [Receipt(cmd.id, false, reply.origin)],
         results := s.results + [Result(cmd.background, ok)])
    else
      s.(server := Receive, shell := Prompt, receipts := s.receipts + [Receipt(cmd.id, true, reply.origin)])
  }

  function Next(s: State, a: Action): State
    requires Enabled(s, a)
  {
    match a
    case Issue(background) =>
      var cmd := Command(s.issued, background);
      s.(shell := SendSpawn(cmd), issued := s.issued + 1, entered := s.entered + [Spawn(cmd)])
    case IssueKill => s.(shell := SendKill, entered := s.entered + [KillAll])
    case TakeShell =>
      if s.shell.SendSpawn? then s.(server := Handle(Spawn(s.shell.cmd)), shell := AwaitReply(s.shell.cmd))
      else s.(server := Handle(KillAll), shell := Prompt)
    case TakeExit(pid) =>
      s.(server := Handle(Exit(pid)), apps := s.apps[pid := s.apps[pid].(status := Sent)])
    case Finish(pid) => s.(apps := s.apps[pid := s.apps[pid].(status := Exiting)])
    case Work(found) => Worked(s, found)
    case Deliver => Delivered(s)
  }

  ghost predicate Init(s: State) {
    && s.shell == Prompt && s.server == Receive && s.appPid == 0 && s.apps == map[] && s.nextPid >= USER_START
    && s.issued == 0 && s.entered == [] && s.handled == [] && s.sent == [] && s.receipts == [] && s.results == []
  }

  function Run(s: State, actions: seq<Action>): Option<State>
    decreases actions
  {
    if actions == [] then Some(s)
    else if !Enabled(s, actions[0]) then None
    else Run(Next(s, actions[0]), actions[1..])
  }

  // ----- The invariant

  /** The receipts a command with that result leads to. */
  function Script(id: nat, r: Result): seq<Receipt> {
    [Receipt(id, false, OfSpawn(id))] + if r.ok && !r.background then [Receipt(id, true, OfExit(id))] else []
  }

  function Scripts(results: seq<Result>): seq<Receipt> {
    if results == [] then [] else
      var n := |results| - 1;
      Scripts(results[..n]) + Script(n, results[n])
  }

  function Origins(receipts: seq<Receipt>): (r: seq<Origin>)
    ensures |r| == |receipts|
  {
    seq(|receipts|, i requires 0 <= i < |receipts| => receipts[i].origin)
  }

  predicate Idle(pc: ShellPc) { pc.Prompt? || pc.SendSpawn? || pc.SendKill? }

  /** The shell is waiting for the end of command `cmd`, or will be. */
  predicate Waits(s: State, cmd: Command) {
    (s.shell.AwaitReply? || s.shell.AwaitExit?) && s.shell.cmd == cmd && !cmd.background
  }

  ghost predicate AppsOk(s: State) {
    && s.nextPid >= USER_START && s.appPid < s.nextPid
    && (forall p :: p in s.apps ==> p < s.nextPid && (s.apps[p].cmd.background || Waits(s, s.apps[p].cmd)))
    && (forall p :: p in s.apps ==> (!s.apps[p].cmd.background <==> p == s.appPid && s.shellWaiting))
    && (forall p :: p in s.apps ==> (s.apps[p].status.Sent? <==> s.server == Handle(Exit(p))))
  }

  /** What the server is doing fits what the shell waits for. */
  ghost predicate ServerOk(s: State) {
    match s.server
    case Receive => !s.shell.AwaitReply?
    case Handle(Spawn(cmd)) => s.shell == AwaitReply(cmd) && forall p :: p in s.apps ==> s.apps[p].cmd.background
    case Handle(Exit(pid)) => pid in s.apps && !s.shell.AwaitReply?
    case Handle(KillAll) => Idle(s.shell)
    case SendToShell(Reply(typ, OfSpawn(id))) =>
      && s.shell.AwaitReply? && s.shell.cmd.id == id
      && (typ == CMD_OK && !s.shell.cmd.background ==> s.shellWaiting && Started(s))
      && (typ != CMD_OK ==> forall p :: p in s.apps ==> s.apps[p].cmd.background)
    case SendToShell(Reply(_, OfExit(id))) =>
      s.shell.AwaitExit? && s.shell.cmd.id == id && s.appPid !in s.apps
  }

  /** The application of the foreground command is still there. */
  predicate Started(s: State) {
    (s.shell.AwaitReply? || s.shell.AwaitExit?) && s.appPid in s.apps && s.apps[s.appPid].cmd == s.shell.cmd
  }

  ghost predicate ShellOk(s: State) {
    match s.shell
    case Prompt => s.issued == |s.results|
    case SendKill => s.issued == |s.results|
    case SendSpawn(cmd) => cmd.id == |s.results| && s.issued == cmd.id + 1
    case AwaitReply(cmd) => cmd.id == |s.results| && s.issued == cmd.id + 1
    case AwaitExit(cmd) =>
      && cmd.id + 1 == |s.results| == s.issued && !cmd.background && s.shellWaiting
      && (s.server.SendToShell? || Started(s))
  }

  ghost predicate LogOk(s: State) {
    && s.sent == Origins(s.receipts) + (if s.server.SendToShell? then [s.server.reply.origin] else [])
    && Scripts(s.results) == s.receipts +
       if s.shell.AwaitExit? then [Receipt(s.shell.cmd.id, true, OfExit(s.shell.cmd.id))] else []
  }

  // ----- What the server did

  /** The requests of the shell among those handled. */
  function FromShell(log: seq<Handled>): seq<Request> {
    if log == [] then []
    else
      var h := log[|log| - 1];
      FromShell(log[..|log| - 1]) + if h.req.Exit? then [] else [h.req]
  }

  /** How the commands among them went. */
  function Outcomes(log: seq<Handled>): seq<Result> {
    if log == [] then []
    else
      var h := log[|log| - 1];
      Outcomes(log[..|log| - 1]) + if h.req.Spawn? then [Result(h.req.cmd.background, h.found)] else []
  }

  /** The command that process p runs, if the last that happened to it was its start. */
  function Runs(log: seq<Handled>, p: int): Option<Command> {
    if log == [] then None
    else
      var h := log[|log| - 1];
      match h.req
      case Spawn(cmd) => if h.found && h.pid == p then Some(cmd) else Runs(log[..|log| - 1], p)
      case Exit(pid) => if pid == p then None else Runs(log[..|log| - 1], p)
      case KillAll => None
  }

  lemma LogNext(log: seq<Handled>, h: Handled)
    ensures FromShell(log + [h]) == FromShell(log) + if h.req.Exit? then [] else [h.req]
    ensures Outcomes(log + [h]) == Outcomes(log) + if h.req.Spawn? then [Result(h.req.cmd.background, h.found)] else []
    ensures forall p :: Runs(log + [h], p) ==
                        match h.req
                        case Spawn(cmd) => if h.found && h.pid == p then Some(cmd) else Runs(log, p)
                        case Exit(pid) => if pid == p then None else Runs(log, p)
                        case KillAll => None
  {
    assert (log + [h])[..|log|] == log;
  }

  /** What the shell has asked for and the server has not handled. */
  function Due(s: State): seq<Request> {
    (if s.server.Handle? && !s.server.req.Exit? then [s.server.req] else []) +
    match s.shell
    case SendSpawn(cmd) => [Spawn(cmd)]
    case SendKill => [KillAll]
    case _ => []
  }

  /** Each request is handled once and in order, each result is that of its command, and the
      applications are those the server started and has neither freed nor killed. */
  ghost predicate HandledOk(s: State) {
    && s.entered == FromShell(s.handled) + Due(s)
    && Outcomes(s.handled) == s.results +
       (if s.server.SendToShell? && s.server.reply.origin.OfSpawn? && s.shell.AwaitReply?
        then [Result(s.shell.cmd.background, s.server.reply.typ == CMD_OK)] else [])
    && forall p :: Runs(s.handled, p) == if p in s.apps then Some(s.apps[p].cmd) else None
  }

  ghost predicate Inv(s: State) { AppsOk(s) && ServerOk(s) && ShellOk(s) && LogOk(s) && HandledOk(s) }

  lemma InitInv(s: State)
    requires Init(s)
    ensures Inv(s)
  {
  }

  lemma OriginsNext(receipts: seq<Receipt>, r: Receipt)
    ensures Origins(receipts + [r]) == Origins(receipts) + [r.origin]
  {
  }

  lemma ScriptsNext(results: seq<Result>, r: Result)
    ensures Scripts(results + [r]) == Scripts(results) + Script(|results|, r)
  {
    hide Script;
    var more := results + [r];
    assert more[..|results|] == results && more[|results|] == r;
  }

  lemma WorkInv(s: State, found: bool)
    requires Inv(s) && s.server.Handle?
    ensures Inv(Worked(s, found))
  {
    hide Scripts, Origins, FromShell, Outcomes, Runs;
    match s.server.req
    case Spawn(cmd) => SpawnInv(s, found);
    case Exit(pid) => ExitInv(s, found);
    case KillAll => LogNext(s.handled, Handled(KillAll, found, s.nextPid));
  }

  lemma SpawnInv(s: State, found: bool)
    requires Inv(s) && s.server.Handle? && s.server.req.Spawn?
    ensures Inv(Worked(s, found))
  {
    hide Scripts, Origins, FromShell, Outcomes, Runs;
    LogNext(s.handled, Handled(s.server.req, found, s.nextPid));
  }

  lemma ExitInv(s: State, found: bool)
    requires Inv(s) && s.server.Handle? && s.server.req.Exit?
    ensures Inv(Worked(s, found))
  {
    hide Scripts, Origins, FromShell, Outcomes, Runs;
    LogNext(s.handled, Handled(s.server.req, found, s.nextPid));
  }

  /** The first reply to a command: its receipt, and the one still due if it runs in front. */
  lemma FirstTaken(s: State)
    requires Inv(s) && Enabled(s, Deliver) && s.shell.AwaitReply?
    ensures Inv(Delivered(s))
  {
    hide Scripts, Origins, FromShell, Outcomes, Runs;
    var cmd, ok := s.shell.cmd, s.server.reply.typ == CMD_OK;
    OriginsNext(s.receipts, Receipt(cmd.id, false, s.server.reply.origin));
    ScriptsNext(s.results, Result(cmd.background, ok));
    assert Scripts(s.results) == s.receipts by { assert s.receipts + [] == s.receipts; }
    assert AppsOk(Delivered(s)) by { FirstApps(s); }
    assert LogOk(Delivered(s));
  }

  lemma FirstApps(s: State)
    requires AppsOk(s) && ServerOk(s) && Enabled(s, Deliver) && s.shell.AwaitReply?
    ensures AppsOk(Delivered(s))
  {
    hide Scripts, Origins, FromShell, Outcomes, Runs;
  }

  lemma SecondTaken(s: State)
    requires Inv(s) && Enabled(s, Deliver) && s.shell.AwaitExit?
    ensures Inv(Delivered(s))
  {
    hide Scripts, Origins, FromShell, Outcomes, Runs;
    OriginsNext(s.receipts, Receipt(s.shell.cmd.id, true, s.server.reply.origin));
  }

  lemma DeliverInv(s: State)
    requires Inv(s) && Enabled(s, Deliver)
    ensures Inv(Delivered(s))
  {
    hide Inv, Delivered;
    if s.shell.AwaitReply? { FirstTaken(s); } else { SecondTaken(s); }
  }

  lemma NextInv(s: State, a: Action)
    requires Inv(s) && Enabled(s, a)
    ensures Inv(Next(s, a))
  {
    hide Scripts, Origins, FromShell, Outcomes, Runs;
    match a
    case Work(found) => WorkInv(s, found);
    case Deliver => DeliverInv(s);
    case TakeShell => TakeShellInv(s);
    case TakeExit(pid) => AppInv(s, a, pid);
    case Finish(pid) => AppInv(s, a, pid);
    case _ =>
  }

  lemma TakeShellInv(s: State)
    requires Inv(s) && Enabled(s, TakeShell)
    ensures Inv(Next(s, TakeShell))
  {
    hide Scripts, Origins, FromShell, Outcomes, Runs;
  }

  lemma AppInv(s: State, a: Action, pid: int)
    requires Inv(s) && Enabled(s, a) && (a == TakeExit(pid) || a == Finish(pid))
    ensures Inv(Next(s, a))
  {
    hide Scripts, Origins, FromShell, Outcomes, Runs;
  }

  // ----- Whole runs

  lemma {:induction false} RunInv(s: State, actions: seq<Action>)
    requires Inv(s) && Run(s, actions).Some?
    ensures Inv(Run(s, actions).value)
    decreases actions
  {
    hide Inv, Enabled, Next;
    if actions != [] {
      NextInv(s, actions[0]);
      RunInv(Next(s, actions[0]), actions[1..]);
    }
  }

  /** At a prompt no reply is under way, every reply sent has been taken, by the receive of
      the command it answers, and each command has had exactly the replies it is due: it was
      told whether its program was found. Only a killall may still be with the server. */
  lemma NoneOutstanding(s0: State, actions: seq<Action>, s: State)
    requires Init(s0) && Run(s0, actions) == Some(s) && s.shell.Prompt?
    ensures !s.server.SendToShell? && !(s.server.Handle? && s.server.req.Spawn?)
    ensures s.issued == |s.results| && s.receipts == Scripts(s.results) && s.sent == Origins(s.receipts)
    ensures s.results == Outcomes(s.handled)
    ensures s.entered == FromShell(s.handled) + if s.server == Handle(KillAll) then [KillAll] else []
  {
    hide Scripts, Origins, FromShell, Outcomes, Runs;
    InitInv(s0);
    RunInv(s0, actions);
    assert Scripts(s.results) == s.receipts + [];
    assert s.sent == Origins(s.receipts) + [];
  }

  /** The server handles what the user enters, all of it, once and in order, and at any time
      the applications are those it started and has not freed since. */
  lemma RequestsMatch(s0: State, actions: seq<Action>, s: State, p: int)
    requires Init(s0) && Run(s0, actions) == Some(s)
    ensures FromShell(s.handled) <= s.entered && |s.entered| <= |FromShell(s.handled)| + 2
    ensures p in s.apps <==> Runs(s.handled, p).Some?
    ensures p in s.apps ==> Runs(s.handled, p) == Some(s.apps[p].cmd)
  {
    hide Scripts, Origins, FromShell, Outcomes, Runs;
    InitInv(s0);
    RunInv(s0, actions);
  }

  /** Between prompts too, replies are taken in the order sent, at most one is under way, and
      each receipt is of a reply to the command that receives it. */
  lemma RepliesMatch(s0: State, actions: seq<Action>, s: State)
    requires Init(s0) && Run(s0, actions) == Some(s)
    ensures Origins(s.receipts) <= s.sent && |s.sent| <= |s.receipts| + 1
    ensures s.receipts <= Scripts(s.results)
    ensures forall k :: 0 <= k < |s.receipts| ==> Fitting(s.receipts[k])
    ensures forall j, k :: 0 <= j < k < |s.receipts| ==> s.receipts[j] != s.receipts[k]
  {
    InitInv(s0);
    RunInv(s0, actions);
    ScriptsFit(s.results);
  }

  /** The reply answers the receive that took it. */
  predicate Fitting(r: Receipt) { r.origin == if r.second then OfExit(r.id) else OfSpawn(r.id) }

  predicate AllFit(t: seq<Receipt>, n: nat) {
    && (forall k :: 0 <= k < |t| ==> Fitting(t[k]) && t[k].id < n)
    && (forall j, k :: 0 <= j < k < |t| ==> t[j] != t[k])
  }

  lemma {:induction false} ScriptsFit(results: seq<Result>)
    ensures AllFit(Scripts(results), |results|)
  {
    if results != [] {
      var n := |results| - 1;
      ScriptsFit(results[..n]);
      FitMore(Scripts(results[..n]), n, results[n]);
    }
  }

  lemma FitMore(u: seq<Receipt>, n: nat, r: Result)
    requires AllFit(u, n)
    ensures AllFit(u + Script(n, r), n + 1)
  {
  }

  /** At a prompt only background applications are left: a foreground command gives the
      prompt back only when its application is gone. */
  lemma ForegroundDone(s0: State, actions: seq<Action>, s: State, p: int)
    requires Init(s0) && Run(s0, actions) == Some(s) && s.shell.Prompt? && p in s.apps
    ensures s.apps[p].cmd.background
  {
    InitInv(s0);
    RunInv(s0, actions);
  }

  /** While the shell waits, what it waits for can still come: the server is at work or can
      take the request, its reply is ready to be taken, or the foreground application is
      still running or waiting to be heard. */
  lemma NeverStuck(s0: State, actions: seq<Action>, s: State)
    requires Init(s0) && Run(s0, actions) == Some(s) && !s.shell.Prompt?
    ensures s.server.Handle? || Enabled(s, Deliver) ||
      ((s.shell.SendSpawn? || s.shell.SendKill?) && Enabled(s, TakeShell)) ||
      (s.shell.AwaitExit? && s.appPid in s.apps && s.apps[s.appPid].cmd == s.shell.cmd &&
       (Enabled(s, Finish(s.appPid)) || Enabled(s, TakeExit(s.appPid))))
  {
    InitInv(s0);
    RunInv(s0, actions);
  }
}
