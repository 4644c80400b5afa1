// What the calls mean to those who make them, step by step and over whole runs of the machine: filters and mailboxes
// stay as they were set, messages arrive as they were sent, semaphores count, and threads start where they should.
module Calls {
  import opened Basics
  import opened Machine
  import opened Registers
  import Mail
  import Semaphores

  // ----- What a step leaves of a task and of a semaphore

  // Whether a thread of task p makes the call.
  predicate By(s: State, p: Pid) { s.current in s.threads && Pid0(s) == p }

  // The filter and the mailbox of a task change by its own calls only; its messages go from the front by its own
  // receives, and others come in behind them.
  predicate Follows(s: State, e: Event, p: Pid, t: Task)
    requires p in s.tasks
  {
    var (was, own) := (s.tasks[p], By(s, p));
    && t.level == was.level && t.priority == was.priority && t.pgd == was.pgd
    && t.allow == (if e.SetAllow? && own then e.pid else was.allow)
    && t.mail == (was.mail || (e.SetMailbuffer? && own))
    && t.size == (if e.SetMailbuffer? && own then e.size else was.size)
    && t.handler == (if e.SetMailbuffer? && own then s.current else was.handler)
    && if e.SetMailbuffer? && own then t.queue == []
       else if e.Recv? && own then t.queue == if was.queue == [] then [] else was.queue[1..]
       else was.queue <= t.queue
  }

  lemma DecisionTasks(b: State, regs: Frame)
    requires b.current in b.threads && Dispatch(DownThread(b, regs)).current in DownThread(b, regs).threads
    ensures AfterSyscall(b, regs).s.tasks == b.tasks && AfterSyscall(b, regs).s.sems == b.sems
  {
    hide DownThread, UpThread, Dispatch, ShouldSwitch;
    DownTables(b, regs);
    DispatchTables(DownThread(b, regs));
    UpTables(Dispatch(DownThread(b, regs)), regs);
  }

  lemma DownTables(b: State, regs: Frame)
    requires b.current in b.threads
    ensures DownThread(b, regs).tasks == b.tasks && DownThread(b, regs).sems == b.sems
  {
  }

  lemma DispatchTables(d: State)
    ensures Dispatch(d).tasks == d.tasks && Dispatch(d).sems == d.sems && Dispatch(d).threads == d.threads
  {
  }

  lemma UpTables(c: State, regs: Frame)
    requires c.current in c.threads
    ensures UpThread(c, regs).s.tasks == c.tasks && UpThread(c, regs).s.sems == c.sems
  {
  }

  lemma CountTasks(o: Outcome)
    requires o.s.current in o.s.threads
    ensures CountTick(o).s.tasks == o.s.tasks && CountTick(o).s.sems == o.s.sems
  {
  }

  // Tasks and semaphores change by the body of a step only.
  lemma StepTables(s: State, m: Move)
    requires Inv(s) && Allowed(s, m.e)
    ensures s.current in s.threads
    ensures var b := Body(s, m.e, m.regs.basic.rax).0; Next(s, m).s.tasks == b.tasks && Next(s, m).s.sems == b.sems
  {
    hide Inv, Allowed, Body, Next, AfterSyscall, CountTick, Mid, Dispatch, DownThread;
    NextIs(s, m);
    var (b, rax) := Body(s, m.e, m.regs.basic.rax);
    DecisionTasks(b, WithRax(m.regs, rax));
    CountTasks(AfterSyscall(b, WithRax(m.regs, rax)));
  }

  lemma BodyFollows(s: State, e: Event, rax: int, p: Pid)
    requires Inv(s) && Allowed(s, e) && p in s.tasks
    ensures s.current in s.threads
    ensures p in Body(s, e, rax).0.tasks && Follows(s, e, p, Body(s, e, rax).0.tasks[p])
  {
    hide Inv, Unneeded, Wake, Deliver, HasRoom, Used, MessageOf, Header, NewThread, Semaphores.Up, Semaphores.Down,
         Semaphores.Blocks;
    StartOfStep(s);
    match e
    case Send(no, id, body, dst) =>
      if dst in s.tasks && s.tasks[dst].handler in s.threads {
        DeliverTasks(s, dst, MessageOf(no, id, Pid0(s), body), s.tasks[dst].allow != Mail.DUMMY_TASK);
      }
    case Irq(id, body, dst) =>
      if dst in s.tasks && s.tasks[dst].handler in s.threads {
        DeliverTasks(s, dst, MessageOf(3, id, Mail.DUMMY_TASK, body), true);
      }
    case UpSignal(id) =>
      var up := Semaphores.Up(s.sems[id]);
      if up.Woke? && up.thread in s.threads { WakeTables(s.(sems := s.sems[id := up.s]), up.thread); }
    case CreateThread(tid, entry) => NewThreadTasks(s, tid, Pid0(s), entry);
    case CreateTask(pid, tid, _, _, _, entry) => NewThreadTasks(WithTask(s, e), tid, pid, entry);
    case _ =>
  }

  lemma WakeTables(s: State, t: Tid)
    requires t in s.threads
    ensures Wake(s, t).tasks == s.tasks && Wake(s, t).sems == s.sems
  {
  }

  lemma DeliverTasks(s: State, dst: Pid, m: Mail.Message, wakes: bool)
    requires dst in s.tasks && s.tasks[dst].handler in s.threads
    ensures var t := s.tasks[dst];
            Deliver(s, dst, m, wakes).tasks == s.tasks[dst := t.(queue := t.queue + [m])]
    ensures Deliver(s, dst, m, wakes).sems == s.sems
  {
  }

  lemma NewThreadTasks(s: State, tid: Tid, pid: Pid, entry: Saved)
    requires pid in s.tasks
    ensures NewThread(s, tid, pid, entry).tasks == s.tasks && NewThread(s, tid, pid, entry).sems == s.sems
  {
  }

  lemma StepFollows(s: State, m: Move, p: Pid)
    requires Inv(s) && Allowed(s, m.e) && p in s.tasks
    ensures s.current in s.threads && p in Next(s, m).s.tasks && Follows(s, m.e, p, Next(s, m).s.tasks[p])
  {
    hide Inv, Allowed, Body, Next, Follows;
    BodyFollows(s, m.e, m.regs.basic.rax, p);
    StepTables(s, m);
  }

  // ----- Filters and mailboxes

  // set_allow sets the caller's own filter, and nothing else.
  lemma SetAllowIs(s: State, pid: Pid, rax: int)
    requires Inv(s) && s.current != s.idle
    ensures Pid0(s) in s.tasks
    ensures var (b, r) := Body(s, SetAllow(pid), rax);
            && r == 0 && Pid0(s) in b.tasks && b.tasks[Pid0(s)].allow == pid
            && b == s.(tasks := s.tasks[Pid0(s) := s.tasks[Pid0(s)].(allow := pid)])
  {
    hide Inv;
    StartOfStep(s);
  }

  // set_mailbuffer empties the caller's mailbox, gives it the new size and makes the calling thread its handler; the
  // filter stays, and so does everything else.
  lemma SetMailbufferIs(s: State, size: nat, rax: int)
    requires Inv(s) && s.current != s.idle
    ensures Pid0(s) in s.tasks
    ensures var (b, r) := Body(s, SetMailbuffer(size), rax);
            && r == 0
            && b == s.(tasks := s.tasks[Pid0(s) :=
                 s.tasks[Pid0(s)].(mail := true, size := size, queue := [], handler := s.current)])
  {
    hide Inv;
    StartOfStep(s);
  }

  // check_ipc: the caller sleeps exactly when its task has a mailbox and nothing is in it.
  lemma CheckIpcIs(s: State, rax: int)
    requires Inv(s) && s.current != s.idle
    ensures Pid0(s) in s.tasks
    ensures var (b, r) := Body(s, CheckIpc, rax);
            var t := s.tasks[Pid0(s)];
            && r == 0
            && b == if t.mail && t.queue == [] then
                      s.(threads := s.threads[s.current := s.threads[s.current].(status := WAITING_IPC)])
                    else s
  {
    hide Inv, Used;
    StartOfStep(s);
    UsedZero(s.tasks[Pid0(s)]);
  }

  datatype Setting = Filter | Buffer

  // In no step of the run does a thread of task p set its filter, or its mailbox.
  ghost predicate Unset(s: State, moves: seq<Move>, p: Pid, what: Setting)
    requires Inv(s) && CanRun(s, moves)
    decreases |moves|
  {
    hide Inv, Allowed, Next, By;
    moves == [] || (!(By(s, p) && Sets(moves[0].e, what)) && Unset(Next(s, moves[0]).s, moves[1..], p, what))
  }

  predicate Sets(e: Event, what: Setting) { match what case Filter => e.SetAllow? case Buffer => e.SetMailbuffer? }

  // A task keeps its filter and its mailbox over every run in which it does not set them itself.
  lemma {:induction false} SettingsStay(s: State, moves: seq<Move>, p: Pid)
    requires Inv(s) && CanRun(s, moves) && p in s.tasks
    ensures p in After(s, moves).tasks
    ensures var (t, u) := (s.tasks[p], After(s, moves).tasks[p]);
            && u.level == t.level && u.priority == t.priority && u.pgd == t.pgd
            && (Unset(s, moves, p, Filter) ==> u.allow == t.allow)
            && (Unset(s, moves, p, Buffer) ==> u.mail == t.mail && u.size == t.size && u.handler == t.handler)
    decreases |moves|
  {
    hide Inv, Allowed, Next, By;
    if moves != [] {
      StepFollows(s, moves[0], p);
      SettingsStay(Next(s, moves[0]).s, moves[1..], p);
    }
  }

  // The filter a task sets decides over every later message until it sets another: one from a task is accepted exactly
  // when it fits and the filter is that task or ANY_TASK, one of an interrupt exactly when it fits and the filter names
  // no task. An accepted one is put behind the others.
  lemma FilterDecides(s: State, m: Move, moves: seq<Move>, last: Move)
    requires Inv(s) && Allowed(s, m.e) && m.e.SetAllow? && CanRun(Next(s, m).s, moves)
    requires s.current in s.threads && Unset(Next(s, m).s, moves, Pid0(s), Filter)
    requires var w := After(Next(s, m).s, moves); Allowed(w, last.e) && w.current in w.threads
    ensures var (p, w) := (Pid0(s), After(Next(s, m).s, moves));
            var b := Body(w, last.e, last.regs.basic.rax).0;
            && p in w.tasks && p in b.tasks
            && (last.e.Send? && last.e.dst == p ==>
                  (|b.tasks[p].queue| == |w.tasks[p].queue| + 1 <==>
                     Machine.Free(w, p, |last.e.body|) && (m.e.pid == Pid0(w) || m.e.pid == -1)))
            && (last.e.Irq? && last.e.dst == p ==>
                  (|b.tasks[p].queue| == |w.tasks[p].queue| + 1 <==>
                     Machine.Free(w, p, |last.e.irqBody|) && m.e.pid < 0))
  {
    hide Inv, Allowed, Next, Body, Machine.Free, Says;
    Caller(s, m.e);
    var (p, u) := (Pid0(s), Next(s, m).s);
    StepFollows(s, m, p);
    SettingsStay(u, moves, p);
    var w := After(u, moves);
    BodyFollows(w, last.e, last.regs.basic.rax, p);
    match last.e
    case Send(no, id, body, dst) => SendWakes(w, no, id, body, dst, last.regs.basic.rax);
    case Irq(id, body, dst) => IrqWakes(w, id, body, dst, last.regs.basic.rax);
    case _ =>
  }

  // Whoever makes a system call is a thread of a task.
  lemma Caller(s: State, e: Event)
    requires Inv(s) && Allowed(s, e) && !e.Tick? && !e.Irq?
    ensures s.current in s.threads && s.current != s.idle && Pid0(s) in s.tasks
  {
    StartOfStep(s);
    hide Inv;
  }

  // The thread that gave a task its mailbox handles it until the task gets another one: it is still there, the size is
  // the one it gave, and any message that is accepted while it sleeps makes it ready.
  lemma HandlerWakes(s: State, m: Move, moves: seq<Move>, last: Move)
    requires Inv(s) && Allowed(s, m.e) && m.e.SetMailbuffer? && CanRun(Next(s, m).s, moves)
    requires s.current in s.threads && Unset(Next(s, m).s, moves, Pid0(s), Buffer)
    requires var w := After(Next(s, m).s, moves); Allowed(w, last.e) && w.current in w.threads
    ensures var (p, t, w) := (Pid0(s), s.current, After(Next(s, m).s, moves));
            var b := Body(w, last.e, last.regs.basic.rax).0;
            && p in w.tasks && p in b.tasks && t in w.threads && w.tasks[p].size == m.e.size
            && (w.threads[t].status == WAITING_IPC && |b.tasks[p].queue| > |w.tasks[p].queue| ==>
                  t in b.threads && b.threads[t].status == READY && b.ready == w.ready + [t] && t !in w.ready)
  {
    hide Inv, Allowed, Next, Body, Machine.Free, Says;
    Caller(s, m.e);
    var (p, u) := (Pid0(s), Next(s, m).s);
    StepFollows(s, m, p);
    SettingsStay(u, moves, p);
    var w := After(u, moves);
    Handler(w, p);
    BodyFollows(w, last.e, last.regs.basic.rax, p);
    match last.e
    case Send(no, id, body, dst) => SendWakes(w, no, id, body, dst, last.regs.basic.rax);
    case Irq(id, body, dst) => IrqWakes(w, id, body, dst, last.regs.basic.rax);
    case _ => NoMessage(w, last.e, last.regs.basic.rax, p);
  }

  lemma Handler(s: State, p: Pid)
    requires Inv(s) && p in s.tasks && s.tasks[p].mail
    ensures s.tasks[p].handler in s.threads
  {
    assert MailSound(s, p);
  }

  // No other call makes a queue longer.
  lemma NoMessage(s: State, e: Event, rax: int, p: Pid)
    requires Inv(s) && Allowed(s, e) && p in s.tasks && !e.Send? && !e.Irq?
    ensures s.current in s.threads && p in Body(s, e, rax).0.tasks
    ensures |Body(s, e, rax).0.tasks[p].queue| <= |s.tasks[p].queue|
  {
    hide Inv, Unneeded, Wake, Used, Header, NewThread, Semaphores.Up, Semaphores.Down, Semaphores.Blocks;
    StartOfStep(s);
    match e
    case UpSignal(id) =>
      var up := Semaphores.Up(s.sems[id]);
      if up.Woke? && up.thread in s.threads { WakeTables(s.(sems := s.sems[id := up.s]), up.thread); }
    case CreateThread(tid, entry) => NewThreadTasks(s, tid, Pid0(s), entry);
    case CreateTask(pid, tid, _, _, _, entry) => NewThreadTasks(WithTask(s, e), tid, pid, entry);
    case _ =>
  }

  // ----- From send to receive

  // The receives of task p's threads.
  ghost function Receives(s: State, moves: seq<Move>, p: Pid): nat
    requires Inv(s) && CanRun(s, moves)
    decreases |moves|
  {
    hide Inv, Allowed, Next, By;
    if moves == [] then 0
    else Receives(Next(s, moves[0]).s, moves[1..], p) + if By(s, p) && moves[0].e.Recv? then 1 else 0
  }

  // The message at place k of a mailbox moves up by one with each receive, and comes to no harm.
  lemma {:induction false} QueueMoves(s: State, moves: seq<Move>, p: Pid, k: nat)
    requires Inv(s) && CanRun(s, moves) && p in s.tasks && k < |s.tasks[p].queue| && Unset(s, moves, p, Buffer)
    ensures p in After(s, moves).tasks
    ensures var (n, q) := (Receives(s, moves, p), After(s, moves).tasks[p].queue);
            n <= k ==> k - n < |q| && q[k - n] == s.tasks[p].queue[k]
    decreases |moves|
  {
    hide Inv, Allowed, Next, By;
    if moves != [] {
      StepFollows(s, moves[0], p);
      var u := Next(s, moves[0]).s;
      if !(By(s, p) && moves[0].e.Recv?) {
        assert u.tasks[p].queue[k] == s.tasks[p].queue[k];
        QueueMoves(u, moves[1..], p, k);
      } else if k > 0 {
        assert u.tasks[p].queue[k - 1] == s.tasks[p].queue[k];
        QueueMoves(u, moves[1..], p, k - 1);
      } else {
        SettingsStay(u, moves[1..], p);
      }
    }
  }

  // What a receive leaves in the register, read as bytes and words: number, id, length and source.
  predicate Reads(r: int, no: nat, msgId: nat, source: int, size: nat) {
    && r >= 0 && r / 0x100 % 0x100 == no && r / 0x1_0000 % 0x1_0000 == msgId && r / 0x1_0000_0000 % 0x1_0000 == size
    && r / 0x1_0000_0000_0000 == source % 0x1_0000
  }

  lemma HeaderReads(p: Mail.Pack)
    requires Mail.Packable(p)
    ensures Reads(Header(p), p.messageNo, p.msgId, p.source, p.length)
  {
    var c := p.length + 0x1_0000 * p.source;
    var b := p.msgId + 0x1_0000 * c;
    Byte1(p.reserved, p.messageNo, b);
    Word1(p.reserved + 0x100 * p.messageNo, p.msgId, c);
    Word2(p.reserved + 0x100 * p.messageNo + 0x1_0000 * p.msgId, p.length, p.source);
  }

  lemma Byte1(a: nat, b: nat, c: nat)
    requires a < 0x100 && b < 0x100
    ensures (a + 0x100 * b + 0x1_0000 * c) / 0x100 % 0x100 == b
  {
    assert (a + 0x100 * b + 0x1_0000 * c) / 0x100 == b + 0x100 * c;
  }

  lemma Word1(a: nat, b: nat, c: nat)
    requires a < 0x1_0000 && b < 0x1_0000
    ensures (a + 0x1_0000 * b + 0x1_0000_0000 * c) / 0x1_0000 % 0x1_0000 == b
  {
    assert (a + 0x1_0000 * b + 0x1_0000_0000 * c) / 0x1_0000 == b + 0x1_0000 * c;
  }

  lemma Word2(a: nat, b: nat, c: nat)
    requires a < 0x1_0000_0000 && b < 0x1_0000 && c < 0x1_0000
    ensures var r := a + 0x1_0000_0000 * b + 0x1_0000_0000_0000 * c;
            r / 0x1_0000_0000 % 0x1_0000 == b && r / 0x1_0000_0000_0000 == c % 0x1_0000
  {
    assert (a + 0x1_0000_0000 * b + 0x1_0000_0000_0000 * c) / 0x1_0000_0000 == b + 0x1_0000 * c;
  }

  // A receive hands over the message at the front: what it leaves in the register, and the body it copies.
  ghost predicate Receiving(w: State, rax: int, p: Pid, no: nat, msgId: nat, source: int, body: seq<Byte>) {
    && w.current in w.threads && p in w.tasks && w.tasks[p].queue != [] && w.tasks[p].queue[0].body == body
    && Reads(Body(w, Recv, rax).1, no, msgId, source, |body|)
  }

  lemma PlacedIsReceived(s: State, moves: seq<Move>, last: Move, p: Pid, k: nat, no: nat, msgId: nat, source: int,
                         body: seq<Byte>)
    requires Inv(s) && CanRun(s, moves) && p in s.tasks && k < |s.tasks[p].queue| && Unset(s, moves, p, Buffer)
    requires Says(s.tasks[p].queue[k], no, msgId, source, body) && Receives(s, moves, p) == k
    requires var w := After(s, moves); Allowed(w, last.e) && last.e.Recv? && By(w, p)
    ensures Receiving(After(s, moves), last.regs.basic.rax, p, no, msgId, source, body)
  {
    hide Inv, Allowed, Reads, Header, Mail.Packable, Body;
    QueueMoves(s, moves, p, k);
    var w := After(s, moves);
    Caller(w, last.e);
    OldestPackable(w);
    var pack := w.tasks[p].queue[0].pack;
    HeaderReads(pack);
    SourceReads(Header(pack), no, msgId, pack.source, source, |body|);
    RecvIs(w, last.regs.basic.rax);
  }

  lemma SourceReads(r: int, no: nat, msgId: nat, word: int, source: int, size: nat)
    requires Reads(r, no, msgId, word, size) && word == source % 0x1_0000
    ensures Reads(r, no, msgId, source, size)
  {
  }

  lemma RecvIs(s: State, rax: int)
    requires s.current in s.threads && Pid0(s) in s.tasks && s.tasks[Pid0(s)].queue != []
    ensures Body(s, Recv, rax).1 == Header(s.tasks[Pid0(s)].queue[0].pack)
  {
    hide Header;
  }

  // A message that is accepted is received as it was sent: however long it takes, when the receiver has received what
  // was in its mailbox before, its next receive reads the number and the id the sender gave, the sender and the length
  // in 16 bits each, and copies the body.
  lemma SentIsReceived(s: State, m: Move, moves: seq<Move>, last: Move)
    requires Inv(s) && Allowed(s, m.e) && m.e.Send? && s.current in s.threads && CanRun(Next(s, m).s, moves)
    requires Machine.Free(s, m.e.dst, |m.e.body|)
             && (s.tasks[m.e.dst].allow == Pid0(s) || s.tasks[m.e.dst].allow == -1)
    requires Unset(Next(s, m).s, moves, m.e.dst, Buffer)
    requires Receives(Next(s, m).s, moves, m.e.dst) == |s.tasks[m.e.dst].queue|
    requires var w := After(Next(s, m).s, moves); Allowed(w, last.e) && last.e.Recv? && By(w, m.e.dst)
    ensures Receiving(After(Next(s, m).s, moves), last.regs.basic.rax, m.e.dst, m.e.messageNo, m.e.msgId, Pid0(s),
                      m.e.body)
  {
    hide Inv, Allowed, Next, Body, Machine.Free, Says, Receiving, By;
    StepTables(s, m);
    SendWakes(s, m.e.messageNo, m.e.msgId, m.e.body, m.e.dst, m.regs.basic.rax);
    InTasks(s, m.e.dst, |m.e.body|);
    PlacedIsReceived(Next(s, m).s, moves, last, m.e.dst, |s.tasks[m.e.dst].queue|, m.e.messageNo, m.e.msgId, Pid0(s),
                     m.e.body);
  }

  // The same for the message of an interrupt, whose number is 3 and whose source reads as -2.
  lemma IrqIsReceived(s: State, m: Move, moves: seq<Move>, last: Move)
    requires Inv(s) && Allowed(s, m.e) && m.e.Irq? && CanRun(Next(s, m).s, moves)
    requires Machine.Free(s, m.e.dst, |m.e.irqBody|) && s.tasks[m.e.dst].allow < 0
    requires Unset(Next(s, m).s, moves, m.e.dst, Buffer)
    requires Receives(Next(s, m).s, moves, m.e.dst) == |s.tasks[m.e.dst].queue|
    requires var w := After(Next(s, m).s, moves); Allowed(w, last.e) && last.e.Recv? && By(w, m.e.dst)
    ensures Receiving(After(Next(s, m).s, moves), last.regs.basic.rax, m.e.dst, 3, m.e.irqId, -2, m.e.irqBody)
  {
    hide Inv, Allowed, Next, Body, Machine.Free, Says, Receiving, By;
    StepTables(s, m);
    IrqWakes(s, m.e.irqId, m.e.irqBody, m.e.dst, m.regs.basic.rax);
    InTasks(s, m.e.dst, |m.e.irqBody|);
    PlacedIsReceived(Next(s, m).s, moves, last, m.e.dst, |s.tasks[m.e.dst].queue|, 3, m.e.irqId, -2, m.e.irqBody);
  }

  lemma InTasks(s: State, dst: Pid, size: nat)
    requires Machine.Free(s, dst, size)
    ensures dst in s.tasks
  {
  }

  // ----- Semaphores

  // What an event is to one semaphore.
  function OpOf(s: State, e: Event, id: nat): seq<Semaphores.Op> {
    if e == UpSignal(id) then [Semaphores.UpOp] else if e == DownSignal(id) then [Semaphores.DownOp(s.current)] else []
  }

  // The ups and downs of one semaphore in a run, with who made the downs.
  ghost function OpsOf(s: State, moves: seq<Move>, id: nat): seq<Semaphores.Op>
    requires Inv(s) && CanRun(s, moves)
    decreases |moves|
  {
    hide Inv, Allowed, Next;
    if moves == [] then [] else OpOf(s, moves[0].e, id) + OpsOf(Next(s, moves[0]).s, moves[1..], id)
  }

  // The semaphore goes from one value to the other by these operations, without a failure.
  predicate Goes(a: Semaphores.Semaphore, ops: seq<Semaphores.Op>, b: Semaphores.Semaphore) {
    Semaphores.Run(a, ops).Running? && Semaphores.Run(a, ops).s == b
  }

  lemma {:induction false} RunSplit(s: Semaphores.Semaphore, a: seq<Semaphores.Op>, b: seq<Semaphores.Op>)
    requires Semaphores.Run(s, a).Running? && Semaphores.Run(Semaphores.Run(s, a).s, b).Running?
    ensures Goes(s, a + b, Semaphores.Run(Semaphores.Run(s, a).s, b).s)
  {
    if b == [] {
      assert a + b == a;
    } else {
      assert (a + b)[..|a + b| - 1] == a + b[..|b| - 1];
      RunSplit(s, a, b[..|b| - 1]);
    }
  }

  lemma GoesOne(s: Semaphores.Semaphore, op: Semaphores.Op)
    ensures Semaphores.Run(s, [op]) == Semaphores.Step(Semaphores.Running(s, [], []), op)
    ensures Goes(s, [], s)
  {
    assert [op][..0] == [];
  }

  lemma StepGoes(s: State, m: Move, id: nat)
    requires Inv(s) && Allowed(s, m.e) && id in s.sems
    ensures id in Next(s, m).s.sems && Goes(s.sems[id], OpOf(s, m.e, id), Next(s, m).s.sems[id])
  {
    hide Inv, Allowed, Body, Next, Goes, OpOf;
    StepTables(s, m);
    BodyGoes(s, m.e, m.regs.basic.rax, id);
  }

  lemma BodyGoes(s: State, e: Event, rax: int, id: nat)
    requires Inv(s) && Allowed(s, e) && id in s.sems
    ensures s.current in s.threads && id in Body(s, e, rax).0.sems
    ensures Goes(s.sems[id], OpOf(s, e, id), Body(s, e, rax).0.sems[id])
  {
    hide Inv, Wake, Deliver, HasRoom, Used, MessageOf, Header, NewThread, Semaphores.Run;
    StartOfStep(s);
    var op := if e.UpSignal? then Semaphores.UpOp else Semaphores.DownOp(s.current);
    GoesOne(s.sems[id], op);
    match e
    case Send(no, _, body, dst) =>
      if dst in s.tasks && s.tasks[dst].handler in s.threads {
        DeliverTasks(s, dst, MessageOf(no, e.msgId, Pid0(s), body), s.tasks[dst].allow != Mail.DUMMY_TASK);
      }
    case Irq(irq, body, dst) =>
      if dst in s.tasks && s.tasks[dst].handler in s.threads {
        DeliverTasks(s, dst, MessageOf(3, irq, Mail.DUMMY_TASK, body), true);
      }
    case UpSignal(jd) =>
      UpKeeps(s, jd);
      var up := Semaphores.Up(s.sems[jd]);
      if up.Woke? { WakeTables(s.(sems := s.sems[jd := up.s]), up.thread); }
    case CreateThread(tid, entry) => NewThreadTasks(s, tid, Pid0(s), entry);
    case CreateTask(pid, tid, _, _, _, entry) => NewThreadTasks(WithTask(s, e), tid, pid, entry);
    case _ =>
  }

  // A semaphore of the machine goes through any run as it would alone, with the ups and downs made on it.
  lemma {:induction false} SemaphoreRuns(s: State, moves: seq<Move>, id: nat)
    requires Inv(s) && CanRun(s, moves) && id in s.sems
    ensures id in After(s, moves).sems && Goes(s.sems[id], OpsOf(s, moves, id), After(s, moves).sems[id])
    decreases |moves|
  {
    hide Inv, Allowed, Next, Semaphores.Run, OpOf;
    if moves == [] {
      GoesOne(s.sems[id], Semaphores.UpOp);
    } else {
      StepGoes(s, moves[0], id);
      var u := Next(s, moves[0]).s;
      SemaphoreRuns(u, moves[1..], id);
      RunSplit(s.sems[id], OpOf(s, moves[0].e, id), OpsOf(u, moves[1..], id));
    }
  }

  // What create_signal gives: the id of a semaphore of that ceiling, value and kind, which over any later run counts
  // the ups and downs made on it and lets its sleepers go in the order they came.
  lemma CreatedCounts(s: State, m: Move, moves: seq<Move>)
    requires Inv(s) && Allowed(s, m.e) && m.e.CreateSignal? && CanRun(Next(s, m).s, moves)
    ensures s.current in s.threads && Body(s, m.e, m.regs.basic.rax).1 == m.e.id
    ensures var (u, ops) := (After(Next(s, m).s, moves), OpsOf(Next(s, m).s, moves, m.e.id));
            var h := Semaphores.Run(Semaphores.Fresh(m.e.max, m.e.value, m.e.soft), ops);
            && m.e.id in u.sems && u.sems[m.e.id].max == m.e.max && u.sems[m.e.id].soft == m.e.soft
            && Semaphores.Counts(u.sems[m.e.id].signals, m.e.max, m.e.value, ops)
            && h.Running? && h.slept == h.woken + u.sems[m.e.id].waiting
  {
    hide Inv, Next, Semaphores.Run, Semaphores.Counts, Semaphores.Settled, OpsOf;
    StepTables(s, m);
    SemaphoreRuns(Next(s, m).s, moves, m.e.id);
    var ops := OpsOf(Next(s, m).s, moves, m.e.id);
    Semaphores.RunSettled(m.e.max, m.e.value, m.e.soft, ops);
    Semaphores.RunCounts(m.e.max, m.e.value, m.e.soft, ops);
  }

  // ----- New threads

  predicate Bears(e: Event) { e.CreateThread? || e.CreateTask? }

  // The task of a new thread.
  function Parent(s: State, e: Event): Pid
    requires s.current in s.threads && Bears(e)
  {
    if e.CreateTask? then e.pid else Pid0(s)
  }

  // A new thread is SUBBMITED and last in the ready list, with its entry frame, and the priority and a full slice of
  // its task; create_thread returns its number. A new task is as asked for, with no mailbox and the filter NULL_TASK.
  lemma BirthIs(s: State, e: Event, rax: int)
    requires Inv(s) && Allowed(s, e) && Bears(e)
    ensures s.current in s.threads
    ensures var ((b, r), p) := (Body(s, e, rax), Parent(s, e));
            && p in b.tasks && r == (if e.CreateThread? then e.tid else rax)
            && (e.CreateThread? ==> b.tasks == s.tasks)
            && (e.CreateTask? ==>
                  && b.tasks.Keys == s.tasks.Keys + {p} && (forall q <- s.tasks :: b.tasks[q] == s.tasks[q])
                  && b.tasks[p].level == e.level && b.tasks[p].priority == e.priority && b.tasks[p].pgd == e.pgd
                  && !b.tasks[p].mail && b.tasks[p].queue == [] && b.tasks[p].allow == 0)
            && b == s.(threads := b.threads, tasks := b.tasks, ready := s.ready + [e.tid])
            && e.tid !in s.threads && b.threads.Keys == s.threads.Keys + {e.tid}
            && (forall t <- s.threads :: b.threads[t] == s.threads[t])
            && b.threads[e.tid] ==
               Thread(p, SUBBMITED, e.entry, 3 * b.tasks[p].priority, b.tasks[p].priority)
  {
    hide Mid;
    Caller(s, e);
    StartOfStep(s);
    LevelsAre(s, Pid0(s));
  }

  lemma LevelsAre(s: State, p: Pid)
    requires Inv(s) && p in s.tasks
    ensures s.tasks[p].level == 0 || s.tasks[p].level == 1
  {
  }

  // The frame a thread starts with: every register as its entry says, in the page table of its task.
  predicate StartsWith(f: Frame, entry: Saved, pgd: int, ist: int) {
    && f.basic == entry.basic && f.rbp == entry.stack.rbp && f.rsp == entry.stack.rsp && f.ss == entry.stack.ss
    && f.rip == entry.program.rip && f.cs == entry.program.cs && f.rflags == entry.program.rflags
    && f.pgd == pgd && f.ist == ist
  }

  lemma BornRegs(s: State, m: Move)
    requires Inv(s) && Allowed(s, m.e) && Bears(m.e)
    ensures s.current in s.threads
    ensures var (o, p, t) := (Next(s, m), Parent(s, m.e), m.e.tid);
            && t in o.s.threads && p in o.s.tasks && o.s.threads[t].regs == m.e.entry && t != o.s.idle
            && o.s.threads[t].task == p
            && (o.s.current == t ==> StartsWith(o.regs, m.e.entry, o.s.tasks[p].pgd, m.regs.ist))
  {
    hide Inv, Allowed, Body, Next, AfterSyscall, CountTick, Mid, Dispatch, DownThread, Level, PgdOf;
    NextIs(s, m);
    StartOfStep(s);
    BirthIs(s, m.e, m.regs.basic.rax);
    IdleThere(s);
    StepTables(s, m);
    var (b, rax) := Body(s, m.e, m.regs.basic.rax);
    var regs := WithRax(m.regs, rax);
    if Decides(m.e) {
      DecisionRegs(b, regs, m.e.tid);
      DecisionTask(b, regs, m.e.tid);
      PgdIs(b, m.e.tid);
    }
  }

  lemma IdleThere(s: State)
    requires Inv(s)
    ensures s.idle in s.threads
  {
  }

  lemma PgdIs(s: State, t: Tid)
    requires t in s.threads && s.threads[t].task in s.tasks
    ensures PgdOf(s, t) == s.tasks[s.threads[t].task].pgd
  {
  }

  lemma DecisionTask(b: State, regs: Frame, t: Tid)
    requires b.current in b.threads && Dispatch(DownThread(b, regs)).current in DownThread(b, regs).threads
    requires t in AfterSyscall(b, regs).s.threads
    ensures t in b.threads && AfterSyscall(b, regs).s.threads[t].task == b.threads[t].task
    ensures AfterSyscall(b, regs).s.idle == b.idle
  {
    hide DownThread, UpThread, Dispatch, ShouldSwitch;
    DownFields(b, regs, t);
    DispatchFields(DownThread(b, regs));
    UpFields(Dispatch(DownThread(b, regs)), regs, t);
  }

  lemma DownFields(b: State, regs: Frame, t: Tid)
    requires b.current in b.threads
    ensures t in DownThread(b, regs).threads ==>
              t in b.threads && DownThread(b, regs).threads[t].task == b.threads[t].task
    ensures DownThread(b, regs).idle == b.idle
  {
  }

  lemma DispatchFields(d: State)
    ensures Dispatch(d).threads == d.threads && Dispatch(d).idle == d.idle
  {
  }

  lemma UpFields(c: State, regs: Frame, t: Tid)
    requires c.current in c.threads
    ensures t in UpThread(c, regs).s.threads ==>
              t in c.threads && UpThread(c, regs).s.threads[t].task == c.threads[t].task
    ensures UpThread(c, regs).s.idle == c.idle
  {
  }

  // A new thread starts where it should, whether the step that made it dispatches it at once or another one does so any
  // number of steps later.
  lemma StartsAtEntry(s: State, m: Move, moves: seq<Move>, last: Move)
    requires Inv(s) && Allowed(s, m.e) && Bears(m.e) && CanRun(Next(s, m).s, moves)
    requires var w := After(Next(s, m).s, moves); Allowed(w, last.e)
    ensures s.current in s.threads
    ensures var (o, p, t, w) := (Next(s, m), Parent(s, m.e), m.e.tid, After(Next(s, m).s, moves));
            && p in o.s.tasks
            && (o.s.current == t ==> StartsWith(o.regs, m.e.entry, o.s.tasks[p].pgd, m.regs.ist))
            && (Away(o.s, moves, t) && Next(w, last).s.current == t ==>
                  StartsWith(Next(w, last).regs, m.e.entry, o.s.tasks[p].pgd, last.regs.ist))
  {
    hide Inv, Allowed, Next, PgdOf;
    BornRegs(s, m);
    var (o, t, w) := (Next(s, m), m.e.tid, After(Next(s, m).s, moves));
    if Away(o.s, moves, t) {
      AwayRegs(o.s, moves, t);
      OwnTables(o.s, t);
      StepRegs(w, last, t);
    }
  }
}
