// The kernel as a step machine: kernel/task/task_scheduler.c, kernel/task/task_manager.c, the semaphore and
// mailbox system calls, the clock and the other interrupts. Interrupt gates keep interrupts off, so a system
// call or an interrupt, with the scheduling decision at its end, is one step.
module Machine {
  import opened Basics
  import Mail
  import opened Registers
  import Semaphores

  type Tid = nat
  type Pid = int

  const EMPTY: Pid := -1  // the idle task, which only spins and is in no task list

  datatype Status = READY | RUNNING | SUBBMITED | WAITING | WAITING_IPC | TERMINATED | EXCEPTION

  datatype Thread = Thread(task: Pid, status: Status, regs: Saved, count: int, priority: int)

  // A task, with what its mailbox holds.
  datatype Task = Task(level: int, priority: int, pgd: int, mail: bool, size: nat, queue: seq<Mail.Message>, allow: Pid,
           handler: Tid)

  datatype State = State(
    scheduling: bool,
    threads: map<Tid, Thread>,
    tasks: map<Pid, Task>,
    ready: seq<Tid>,    // the level-0 list
    ready1: seq<Tid>,   // the level-1 list
    current: Tid,
    idle: Tid,          // the thread of the empty task
    idlePgd: int,       // and its page table
    sems: map<nat, Semaphores.Semaphore>)

  // used_size
  function Used(t: Task): nat { |Mail.Encoded(t.queue)| }

  function Level(s: State, t: Tid): int
    requires t in s.threads
  {
    var pid := s.threads[t].task;
    if pid in s.tasks then s.tasks[pid].level else -1
  }

  function PgdOf(s: State, t: Tid): int
    requires t in s.threads
  {
    var pid := s.threads[t].task;
    if pid in s.tasks then s.tasks[pid].pgd else s.idlePgd
  }

  // enqueue_thread: level 1 goes to the level-0 list too.
  function Enqueue(s: State, t: Tid): State
    requires t in s.threads
  {
    if Level(s, t) == 0 then s.(ready := s.ready + [t])
    else if Level(s, t) == 1 then s.(ready := s.ready + [t])
    else s
  }

  function SetStatus(s: State, t: Tid, status: Status): State
    requires t in s.threads
  {
    s.(threads := s.threads[t := s.threads[t].(status := status)])
  }

  function Wake(s: State, t: Tid): State
    requires t in s.threads
  {
    Enqueue(SetStatus(s, t, READY), t)
  }

  // ----- task_scheduler.c

  predicate ShouldSwitch(s: State)
    requires s.current in s.threads
  {
    var t := s.threads[s.current];
    if !s.scheduling then false
    else if t.task == EMPTY then true
    else if Level(s, s.current) == 0 then t.status != RUNNING
    else if Level(s, s.current) == 1 then s.ready != [] || t.status != RUNNING || t.count <= 0
    else true
  }

  function DownThread(s: State, regs: Frame): State
    requires s.current in s.threads
  {
    var saved := s.(threads := s.threads[s.current := s.threads[s.current].(regs := Save(regs))]);
    var status := s.threads[s.current].status;
    if status == RUNNING then Wake(saved, s.current)
    else if status == TERMINATED || status == EXCEPTION then saved.(threads := saved.threads - {s.current})
    else saved
  }

  // get_next_run_thread, with the thread made the current one.
  function Dispatch(s: State): State {
    if s.ready != [] then s.(current := s.ready[0], ready := s.ready[1..])
    else if s.ready1 != [] then s.(current := s.ready1[0], ready1 := s.ready1[1..])
    else s.(current := s.idle)
  }

  datatype Outcome = Outcome(s: State, regs: Frame, switched: bool)

  // up_thread, and the new time slice.
  function UpThread(s: State, regs: Frame): Outcome
    requires s.current in s.threads
  {
    var t := s.threads[s.current].(status := RUNNING);
    var sliced := if Level(s, s.current) == 1 then t.(count := t.priority * 3) else t;
    Outcome(s.(threads := s.threads[s.current := sliced]), Load(regs, t.regs, PgdOf(s, s.current)), true)
  }

  function DoSwitch(s: State, regs: Frame): Outcome
    requires s.current in s.threads && Dispatch(DownThread(s, regs)).current in DownThread(s, regs).threads
  {
    UpThread(Dispatch(DownThread(s, regs)), regs)
  }

  function AfterSyscall(s: State, regs: Frame): Outcome
    requires s.current in s.threads
    requires ShouldSwitch(s) ==> Dispatch(DownThread(s, regs)).current in DownThread(s, regs).threads
  {
    if ShouldSwitch(s) then DoSwitch(s, regs) else Outcome(s, regs, false)
  }

  // ----- The system calls, before the scheduling decision

  datatype Event =
    | Send(messageNo: Byte, msgId: nat, body: seq<Byte>, dst: Pid)
    | CheckIpc
    | SetAllow(pid: Pid)
    | Recv
    | SetMailbuffer(size: nat)
    | CreateSignal(id: nat, max: int, value: int, soft: bool)
    | UpSignal(id: nat)
    | DownSignal(id: nat)
    | CreateThread(tid: Tid, entry: Saved)
    | ExitThread
    | Fault
    | Tick
    | Irq(irqId: nat, irqBody: seq<Byte>, dst: Pid)
    | CreateTask(pid: Pid, tid: Tid, level: int, priority: int, pgd: int, entry: Saved)

  function Pid0(s: State): Pid
    requires s.current in s.threads
  {
    s.threads[s.current].task
  }

  function MessageOf(no: Byte, id: nat, source: Pid, body: seq<Byte>): Mail.Message {
    Mail.Message(Mail.Pack(0, no, id, |body|, Mail.Word(source)), body)
  }

  // An accepted message: stored, and the sleeping handler woken.
  function Deliver(s: State, dst: Pid, m: Mail.Message, wakes: bool): State
    requires dst in s.tasks && s.tasks[dst].handler in s.threads
  {
    var task := s.tasks[dst];
    var stored := s.(tasks := s.tasks[dst := task.(queue := task.queue + [m])]);
    if s.threads[task.handler].status == WAITING_IPC && wakes then Wake(stored, task.handler) else stored
  }

  predicate HasRoom(t: Task, size: nat) { Used(t) + size + Mail.PACK <= t.size }

  predicate SendAccepted(s: State, dst: Pid, size: nat)
    requires s.current in s.threads
  {
    dst in s.tasks && HasRoom(s.tasks[dst], size)
      && (s.tasks[dst].allow == Pid0(s) || s.tasks[dst].allow == Mail.ANY_TASK)
  }

  predicate IrqAccepted(s: State, dst: Pid, size: nat) {
    dst in s.tasks && HasRoom(s.tasks[dst], size) && (s.tasks[dst].allow == Mail.DUMMY_TASK || s.tasks[dst].allow < 0)
  }

  // What happens outside the model, and what the callers owe: semaphores exist and are created sanely, a
  // thread that handles a mailbox does not end, tasks have fresh numbers and level 0 or 1, bodies fit 16 bits.
  ghost predicate Allowed(s: State, e: Event) {
    && s.current in s.threads
    && (e.Tick? || e.Irq? || s.current != s.idle)
    && match e
       case Send(_, msgId, body, dst) => msgId < 0x1_0000 && |body| < 0x1_0000
       case Irq(irqId, body, dst) => irqId < 0x1_0000 && |body| < 0x1_0000
       case CreateSignal(id, max, value, soft) => id !in s.sems && max >= 1 && 0 <= value <= max
       case UpSignal(id) => id in s.sems
       case DownSignal(id) => id in s.sems
       case CreateThread(tid, _) => tid !in s.threads
       case ExitThread => Unneeded(s, s.current)
       case Fault => Unneeded(s, s.current)
       case CreateTask(pid, tid, level, priority, _, _) => pid >= 0 && pid !in s.tasks && tid !in s.threads
         && (level == 0 || level == 1) && priority >= 1
       case _ => true
  }

  function Ended(s: State, status: Status): State
    requires s.current in s.threads
  {
    SetStatus(s, s.current, status)
  }

  // The body of one system call or interrupt: the state and the result register.
  function Body(s: State, e: Event, rax: int): (r: (State, int))
    requires s.current in s.threads
  {
    var me := Pid0(s);
    match e
    case Send(no, id, body, dst) =>
      if SendAccepted(s, dst, |body|) && s.tasks[dst].handler in s.threads then
        (Deliver(s, dst, MessageOf(no, id, me, body), s.tasks[dst].allow != Mail.DUMMY_TASK), 1)
      else (s, 0)
    case Irq(id, body, dst) =>
      if IrqAccepted(s, dst, |body|) && s.tasks[dst].handler in s.threads then
        (Deliver(s, dst, MessageOf(3, id, Mail.DUMMY_TASK, body), true), rax)
      else (s, rax)
    case CheckIpc =>
      if me !in s.tasks || !s.tasks[me].mail || Used(s.tasks[me]) > 0 then (s, 0) else (Ended(s, WAITING_IPC), 0)
    case SetAllow(pid) =>
      if me in s.tasks then (s.(tasks := s.tasks[me := s.tasks[me].(allow := pid)]), 0) else (s, 0)
    case Recv =>
      if me in s.tasks && s.tasks[me].queue != [] then
        (s.(tasks := s.tasks[me := s.tasks[me].(queue := s.tasks[me].queue[1..])]), Header(s.tasks[me].queue[0].pack))
      else (s, Header(Mail.NOTHING))
    case SetMailbuffer(size) =>
      if me in s.tasks then
        (s.(tasks := s.tasks[me := s.tasks[me].(mail := true, size := size, queue := [], handler := s.current)]), 0)
      else (s, 0)
    case CreateSignal(id, max, value, soft) => (s.(sems := s.sems[id := Semaphores.Fresh(max, value, soft)]), id)
    case UpSignal(id) =>
      if id !in s.sems then (s, 0)
      else
        (match Semaphores.Up(s.sems[id])
         case Raised(u) => (s.(sems := s.sems[id := u]), 0)
         case Woke(u, t) => if t in s.threads then (Wake(s.(sems := s.sems[id := u]), t), 0) else (s, 0)
         case Stuck => (s, 0))
    case DownSignal(id) =>
      if id !in s.sems then (s, 0)
      else
        var lowered := s.(sems := s.sems[id := Semaphores.Down(s.sems[id], s.current)]);
        (if Semaphores.Blocks(s.sems[id]) then Ended(lowered, WAITING) else lowered, 0)
    case CreateThread(tid, entry) =>
      if me in s.tasks then (NewThread(s, tid, me, entry), tid) else (s, 0)
    case ExitThread => (Ended(s, TERMINATED), 0)
    case Fault => (Ended(s, EXCEPTION), rax)
    case Tick => (s, rax)
    case CreateTask(pid, tid, level, priority, pgd, entry) =>
      (NewThread(s.(tasks := s.tasks[pid := Task(level, priority, pgd, false, 0, [], Mail.NULL_TASK, 0)]), tid, pid,
        entry), rax)
  }

  // The 8 header bytes as one register value.
  function Header(p: Mail.Pack): nat {
    p.reserved + 0x100 * p.messageNo + 0x1_0000 * p.msgId + 0x1_0000_0000 * p.length + 0x1_0000_0000_0000 * p.source
  }

  // Bytes as one number, low byte first.
  function Value(s: seq<Byte>): nat { if s == [] then 0 else s[0] + 256 * Value(s[1..]) }

  lemma {:induction false} ValueOf(s: seq<Byte>, n: nat)
    requires n <= |s|
    ensures n < |s| ==> Value(s[n..]) == s[n] + 256 * Value(s[n + 1..])
    ensures n == |s| ==> Value(s[n..]) == 0
  {
    if n < |s| { assert s[n..][1..] == s[n + 1..]; }
  }

  lemma HeaderParts(p: Mail.Pack)
    requires Mail.Packable(p)
    ensures var s := Mail.Encode(p);
            && s[0] == p.reserved && s[1] == p.messageNo && Mail.Wide(s[2], s[3]) == p.msgId
            && Mail.Wide(s[4], s[5]) == p.length && Mail.Wide(s[6], s[7]) == p.source
  {
    Mail.WordRoundTrip(p.msgId);
    Mail.WordRoundTrip(p.length);
    Mail.WordRoundTrip(p.source);
    assert Mail.Low(p.reserved) == p.reserved && Mail.Low(p.messageNo) == p.messageNo;
  }

  // The register a receive returns holds the header's own bytes.
  lemma HeaderBytes(p: Mail.Pack)
    requires Mail.Packable(p)
    ensures Header(p) == Value(Mail.Encode(p))
  {
    hide Value, Mail.Encode;
    var s := Mail.Encode(p);
    HeaderParts(p);
    ValueOf(s, 0);
    ValueOf(s, 1);
    ValueOf(s, 2);
    ValueOf(s, 3);
    ValueOf(s, 4);
    ValueOf(s, 5);
    ValueOf(s, 6);
    ValueOf(s, 7);
    ValueOf(s, 8);
    assert s[0..] == s;
  }

  // create_thread_info, and the new thread into the ready list.
  function NewThread(s: State, tid: Tid, pid: Pid, entry: Saved): State
    requires pid in s.tasks
  {
    var t := Thread(pid, SUBBMITED, entry, s.tasks[pid].priority * 3, s.tasks[pid].priority);
    Enqueue(s.(threads := s.threads[tid := t]), tid)
  }

  // Interrupts other than the clock, and the making of a task, come without a scheduling decision.
  predicate Decides(e: Event) { !e.Irq? && !e.CreateTask? }

  // The clock counts the slice of whichever thread runs now.
  function CountTick(o: Outcome): Outcome
    requires o.s.current in o.s.threads
  {
    if Level(o.s, o.s.current) == 1 then
      var t := o.s.threads[o.s.current];
      o.(s := o.s.(threads := o.s.threads[o.s.current := t.(count := t.count - 1)]))
    else o
  }

  // ----- The invariant

  predicate Waits(s: State, id: nat, t: Tid) { id in s.sems && t in s.sems[id].waiting }

  predicate Known(s: State, t: Tid) { t in s.threads && t != s.idle }

  // The lists hold threads of the right status, each at most once.
  ghost predicate Listed(s: State) {
    && s.ready1 == [] && Distinct(s.ready)
    && (forall t <- s.ready :: Known(s, t) && s.threads[t].status in {READY, SUBBMITED})
    && (forall id <- s.sems :: Distinct(s.sems[id].waiting))
    && (forall id, t | Waits(s, id, t) :: Known(s, t) && s.threads[t].status == WAITING)
    && (forall id, jd, t | Waits(s, id, t) && Waits(s, jd, t) :: id == jd)
  }

  predicate InSome(s: State, t: Tid) { exists id: nat :: id in s.sems && Waits(s, id, t) }

  // Where a thread must be, by its status.
  predicate Placed(s: State, t: Tid)
    requires t in s.threads
  {
    match s.threads[t].status
    case READY => t in s.ready
    case SUBBMITED => t in s.ready
    case WAITING => InSome(s, t)
    case WAITING_IPC => true
    case _ => t == s.current
  }

  // Every thread but the idle one is in its place.
  ghost predicate Covered(s: State) {
    forall t <- s.threads :: t != s.idle ==> Placed(s, t)
  }

  ghost predicate Tasks(s: State) {
    && (forall pid <- s.tasks :: pid >= 0 && (s.tasks[pid].level == 0 || s.tasks[pid].level == 1))
    && s.idle in s.threads && s.threads[s.idle].task == EMPTY
    && (forall t <- s.threads :: t != s.idle ==> s.threads[t].task in s.tasks)
  }

  ghost predicate Settled(s: State) { forall id <- s.sems :: Semaphores.Settled(s.sems[id]) }

  // A mailbox fits its buffer, and its handler sleeps only while it is empty.
  ghost predicate MailSound(s: State, pid: Pid)
    requires pid in s.tasks
  {
    var task := s.tasks[pid];
    && (forall i | 0 <= i < |task.queue| :: Mail.Proper(task.queue[i])) && Used(task) <= task.size
    && (!task.mail ==> task.size == 0)
    && (task.mail ==> Known(s, task.handler) && s.threads[task.handler].task == pid)
    && (task.mail && s.threads[task.handler].status == WAITING_IPC ==> task.queue == [])
  }

  ghost predicate Mails(s: State) { forall pid <- s.tasks :: MailSound(s, pid) }

  // A thread that ends handles no mailbox.
  ghost predicate Unneeded(s: State, t: Tid) {
    forall pid <- s.tasks :: s.tasks[pid].mail ==> s.tasks[pid].handler != t
  }

  // In the middle of a step the current thread may have stopped running already.
  ghost predicate Mid(s: State) {
    && s.scheduling && s.current in s.threads && s.threads[s.current].status !in {READY, SUBBMITED}
    && Tasks(s) && Listed(s) && Covered(s) && Settled(s) && Mails(s)
    && (s.current == s.idle ==> s.threads[s.idle].status == RUNNING)
    && (s.current != s.idle ==> s.threads[s.idle].status in {READY, SUBBMITED})
    && (s.threads[s.current].status in {TERMINATED, EXCEPTION} ==> Unneeded(s, s.current))
  }

  // Between steps it is running.
  ghost predicate Inv(s: State) { Mid(s) && s.threads[s.current].status == RUNNING }

  // ----- The scheduling decision keeps all threads in their places

  // A thread stays in its place while its status, its queue and the current thread stay.
  lemma SamePlace(s: State, u: State, t: Tid)
    requires t in s.threads && t in u.threads && u.threads[t].status == s.threads[t].status && Placed(s, t)
    requires u.sems == s.sems && (t in s.ready ==> t in u.ready)
    requires u.current == s.current || s.threads[t].status !in {RUNNING, TERMINATED, EXCEPTION}
    ensures Placed(u, t)
  {
    if InSome(s, t) {
      var id: nat :| id in s.sems && Waits(s, id, t);
      assert Waits(u, id, t);
    }
  }

  // The lists stay as they are, and so do the threads in them.
  lemma SameLists(s: State, u: State)
    requires Listed(s) && u.sems == s.sems && u.ready == s.ready && u.ready1 == s.ready1 && u.idle == s.idle
    requires forall t | Known(s, t) && s.threads[t].status in {READY, SUBBMITED, WAITING} ::
             t in u.threads && u.threads[t].status == s.threads[t].status
    ensures Listed(u)
  {
    assert forall id, t :: Waits(u, id, t) <==> Waits(s, id, t);
  }

  // The states differ only in saved registers and time slices.
  ghost predicate Alike(s: State, u: State) {
    && u == s.(threads := u.threads) && u.threads.Keys == s.threads.Keys
    && (forall t <- s.threads :: u.threads[t].status == s.threads[t].status && u.threads[t].task == s.threads[t].task)
  }

  lemma AlikeKeeps(s: State, u: State)
    requires Alike(s, u) && Mid(s)
    ensures Mid(u)
  {
    SameLists(s, u);
    forall t | t in u.threads && t != u.idle ensures Placed(u, t) { SamePlace(s, u, t) by { assert Placed(s, t); } }
    forall pid | pid in u.tasks ensures MailSound(u, pid) { assert MailSound(s, pid); }
  }

  // No thread is running: what there is between taking one off and putting the next one on.
  ghost predicate Detached(s: State) {
    && s.scheduling && Tasks(s) && Listed(s) && Settled(s) && Mails(s)
    && s.threads[s.idle].status in {READY, SUBBMITED}
    && (forall t <- s.threads :: t != s.idle ==>
                                 Placed(s, t) && s.threads[t].status !in {RUNNING, TERMINATED, EXCEPTION})
  }

  lemma WakeLists(s: State, t: Tid)
    requires Known(s, t) && Tasks(s) && Listed(s) && t !in s.ready && (forall id :: !Waits(s, id, t))
    ensures Tasks(Wake(s, t)) && Listed(Wake(s, t))
    ensures Wake(s, t) == SetStatus(s, t, READY).(ready := s.ready + [t])
  {
    var w := Wake(s, t);
    assert forall id, u :: Waits(w, id, u) <==> Waits(s, id, u);
  }

  lemma WakePlaces(s: State, t: Tid, u: Tid)
    requires t in s.threads && u in s.threads && Placed(s, u)
             && Wake(s, t) == SetStatus(s, t, READY).(ready := s.ready + [t])
    ensures Placed(Wake(s, t), u)
    ensures u != t ==> Wake(s, t).threads[u] == s.threads[u]
  {
    if InSome(s, u) {
      var id: nat :| id in s.sems && Waits(s, id, u);
      assert Waits(Wake(s, t), id, u);
    }
  }

  // A thread whose status becomes READY can only help its mailbox.
  lemma WakeMails(s: State, t: Tid)
    requires Known(s, t) && Mails(s)
    ensures Mails(Wake(s, t))
  {
    forall pid | pid in s.tasks ensures MailSound(Wake(s, t), pid) { assert MailSound(s, pid); }
  }

  lemma NotQueued(s: State, t: Tid)
    requires Listed(s) && t in s.threads && s.threads[t].status !in {READY, SUBBMITED, WAITING}
    ensures t !in s.ready && forall id :: !Waits(s, id, t)
  {
  }

  lemma RemovedDetached(s: State)
    requires Mid(s) && s.threads[s.current].status in {TERMINATED, EXCEPTION}
    ensures Detached(s.(threads := s.threads - {s.current}))
  {
    var d := s.(threads := s.threads - {s.current});
    hide Listed, Unneeded, MailSound, Semaphores.Settled;
    RemovedLists(s);
    forall t | t in d.threads && t != d.idle
      ensures Placed(d, t) && d.threads[t].status !in {RUNNING, TERMINATED, EXCEPTION}
    {
      RemovedPlace(s, t);
    }
    forall pid | pid in d.tasks ensures MailSound(d, pid) { RemovedMail(s, pid); }
  }

  lemma RemovedLists(s: State)
    requires Listed(s) && s.current in s.threads && s.threads[s.current].status in {TERMINATED, EXCEPTION}
    ensures Listed(s.(threads := s.threads - {s.current}))
  {
    SameLists(s, s.(threads := s.threads - {s.current}));
  }

  lemma RemovedPlace(s: State, t: Tid)
    requires Covered(s) && t in s.threads && t != s.current && t != s.idle
    ensures Placed(s.(threads := s.threads - {s.current}), t)
            && s.threads[t].status !in {RUNNING, TERMINATED, EXCEPTION}
  {
    assert Placed(s, t);
    SamePlace(s, s.(threads := s.threads - {s.current}), t);
  }

  lemma RemovedMail(s: State, pid: Pid)
    requires pid in s.tasks && Mails(s) && Unneeded(s, s.current)
    ensures MailSound(s.(threads := s.threads - {s.current}), pid)
  {
    assert MailSound(s, pid);
  }

  lemma PreemptedDetached(s: State)
    requires Mid(s) && s.threads[s.current].status == RUNNING
    ensures Detached(Wake(s, s.current))
  {
    hide Mails;
    NotQueued(s, s.current);
    if s.current == s.idle {
      PreemptedIdle(s);
    } else {
      var d := Wake(s, s.current);
      WakeLists(s, s.current);
      WakeMails(s, s.current);
      hide Listed, Wake;
      forall t | t in d.threads && t != d.idle
        ensures Placed(d, t) && d.threads[t].status !in {RUNNING, TERMINATED, EXCEPTION}
      {
        assert Placed(s, t);
        WakePlaces(s, s.current, t);
      }
    }
  }

  // The idle thread is in no list.
  lemma PreemptedIdle(s: State)
    requires Mid(s) && s.threads[s.current].status == RUNNING && s.current == s.idle
    ensures Detached(Wake(s, s.current))
  {
    hide Listed, Wake, MailSound, Semaphores.Settled;
    var d := Wake(s, s.current);
    IdleWoken(s);
    forall t | t in d.threads && t != d.idle
      ensures Placed(d, t) && d.threads[t].status !in {RUNNING, TERMINATED, EXCEPTION}
    {
      assert Placed(s, t);
      SamePlace(s, d, t);
    }
    forall pid | pid in d.tasks ensures MailSound(d, pid) { IdleMail(s, pid); }
  }

  lemma IdleWoken(s: State)
    requires Tasks(s) && Listed(s) && s.current == s.idle
    ensures Wake(s, s.idle) == SetStatus(s, s.idle, READY) && Listed(SetStatus(s, s.idle, READY))
  {
    SameLists(s, SetStatus(s, s.idle, READY));
  }

  lemma IdleMail(s: State, pid: Pid)
    requires Mails(s) && pid in s.tasks && s.idle in s.threads
    ensures MailSound(SetStatus(s, s.idle, READY), pid)
  {
    assert MailSound(s, pid);
  }

  lemma DownDetached(s: State, regs: Frame)
    requires Mid(s)
    ensures Detached(DownThread(s, regs))
  {
    hide Detached, Listed, Covered, Settled, Mails, Tasks, Wake, Unneeded;
    var saved := s.(threads := s.threads[s.current := s.threads[s.current].(regs := Save(regs))]);
    AlikeKeeps(s, saved);
    var status := s.threads[s.current].status;
    if status == RUNNING {
      PreemptedDetached(saved);
    } else if status == TERMINATED || status == EXCEPTION {
      RemovedDetached(saved);
    } else {
      StoppedDetached(saved);
    }
  }

  lemma StoppedDetached(s: State)
    requires Mid(s) && s.threads[s.current].status !in {RUNNING, TERMINATED, EXCEPTION}
    ensures Detached(s)
  {
    hide Listed, Mails, Settled;
  }

  lemma DispatchLists(d: State)
    requires Detached(d)
    ensures var c := Dispatch(d);
            c.current in d.threads && Listed(SetStatus(c, c.current, RUNNING)) && c.current !in c.ready
    ensures Dispatch(d).ready == if d.ready == [] then [] else d.ready[1..]
    ensures Dispatch(d).current == if d.ready == [] then d.idle else d.ready[0]
    ensures Dispatch(d) == d.(current := Dispatch(d).current, ready := Dispatch(d).ready)
    ensures forall id :: !Waits(d, id, Dispatch(d).current)
  {
    var c := Dispatch(d);
    if d.ready != [] { assert d.ready[0] in d.ready; }
    var u := SetStatus(c, c.current, RUNNING);
    assert forall id, t :: Waits(u, id, t) <==> Waits(d, id, t);
    assert forall t :: t in u.ready ==> t in d.ready && t != u.current;
  }

  lemma RunningPlaced(d: State, t: Tid)
    requires t in d.threads && t != d.idle && Dispatch(d).current in d.threads && d.ready1 == []
    requires Placed(d, t) && d.threads[t].status !in {RUNNING, TERMINATED, EXCEPTION}
    ensures Placed(SetStatus(Dispatch(d), Dispatch(d).current, RUNNING), t)
  {
    hide Placed, InSome;
    var u := SetStatus(Dispatch(d), Dispatch(d).current, RUNNING);
    if t != u.current {
      if t in d.ready { assert d.ready == [d.ready[0]] + d.ready[1..]; }
      SamePlace(d, u, t);
    } else {
      CurrentPlaced(u);
    }
  }

  lemma CurrentPlaced(u: State)
    requires u.current in u.threads && u.threads[u.current].status == RUNNING
    ensures Placed(u, u.current)
  {
  }

  lemma StillPlaced(d: State, t: Tid)
    requires Detached(d) && t in d.threads && t != d.idle
    ensures Placed(d, t) && d.threads[t].status !in {RUNNING, TERMINATED, EXCEPTION} && d.ready1 == []
  {
    hide Tasks, Settled, Mails;
  }

  lemma RunningMails(d: State, t: Tid)
    requires t in d.threads && Mails(d)
    ensures Mails(SetStatus(d, t, RUNNING))
  {
    forall pid | pid in d.tasks ensures MailSound(SetStatus(d, t, RUNNING), pid) { assert MailSound(d, pid); }
  }

  lemma SameMails(s: State, u: State)
    requires Mails(s) && u.tasks == s.tasks && u.threads == s.threads && u.idle == s.idle
    ensures Mails(u)
  {
    forall pid | pid in u.tasks ensures MailSound(u, pid) { assert MailSound(s, pid); }
  }

  lemma UpRunning(d: State, regs: Frame)
    requires Detached(d)
    ensures Dispatch(d).current in d.threads && Inv(UpThread(Dispatch(d), regs).s)
  {
    hide Listed, MailSound, Dispatch, Waits;
    DispatchLists(d);
    var c := Dispatch(d);
    var u := SetStatus(c, c.current, RUNNING);
    SameMails(d, c);
    RunningMails(c, c.current);
    forall t | t in u.threads && t != u.idle ensures Placed(u, t) { RunningPlaced(d, t) by { StillPlaced(d, t); } }
    assert Mid(u);
    AlikeKeeps(u, UpThread(c, regs).s);
  }

  // The scheduling decision: afterwards the current thread is running.
  lemma DecisionKeeps(s: State, regs: Frame)
    requires Mid(s)
    ensures Dispatch(DownThread(s, regs)).current in DownThread(s, regs).threads
    ensures Inv(AfterSyscall(s, regs).s)
  {
    hide Mails, Listed, DownThread, Dispatch, UpThread, Settled, Covered;
    DownDetached(s, regs);
    UpRunning(DownThread(s, regs), regs);
  }

  // ----- The bodies keep all threads in their places

  lemma UsedZero(t: Task)
    ensures Used(t) == 0 <==> t.queue == []
  {
    if t.queue != [] { assert |Mail.Bytes(t.queue[0])| >= 8; }
  }

  // The lists do not change and nobody else's status does.
  lemma StatusPlaces(s: State, status: Status)
    requires Inv(s) && s.current != s.idle && status in {WAITING_IPC, TERMINATED, EXCEPTION}
    ensures Listed(Ended(s, status)) && Covered(Ended(s, status))
  {
    var u := Ended(s, status);
    NotQueued(s, s.current);
    SameLists(s, u);
    forall t | t in u.threads && t != u.idle ensures Placed(u, t) {
      if t != s.current { SamePlace(s, u, t) by { assert Placed(s, t); } }
    }
  }

  lemma EndedKeeps(s: State, status: Status)
    requires Inv(s) && s.current != s.idle && status in {WAITING_IPC, TERMINATED, EXCEPTION}
    requires status == WAITING_IPC ==> Pid0(s) in s.tasks && s.tasks[Pid0(s)].queue == []
    requires status != WAITING_IPC ==> Unneeded(s, s.current)
    ensures Mid(Ended(s, status))
  {
    hide Listed, Covered, MailSound;
    StatusPlaces(s, status);
    var u := Ended(s, status);
    forall pid | pid in u.tasks ensures MailSound(u, pid) { EndedMail(s, status, pid); }
  }

  lemma EndedMail(s: State, status: Status, pid: Pid)
    requires pid in s.tasks && MailSound(s, pid) && s.current in s.threads && status != WAITING
    requires status == WAITING_IPC ==> Pid0(s) in s.tasks && s.tasks[Pid0(s)].queue == []
    ensures MailSound(Ended(s, status), pid)
  {
  }

  // A task's own entry changes: its level stays, and its mailbox is sound.
  lemma TaskKeeps(s: State, pid: Pid, t: Task)
    requires Mid(s) && pid in s.tasks && t.level == s.tasks[pid].level && MailSound(s.(tasks := s.tasks[pid := t]), pid)
    requires s.threads[s.current].status == RUNNING
    ensures Mid(s.(tasks := s.tasks[pid := t]))
  {
    hide Listed, Semaphores.Settled;
    var u := s.(tasks := s.tasks[pid := t]);
    SameLists(s, u);
    forall t | t in u.threads && t != u.idle ensures Placed(u, t) { SamePlace(s, u, t) by { assert Placed(s, t); } }
    forall q | q in u.tasks && q != pid ensures MailSound(u, q) { OtherMail(s, pid, t, q); }
  }

  lemma OtherMail(s: State, pid: Pid, t: Task, q: Pid)
    requires Mails(s) && q in s.tasks && q != pid
    ensures MailSound(s.(tasks := s.tasks[pid := t]), q)
  {
    assert MailSound(s, q);
  }

  // A thread the current one wakes.
  lemma WokenKeeps(s: State, t: Tid)
    requires Tasks(s) && Listed(s) && Settled(s) && Mails(s) && s.scheduling && s.current in s.threads
    requires s.threads[s.current].status == RUNNING && t != s.current
    requires (s.current == s.idle ==> s.threads[s.idle].status == RUNNING)
             && (s.current != s.idle ==> s.threads[s.idle].status in {READY, SUBBMITED})
    requires Known(s, t) && t !in s.ready && (forall id :: !Waits(s, id, t))
    requires forall u <- s.threads :: u != s.idle && u != t ==> Placed(s, u)
    ensures Inv(Wake(s, t))
  {
    hide Listed, Mails, Waits;
    WakeLists(s, t);
    WakeMails(s, t);
    var w := Wake(s, t);
    forall u | u in w.threads && u != w.idle ensures Placed(w, u) {
      if u != t { WakePlaces(s, t, u); }
    }
  }

  lemma StoredSound(t: Task, m: Mail.Message)
    requires HasRoom(t, |m.body|)
    ensures Used(t.(queue := t.queue + [m])) == Used(t) + Mail.PACK + |m.body| <= t.size
  {
    Mail.EncodedMore(t.queue, m);
  }

  lemma DeliverKeeps(s: State, dst: Pid, m: Mail.Message)
    requires Inv(s) && dst in s.tasks && Mail.Proper(m) && HasRoom(s.tasks[dst], |m.body|)
    ensures s.tasks[dst].mail && s.tasks[dst].handler in s.threads && Inv(Deliver(s, dst, m, true))
  {
    hide Inv, HasRoom, Wake;
    HasHandler(s, dst, |m.body|);
    var t := s.tasks[dst].handler;
    if s.threads[t].status == WAITING_IPC {
      SleeperWoken(s, t);
      StoredKeeps(Wake(s, t), dst, m);
      StoredFirst(s, dst, m);
    } else {
      StoredKeeps(s, dst, m);
    }
  }

  // It is the same to store the message first.
  lemma StoredFirst(s: State, dst: Pid, m: Mail.Message)
    requires dst in s.tasks && s.tasks[dst].handler in s.threads
             && s.threads[s.tasks[dst].handler].status == WAITING_IPC
    ensures var w := Wake(s, s.tasks[dst].handler);
            && w.tasks == s.tasks
            && Deliver(s, dst, m, true) == w.(tasks := s.tasks[dst := s.tasks[dst].(queue := s.tasks[dst].queue + [m])])
  {
  }

  lemma HasHandler(s: State, dst: Pid, size: nat)
    requires Inv(s) && dst in s.tasks && HasRoom(s.tasks[dst], size)
    ensures s.tasks[dst].mail && Known(s, s.tasks[dst].handler)
  {
    hide Listed, Covered, Settled, Tasks;
    assert MailSound(s, dst);
  }

  // A message joins the queue of a mailbox whose handler does not sleep.
  lemma StoredKeeps(s: State, dst: Pid, m: Mail.Message)
    requires Inv(s) && dst in s.tasks && Mail.Proper(m) && HasRoom(s.tasks[dst], |m.body|)
    requires s.tasks[dst].mail && s.tasks[dst].handler in s.threads
             && s.threads[s.tasks[dst].handler].status != WAITING_IPC
    ensures Inv(s.(tasks := s.tasks[dst := s.tasks[dst].(queue := s.tasks[dst].queue + [m])]))
  {
    hide Listed, Covered, Settled, Tasks, Used, HasRoom;
    var task := s.tasks[dst];
    assert MailSound(s, dst);
    StoredSound(task, m);
    TaskKeeps(s, dst, task.(queue := task.queue + [m]));
  }

  // A thread that waits for a message can be woken at any time.
  lemma SleeperWoken(s: State, t: Tid)
    requires Inv(s) && Known(s, t) && s.threads[t].status == WAITING_IPC
    ensures Inv(Wake(s, t)) && Wake(s, t) == SetStatus(s, t, READY).(ready := s.ready + [t])
  {
    hide Mails, Listed, Settled, Wake, Placed, Tasks;
    NotQueued(s, t);
    WakeLists(s, t);
    WokenKeeps(s, t);
  }

  // ----- Semaphores

  lemma SemPlaces(s: State, u: State, id: nat, t: Tid)
    requires t in s.threads && t in u.threads && u.threads[t] == s.threads[t] && Placed(s, t) && u.current == s.current
    requires id in s.sems && id in u.sems && u.sems == s.sems[id := u.sems[id]]
             && (t in s.sems[id].waiting ==> t in u.sems[id].waiting)
    requires t in s.ready ==> t in u.ready
    ensures Placed(u, t)
  {
    if InSome(s, t) {
      var jd: nat :| jd in s.sems && Waits(s, jd, t);
      assert Waits(u, jd, t);
    }
  }

  lemma SleepLists(s: State, id: nat)
    requires Inv(s) && s.current != s.idle && id in s.sems && Semaphores.Blocks(s.sems[id])
    ensures Listed(Body(s, DownSignal(id), 0).0)
  {
    hide Mails, Tasks, Settled, Covered;
    var sem := Semaphores.Down(s.sems[id], s.current);
    var u := Ended(s.(sems := s.sems[id := sem]), WAITING);
    NotQueued(s, s.current);
    assert sem.waiting == s.sems[id].waiting + [s.current];
    assert s.current !in s.sems[id].waiting by { assert !Waits(s, id, s.current); }
    assert forall jd, t :: Waits(u, jd, t) <==> Waits(s, jd, t) || (jd == id && t == s.current);
  }

  lemma DownKeeps(s: State, id: nat)
    requires Inv(s) && s.current != s.idle && id in s.sems
    ensures Mid(Body(s, DownSignal(id), 0).0)
  {
    hide Listed, Covered, Mails, Tasks, Settled, Unneeded, Semaphores.Settled, Semaphores.Down;
    Semaphores.DownSettled(s.sems[id], s.current) by { SettledAt(s, id); }
    if Semaphores.Blocks(s.sems[id]) {
      SleepKeeps(s, id);
    } else {
      SemOnly(s, id, Semaphores.Down(s.sems[id], s.current)) by { SameQueue(s.sems[id], s.current); }
    }
  }

  lemma SettledAt(s: State, id: nat)
    requires Settled(s) && id in s.sems
    ensures Semaphores.Settled(s.sems[id])
  {
  }

  lemma SameQueue(sem: Semaphores.Semaphore, t: Tid)
    requires !Semaphores.Blocks(sem)
    ensures Semaphores.Down(sem, t).waiting == sem.waiting
  {
  }

  lemma SleepKeeps(s: State, id: nat)
    requires Inv(s) && s.current != s.idle && id in s.sems && Semaphores.Blocks(s.sems[id])
    requires Semaphores.Settled(Semaphores.Down(s.sems[id], s.current))
    ensures Mid(Body(s, DownSignal(id), 0).0)
  {
    hide Listed, MailSound, Semaphores.Settled;
    SleepLists(s, id);
    var u := Body(s, DownSignal(id), 0).0;
    forall t | t in u.threads && t != u.idle ensures Placed(u, t) {
      if t != s.current { SemPlaces(s, u, id, t); }
      else { assert Waits(u, id, t); }
    }
    forall pid | pid in u.tasks ensures MailSound(u, pid) { SleepMail(s, u, pid); }
  }

  lemma SleepMail(s: State, u: State, pid: Pid)
    requires pid in s.tasks && MailSound(s, pid) && u.tasks == s.tasks && u.idle == s.idle && s.current in s.threads
    requires u.threads == s.threads[s.current := s.threads[s.current].(status := WAITING)]
    ensures MailSound(u, pid)
  {
  }

  // A semaphore changes, its queue does not.
  lemma SemOnly(s: State, id: nat, sem: Semaphores.Semaphore)
    requires Inv(s) && Semaphores.Settled(sem) && sem.waiting == if id in s.sems then s.sems[id].waiting else []
    ensures Inv(s.(sems := s.sems[id := sem]))
  {
    var u := s.(sems := s.sems[id := sem]);
    assert forall jd, t :: Waits(u, jd, t) <==> Waits(s, jd, t);
    forall t | t in u.threads && t != u.idle ensures Placed(u, t) {
      assert Placed(s, t);
      if InSome(s, t) {
        var jd: nat :| jd in s.sems && Waits(s, jd, t);
        assert Waits(u, jd, t);
      }
    }
    forall pid | pid in u.tasks ensures MailSound(u, pid) { assert MailSound(s, pid); }
  }

  // The head of a wait queue leaves it.
  lemma HeadLeaves(s: State, id: nat, sem: Semaphores.Semaphore)
    requires Inv(s) && id in s.sems && s.sems[id].waiting != [] && sem.waiting == s.sems[id].waiting[1..]
    ensures var u := s.(sems := s.sems[id := sem]);
            var t := s.sems[id].waiting[0];
            && Listed(u) && Known(u, t) && s.threads[t].status == WAITING && t !in u.ready
               && (forall jd :: !Waits(u, jd, t))
            && (forall v <- u.threads :: v != u.idle && v != t ==> Placed(u, v))
  {
    hide Mails, Tasks, Settled, Placed;
    var u, t, q := s.(sems := s.sems[id := sem]), s.sems[id].waiting[0], s.sems[id].waiting;
    assert q == [t] + q[1..];
    assert Waits(s, id, t);
    assert t !in q[1..] by { assert Distinct(q); }
    forall jd, v | Waits(u, jd, v) ensures Waits(s, jd, v) && v != t {
      assert jd != id ==> s.sems[jd] == u.sems[jd];
    }
    forall v | v in u.threads && v != u.idle && v != t ensures Placed(u, v) { SemPlaces(s, u, id, v); }
  }

  lemma UpQueue(sem: Semaphores.Semaphore)
    requires !Semaphores.Up(sem).Stuck?
    ensures match Semaphores.Up(sem)
            case Raised(u) => u.waiting == sem.waiting
            case Woke(u, t) => sem.waiting != [] && t == sem.waiting[0] && u.waiting == sem.waiting[1..]
            case Stuck => true
  {
  }

  lemma UpKeeps(s: State, id: nat)
    requires Inv(s) && id in s.sems
    ensures !Semaphores.Up(s.sems[id]).Stuck? && Inv(Body(s, UpSignal(id), 0).0)
    ensures Semaphores.Up(s.sems[id]).Woke? ==> Known(s, Semaphores.Up(s.sems[id]).thread)
  {
    hide Listed, Covered, Waits, Placed, Mails, Semaphores.Up, Semaphores.Settled;
    Semaphores.UpSettled(s.sems[id]) by { SettledAt(s, id); }
    UpQueue(s.sems[id]);
    match Semaphores.Up(s.sems[id])
    case Raised(sem) => SemOnly(s, id, sem);
    case Woke(sem, t) =>
      HeadLeaves(s, id, sem);
      SameMails(s, s.(sems := s.sems[id := sem]));
      WokenKeeps(s.(sems := s.sems[id := sem]), t);
  }

  // ----- Creation

  lemma NewThreadLists(s: State, tid: Tid, pid: Pid, entry: Saved)
    requires Inv(s) && pid in s.tasks && tid !in s.threads
    ensures var u := NewThread(s, tid, pid, entry);
            && Listed(u) && (forall t <- s.threads :: t != s.idle ==> Placed(u, t))
            && u == s.(threads := s.threads[tid := u.threads[tid]], ready := s.ready + [tid])
            && u.threads[tid].status == SUBBMITED && u.threads[tid].task == pid
  {
    hide Mails, Settled;
    var u := NewThread(s, tid, pid, entry);
    assert tid !in s.ready && forall id :: !Waits(s, id, tid);
    assert forall id, t :: Waits(u, id, t) <==> Waits(s, id, t);
    forall t | t in s.threads && t != s.idle ensures Placed(u, t) { SamePlace(s, u, t) by { assert Placed(s, t); } }
  }

  lemma NewThreadKeeps(s: State, tid: Tid, pid: Pid, entry: Saved)
    requires Inv(s) && pid in s.tasks && tid !in s.threads
    ensures Inv(NewThread(s, tid, pid, entry)) && NewThread(s, tid, pid, entry).ready == s.ready + [tid]
  {
    hide NewThread, Listed, Waits, Semaphores.Settled;
    NewThreadLists(s, tid, pid, entry);
    var u := NewThread(s, tid, pid, entry);
    forall q | q in u.tasks ensures MailSound(u, q) { assert MailSound(s, q); }
  }

  lemma NewTaskKeeps(s: State, pid: Pid, task: Task)
    requires Inv(s) && pid !in s.tasks && pid >= 0 && (task.level == 0 || task.level == 1)
    requires !task.mail && task.size == 0 && task.queue == []
    ensures Inv(s.(tasks := s.tasks[pid := task]))
  {
    var u := s.(tasks := s.tasks[pid := task]);
    SameLists(s, u);
    forall t | t in u.threads && t != u.idle ensures Placed(u, t) { SamePlace(s, u, t) by { assert Placed(s, t); } }
    forall q | q in u.tasks ensures MailSound(u, q) { if q != pid { assert MailSound(s, q); } }
  }

  // ----- One step

  lemma BodyKeeps(s: State, e: Event, rax: int)
    requires Inv(s) && Allowed(s, e)
    ensures Mid(Body(s, e, rax).0)
    ensures !Decides(e) ==> Inv(Body(s, e, rax).0)
  {
    hide Listed, Covered, Settled, Waits, MailSound, Mails, Used;
    var me := Pid0(s);
    match e
    case Send(no, id, body, dst) =>
      if SendAccepted(s, dst, |body|) { DeliverKeeps(s, dst, MessageOf(no, id, me, body)); }
    case Irq(id, body, dst) =>
      if IrqAccepted(s, dst, |body|) { DeliverKeeps(s, dst, MessageOf(3, id, Mail.DUMMY_TASK, body)); }
    case CheckIpc =>
      UsedZero(s.tasks[me]);
      if s.tasks[me].queue == [] { EndedKeeps(s, WAITING_IPC); }
    case SetAllow(_) => OwnKeeps(s, e, rax);
    case Recv => OwnKeeps(s, e, rax);
    case SetMailbuffer(_) => OwnKeeps(s, e, rax);
    case CreateSignal(id, max, value, soft) => SemOnly(s, id, Semaphores.Fresh(max, value, soft));
    case UpSignal(id) => UpKeeps(s, id);
    case DownSignal(id) => DownKeeps(s, id);
    case CreateThread(tid, entry) => NewThreadKeeps(s, tid, me, entry);
    case ExitThread => EndedKeeps(s, TERMINATED);
    case Fault => EndedKeeps(s, EXCEPTION);
    case Tick =>
    case CreateTask(pid, tid, level, priority, pgd, entry) =>
      var t := Task(level, priority, pgd, false, 0, [], Mail.NULL_TASK, 0);
      NewTaskKeeps(s, pid, t);
      NewThreadKeeps(s.(tasks := s.tasks[pid := t]), tid, pid, entry);
  }

  // Calls that touch only the caller's own mailbox.
  lemma OwnKeeps(s: State, e: Event, rax: int)
    requires Inv(s) && s.current != s.idle && (e.SetAllow? || e.Recv? || e.SetMailbuffer?)
    ensures Mid(Body(s, e, rax).0)
  {
    hide Listed, Covered, Settled, Waits, Placed, Mail.Encoded;
    var me := Pid0(s);
    assert MailSound(s, me);
    match e
    case SetAllow(pid) => TaskKeeps(s, me, s.tasks[me].(allow := pid));
    case Recv =>
      if s.tasks[me].queue != [] {
        OneFewer(s.tasks[me]);
        TaskKeeps(s, me, s.tasks[me].(queue := s.tasks[me].queue[1..]));
      }
    case SetMailbuffer(size) =>
      var t := s.tasks[me].(mail := true, size := size, queue := [], handler := s.current);
      UsedZero(t);
      TaskKeeps(s, me, t);
  }

  lemma OneFewer(t: Task)
    requires t.queue != []
    ensures Used(t.(queue := t.queue[1..])) + |t.queue[0].body| + Mail.PACK == Used(t)
  {
  }

  // One step: the body, and for all but bare interrupts the scheduling decision. "regs" is the frame of the
  // interrupted thread; the outcome's frame is what the thread that runs next continues with.
  ghost function Step(s: State, e: Event, regs: Frame): (o: Outcome)
    requires Inv(s) && Allowed(s, e)
    ensures Inv(o.s)
  {
    BodyKeeps(s, e, regs.basic.rax);
    var (b, rax) := Body(s, e, regs.basic.rax);
    if !Decides(e) then Outcome(b, regs, false)
    else
      DecisionKeeps(b, WithRax(regs, rax));
      var o := AfterSyscall(b, WithRax(regs, rax));
      if e.Tick? then TickKeeps(o); CountTick(o) else o
  }

  lemma TickKeeps(o: Outcome)
    requires Inv(o.s)
    ensures Inv(CountTick(o).s)
  {
    AlikeKeeps(o.s, CountTick(o).s);
  }

  // ----- What the invariant says

  ghost predicate InReady(s: State, t: Tid) {
    exists i :: 0 <= i < |s.ready| && s.ready[i] == t && forall j | 0 <= j < |s.ready| && s.ready[j] == t :: j == i
  }

  // Every live thread but the idle one is in exactly one place.
  lemma OnePlaceEach(s: State, t: Tid)
    requires Inv(s) && Known(s, t)
    ensures var status := s.threads[t].status;
            && (status == RUNNING <==> t == s.current)
            && (status in {READY, SUBBMITED} <==> InReady(s, t)) && (status in {READY, SUBBMITED} <==> t in s.ready)
            && (status == WAITING <==> exists id :: Waits(s, id, t))
            && (forall id, jd | Waits(s, id, t) && Waits(s, jd, t) :: id == jd)
            && status !in {TERMINATED, EXCEPTION}
  {
    assert Placed(s, t);
    if t in s.ready {
      var i :| 0 <= i < |s.ready| && s.ready[i] == t;
      assert forall j | 0 <= j < |s.ready| && s.ready[j] == t :: j == i;
    }
    if InSome(s, t) {
      var id: nat :| id in s.sems && Waits(s, id, t);
    }
  }

  // What a message says: its number and id, the sender in 16 bits, and the body with its length.
  predicate Says(m: Mail.Message, no: nat, msgId: nat, source: int, body: seq<Byte>) {
    && m.pack.messageNo == no && m.pack.msgId == msgId && m.pack.length == |body| && m.pack.source == source % 0x1_0000
    && m.body == body
  }

  // The bytes of the mailbox that are not taken are enough for a header and the body.
  predicate Free(s: State, dst: Pid, size: nat) {
    dst in s.tasks && |Mail.Encoded(s.tasks[dst].queue)| + 8 + size <= s.tasks[dst].size
  }

  // A message has arrived: it is behind those that were there, and a handler that slept is READY and ready once.
  ghost predicate Arrived(s: State, b: State, dst: Pid, no: nat, msgId: nat, source: int, body: seq<Byte>)
    requires dst in s.tasks && s.tasks[dst].handler in s.threads
  {
    var (h, q) := (s.tasks[dst].handler, s.tasks[dst].queue);
    && b == s.(tasks := b.tasks, threads := b.threads, ready := b.ready) && dst in b.tasks
    && b.tasks == s.tasks[dst := s.tasks[dst].(queue := b.tasks[dst].queue)]
    && |b.tasks[dst].queue| == |q| + 1 && b.tasks[dst].queue[..|q|] == q
    && Says(b.tasks[dst].queue[|q|], no, msgId, source, body)
    && (s.threads[h].status == WAITING_IPC ==>
          h !in s.ready && b.threads == s.threads[h := s.threads[h].(status := READY)] && b.ready == s.ready + [h])
    && (s.threads[h].status != WAITING_IPC ==> b.threads == s.threads && b.ready == s.ready)
  }

  // A message is accepted exactly when its bytes fit and the receiver's filter is the sender or ANY_TASK; then it
  // arrives as it was sent. A rejected one changes nothing.
  lemma SendWakes(s: State, no: Byte, msgId: nat, body: seq<Byte>, dst: Pid, rax: int)
    requires Inv(s) && Allowed(s, Send(no, msgId, body, dst))
    ensures var (b, r) := Body(s, Send(no, msgId, body, dst), rax);
            if Free(s, dst, |body|) && (s.tasks[dst].allow == Pid0(s) || s.tasks[dst].allow == -1) then
              r == 1 && Known(s, s.tasks[dst].handler) && Arrived(s, b, dst, no, msgId, Pid0(s), body)
            else r == 0 && b == s
  {
    hide Inv, Arrived, Deliver, MessageOf;
    AcceptedIs(s, dst, |body|);
    if SendAccepted(s, dst, |body|) {
      Delivers(s, dst, no, msgId, Pid0(s), body);
      SenderIs(s);
    }
  }

  // Both senders test for the room there really is.
  lemma AcceptedIs(s: State, dst: Pid, size: nat)
    requires s.current in s.threads
    ensures SendAccepted(s, dst, size) <==>
            Free(s, dst, size) && (s.tasks[dst].allow == Pid0(s) || s.tasks[dst].allow == -1)
    ensures IrqAccepted(s, dst, size) <==> Free(s, dst, size) && s.tasks[dst].allow < 0
    ensures Free(s, dst, size) ==> HasRoom(s.tasks[dst], size)
  {
  }

  lemma SenderIs(s: State)
    requires Inv(s) && s.current != s.idle
    ensures Pid0(s) >= 0
  {
  }

  lemma Delivers(s: State, dst: Pid, no: Byte, msgId: nat, source: Pid, body: seq<Byte>)
    requires Inv(s) && dst in s.tasks && HasRoom(s.tasks[dst], |body|)
    ensures Known(s, s.tasks[dst].handler)
    ensures Arrived(s, Deliver(s, dst, MessageOf(no, msgId, source, body), true), dst, no, msgId, source, body)
  {
    hide Covered, Settled;
    HasHandler(s, dst, |body|);
    var h := s.tasks[dst].handler;
    if s.threads[h].status == WAITING_IPC {
      NotQueued(s, h);
      SleeperWoken(s, h);
      StoredFirst(s, dst, MessageOf(no, msgId, source, body));
    }
  }

  // The message of an interrupt: number 3, from task -2, accepted by every filter that names no task.
  lemma IrqWakes(s: State, msgId: nat, body: seq<Byte>, dst: Pid, rax: int)
    requires Inv(s) && Allowed(s, Irq(msgId, body, dst))
    ensures var (b, r) := Body(s, Irq(msgId, body, dst), rax);
            if Free(s, dst, |body|) && s.tasks[dst].allow < 0 then
              r == rax && Known(s, s.tasks[dst].handler) && Arrived(s, b, dst, 3, msgId, -2, body)
            else r == rax && b == s
  {
    hide Inv, Arrived, Deliver, MessageOf;
    AcceptedIs(s, dst, |body|);
    if IrqAccepted(s, dst, |body|) { Delivers(s, dst, 3, msgId, Mail.DUMMY_TASK, body); }
  }

  // A receive takes the oldest message of the caller's own mailbox and returns its header, and nothing else changes.
  lemma RecvTakesOldest(s: State, rax: int)
    requires Inv(s) && s.current != s.idle
    ensures Pid0(s) in s.tasks
    ensures var (b, r) := Body(s, Recv, rax);
            var q := s.tasks[Pid0(s)].queue;
            && b == s.(tasks := b.tasks) && b.tasks.Keys == s.tasks.Keys
            && (forall pid <- s.tasks :: pid != Pid0(s) ==> b.tasks[pid] == s.tasks[pid])
            && b.tasks[Pid0(s)] == s.tasks[Pid0(s)].(queue := b.tasks[Pid0(s)].queue)
            && (if q == [] then r == 0xFFFF_0000_0000_FF00 && b.tasks[Pid0(s)].queue == []
                else [q[0]] + b.tasks[Pid0(s)].queue == q && r == Value(Mail.Encode(q[0].pack)))
  {
    hide Inv, Value, Header, Mail.Encode, Mail.Packable;
    StartOfStep(s);
    OldestPackable(s);
    NothingIs();
    var q := s.tasks[Pid0(s)].queue;
    if q != [] { HeaderBytes(q[0].pack); }
  }

  // -1 in the fields for the number and the source.
  lemma NothingIs()
    ensures Header(Mail.NOTHING) == 0xFFFF_0000_0000_FF00
  {
  }

  lemma OldestPackable(s: State)
    requires Inv(s) && Pid0(s) in s.tasks
    ensures Mail.Packable(Mail.NOTHING) && (s.tasks[Pid0(s)].queue != [] ==>
            Mail.Packable(s.tasks[Pid0(s)].queue[0].pack))
  {
    assert MailSound(s, Pid0(s));
  }

  // ----- Runs

  datatype Move = Move(e: Event, regs: Frame)

  ghost predicate CanRun(s: State, moves: seq<Move>)
    requires Inv(s)
    decreases |moves|
  {
    hide Inv, Allowed, Next;
    moves == [] || (Allowed(s, moves[0].e) && CanRun(Next(s, moves[0]).s, moves[1..]))
  }

  ghost function Next(s: State, m: Move): (o: Outcome)
    requires Inv(s) && Allowed(s, m.e)
    ensures Inv(o.s)
  {
    Step(s, m.e, m.regs)
  }

  // The invariant holds in every reachable state.
  ghost function After(s: State, moves: seq<Move>): (u: State)
    requires Inv(s) && CanRun(s, moves)
    ensures Inv(u)
    decreases |moves|
  {
    hide Inv, Allowed, Next;
    if moves == [] then s else After(Next(s, moves[0]).s, moves[1..])
  }

  // The frames the interrupted code goes on with.
  ghost function FramesOf(s: State, moves: seq<Move>): seq<Frame>
    requires Inv(s) && CanRun(s, moves)
    decreases |moves|
  {
    hide Inv, Allowed, Next;
    if moves == [] then [] else [Next(s, moves[0]).regs] + FramesOf(Next(s, moves[0]).s, moves[1..])
  }

  ghost function Switches(s: State, moves: seq<Move>): nat
    requires Inv(s) && CanRun(s, moves)
    decreases |moves|
  {
    hide Inv, Allowed, Next;
    if moves == [] then 0 else Switches(Next(s, moves[0]).s, moves[1..]) + if Next(s, moves[0]).switched then 1 else 0
  }

  // ----- First in, first out

  lemma BodyReady(s: State, e: Event, rax: int)
    requires s.current in s.threads
    ensures s.ready <= Body(s, e, rax).0.ready && Body(s, e, rax).0.current == s.current
  {
    hide Semaphores.Up, Semaphores.Down, SendAccepted, IrqAccepted, Used, MessageOf, Header;
  }

  // How a step is put together.
  lemma NextIs(s: State, m: Move)
    requires Inv(s) && Allowed(s, m.e)
    ensures s.current in s.threads
    ensures var (b, rax) := Body(s, m.e, m.regs.basic.rax);
            var regs := WithRax(m.regs, rax);
            && s.current in b.threads && b.current == s.current && Mid(b) && s.ready <= b.ready
            && Dispatch(DownThread(b, regs)).current in DownThread(b, regs).threads && Inv(AfterSyscall(b, regs).s)
            && AfterSyscall(b, regs).s.current in AfterSyscall(b, regs).s.threads
            && (!Decides(m.e) ==> rax == m.regs.basic.rax)
            && Next(s, m) == if !Decides(m.e) then Outcome(b, m.regs, false)
                             else if m.e.Tick? then CountTick(AfterSyscall(b, regs)) else AfterSyscall(b, regs)
  {
    BodyKeeps(s, m.e, m.regs.basic.rax);
    BodyReady(s, m.e, m.regs.basic.rax);
    BareResult(s, m.e, m.regs.basic.rax);
    var (b, rax) := Body(s, m.e, m.regs.basic.rax);
    DecisionKeeps(b, WithRax(m.regs, rax));
    hide Body, Allowed, AfterSyscall, CountTick, DownThread, Dispatch, Listed, Covered, Tasks, Mails, Settled;
  }

  lemma DownReady(s: State, regs: Frame)
    requires s.current in s.threads
    ensures s.ready <= DownThread(s, regs).ready && DownThread(s, regs).ready1 == s.ready1
  {
  }

  // A step without a switch leaves the queue or adds to its tail; a switch takes exactly its head.
  lemma StepReady(s: State, m: Move)
    requires Inv(s) && Allowed(s, m.e)
    ensures var o := Next(s, m);
            if o.switched then s.ready != [] ==> o.s.current == s.ready[0] && s.ready[1..] <= o.s.ready
            else s.ready <= o.s.ready && o.s.current == s.current
  {
    hide Inv, Body, Allowed, DownThread, ShouldSwitch, Mid, Next;
    NextIs(s, m);
    var (b, rax) := Body(s, m.e, m.regs.basic.rax);
    DownReady(b, WithRax(m.regs, rax));
    if Decides(m.e) && ShouldSwitch(b) && s.ready != [] {
      var d := DownThread(b, WithRax(m.regs, rax));
      assert d.ready[0] == s.ready[0] && s.ready[1..] <= d.ready[1..];
    }
  }

  // The thread at place k of the ready list is there until it is dispatched, at exactly the (k+1)-th switch.
  lemma {:induction false} DispatchedInOrder(s: State, moves: seq<Move>, k: nat)
    requires Inv(s) && CanRun(s, moves) && k < |s.ready|
    ensures var n, u := Switches(s, moves), After(s, moves);
            n <= k ==> k - n < |u.ready| && u.ready[k - n] == s.ready[k]
    ensures moves != [] && Switches(s, moves) == k + 1 && Switches(s, moves) > SwitchesBut(s, moves) ==>
            After(s, moves).current == s.ready[k]
    decreases |moves|
  {
    hide Inv, Allowed, Next;
    if moves != [] {
      StepReady(s, moves[0]);
      var o := Next(s, moves[0]);
      if !o.switched {
        assert o.s.ready[k] == s.ready[k];
        DispatchedInOrder(o.s, moves[1..], k);
      } else if k > 0 {
        assert s.ready[1..][k - 1] == s.ready[k];
        DispatchedInOrder(o.s, moves[1..], k - 1);
      }
    }
  }

  // The switches before the last move.
  ghost function SwitchesBut(s: State, moves: seq<Move>): nat
    requires Inv(s) && CanRun(s, moves) && moves != []
    decreases |moves|
  {
    hide Inv, Allowed, Next;
    if |moves| == 1 then 0 else SwitchesBut(Next(s, moves[0]).s, moves[1..]) +
                                if Next(s, moves[0]).switched then 1 else 0
  }

  // ----- Time slices

  // All a body does to the threads is to change statuses and to add those that are born; levels stay.
  ghost predicate Frames(s: State, b: State, born: set<Tid>) {
    && b.threads.Keys == s.threads.Keys + born
    && (forall t <- s.threads :: t in b.threads && b.threads[t] == s.threads[t].(status := b.threads[t].status))
    && (forall pid <- s.tasks :: pid in b.tasks && b.tasks[pid].level == s.tasks[pid].level
                                 && b.tasks[pid].pgd == s.tasks[pid].pgd)
    && b.idlePgd == s.idlePgd
  }

  lemma EndedFrames(s: State, status: Status)
    requires s.current in s.threads
    ensures Frames(s, Ended(s, status), {}) && Ended(s, status).threads[s.current].status == status
  {
  }

  lemma WakeFrames(s: State, t: Tid)
    requires t in s.threads
    ensures Frames(s, Wake(s, t), {}) && (forall u <- s.threads ::
            Wake(s, t).threads[u].status in {READY, s.threads[u].status})
  {
  }

  lemma DeliverFrames(s: State, dst: Pid, m: Mail.Message, wakes: bool)
    requires dst in s.tasks && s.tasks[dst].handler in s.threads
    ensures Frames(s, Deliver(s, dst, m, wakes), {})
    ensures forall u <- s.threads :: Deliver(s, dst, m, wakes).threads[u].status in {READY, s.threads[u].status}
  {
  }

  lemma NewThreadFrames(s: State, tid: Tid, pid: Pid, entry: Saved)
    requires pid in s.tasks && tid !in s.threads
    ensures Frames(s, NewThread(s, tid, pid, entry), {tid})
    ensures forall u <- s.threads :: NewThread(s, tid, pid, entry).threads[u] == s.threads[u]
  {
  }

  predicate OfMail(e: Event) { e.Send? || e.Irq? || e.CheckIpc? || e.SetAllow? || e.Recv? || e.SetMailbuffer? }

  lemma MailFrames(s: State, e: Event, rax: int)
    requires s.current in s.threads && s.threads[s.current].status == RUNNING && OfMail(e)
    ensures Frames(s, Body(s, e, rax).0, {})
    ensures Body(s, e, rax).0.threads[s.current].status !in {TERMINATED, EXCEPTION}
  {
    hide Ended, Deliver, HasRoom, Used, MessageOf, Header;
    var me := Pid0(s);
    match e
    case Send(no, id, body, dst) =>
      if SendAccepted(s, dst, |body|) && s.tasks[dst].handler in s.threads {
        DeliverFrames(s, dst, MessageOf(no, id, me, body), s.tasks[dst].allow != Mail.DUMMY_TASK);
      }
    case Irq(id, body, dst) =>
      if IrqAccepted(s, dst, |body|) && s.tasks[dst].handler in s.threads {
        DeliverFrames(s, dst, MessageOf(3, id, Mail.DUMMY_TASK, body), true);
      }
    case CheckIpc => EndedFrames(s, WAITING_IPC);
    case _ =>
  }

  lemma BodyFrames(s: State, e: Event, rax: int)
    requires Allowed(s, e) && (s.current != s.idle ==> Pid0(s) in s.tasks) && s.threads[s.current].status == RUNNING
    ensures Frames(s, Body(s, e, rax).0, Born(e))
    ensures Body(s, e, rax).0.threads[s.current].status in {TERMINATED, EXCEPTION} <==> e.ExitThread? || e.Fault?
  {
    if OfMail(e) {
      MailFrames(s, e, rax);
    } else {
      OtherFrames(s, e, rax);
    }
  }

  lemma UpFrames(s: State, id: nat, rax: int)
    requires s.current in s.threads && s.threads[s.current].status == RUNNING && id in s.sems
    ensures Frames(s, Body(s, UpSignal(id), rax).0, {})
    ensures Body(s, UpSignal(id), rax).0.threads[s.current].status !in {TERMINATED, EXCEPTION}
  {
    hide Wake, Semaphores.Up;
    var up := Semaphores.Up(s.sems[id]);
    if up.Woke? && up.thread in s.threads { WakeFrames(s.(sems := s.sems[id := up.s]), up.thread); }
  }

  lemma OtherFrames(s: State, e: Event, rax: int)
    requires Allowed(s, e) && (s.current != s.idle ==> Pid0(s) in s.tasks) && s.threads[s.current].status == RUNNING
             && !OfMail(e)
    ensures Frames(s, Body(s, e, rax).0, Born(e))
    ensures Body(s, e, rax).0.threads[s.current].status in {TERMINATED, EXCEPTION} <==> e.ExitThread? || e.Fault?
  {
    hide Wake, Ended, NewThread, Semaphores.Up, Semaphores.Down, Semaphores.Blocks;
    match e
    case UpSignal(id) => UpFrames(s, id, rax);
    case DownSignal(id) => EndedFrames(s.(sems := s.sems[id := Semaphores.Down(s.sems[id], s.current)]), WAITING);
    case CreateThread(tid, entry) => NewThreadFrames(s, tid, Pid0(s), entry);
    case ExitThread => EndedFrames(s, TERMINATED);
    case Fault => EndedFrames(s, EXCEPTION);
    case CreateTask(pid, tid, level, priority, pgd, entry) =>
      NewThreadFrames(s.(tasks := s.tasks[pid := Task(level, priority, pgd, false, 0, [], Mail.NULL_TASK, 0)]), tid,
        pid, entry);
    case _ =>
  }

  lemma BodyKeepsSlice(s: State, e: Event, rax: int, t: Tid)
    requires Inv(s) && Allowed(s, e) && t in s.threads
    ensures var b := Body(s, e, rax).0;
            && t in b.threads && b.threads[t] == s.threads[t].(status := b.threads[t].status)
            && Level(b, t) == Level(s, t)
            && PgdOf(b, t) == PgdOf(s, t)
  {
    if s.current != s.idle { TaskOf(s, s.current); }
    BodyFrames(s, e, rax);
    BodyKeeps(s, e, rax);
    NoEmptyTask(s);
    NoEmptyTask(Body(s, e, rax).0);
    hide Body, Allowed, Mid;
  }

  lemma NoEmptyTask(s: State)
    requires Mid(s)
    ensures EMPTY !in s.tasks && s.idle in s.threads && s.threads[s.idle].task == EMPTY
  {
  }

  lemma TaskOf(s: State, t: Tid)
    requires Inv(s) && t in s.threads && t != s.idle
    ensures s.threads[t].task in s.tasks
  {
  }

  // ----- When a step switches

  // The calls after which the caller does not run on: a semaphore without a token, an empty mailbox, its end.
  predicate Stops(s: State, e: Event)
    requires s.current in s.threads
  {
    match e
    case DownSignal(id) => id in s.sems && Semaphores.Blocks(s.sems[id])
    case CheckIpc => Pid0(s) in s.tasks && s.tasks[Pid0(s)].mail && s.tasks[Pid0(s)].queue == []
    case ExitThread => true
    case Fault => true
    case _ => false
  }

  // The threads a step makes ready, in order.
  function Readies(s: State, e: Event): seq<Tid>
    requires s.current in s.threads
  {
    match e
    case Send(_, _, body, dst) => if SendAccepted(s, dst, |body|) then Sleeper(s, dst) else []
    case Irq(_, body, dst) => if IrqAccepted(s, dst, |body|) then Sleeper(s, dst) else []
    case UpSignal(id) => if id in s.sems && s.sems[id].waiting != [] then [s.sems[id].waiting[0]] else []
    case CreateThread(tid, _) => [tid]
    case CreateTask(_, tid, _, _, _, _) => [tid]
    case _ => []
  }

  // The handler of a mailbox, while it sleeps.
  function Sleeper(s: State, dst: Pid): seq<Tid>
    requires dst in s.tasks
  {
    var h := s.tasks[dst].handler;
    if h in s.threads && s.threads[h].status == WAITING_IPC then [h] else []
  }

  // What a body does to the caller and to the ready list.
  ghost predicate Effects(s: State, e: Event, b: State)
    requires s.current in s.threads
  {
    && s.current in b.threads && (b.threads[s.current].status == RUNNING <==> !Stops(s, e))
    && b.ready == s.ready + Readies(s, e)
  }

  lemma WakeEffects(s: State, t: Tid)
    requires Tasks(s) && Known(s, t) && s.current in s.threads && t != s.current
    ensures s.current in Wake(s, t).threads && Wake(s, t).threads[s.current] == s.threads[s.current]
    ensures Wake(s, t).ready == s.ready + [t]
  {
  }

  lemma UpEffects(s: State, id: nat, rax: int)
    requires Inv(s) && id in s.sems
    ensures Effects(s, UpSignal(id), Body(s, UpSignal(id), rax).0)
  {
    hide Covered, Mails, Wake;
    var sem := s.sems[id];
    Semaphores.UpSettled(sem);
    match Semaphores.Up(sem)
    case Raised(u) =>
    case Woke(u, t) =>
      assert Waits(s, id, t);
      WakeEffects(s.(sems := s.sems[id := u]), t);
  }

  lemma SendEffects(s: State, e: Event, rax: int)
    requires Inv(s) && Allowed(s, e) && e.Send?
    ensures Effects(s, e, Body(s, e, rax).0)
  {
    hide Listed, Covered, Settled, Deliver, Wake, MessageOf, HasRoom;
    if SendAccepted(s, e.dst, |e.body|) {
      HandlerKnown(s, e.dst, |e.body|);
      var task, m := s.tasks[e.dst], MessageOf(e.messageNo, e.msgId, Pid0(s), e.body);
      SenderPid(s);
      DeliverEffects(s, e.dst, m, task.allow != Mail.DUMMY_TASK);
    }
  }

  lemma IrqEffects(s: State, e: Event, rax: int)
    requires Inv(s) && Allowed(s, e) && e.Irq?
    ensures Effects(s, e, Body(s, e, rax).0)
  {
    hide Listed, Covered, Settled, Deliver, Wake, MessageOf, HasRoom;
    if IrqAccepted(s, e.dst, |e.irqBody|) {
      HandlerKnown(s, e.dst, |e.irqBody|);
      DeliverEffects(s, e.dst, MessageOf(3, e.irqId, Mail.DUMMY_TASK, e.irqBody), true);
    }
  }

  lemma HandlerKnown(s: State, dst: Pid, size: nat)
    requires Inv(s) && dst in s.tasks && HasRoom(s.tasks[dst], size)
    ensures Known(s, s.tasks[dst].handler)
  {
    assert MailSound(s, dst);
  }

  // No sender's number is that of the kernel's own messages.
  lemma SenderPid(s: State)
    requires Inv(s) && s.current != s.idle
    ensures Pid0(s) >= 0
  {
  }

  lemma DeliverEffects(s: State, dst: Pid, m: Mail.Message, wakes: bool)
    requires Inv(s) && dst in s.tasks && Known(s, s.tasks[dst].handler) && wakes
    ensures var b := Deliver(s, dst, m, wakes);
            && s.current in b.threads && b.threads[s.current] == s.threads[s.current]
               && b.ready == s.ready + Sleeper(s, dst)
  {
    hide Listed, Covered, Settled, Mails, Wake;
    var task := s.tasks[dst];
    if s.threads[task.handler].status == WAITING_IPC {
      WakeEffects(s.(tasks := s.tasks[dst := task.(queue := task.queue + [m])]), task.handler);
    }
  }

  lemma OtherEffects(s: State, e: Event, rax: int)
    requires Inv(s) && Allowed(s, e) && !e.Send? && !e.Irq? && !e.UpSignal?
    ensures Effects(s, e, Body(s, e, rax).0)
  {
    hide Listed, Covered, Settled, MailSound, Mails, Header, Semaphores.Down, Used;
    if s.current != s.idle { TaskOf(s, s.current); }
    if Pid0(s) in s.tasks { UsedZero(s.tasks[Pid0(s)]); }
  }

  lemma BodyEffects(s: State, e: Event, rax: int)
    requires Inv(s) && Allowed(s, e)
    ensures s.current in s.threads && Effects(s, e, Body(s, e, rax).0)
  {
    hide Effects, Inv, Body;
    StartOfStep(s);
    match e
    case Send(_, _, _, _) => SendEffects(s, e, rax);
    case Irq(_, _, _) => IrqEffects(s, e, rax);
    case UpSignal(id) => UpEffects(s, id, rax);
    case _ => OtherEffects(s, e, rax);
  }

  // Which steps switch threads: at level 0 those after which the caller does not run on; at level 1 also those that
  // find a thread ready or the slice used up; from the idle thread every one that decides at all.
  lemma SwitchExactly(s: State, m: Move)
    requires Inv(s) && Allowed(s, m.e)
    ensures s.current in s.threads
    ensures s.current != s.idle ==> Pid0(s) in s.tasks && Level(s, s.current) == s.tasks[Pid0(s)].level
    ensures s.current == s.idle ==> (Next(s, m).switched <==> Decides(m.e))
    ensures Level(s, s.current) == 0 ==> (Next(s, m).switched <==> Stops(s, m.e))
    ensures Level(s, s.current) == 1 ==>
              (Next(s, m).switched <==>
                 Decides(m.e) && (Stops(s, m.e) || s.ready + Readies(s, m.e) != [] || s.threads[s.current].count <= 0))
  {
    hide Inv, Body, Allowed, DoSwitch, DownThread, Dispatch, Mid, Next, Readies, Stops, Level, CountTick;
    NextIs(s, m);
    StartOfStep(s);
    LevelIs(s);
    BodyEffects(s, m.e, m.regs.basic.rax);
    BodyKeepsSlice(s, m.e, m.regs.basic.rax, s.current);
    var (b, rax) := Body(s, m.e, m.regs.basic.rax);
    Decided(b, WithRax(m.regs, rax));
    StopsDecide(s, m.e);
  }

  lemma LevelIs(s: State)
    requires s.current in s.threads
    ensures Pid0(s) in s.tasks ==> Level(s, s.current) == s.tasks[Pid0(s)].level
  {
  }

  lemma StopsDecide(s: State, e: Event)
    requires s.current in s.threads
    ensures Stops(s, e) ==> Decides(e)
  {
  }

  // A switch happens exactly when the decision says so.
  lemma Decided(b: State, regs: Frame)
    requires Mid(b) && Dispatch(DownThread(b, regs)).current in DownThread(b, regs).threads
    ensures b.current in b.threads && b.scheduling && AfterSyscall(b, regs).switched == ShouldSwitch(b)
    ensures AfterSyscall(b, regs).s.current in AfterSyscall(b, regs).s.threads
    ensures CountTick(AfterSyscall(b, regs)).switched == ShouldSwitch(b)
  {
    DecisionKeeps(b, regs);
    hide Listed, Covered, Settled, Mails, DownThread, Dispatch;
  }

  // ----- Which thread a switch dispatches

  // The ready threads at the decision of a step, in order: those that were ready, those the call makes ready, and the
  // caller itself, if it could run on and is not the idle thread.
  function Candidates(s: State, e: Event): seq<Tid>
    requires s.current in s.threads
  {
    s.ready + Readies(s, e) + if Stops(s, e) || s.current == s.idle then [] else [s.current]
  }

  lemma DownQueue(b: State, regs: Frame)
    requires Mid(b)
    ensures DownThread(b, regs).ready ==
            b.ready + if b.threads[b.current].status == RUNNING && b.current != b.idle then [b.current] else []
    ensures DownThread(b, regs).ready1 == [] && DownThread(b, regs).idle == b.idle
  {
    hide Covered, Mails, Settled;
  }

  // The head of them, or the idle thread when there is none, whatever their levels.
  lemma DispatchedExactly(s: State, m: Move)
    requires Inv(s) && Allowed(s, m.e) && Next(s, m).switched
    ensures s.current in s.threads
    ensures var (q, u) := (Candidates(s, m.e), Next(s, m).s);
            if q == [] then u.current == s.idle && u.ready == [] else u.current == q[0] && u.ready == q[1..]
  {
    hide Inv, Body, Allowed, UpThread, DownThread, Mid, Next, Readies, Stops, CountTick, Effects, ShouldSwitch;
    NextIs(s, m);
    StartOfStep(s);
    BodyEffects(s, m.e, m.regs.basic.rax);
    var (b, rax) := Body(s, m.e, m.regs.basic.rax);
    var regs := WithRax(m.regs, rax);
    EffectsAre(s, m.e, b);
    DownQueue(b, regs);
    BodyIdle(s, m.e, m.regs.basic.rax);
    UpCurrent(Dispatch(DownThread(b, regs)), regs);
    CountCurrent(AfterSyscall(b, regs));
  }

  lemma EffectsAre(s: State, e: Event, b: State)
    requires s.current in s.threads && Effects(s, e, b)
    ensures s.current in b.threads && (b.threads[s.current].status == RUNNING <==> !Stops(s, e))
    ensures b.ready == s.ready + Readies(s, e)
  {
  }

  lemma BodyIdle(s: State, e: Event, rax: int)
    requires s.current in s.threads
    ensures Body(s, e, rax).0.idle == s.idle
  {
    hide Semaphores.Up, Semaphores.Down, SendAccepted, IrqAccepted, Used, MessageOf, Header;
  }

  lemma UpCurrent(c: State, regs: Frame)
    requires c.current in c.threads
    ensures UpThread(c, regs).s.current == c.current && UpThread(c, regs).s.ready == c.ready
  {
  }

  lemma CountCurrent(o: Outcome)
    requires o.s.current in o.s.threads
    ensures CountTick(o).s.current == o.s.current && CountTick(o).switched == o.switched
    ensures CountTick(o).s.ready == o.s.ready
  {
  }

  // The level of a thread before a step; the thread a step creates has the level of its creator.
  function Rank(s: State, t: Tid): int
    requires s.current in s.threads
  {
    if t in s.threads then Level(s, t) else Level(s, s.current)
  }

  lemma NewLevel(s: State, e: Event, rax: int, t: Tid)
    requires Inv(s) && Allowed(s, e) && Decides(e)
    requires t in Body(s, e, rax).0.threads && t !in s.threads
    ensures Level(Body(s, e, rax).0, t) == Level(s, s.current)
  {
    StartOfStep(s);
    BodyFrames(s, e, rax);
    hide Inv, Level, OfMail;
    assert e.CreateThread?;
    NewThreadLevel(s, t, Pid0(s), e.entry);
  }

  lemma NewThreadLevel(s: State, tid: Tid, pid: Pid, entry: Saved)
    requires pid in s.tasks
    ensures tid in NewThread(s, tid, pid, entry).threads
    ensures Level(NewThread(s, tid, pid, entry), tid) == s.tasks[pid].level
  {
  }

  lemma DownLevel(b: State, regs: Frame, t: Tid)
    requires b.current in b.threads && t in DownThread(b, regs).threads
    ensures t in b.threads && Level(DownThread(b, regs), t) == Level(b, t)
  {
    DownTask(b, regs, t);
    hide DownThread;
  }

  lemma DownTask(b: State, regs: Frame, t: Tid)
    requires b.current in b.threads && t in DownThread(b, regs).threads
    ensures t in b.threads && DownThread(b, regs).threads[t].task == b.threads[t].task
    ensures DownThread(b, regs).tasks == b.tasks
  {
    hide Level;
  }

  lemma UpLevel(c: State, regs: Frame, t: Tid)
    requires c.current in c.threads && t in UpThread(c, regs).s.threads
    ensures t in c.threads && Level(UpThread(c, regs).s, t) == Level(c, t)
  {
  }

  lemma CountLevel(o: Outcome, t: Tid)
    requires o.s.current in o.s.threads && t in CountTick(o).s.threads
    ensures t in o.s.threads && Level(CountTick(o).s, t) == Level(o.s, t)
  {
  }

  lemma StepLevel(s: State, m: Move, t: Tid)
    requires Inv(s) && Allowed(s, m.e) && Decides(m.e) && t in Next(s, m).s.threads
    ensures s.current in s.threads && Level(Next(s, m).s, t) == Rank(s, t)
  {
    hide *;
    NextIs(s, m);
    var (b, rax) := Body(s, m.e, m.regs.basic.rax);
    var regs := WithRax(m.regs, rax);
    var o := AfterSyscall(b, regs);
    if m.e.Tick? { CountLevel(o, t); }
    DecisionLevel(b, regs, t);
    OldOrNew(s, m.e, m.regs.basic.rax, t);
  }

  lemma DecisionLevel(b: State, regs: Frame, t: Tid)
    requires b.current in b.threads && Dispatch(DownThread(b, regs)).current in DownThread(b, regs).threads
    requires t in AfterSyscall(b, regs).s.threads
    ensures t in b.threads && Level(AfterSyscall(b, regs).s, t) == Level(b, t)
  {
    hide Level, Dispatch, DownThread, UpThread;
    if ShouldSwitch(b) {
      DispatchLevel(DownThread(b, regs), t);
      UpLevel(Dispatch(DownThread(b, regs)), regs, t);
      DownLevel(b, regs, t);
    }
  }

  lemma DispatchLevel(d: State, t: Tid)
    ensures Dispatch(d).threads == d.threads
    ensures t in d.threads ==> Level(Dispatch(d), t) == Level(d, t)
  {
  }

  lemma OldOrNew(s: State, e: Event, rax: int, t: Tid)
    requires Inv(s) && Allowed(s, e) && Decides(e) && t in Body(s, e, rax).0.threads
    ensures s.current in s.threads && Level(Body(s, e, rax).0, t) == Rank(s, t)
  {
    hide Inv, Allowed, Body, Level;
    StartOfStep(s);
    if t in s.threads { BodyKeepsSlice(s, e, rax, t); } else { NewLevel(s, e, rax, t); }
  }

  // A switch leaves no level-0 thread waiting behind a thread of another level: the code has that priority exactly when
  // the head of the candidates is at level 0, or none of them is.
  lemma PriorityExactly(s: State, m: Move)
    requires Inv(s) && Allowed(s, m.e) && Next(s, m).switched
    ensures s.current in s.threads && var (q, u) := (Candidates(s, m.e), Next(s, m).s);
            && u.current in u.threads && (forall t <- u.ready :: t in u.threads)
            && (Level(u, u.current) == 0 || (forall t <- u.ready :: Level(u, t) != 0) <==>
                q == [] || Rank(s, q[0]) == 0 || (forall t <- q :: Rank(s, t) != 0))
  {
    hide Inv, Allowed, Next, Candidates, Level, Rank;
    var u := Next(s, m).s;
    DispatchedExactly(s, m);
    SwitchDecides(s, m);
    ReadyKnown(u);
    forall t | t in [u.current] + u.ready ensures t in u.threads && Level(u, t) == Rank(s, t) { StepLevel(s, m, t); }
    var q := Candidates(s, m.e);
    if q != [] { assert q == [u.current] + u.ready; }
  }

  // A new task changes nothing but the tasks, the threads and the tail of the ready list.
  lemma MakesTask(s: State, m: Move)
    requires Inv(s) && Allowed(s, m.e) && m.e.CreateTask?
    ensures var (u, e) := (Next(s, m).s, m.e);
            && u.current == s.current && u.idle == s.idle && u.ready == s.ready + [e.tid]
            && u.tasks == s.tasks[e.pid := Task(e.level, e.priority, e.pgd, false, 0, [], Mail.NULL_TASK, 0)]
            && u.threads.Keys == s.threads.Keys + {e.tid} && u.threads[e.tid].task == e.pid
            && (forall t <- s.threads :: u.threads[t] == s.threads[t])
  {
    hide Inv, Allowed, Mid, Next, Body, NewThread, AfterSyscall, CountTick, DownThread, Dispatch;
    NextIs(s, m);
    TaskAllowed(s, m.e);
    MakesBody(s, m.e, m.regs.basic.rax);
    NewThreadAdded(WithTask(s, m.e), m.e.tid, m.e.pid, m.e.entry);
  }

  lemma TaskAllowed(s: State, e: Event)
    requires Allowed(s, e) && e.CreateTask?
    ensures s.current in s.threads && e.pid !in s.tasks && e.tid !in s.threads && (e.level == 0 || e.level == 1)
  {
  }

  function WithTask(s: State, e: Event): State
    requires e.CreateTask?
  {
    s.(tasks := s.tasks[e.pid := Task(e.level, e.priority, e.pgd, false, 0, [], Mail.NULL_TASK, 0)])
  }

  lemma MakesBody(s: State, e: Event, rax: int)
    requires s.current in s.threads && e.CreateTask?
    ensures Body(s, e, rax).0 == NewThread(WithTask(s, e), e.tid, e.pid, e.entry)
  {
    hide NewThread;
  }

  lemma NewThreadAdded(s: State, tid: Tid, pid: Pid, entry: Saved)
    requires pid in s.tasks && tid !in s.threads && (s.tasks[pid].level == 0 || s.tasks[pid].level == 1)
    ensures var u := NewThread(s, tid, pid, entry);
            && u == s.(threads := u.threads, ready := s.ready + [tid])
            && u.threads.Keys == s.threads.Keys + {tid} && u.threads[tid].task == pid
            && (forall t <- s.threads :: u.threads[t] == s.threads[t])
  {
  }

  lemma SwitchDecides(s: State, m: Move)
    requires Inv(s) && Allowed(s, m.e) && Next(s, m).switched
    ensures Decides(m.e)
  {
    hide Inv, Allowed, Next, Body, AfterSyscall, CountTick;
    NextIs(s, m);
  }

  lemma ReadyKnown(s: State)
    requires Inv(s)
    ensures s.current in s.threads && forall t <- s.ready :: t in s.threads
  {
  }

  // Without a switch the slice shrinks by the ticks, and it was not used up; the queue was empty.
  lemma StepSlice(s: State, m: Move)
    requires Inv(s) && Allowed(s, m.e) && Level(s, s.current) == 1 && !Next(s, m).switched
    ensures var (t, u) := (s.threads[s.current], Next(s, m).s);
            && u.current == s.current && Level(u, u.current) == 1
            && u.threads[u.current].count == t.count - (if m.e.Tick? then 1 else 0)
            && u.threads[u.current].priority == t.priority
            && (Decides(m.e) ==> t.count > 0 && u.ready == [])
  {
    hide Inv, Body, Allowed, DoSwitch, Next, CountTick, Level, Mid, AfterSyscall, Dispatch, DownThread, ShouldSwitch;
    NextIs(s, m);
    BodyKeepsSlice(s, m.e, m.regs.basic.rax, s.current);
    var (b, rax) := Body(s, m.e, m.regs.basic.rax);
    OneTick(AfterSyscall(b, WithRax(m.regs, rax)));
    if Decides(m.e) { StillRunning(b, WithRax(m.regs, rax)); }
  }

  lemma StillRunning(b: State, regs: Frame)
    requires Mid(b) && Dispatch(DownThread(b, regs)).current in DownThread(b, regs).threads
    requires Level(b, b.current) == 1 && !AfterSyscall(b, regs).switched
    ensures AfterSyscall(b, regs).s == b && b.threads[b.current].count > 0 && b.ready == []
  {
    hide Listed, Covered, Settled, Mails, DownThread, Dispatch;
  }

  lemma FreshSlice(s: State, m: Move)
    requires Inv(s) && Allowed(s, m.e) && Next(s, m).switched
    ensures var u := Next(s, m).s;
            Level(u, u.current) == 1 ==>
              u.threads[u.current].count == 3 * u.threads[u.current].priority - (if m.e.Tick? then 1 else 0)
  {
    hide Inv, Body, Allowed, Mid, DownThread, ShouldSwitch, Next, UpThread, CountTick, Level;
    NextIs(s, m);
    var (b, rax) := Body(s, m.e, m.regs.basic.rax);
    var c := Dispatch(DownThread(b, WithRax(m.regs, rax)));
    FullSlice(c, WithRax(m.regs, rax));
    OneTick(AfterSyscall(b, WithRax(m.regs, rax)));
  }

  lemma FullSlice(c: State, regs: Frame)
    requires c.current in c.threads
    ensures var u := UpThread(c, regs).s;
            && u.current in u.threads && UpThread(c, regs).switched
            && (Level(u, u.current) == 1 ==> u.threads[u.current].count == 3 * u.threads[u.current].priority)
  {
  }

  lemma OneTick(o: Outcome)
    requires o.s.current in o.s.threads
    ensures var u := CountTick(o).s;
            && u.current == o.s.current && u.ready == o.s.ready && u.current in u.threads
               && CountTick(o).switched == o.switched
            && Level(u, u.current) == Level(o.s, u.current)
            && (Level(o.s, u.current) == 1 ==>
               u.threads[u.current] == o.s.threads[u.current].(count := o.s.threads[u.current].count - 1))
  {
  }

  function Ticks(moves: seq<Move>): nat {
    if moves == [] then 0 else Ticks(moves[1..]) + if moves[0].e.Tick? then 1 else 0
  }

  lemma {:induction false} SliceBound(s: State, moves: seq<Move>)
    requires Inv(s) && CanRun(s, moves) && Level(s, s.current) == 1 && Switches(s, moves) == 0
    ensures Ticks(moves) <= Semaphores.Max0(s.threads[s.current].count)
    decreases |moves|
  {
    hide Inv, Allowed, Next;
    if moves != [] {
      StepSlice(s, moves[0]);
      SliceBound(Next(s, moves[0]).s, moves[1..]);
    }
  }

  // From the step that gives it the processor on, a level-1 thread of priority p sees at most 3p ticks before
  // the next switch, whatever else happens in between.
  lemma AtMostThreeTicksPerPriority(s: State, m: Move, moves: seq<Move>)
    requires Inv(s) && Allowed(s, m.e) && Next(s, m).switched && CanRun(Next(s, m).s, moves)
    requires var u := Next(s, m).s; Level(u, u.current) == 1 && u.threads[u.current].priority >= 1
                                    && Switches(u, moves) == 0
    ensures var u := Next(s, m).s; Ticks([m] + moves) <= 3 * u.threads[u.current].priority
  {
    hide Inv, Allowed, Next;
    FreshSlice(s, m);
    SliceBound(Next(s, m).s, moves);
    assert ([m] + moves)[1..] == moves;
  }

  // ----- Registers

  // A thread that is not running keeps its saved registers and its page table, and is given exactly those when it
  // is dispatched.
  lemma StepRegs(s: State, m: Move, t: Tid)
    requires Inv(s) && Allowed(s, m.e) && t in s.threads && t != s.current
    ensures var o := Next(s, m);
            && t in o.s.threads && o.s.threads[t].regs == s.threads[t].regs && PgdOf(o.s, t) == PgdOf(s, t)
            && (o.s.current == t ==> o.regs == Load(m.regs, s.threads[t].regs, PgdOf(s, t)))
    ensures PgdOf(s, t) == if t == s.idle then s.idlePgd
                           else if s.threads[t].task in s.tasks then s.tasks[s.threads[t].task].pgd else -1
    ensures t != s.idle ==> s.threads[t].task in s.tasks
  {
    OwnTables(s, t);
    hide Inv, Body, Allowed, Mid, Next, AfterSyscall, PgdOf, CountTick;
    NextIs(s, m);
    BodyKeepsSlice(s, m.e, m.regs.basic.rax, t);
    var (b, rax) := Body(s, m.e, m.regs.basic.rax);
    DecisionRegs(b, WithRax(m.regs, rax), t);
    CountRegs(AfterSyscall(b, WithRax(m.regs, rax)), t);
  }

  // Every thread runs in the page table of its task.
  lemma OwnTables(s: State, t: Tid)
    requires Inv(s) && t in s.threads
    ensures t != s.idle ==> s.threads[t].task in s.tasks && PgdOf(s, t) == s.tasks[s.threads[t].task].pgd
    ensures t == s.idle ==> PgdOf(s, t) == s.idlePgd
  {
    NoEmptyTask(s);
    if t != s.idle { TaskOf(s, t); }
  }

  lemma CountRegs(o: Outcome, t: Tid)
    requires o.s.current in o.s.threads && t in o.s.threads
    ensures var c := CountTick(o);
            && c.regs == o.regs && c.s.current == o.s.current
            && t in c.s.threads && c.s.threads[t].regs == o.s.threads[t].regs && PgdOf(c.s, t) == PgdOf(o.s, t)
  {
  }

  lemma DownRegs(b: State, regs: Frame, t: Tid)
    requires b.current in b.threads && t in b.threads
    ensures var d := DownThread(b, regs);
            && (t != b.current ==> t in d.threads) && d.current == b.current
            && (t in d.threads ==> d.threads[t].regs == (if t == b.current then Save(regs) else b.threads[t].regs)
                                   && PgdOf(d, t) == PgdOf(b, t))
  {
  }

  lemma UpRegs(c: State, regs: Frame, t: Tid)
    requires c.current in c.threads
    ensures var o := UpThread(c, regs);
            && o.s.current == c.current && (t in c.threads <==> t in o.s.threads)
            && o.regs == Load(regs, c.threads[c.current].regs, PgdOf(c, c.current))
            && (t in c.threads ==> o.s.threads[t].regs == c.threads[t].regs && PgdOf(o.s, t) == PgdOf(c, t))
  {
  }

  lemma DispatchRegs(d: State, t: Tid)
    requires t in d.threads
    ensures var c := Dispatch(d);
            c.threads == d.threads && PgdOf(c, t) == PgdOf(d, t)
  {
  }

  lemma DecisionRegs(b: State, regs: Frame, t: Tid)
    requires b.current in b.threads && t in b.threads && t != b.current
    requires Dispatch(DownThread(b, regs)).current in DownThread(b, regs).threads
    ensures var o := AfterSyscall(b, regs);
            && t in o.s.threads && o.s.threads[t].regs == b.threads[t].regs && PgdOf(o.s, t) == PgdOf(b, t)
            && (o.s.current == t ==> o.regs == Load(regs, b.threads[t].regs, PgdOf(b, t)))
  {
    hide ShouldSwitch, DownThread, UpThread, PgdOf, Dispatch;
    DownRegs(b, regs, t);
    var d := DownThread(b, regs);
    DispatchRegs(d, t);
    UpRegs(Dispatch(d), regs, t);
  }

  // What the running thread is left with: the frame it was interrupted with, rax replaced by the result. If no
  // switch happens it continues with that; if one does, that is what is saved, unless it has ended.
  lemma StepSaves(s: State, m: Move)
    requires Inv(s) && Allowed(s, m.e)
    ensures m.e.Tick? || m.e.Irq? || m.e.Fault? || m.e.CreateTask? ==>
              Body(s, m.e, m.regs.basic.rax).1 == m.regs.basic.rax
    ensures var (o, f) := (Next(s, m), m.regs.(basic := m.regs.basic.(rax := Body(s, m.e, m.regs.basic.rax).1)));
            && (!o.switched ==> o.regs == f)
            && (o.switched && s.current in o.s.threads ==> o.s.threads[s.current].regs == Save(f))
  {
    hide Inv, Body, Allowed, Mid, Next, AfterSyscall, CountTick, PgdOf;
    NextIs(s, m);
    BareResult(s, m.e, m.regs.basic.rax);
    var (b, rax) := Body(s, m.e, m.regs.basic.rax);
    DecisionSaves(b, WithRax(m.regs, rax));
    if s.current in AfterSyscall(b, WithRax(m.regs, rax)).s.threads {
      CountRegs(AfterSyscall(b, WithRax(m.regs, rax)), s.current);
    }
    OneTick(AfterSyscall(b, WithRax(m.regs, rax)));
    CountThreads(AfterSyscall(b, WithRax(m.regs, rax)));
  }

  lemma DecisionSaves(b: State, regs: Frame)
    requires b.current in b.threads
    requires Dispatch(DownThread(b, regs)).current in DownThread(b, regs).threads
    ensures var o := AfterSyscall(b, regs);
            && (!o.switched ==> o.regs == regs && o.s == b)
            && (o.switched && b.current in o.s.threads ==> o.s.threads[b.current].regs == Save(regs))
  {
    hide ShouldSwitch, DownThread, PgdOf;
    DownRegs(b, regs, b.current);
    UpRegs(Dispatch(DownThread(b, regs)), regs, b.current);
  }

  lemma BareResult(s: State, e: Event, rax: int)
    requires s.current in s.threads
    ensures !Decides(e) || e.Tick? || e.Fault? ==> Body(s, e, rax).1 == rax
  {
  }

  // The thread is not the current one in any state of the run, the last one included.
  ghost predicate Away(s: State, moves: seq<Move>, t: Tid)
    requires Inv(s) && CanRun(s, moves)
    decreases |moves|
  {
    hide Inv, Allowed, Next;
    s.current != t && (moves != [] ==> Away(Next(s, moves[0]).s, moves[1..], t))
  }

  lemma {:induction false} AwayRegs(s: State, moves: seq<Move>, t: Tid)
    requires Inv(s) && CanRun(s, moves) && Away(s, moves, t) && t in s.threads
    ensures var u := After(s, moves);
            t in u.threads && u.current != t && u.threads[t].regs == s.threads[t].regs && PgdOf(u, t) == PgdOf(s, t)
    decreases |moves|
  {
    hide Inv, Allowed, Next, PgdOf;
    if moves != [] {
      StepRegs(s, moves[0], t);
      AwayRegs(Next(s, moves[0]).s, moves[1..], t);
    }
  }

  // A thread that is switched away from and comes back any number of steps later continues with exactly the
  // registers it left with, and with the result of its system call; the page table is its task's.
  lemma ResumesWhereItStopped(s: State, m: Move, moves: seq<Move>, last: Move)
    requires Inv(s) && Allowed(s, m.e)
    requires var u := Next(s, m).s; s.current in u.threads && u.current != s.current && CanRun(u, moves)
                                    && Away(u, moves, s.current)
    requires var w := After(Next(s, m).s, moves); Allowed(w, last.e) && Next(w, last).s.current == s.current
    ensures var (u, w) := (Next(s, m).s, After(Next(s, m).s, moves));
            && (s.current != s.idle ==> Pid0(s) in s.tasks)
            && Next(w, last).regs ==
               m.regs.(basic := m.regs.basic.(rax := Body(s, m.e, m.regs.basic.rax).1), ist := last.regs.ist,
                       pgd := if s.current == s.idle then s.idlePgd else s.tasks[Pid0(s)].pgd)
  {
    OwnTables(s, s.current);
    StillOwnTables(s, m);
    hide Inv, Allowed, Next, Body, PgdOf;
    var u := Next(s, m).s;
    StepSaves(s, m);
    StepReady(s, m);
    AwayRegs(u, moves, s.current);
    StepRegs(After(u, moves), last, s.current);
    StartOfStep(s);
    LoadUndoesSave(WithRax(m.regs, Body(s, m.e, m.regs.basic.rax).1), last.regs, PgdOf(u, s.current));
  }

  // The page table of the thread that is left is its task's, also after the step.
  lemma StillOwnTables(s: State, m: Move)
    requires Inv(s) && Allowed(s, m.e) && s.current in Next(s, m).s.threads
    ensures s.current in s.threads && PgdOf(Next(s, m).s, s.current) == PgdOf(s, s.current)
  {
    hide Inv, Body, Allowed, Mid, Next, AfterSyscall, PgdOf, CountTick;
    NextIs(s, m);
    BodyKeepsSlice(s, m.e, m.regs.basic.rax, s.current);
    var (b, rax) := Body(s, m.e, m.regs.basic.rax);
    var regs := WithRax(m.regs, rax);
    DecisionTables(b, regs);
    CountThreads(AfterSyscall(b, regs));
    if s.current in AfterSyscall(b, regs).s.threads { CountRegs(AfterSyscall(b, regs), s.current); }
  }

  lemma DecisionTables(b: State, regs: Frame)
    requires b.current in b.threads
    requires Dispatch(DownThread(b, regs)).current in DownThread(b, regs).threads
    requires AfterSyscall(b, regs).s.current in AfterSyscall(b, regs).s.threads
    ensures b.current in AfterSyscall(b, regs).s.threads ==>
              PgdOf(AfterSyscall(b, regs).s, b.current) == PgdOf(b, b.current)
  {
    hide ShouldSwitch, DownThread, UpThread, PgdOf, Dispatch;
    DownRegs(b, regs, b.current);
    DispatchThreads(DownThread(b, regs), b.current);
    UpRegs(Dispatch(DownThread(b, regs)), regs, b.current);
  }

  lemma DispatchThreads(d: State, t: Tid)
    ensures Dispatch(d).threads == d.threads && (t in d.threads ==> PgdOf(Dispatch(d), t) == PgdOf(d, t))
  {
  }

  // ----- No thread is lost or doubled

  function Born(e: Event): set<Tid> {
    match e
    case CreateThread(tid, _) => {tid}
    case CreateTask(_, tid, _, _, _, _) => {tid}
    case _ => {}
  }

  function Gone(s: State, e: Event): set<Tid> {
    if e.ExitThread? || e.Fault? then {s.current} else {}
  }

  lemma DownThreads(b: State, regs: Frame)
    requires b.current in b.threads
    ensures DownThread(b, regs).threads.Keys ==
            b.threads.Keys - if b.threads[b.current].status in {TERMINATED, EXCEPTION} then {b.current} else {}
  {
  }

  lemma UpThreads(c: State, regs: Frame)
    requires c.current in c.threads
    ensures UpThread(c, regs).s.threads.Keys == c.threads.Keys
  {
  }

  lemma DecisionThreads(b: State, regs: Frame)
    requires Mid(b) && b.current in b.threads && Dispatch(DownThread(b, regs)).current in DownThread(b, regs).threads
    ensures AfterSyscall(b, regs).s.threads.Keys ==
            b.threads.Keys - if b.threads[b.current].status in {TERMINATED, EXCEPTION} then {b.current} else {}
  {
    hide Mid, DownThread, UpThread, ShouldSwitch;
    KnownTask(b);
    DownThreads(b, regs);
    UpThreads(Dispatch(DownThread(b, regs)), regs);
  }

  lemma KnownTask(b: State)
    requires Mid(b)
    ensures b.threads[b.current].status != RUNNING ==> ShouldSwitch(b)
  {
    hide Listed, Covered, Settled, Mails;
  }

  lemma CountThreads(o: Outcome)
    requires o.s.current in o.s.threads
    ensures CountTick(o).s.threads.Keys == o.s.threads.Keys
  {
  }

  // The threads there are: those there were, the new one, and not the one that ended.
  lemma StepThreads(s: State, m: Move)
    requires Inv(s) && Allowed(s, m.e)
    ensures Next(s, m).s.threads.Keys == s.threads.Keys + Born(m.e) - Gone(s, m.e)
  {
    hide Body, Allowed, Mid, Next, AfterSyscall, Dispatch, DownThread, CountTick, Inv;
    NextIs(s, m);
    StartOfStep(s);
    BodyFrames(s, m.e, m.regs.basic.rax);
    var (b, rax) := Body(s, m.e, m.regs.basic.rax);
    DecisionThreads(b, WithRax(m.regs, rax));
    CountThreads(AfterSyscall(b, WithRax(m.regs, rax)));
  }

  lemma StartOfStep(s: State)
    requires Inv(s)
    ensures s.current in s.threads && s.scheduling && s.threads[s.current].status == RUNNING
    ensures s.current != s.idle ==> Pid0(s) in s.tasks && Pid0(s) >= 0
    ensures s.current == s.idle ==> Pid0(s) == EMPTY && Level(s, s.current) == -1
  {
  }
}
