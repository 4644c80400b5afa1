// The step machine as the kernel runs it: thread records linked into ready lists, mailboxes in byte rings, and
// semaphores in their tree, all changed in place. Now() is the machine state these stand for, and one system call or
// interrupt is one step of the machine.
module Kernel {
  import opened Basics
  import Machine
  import Mail
  import Registers
  import Semaphores
  import opened ReadyList
  import opened SignalTable

  // The part of task_struct that scheduling and messages use.
  class TaskInfo {
    const pid: int
    const level: int
    const priority: int
    const pgd: int
    const box: Mail.Mailbox
    var mapped: bool          // ipc_info.mail is not NULL
    var handler: ThreadInfo?  // msg_handler_thread

    constructor (pid: int, level: int, priority: int, pgd: int)
      ensures this.pid == pid && Value() == Machine.Task(level, priority, pgd, false, 0, [], Mail.NULL_TASK, 0)
      ensures fresh(box) && fresh(box.mail) && Sound(pid) && !mapped && handler == null
    {
      this.pid, this.level, this.priority, this.pgd := pid, level, priority, pgd;
      box := new Mail.Mailbox();
      mapped, handler := false, null;
    }

    ghost predicate Sound(p: int)
      reads this, box, box.mail
    {
      pid == p && box.Valid() && (mapped <==> handler != null)
    }

    ghost function Value(): Machine.Task
      reads this, box
    {
      Machine.Task(level, priority, pgd, mapped, box.mail.Length, box.queue, box.allow,
        if handler == null then 0 else handler.tid)
    }

    lemma Fields()
      ensures Value() == Machine.Task(level, priority, pgd, mapped, box.mail.Length, box.queue, box.allow,
                                      if handler == null then 0 else handler.tid)
    {
    }
  }

  // Every record is found under its number.
  predicate Numbered(threads: map<nat, ThreadInfo>) { forall t <- threads :: threads[t].tid == t }

  predicate Lists(threads: map<nat, ThreadInfo>, nodes: seq<ThreadInfo>) {
    forall n <- nodes :: n.tid in threads && threads[n.tid] == n
  }

  ghost predicate RecordsAre(threads: map<nat, ThreadInfo>, v: map<nat, Machine.Thread>)
    reads (set t | t in threads :: threads[t])`status, (set t | t in threads :: threads[t])`regs,
          (set t | t in threads :: threads[t])`count
  {
    Numbered(threads) && v.Keys == threads.Keys && forall t <- threads :: threads[t].Value() == v[t]
  }

  predicate Handled(threads: map<nat, ThreadInfo>, handler: ThreadInfo?) {
    handler != null ==> handler.tid in threads && threads[handler.tid] == handler
  }

  ghost predicate TasksFor(threads: map<nat, ThreadInfo>, tasks: map<int, TaskInfo>, v: map<int, Machine.Task>)
    reads set p | p in tasks :: tasks[p], set p | p in tasks :: tasks[p].box
    reads set p | p in tasks :: tasks[p].box.mail
  {
    && v.Keys == tasks.Keys
    && (forall p <- tasks :: tasks[p].Value() == v[p] && tasks[p].Sound(p) && Handled(threads, tasks[p].handler))
    && (forall p, q | p in tasks && q in tasks && p != q ::
       tasks[p].box != tasks[q].box && tasks[p].box.mail != tasks[q].box.mail)
  }

  lemma RecordsWithout(threads: map<nat, ThreadInfo>, v: map<nat, Machine.Thread>, tid: nat)
    requires RecordsAre(threads, v)
    ensures RecordsAre(threads - {tid}, v - {tid})
  {
  }

  lemma ListsWithout(threads: map<nat, ThreadInfo>, nodes: seq<ThreadInfo>, tid: nat)
    requires Lists(threads, nodes) && tid !in Tids(nodes)
    ensures Lists(threads - {tid}, nodes)
  {
    forall n | n in nodes ensures n.tid != tid {
      var i :| 0 <= i < |nodes| && nodes[i] == n;
      assert Tids(nodes)[i] == n.tid;
    }
  }

  lemma TasksWithout(threads: map<nat, ThreadInfo>, tasks: map<int, TaskInfo>, v: map<int, Machine.Task>, tid: nat)
    requires TasksFor(threads, tasks, v) && forall p <- v :: v[p].mail ==> v[p].handler != tid
    ensures TasksFor(threads - {tid}, tasks, v)
  {
    forall p | p in tasks ensures Handled(threads - {tid}, tasks[p].handler) {
      assert tasks[p].Value() == v[p] && tasks[p].Sound(p);
    }
  }

  lemma TasksWith(threads: map<nat, ThreadInfo>, tasks: map<int, TaskInfo>, v: map<int, Machine.Task>, task: TaskInfo)
    requires TasksFor(threads, tasks, v) && task.pid !in v && task.Sound(task.pid) && task.handler == null
    requires forall p <- tasks :: tasks[p].box != task.box && tasks[p].box.mail != task.box.mail
    ensures TasksFor(threads, tasks[task.pid := task], v[task.pid := task.Value()])
  {
    hide TaskInfo.Sound, TaskInfo.Value;
  }

  class Kernel {
    var scheduling: bool
    var threads: map<nat, ThreadInfo>
    var tasks: map<int, TaskInfo>
    const level0: LevelList
    const level1: LevelList
    var current: ThreadInfo
    const idle: ThreadInfo
    const idlePgd: int
    const signals: SignalTable

    // entry of kernel/kernel.c: the first task runs, the empty task waits in no list.
    constructor (init: nat, empty: nat, pid: int, pgd: int, entry: Registers.Saved, spin: Registers.Saved)
      requires init != empty
      ensures Here() && Holds(Unscheduled(init, empty, pid, pgd, entry, spin)) && current.task in tasks
      ensures current.tid == init && idle.tid == empty
      ensures fresh(level0) && fresh(level1) && fresh(signals)
      ensures Nodes(signals.shape) == {} && Records(signals.shape) == {}
      ensures fresh(ThreadObjs()) && fresh(TaskObjs()) && fresh(BoxObjs()) && fresh(RingObjs())
    {
      hide Holds, Unscheduled, LevelList.Valid, SignalTable.Valid, SignalTable.View, ThreadInfo.Value, TaskInfo.Value,
           TaskInfo.Sound, ThreadObjs, TaskObjs, BoxObjs, RingObjs, Rings, Mail.Mailbox.Valid;
      idle := new ThreadInfo(empty, Machine.EMPTY, -1, spin);
      var first := NewRunning(init, pid, entry);
      current := first;
      var task := new TaskInfo(pid, 0, 1, pgd);
      level0 := new LevelList();
      level1 := new LevelList();
      signals := new SignalTable();
      scheduling, idlePgd := false, pgd;
      threads, tasks := map[empty := idle, init := current], map[pid := task];
      new;
      Starting(task, entry, spin);
      StartObjs(task);
    }

    lemma StartObjs(task: TaskInfo)
      requires threads == map[idle.tid := idle, current.tid := current] && tasks == map[task.pid := task]
      ensures ThreadObjs() <= {idle, current} && TaskObjs() <= {task} && BoxObjs() <= {task.box}
      ensures RingObjs() <= {task.box.mail}
    {
      assert Rings() == map[task.pid := task.box.mail];
    }

    // init, up to start_schedule: the first task maps a mailbox of its own, and scheduling begins.
    method Init(pid: int, pgd: int, entry: Registers.Saved, spin: Registers.Saved)
      requires Here() && Holds(Unscheduled(current.tid, idle.tid, pid, pgd, entry, spin)) && current.task in tasks
      requires current.tid != idle.tid && pid >= 0
      modifies this`scheduling, TaskObjs(), BoxObjs()
      ensures var s := First(current.tid, idle.tid, pid, pgd, entry, spin); Here() && Holds(s) && Machine.Inv(s)
      ensures fresh(RingObjs() - old(RingObjs()))
    {
      hide Holds, ThreadsAre, ListsAre, TasksAre, SemsAre, Nodes, TaskObjs, BoxObjs, Rings, RingObjs, Unscheduled,
           First, Machine.Inv, Machine.Body;
      NodesAllocated(signals.shape);
      ghost var s := Unscheduled(current.tid, idle.tid, pid, pgd, entry, spin);
      FirstState(current.tid, idle.tid, pid, pgd, entry, spin);
      ReadyNodes(s);
      var mail := new Byte[MAIL_SIZE];
      MapsFirst(s, mail);
      SetMailbuffer(mail, MAIL_SIZE, s);
      Schedule(Machine.Body(s, Machine.SetMailbuffer(MAIL_SIZE), 0).0);
    }

    // start_schedule
    method Schedule(ghost s: Machine.State)
      requires Holds(s) && Here()
      modifies this`scheduling
      ensures Holds(s.(scheduling := true)) && Here()
    {
      hide ThreadsAre, ListsAre, TasksAre, SemsAre, Nodes;
      NodesAllocated(signals.shape);
      scheduling := true;
    }

    lemma MapsFirst(s: Machine.State, mail: array<Byte>)
      requires Holds(s) && Here() && s.current in s.threads && mail.Length == MAIL_SIZE
      requires forall p <- tasks :: tasks[p].box.mail != mail
      ensures Fits(s, Machine.SetMailbuffer(MAIL_SIZE), mail)
    {
    }

    lemma Starting(task: TaskInfo, entry: Registers.Saved, spin: Registers.Saved)
      requires !scheduling && current.tid != idle.tid && current.task == task.pid
      requires threads == map[idle.tid := idle, current.tid := current] && tasks == map[task.pid := task]
      requires idle.Value() == Machine.Thread(Machine.EMPTY, Machine.SUBBMITED, spin, -3, -1)
      requires current.Value() == Machine.Thread(task.pid, Machine.RUNNING, entry, 3, 1)
      requires task.Value() == Machine.Task(0, 1, idlePgd, false, 0, [], Mail.NULL_TASK, 0)
      requires task.Sound(task.pid) && task.handler == null
      requires level0 != level1 && level0.Valid() && level1.Valid() && level0.nodes == level1.nodes == []
      requires signals.Valid() && signals.nextId == 0
      ensures Here() && Holds(Unscheduled(current.tid, idle.tid, task.pid, idlePgd, entry, spin))
              && current.task in tasks
    {
      hide LevelList.Valid, SignalTable.Valid, SignalTable.View, Nodes, TaskInfo.Sound, TaskInfo.Value;
      assert signals.View() == map[];
    }

    // The records hold the machine's threads.
    ghost predicate ThreadsAre(v: map<nat, Machine.Thread>)
      reads this`threads, (set t | t in threads :: threads[t])`status, (set t | t in threads :: threads[t])`regs
      reads (set t | t in threads :: threads[t])`count
    {
      RecordsAre(threads, v) && idle.tid in threads && threads[idle.tid] == idle
    }

    // The linked lists hold the machine's ready lists.
    ghost predicate ListsAre(ready: seq<nat>, ready1: seq<nat>)
      reads this`threads, level0, level1
      reads (set i | 0 <= i < |level0.nodes| :: level0.nodes[i])`freeNext,
            (set i | 0 <= i < |level1.nodes| :: level1.nodes[i])`freeNext
    {
      && level0 != level1 && level0.Valid() && level1.Valid() && level1.nodes == [] && Lists(threads, level0.nodes)
      && Tids(level0.nodes) == ready && ready1 == []
    }

    // The task records hold the machine's tasks, each with a sound mailbox of its own, and a mapped one has its
    // handler.
    ghost predicate TasksAre(v: map<int, Machine.Task>)
      reads this`threads, this`tasks, set p | p in tasks :: tasks[p], set p | p in tasks :: tasks[p].box
      reads set p | p in tasks :: tasks[p].box.mail
    {
      TasksFor(threads, tasks, v)
    }

    // The tree holds the machine's semaphores.
    ghost predicate SemsAre(v: map<nat, Semaphores.Semaphore>)
      reads signals, Nodes(signals.shape), set n <- Nodes(signals.shape) :: n.signal
    {
      signals.Valid() && signals.View() == v
    }

    // All but which thread is current.
    ghost predicate Holds(s: Machine.State)
      reads this, level0, level1, signals, Nodes(signals.shape), set n <- Nodes(signals.shape) :: n.signal
      reads (set t | t in threads :: threads[t])`status, (set t | t in threads :: threads[t])`regs,
            (set t | t in threads :: threads[t])`count
      reads (set i | 0 <= i < |level0.nodes| :: level0.nodes[i])`freeNext,
            (set i | 0 <= i < |level1.nodes| :: level1.nodes[i])`freeNext
      reads set p | p in tasks :: tasks[p], set p | p in tasks :: tasks[p].box, set p | p in tasks :: tasks[p].box.mail
    {
      && ThreadsAre(s.threads) && ListsAre(s.ready, s.ready1) && TasksAre(s.tasks) && SemsAre(s.sems)
      && s.scheduling == scheduling && s.idle == idle.tid && s.idlePgd == idlePgd && s.current == current.tid
    }

    // Whether enqueue_thread does anything.
    predicate Queued(t: ThreadInfo)
      reads this`tasks
    {
      t.task in tasks && (tasks[t.task].level == 0 || tasks[t.task].level == 1)
    }

    // enqueue_thread: level 1 goes to the level-0 list too.
    method EnqueueThread(t: ThreadInfo)
      requires level0.Valid() && t !in level0.nodes
      modifies level0, t`freeNext, (set i | 0 <= i < |level0.nodes| :: level0.nodes[i])`freeNext
      ensures level0.Valid() && level0.nodes == old(level0.nodes) + if Queued(t) then [t] else []
    {
      if t.task in tasks {
        if tasks[t.task].level == 0 {
          level0.Enqueue(t);
        } else if tasks[t.task].level == 1 {
          level0.Enqueue(t);
        }
      }
    }

    lemma EnqueuedIs(s: Machine.State, t: ThreadInfo)
      requires TasksAre(s.tasks) && t.tid in s.threads && s.threads[t.tid].task == t.task
      ensures Machine.Enqueue(s, t.tid) == s.(ready := s.ready + if Queued(t) then [t.tid] else [])
    {
    }

    // The list part of a wake-up.
    method Append(t: ThreadInfo, ghost ready: seq<nat>, ghost ready1: seq<nat>)
      requires ListsAre(ready, ready1) && t.tid in threads && threads[t.tid] == t && t.tid !in ready
      modifies level0, t`freeNext, (set i | 0 <= i < |level0.nodes| :: level0.nodes[i])`freeNext
      ensures ListsAre(ready + (if Queued(t) then [t.tid] else []), ready1)
    {
      TidsMore(level0.nodes, if Queued(t) then [t] else []);
      hide Tids, Chain, LevelList.Valid;
      EnqueueThread(t);
    }

    // The thread part of a change of status.
    method SetStatus(t: ThreadInfo, status: Machine.Status, ghost v: map<nat, Machine.Thread>)
      requires ThreadsAre(v) && t.tid in threads && threads[t.tid] == t
      modifies t`status
      ensures t.tid in v && v[t.tid].task == t.task && ThreadsAre(v[t.tid := v[t.tid].(status := status)])
    {
      t.status := status;
    }

    // A woken thread: READY, and at the tail of the ready list.
    method Wake(t: ThreadInfo, ghost s: Machine.State)
      requires Holds(s) && t.tid in threads && threads[t.tid] == t && t.tid !in s.ready
      modifies t`status, t`freeNext, level0, (set i | 0 <= i < |level0.nodes| :: level0.nodes[i])`freeNext
      ensures t.tid in s.threads && Holds(Machine.Wake(s, t.tid))
    {
      hide ThreadsAre, ListsAre, TasksAre, SemsAre, Nodes, Machine.Enqueue;
      NodesAllocated(signals.shape);
      SetStatus(t, Machine.READY, s.threads);
      Append(t, s.ready, s.ready1);
      EnqueuedIs(Machine.SetStatus(s, t.tid, Machine.READY), t);
    }

    // The current thread is one of the records.
    ghost predicate Here()
      reads this`threads, this`current
    {
      current.tid in threads && threads[current.tid] == current
    }

    ghost function ThreadObjs(): set<ThreadInfo>
      reads this`threads
    {
      set t | t in threads :: threads[t]
    }

    lemma NodesIn(ready: seq<nat>, ready1: seq<nat>)
      requires ListsAre(ready, ready1)
      ensures forall i | 0 <= i < |level0.nodes| :: level0.nodes[i] in ThreadObjs()
      ensures level0.HasThread() <==> ready != []
      ensures ready1 == []
    {
    }

    // ----- task_scheduler.c

    // The head of the ready list is unlinked.
    method TakeHead(ghost ready: seq<nat>, ghost ready1: seq<nat>) returns (t: ThreadInfo)
      requires ListsAre(ready, ready1) && ready != []
      modifies level0, (set i | 0 <= i < |level0.nodes| :: level0.nodes[i])`freeNext
      ensures t.tid == ready[0] && t.tid in threads && threads[t.tid] == t && ListsAre(ready[1..], ready1)
    {
      hide Chain;
      ghost var nodes := level0.nodes;
      t := level0.Dequeue();
      assert ready == [t.tid] + Tids(level0.nodes);
      assert nodes == [t] + level0.nodes;
      assert t in nodes && forall n <- level0.nodes :: n in nodes;
    }

    // get_next_run_thread; the level-1 list is always empty.
    method GetNextRunThread(ghost s: Machine.State) returns (t: ThreadInfo)
      requires ListsAre(s.ready, s.ready1) && s.idle == idle.tid && idle.tid in threads && threads[idle.tid] == idle
      modifies level0, (set i | 0 <= i < |level0.nodes| :: level0.nodes[i])`freeNext
      ensures t.tid == Machine.Dispatch(s).current && t.tid in threads && threads[t.tid] == t
      ensures ListsAre(Machine.Dispatch(s).ready, Machine.Dispatch(s).ready1)
    {
      NodesIn(s.ready, s.ready1);
      hide ListsAre;
      if level0.HasThread() {
        t := TakeHead(s.ready, s.ready1);
      } else {
        t := idle;
      }
    }

    // should_switch
    predicate ShouldSwitch()
      reads this, level0, current
    {
      if !scheduling then false
      else if current.task == Machine.EMPTY then true
      else
        var level := if current.task in tasks then tasks[current.task].level else -1;
        if level == 0 then current.status != Machine.RUNNING
        else if level == 1 then level0.HasThread() || current.status != Machine.RUNNING || current.count <= 0
        else true
    }

    lemma ShouldSwitchIs(s: Machine.State)
      requires Holds(s) && Here()
      ensures s.current in s.threads && ShouldSwitch() == Machine.ShouldSwitch(s)
    {
      hide ThreadsAre, ListsAre, TasksAre, SemsAre;
      NodesIn(s.ready, s.ready1);
      CurrentIs(s);
    }

    // down_thread: the registers are copied out; a running thread is queued again, an ended one is gone.
    method DownThread(regs: Registers.Frame, ghost s: Machine.State)
      requires Holds(s) && Here() && Machine.Mid(s)
      modifies this`threads, current`regs, current`status, current`freeNext, level0,
               (set i | 0 <= i < |level0.nodes| :: level0.nodes[i])`freeNext
      ensures s.current in s.threads && Holds(Machine.DownThread(s, regs))
      ensures forall t <- threads :: t in old(threads) && threads[t] == old(threads)[t]
    {
      hide ThreadsAre, ListsAre, TasksAre, SemsAre, Nodes, Machine.Wake, Machine.Mid;
      NodesAllocated(signals.shape);
      StatusOf(s);
      SaveRegisters(regs, s.threads);
      ghost var saved := s.(threads := s.threads[s.current := s.threads[s.current].(regs := Registers.Save(regs))]);
      if current.status == Machine.RUNNING {
        Wake(current, saved);
      } else if current.status == Machine.TERMINATED || current.status == Machine.EXCEPTION {
        Remove(saved);
      }
    }

    lemma StatusOf(s: Machine.State)
      requires Holds(s) && Here() && Machine.Mid(s)
      ensures s.current in s.threads && current.status == s.threads[s.current].status
      ensures current.status == Machine.RUNNING ==> current.tid !in s.ready
      ensures current.status in {Machine.TERMINATED, Machine.EXCEPTION} ==>
                current.tid !in s.ready && s.current != s.idle && Machine.Unneeded(s, s.current)
    {
      hide TasksAre, SemsAre, ListsAre;
      if current.status in {Machine.RUNNING, Machine.TERMINATED, Machine.EXCEPTION} {
        Machine.NotQueued(s, s.current);
      }
    }

    method SaveRegisters(regs: Registers.Frame, ghost v: map<nat, Machine.Thread>)
      requires ThreadsAre(v) && Here()
      modifies current`regs
      ensures current.tid in v && ThreadsAre(v[current.tid := v[current.tid].(regs := Registers.Save(regs))])
    {
      current.regs := Registers.SaveFrame(regs, current.regs);
    }

    // remove_thread of the current thread.
    method Remove(ghost s: Machine.State)
      requires Holds(s) && Here() && s.current !in s.ready && s.current != s.idle && Machine.Unneeded(s, s.current)
      modifies this`threads
      ensures Holds(s.(threads := s.threads - {s.current})) && threads == old(threads) - {current.tid}
    {
      hide SemsAre, LevelList.Valid, RecordsAre, TasksFor, Lists, Chain, Tids;
      NodesAllocated(signals.shape);
      RecordsWithout(threads, s.threads, s.current);
      ListsWithout(threads, level0.nodes, s.current);
      TasksWithout(threads, tasks, s.tasks, s.current);
      threads := threads - {current.tid};
    }

    // What the current thread's record says, as the machine has it.
    lemma CurrentIs(s: Machine.State)
      requires Holds(s) && Here()
      ensures s.current in s.threads && s.threads[s.current] == current.Value()
      ensures current.task in s.tasks <==> current.task in tasks
      ensures current.task in tasks ==> s.tasks[current.task] == tasks[current.task].Value()
    {
      hide SemsAre, ListsAre;
    }

    // The record part of up_thread.
    method SetRunning(full: bool, ghost v: map<nat, Machine.Thread>)
      requires ThreadsAre(v) && Here()
      modifies current`status, current`count
      ensures current.tid in v
      ensures var t := v[current.tid].(status := Machine.RUNNING);
              ThreadsAre(v[current.tid := if full then t.(count := t.priority * 3) else t])
    {
      current.status := Machine.RUNNING;
      if full {
        current.count := current.priority * 3;
      }
    }

    // up_thread, and the new time slice of do_switch.
    method UpThread(regs: Registers.Frame, ghost s: Machine.State) returns (next: Registers.Frame)
      requires Holds(s) && Here()
      modifies current`status, current`count
      ensures s.current in s.threads && Holds(Machine.UpThread(s, regs).s) && next == Machine.UpThread(s, regs).regs
    {
      hide ThreadsAre, ListsAre, TasksAre, SemsAre, Nodes;
      NodesAllocated(signals.shape);
      CurrentIs(s);
      var pgd, level := idlePgd, -1;
      if current.task in tasks {
        pgd, level := tasks[current.task].pgd, tasks[current.task].level;
      }
      next := Registers.LoadFrame(regs, current.regs, pgd);
      SetRunning(level == 1, s.threads);
    }

    // The next thread becomes the current one.
    method TakeNext(ghost d: Machine.State)
      requires Holds(d)
      modifies this`current, level0, (set i | 0 <= i < |level0.nodes| :: level0.nodes[i])`freeNext
      ensures Here() && Holds(Machine.Dispatch(d)) && threads == old(threads)
    {
      hide ThreadsAre, ListsAre, TasksAre, SemsAre, Nodes;
      NodesAllocated(signals.shape);
      IdleHere(d);
      current := GetNextRunThread(d);
    }

    // do_switch
    method DoSwitch(regs: Registers.Frame, ghost s: Machine.State) returns (next: Registers.Frame)
      requires Holds(s) && Here() && Machine.Mid(s)
      modifies this`threads, this`current, ThreadObjs(), level0
      ensures Here() && ThreadObjs() <= old(ThreadObjs())
      ensures s.current in s.threads && Machine.Dispatch(Machine.DownThread(s, regs)).current in
              Machine.DownThread(s, regs).threads
      ensures Holds(Machine.DoSwitch(s, regs).s) && next == Machine.DoSwitch(s, regs).regs
    {
      hide ThreadsAre, ListsAre, TasksAre, SemsAre, Nodes, Machine.Mid, Machine.DownThread, Machine.UpThread,
           Machine.Inv;
      NodesAllocated(signals.shape);
      NodesIn(s.ready, s.ready1);
      CurrentIs(s);
      Machine.DecisionKeeps(s, regs);
      DownThread(regs, s);
      ghost var d := Machine.DownThread(s, regs);
      NodesIn(d.ready, d.ready1);
      TakeNext(d);
      next := UpThread(regs, Machine.Dispatch(d));
    }

    lemma IdleHere(s: Machine.State)
      requires ThreadsAre(s.threads)
      ensures idle.tid in threads && threads[idle.tid] == idle
    {
    }

    // after_syscall
    method AfterSyscall(regs: Registers.Frame, ghost s: Machine.State) returns (next: Registers.Frame)
      requires Holds(s) && Here() && Machine.Mid(s)
      modifies this`threads, this`current, ThreadObjs(), level0
      ensures Here() && ThreadObjs() <= old(ThreadObjs())
      ensures s.current in s.threads && Machine.Dispatch(Machine.DownThread(s, regs)).current in
              Machine.DownThread(s, regs).threads
      ensures Holds(Machine.AfterSyscall(s, regs).s) && next == Machine.AfterSyscall(s, regs).regs
    {
      hide *;
      CurrentIs(s);
      Machine.DecisionKeeps(s, regs);
      ShouldSwitchIs(s);
      next := regs;
      if ShouldSwitch() {
        next := DoSwitch(regs, s);
      }
      DecisionIs(s, regs);
    }

    // ----- The semaphores

    // The tree part of __up_signal.
    method RaiseSignal(id: nat, ghost v: map<nat, Semaphores.Semaphore>) returns (woken: Wake)
      requires SemsAre(v) && id in v && !Semaphores.Up(v[id]).Stuck?
      modifies Records(signals.shape)
      ensures SemsAre(v[id := Semaphores.Up(v[id]).s])
      ensures woken == if Semaphores.Up(v[id]).Woke? then Wakes(Semaphores.Up(v[id]).thread) else Nobody
    {
      hide SignalTable.Valid, SignalTable.View, Semaphores.Up, Nodes;
      NodesAllocated(signals.shape);
      signals.Found(id);
      woken := signals.UpSignal(id);
    }

    // The tree part of __down_signal.
    method LowerSignal(id: nat, caller: nat, ghost v: map<nat, Semaphores.Semaphore>) returns (sleeps: bool)
      requires SemsAre(v) && id in v
      modifies Records(signals.shape)
      ensures SemsAre(v[id := Semaphores.Down(v[id], caller)]) && sleeps == Semaphores.Blocks(v[id])
    {
      hide SignalTable.Valid, SignalTable.View, Semaphores.Down, Nodes;
      NodesAllocated(signals.shape);
      signals.Found(id);
      sleeps := signals.DownSignal(id, caller);
    }

    // __up_signal: the thread at the head of the wait queue, if one is owed, is there and becomes ready.
    method UpSignal(id: nat, ghost s: Machine.State)
      requires Holds(s) && Machine.Inv(s) && id in s.sems
      modifies Records(signals.shape), ThreadObjs(), level0
      ensures s.current in s.threads && Holds(Machine.Body(s, Machine.UpSignal(id), 0).0)
    {
      hide ThreadsAre, ListsAre, TasksAre, SemsAre, Nodes, Machine.Wake, Machine.Inv, Semaphores.Up;
      NodesAllocated(signals.shape);
      NodesIn(s.ready, s.ready1);
      Machine.UpKeeps(s, id);
      WokenFree(s, id);
      ghost var up := Semaphores.Up(s.sems[id]);
      var woken := RaiseSignal(id, s.sems);
      match woken
      case Nobody =>
      case Wakes(tid) =>
        RecordHere(tid, s.threads);
        Wake(threads[tid], s.(sems := s.sems[id := up.s]));
    }

    lemma WokenFree(s: Machine.State, id: nat)
      requires Machine.Inv(s) && id in s.sems
      ensures s.current in s.threads
      ensures Semaphores.Up(s.sems[id]).Woke? ==>
                Semaphores.Up(s.sems[id]).thread in s.threads && Semaphores.Up(s.sems[id]).thread !in s.ready
    {
      hide Machine.Mails, Machine.Covered, Machine.Tasks;
      Machine.UpKeeps(s, id);
      var up := Semaphores.Up(s.sems[id]);
      if up.Woke? { assert Machine.Waits(s, id, up.thread); }
    }

    lemma RecordHere(tid: nat, v: map<nat, Machine.Thread>)
      requires ThreadsAre(v) && (tid in v || tid in threads)
      ensures tid in v && tid in threads && threads[tid].tid == tid && threads[tid] in ThreadObjs()
              && v[tid] == threads[tid].Value()
    {
    }

    // __down_signal: a thread that must wait is in the queue already when its status changes.
    method DownSignal(id: nat, ghost s: Machine.State)
      requires Holds(s) && Here() && id in s.sems
      modifies Records(signals.shape), current`status
      ensures s.current in s.threads && Holds(Machine.Body(s, Machine.DownSignal(id), 0).0)
    {
      hide ThreadsAre, ListsAre, TasksAre, SemsAre, Nodes, Semaphores.Down, Semaphores.Blocks;
      NodesAllocated(signals.shape);
      CurrentIs(s);
      var sleeps := LowerSignal(id, current.tid, s.sems);
      if sleeps {
        SetStatus(current, Machine.WAITING, s.threads);
      }
    }

    // __create_signal
    method CreateSignal(max: int, value: int, soft: bool, ghost s: Machine.State) returns (id: nat)
      requires Holds(s) && Here()
      modifies signals, Nodes(signals.shape)
      ensures id == old(signals.nextId) && s.current in s.threads
      ensures Holds(Machine.Body(s, Machine.CreateSignal(id, max, value, soft), 0).0)
      ensures fresh(Nodes(signals.shape) - old(Nodes(signals.shape)))
      ensures fresh(Records(signals.shape) - old(Records(signals.shape)))
    {
      hide ThreadsAre, ListsAre, TasksAre, SignalTable.Valid, SignalTable.View, Nodes;
      NodesAllocated(signals.shape);
      CurrentIs(s);
      ghost var node;
      id, node := signals.CreateSignal(max, value, soft);
    }

    // ----- The mailboxes

    // The memory is no mailbox ring but perhaps that of these tasks.
    ghost predicate Elsewhere(user: array<Byte>, pids: set<int>)
      reads this`tasks, set p | p in tasks :: tasks[p].box
    {
      forall p <- tasks :: p !in pids ==> tasks[p].box.mail != user
    }

    lemma TaskHere(p: int, v: map<int, Machine.Task>)
      requires TasksAre(v) && p in v
      ensures p in tasks && tasks[p].Sound(p) && v[p] == tasks[p].Value() && Handled(threads, tasks[p].handler)
      ensures tasks[p].box.Valid() && tasks[p].box.used == Machine.Used(v[p]) && v[p].queue == tasks[p].box.queue
      ensures v[p].size == tasks[p].box.mail.Length && v[p].allow == tasks[p].box.allow
    {
    }

    // What a change of one task's mailbox leaves alone.
    lemma OthersHere(p: int, v: map<int, Machine.Task>)
      requires TasksAre(v) && p in v
      ensures forall q <- tasks :: q != p ==>
                && tasks[q].Value() == v[q] && tasks[q].Sound(q) && Handled(threads, tasks[q].handler)
                && tasks[q] != tasks[p] && tasks[q].box != tasks[p].box && tasks[q].box.mail != tasks[p].box.mail
      ensures v.Keys == tasks.Keys
      ensures forall q, r | q in tasks && r in tasks && q != r ::
                tasks[q].box != tasks[r].box && tasks[q].box.mail != tasks[r].box.mail
    {
    }

    // Only the mailbox of one task has changed.
    lemma TaskIs(p: int, v: map<int, Machine.Task>, t: Machine.Task)
      requires p in v && v.Keys == tasks.Keys && tasks[p].pid == p && tasks[p].box.Valid()
               && (tasks[p].mapped <==> tasks[p].handler != null)
      requires Handled(threads, tasks[p].handler) && t == tasks[p].Value()
      requires forall q <- tasks :: q != p ==>
                                    tasks[q].Value() == v[q] && tasks[q].Sound(q) && Handled(threads, tasks[q].handler)
      requires forall q, r | q in tasks && r in tasks && q != r ::
               tasks[q].box != tasks[r].box && tasks[q].box.mail != tasks[r].box.mail
      ensures TasksAre(v[p := t])
    {
    }

    lemma RoomIs(p: int, size: nat, v: map<int, Machine.Task>)
      requires TasksAre(v) && p in v
      ensures p in tasks && tasks[p].box.HasRoom(size) == Machine.HasRoom(v[p], size)
    {
      TaskHere(p, v);
    }

    // set_allow, on the caller's record.
    method Allow(p: int, pid: int, ghost v: map<int, Machine.Task>)
      requires TasksAre(v) && p in v && p in tasks
      modifies tasks[p].box`allow
      ensures TasksAre(v[p := v[p].(allow := pid)])
    {
      hide TaskInfo.Sound, TaskInfo.Value, TasksAre, Handled, Elsewhere;
      tasks[p].Fields();
      TaskHere(p, v);
      OthersHere(p, v);
      tasks[p].box.allow := pid;
      tasks[p].Fields();
      TaskIs(p, v, tasks[p].Value());
    }

    // The ring part of __send_msg.
    method PutMessage(no: Byte, id: nat, body: seq<Byte>, dst: int, sender: int, ghost v: map<int, Machine.Task>)
      returns (ok: bool)
      requires TasksAre(v) && dst in v && dst in tasks && id < 0x1_0000 && |body| < 0x1_0000
      modifies tasks[dst].box, tasks[dst].box.mail
      ensures ok == (Machine.HasRoom(v[dst], |body|) && (v[dst].allow == sender || v[dst].allow == Mail.ANY_TASK))
      ensures var m := Machine.MessageOf(no, id, sender, body);
              TasksAre(if ok then v[dst := v[dst].(queue := v[dst].queue + [m])] else v)
      ensures tasks[dst].box.allow == v[dst].allow && Rings() == old(Rings()) && RingObjs() == old(RingObjs())
    {
      hide Mail.Mailbox.Valid, TaskInfo.Sound, TaskInfo.Value, Mail.Mailbox.HasRoom, Mail.Word, TasksAre, Handled,
           Elsewhere, Rings, RingSet;
      tasks[dst].Fields();
      TaskHere(dst, v);
      OthersHere(dst, v);
      RoomIs(dst, |body|, v);
      ghost var t := v[dst];
      ok := tasks[dst].box.SendMsg(0, no, id, body, sender);
      tasks[dst].Fields();
      TaskIs(dst, v, tasks[dst].Value());
      assert v[dst := v[dst]] == v;
    }

    // The ring part of dummy_send_msg.
    method PutKernelMessage(id: nat, body: seq<Byte>, dst: int, ghost v: map<int, Machine.Task>) returns (ok: bool)
      requires TasksAre(v) && dst in v && dst in tasks && id < 0x1_0000 && |body| < 0x1_0000
      modifies tasks[dst].box, tasks[dst].box.mail
      ensures ok == (Machine.HasRoom(v[dst], |body|) && (v[dst].allow == Mail.DUMMY_TASK || v[dst].allow < 0))
      ensures var m := Machine.MessageOf(3, id, Mail.DUMMY_TASK, body);
              TasksAre(if ok then v[dst := v[dst].(queue := v[dst].queue + [m])] else v)
      ensures Rings() == old(Rings()) && RingObjs() == old(RingObjs())
    {
      hide Mail.Mailbox.Valid, TaskInfo.Sound, TaskInfo.Value, Mail.Mailbox.HasRoom, Mail.Word, TasksAre, Handled,
           Elsewhere, Rings, RingSet;
      tasks[dst].Fields();
      TaskHere(dst, v);
      OthersHere(dst, v);
      RoomIs(dst, |body|, v);
      ghost var t := v[dst];
      ok := tasks[dst].box.DummySendMsg(0, 3, id, body);
      tasks[dst].Fields();
      TaskIs(dst, v, tasks[dst].Value());
      assert v[dst := v[dst]] == v;
    }

    lemma OldestFits(p: int, v: map<int, Machine.Task>)
      requires TasksAre(v) && p in v && v[p].queue != []
      ensures v[p].queue[0].pack.length == |v[p].queue[0].body|
    {
      TaskHere(p, v);
      assert Mail.Proper(tasks[p].box.queue[0]);
    }

    // __recv_msg on the caller's ring.
    method GetMessage(p: int, dst: array<Byte>, ghost v: map<int, Machine.Task>) returns (pack: Mail.Pack)
      requires TasksAre(v) && p in v && p in tasks && Elsewhere(dst, {})
               && (v[p].queue != [] ==> |v[p].queue[0].body| <= dst.Length)
      modifies tasks[p].box, dst
      ensures pack == if v[p].queue == [] then Mail.NOTHING else v[p].queue[0].pack
      ensures TasksAre(if v[p].queue == [] then v else v[p := v[p].(queue := v[p].queue[1..])])
      ensures v[p].queue != [] ==> pack.length == |v[p].queue[0].body|
      ensures v[p].queue != [] ==> dst[..pack.length] == v[p].queue[0].body
                                   && dst[pack.length..] == old(dst[pack.length..])
      ensures v[p].queue == [] ==> dst[..] == old(dst[..])
      ensures Rings() == old(Rings()) && RingObjs() == old(RingObjs())
    {
      hide Mail.Mailbox.Valid, TaskInfo.Sound, TaskInfo.Value, TasksAre, Handled, Rings, RingSet;
      tasks[p].Fields();
      TaskHere(p, v);
      OthersHere(p, v);
      if v[p].queue != [] { OldestFits(p, v); }
      pack := tasks[p].box.RecvMsg(dst);
      tasks[p].Fields();
      TaskIs(p, v, tasks[p].Value());
      assert v[p := v[p]] == v;
    }

    // __set_mailbuffer on the caller's record.
    method MapMail(p: int, buffer: array<Byte>, ghost v: map<int, Machine.Task>)
      requires TasksAre(v) && p in v && p in tasks && Elsewhere(buffer, {p}) && Here()
      modifies tasks[p], tasks[p].box
      ensures TasksAre(v[p := v[p].(mail := true, size := buffer.Length, queue := [], handler := current.tid)])
      ensures Rings() == old(Rings())[p := buffer] && RingObjs() <= old(RingObjs()) + {buffer}
    {
      hide Mail.Mailbox.Valid, TaskInfo.Sound, TaskInfo.Value, Rings, RingObjs, TasksAre, Handled;
      tasks[p].Fields();
      TaskHere(p, v);
      OthersHere(p, v);
      RingsHere();
      ghost var rings, mem := Rings(), RingObjs();
      tasks[p].box.SetMailbuffer(buffer);
      tasks[p].mapped, tasks[p].handler := true, current;
      tasks[p].Fields();
      TaskIs(p, v, tasks[p].Value());
      Remapped(rings, mem, p);
    }

    lemma RingsHere()
      ensures Rings().Keys == tasks.Keys
      ensures forall p <- tasks :: Rings()[p] == tasks[p].box.mail && Rings()[p] in RingObjs()
    {
    }

    // One task's ring is another one now.
    lemma Remapped(rings: map<int, array<Byte>>, mem: set<array<Byte>>, p: int)
      requires rings.Keys == tasks.Keys && p in tasks
      requires forall q <- tasks :: rings[q] in mem && (q != p ==> tasks[q].box.mail == rings[q])
      ensures Rings() == rings[p := tasks[p].box.mail] && RingObjs() <= mem + {tasks[p].box.mail}
    {
      assert forall q <- Rings() :: Rings()[q] == rings[p := tasks[p].box.mail][q];
    }

    ghost function TaskObjs(): set<TaskInfo>
      reads this`tasks
    {
      set p | p in tasks :: tasks[p]
    }

    ghost function BoxObjs(): set<Mail.Mailbox>
      reads this`tasks
    {
      set p | p in tasks :: tasks[p].box
    }

    // The ring of each task, and all rings.
    ghost function Rings(): map<int, array<Byte>>
      reads this`tasks, (set p | p in tasks :: tasks[p].box)`mail
    {
      map p | p in tasks :: tasks[p].box.mail
    }

    ghost function RingObjs(): set<array<Byte>>
      reads this`tasks, (set p | p in tasks :: tasks[p].box)`mail
    {
      RingSet(Rings())
    }

    // The message is in the ring: a handler that waits for one wakes up.
    method WakeHandler(dst: int, ghost s: Machine.State, ghost m: Mail.Message, wakes: bool)
      requires dst in s.tasks && dst in tasks
      requires Holds(s.(tasks := s.tasks[dst := s.tasks[dst].(queue := s.tasks[dst].queue + [m])]))
      requires s.tasks[dst].handler in s.threads && tasks[dst].handler != null
               && tasks[dst].handler.tid == s.tasks[dst].handler
      requires s.threads[s.tasks[dst].handler].status == Machine.WAITING_IPC ==> s.tasks[dst].handler !in s.ready
      modifies ThreadObjs(), level0
      ensures Holds(Machine.Deliver(s, dst, m, wakes))
    {
      hide ThreadsAre, ListsAre, TasksAre, SemsAre, Nodes, Machine.Wake;
      NodesAllocated(signals.shape);
      NodesIn(s.ready, s.ready1);
      RecordHere(s.tasks[dst].handler, s.threads);
      HandlerIs(dst, s.tasks[dst := s.tasks[dst].(queue := s.tasks[dst].queue + [m])]);
      if tasks[dst].handler.status == Machine.WAITING_IPC && wakes {
        Wake(tasks[dst].handler, s.(tasks := s.tasks[dst := s.tasks[dst].(queue := s.tasks[dst].queue + [m])]));
      }
    }

    lemma HandlerIs(p: int, v: map<int, Machine.Task>)
      requires TasksAre(v) && p in v
      ensures p in tasks && Handled(threads, tasks[p].handler) && (v[p].mail <==> tasks[p].handler != null)
      ensures tasks[p].handler != null ==> tasks[p].handler.tid == v[p].handler
    {
      TaskHere(p, v);
    }

    // __send_msg
    method SendMsg(no: Byte, id: nat, body: seq<Byte>, dst: int, ghost s: Machine.State) returns (ok: bool)
      requires Holds(s) && Here() && Machine.Inv(s) && Machine.Allowed(s, Machine.Send(no, id, body, dst))
      modifies ThreadObjs(), level0, BoxObjs(), RingObjs()
      ensures s.current in s.threads && ok == Machine.SendAccepted(s, dst, |body|)
      ensures Here() && threads == old(threads) && Rings() == old(Rings()) && RingObjs() == old(RingObjs())
      ensures ok ==> s.tasks[dst].handler in s.threads
      ensures Holds(Machine.Body(s, Machine.Send(no, id, body, dst), 0).0)
    {
      hide Rings, RingObjs, BoxObjs, Holds, ThreadsAre, ListsAre, TasksAre, SemsAre, Nodes, Machine.Inv,
           Machine.Deliver, Machine.HasRoom, Machine.MessageOf, Machine.Body;
      CurrentIs(s);
      ReadyNodes(s);
      SendIs(s, no, id, body, dst);
      Receiver(s, dst, |body|);
      ok := false;
      if dst in tasks {
        ok := StoreMessage(no, id, body, dst, current.task, s);
        if ok {
          ghost var m := Machine.MessageOf(no, id, current.task, body);
          WakeHandler(dst, s, m, tasks[dst].box.allow != Mail.DUMMY_TASK);
        }
      }
    }

    // dummy_send_msg, as normal_irq_handler calls it.
    method DummySendMsg(id: nat, body: seq<Byte>, dst: int, ghost s: Machine.State) returns (ok: bool)
      requires Holds(s) && Here() && Machine.Inv(s) && Machine.Allowed(s, Machine.Irq(id, body, dst))
      modifies ThreadObjs(), level0, BoxObjs(), RingObjs()
      ensures s.current in s.threads && ok == Machine.IrqAccepted(s, dst, |body|)
      ensures Here() && threads == old(threads) && Rings() == old(Rings()) && RingObjs() == old(RingObjs())
      ensures Holds(Machine.Body(s, Machine.Irq(id, body, dst), 0).0)
    {
      hide Rings, RingObjs, BoxObjs, Holds, ThreadsAre, ListsAre, TasksAre, SemsAre, Nodes, Machine.Inv,
           Machine.Deliver, Machine.HasRoom, Machine.MessageOf, Machine.Body;
      CurrentIs(s);
      ReadyNodes(s);
      IrqIs(s, id, body, dst);
      Receiver(s, dst, |body|);
      ok := false;
      if dst in tasks {
        ok := StoreKernelMessage(id, body, dst, s);
        if ok {
          WakeHandler(dst, s, Machine.MessageOf(3, id, Mail.DUMMY_TASK, body), true);
        }
      }
    }

    // A receiver with room for a message has a handler, and one that sleeps is in no list.
    lemma Receiver(s: Machine.State, dst: int, size: nat)
      requires Holds(s) && Machine.Inv(s)
      ensures dst in s.tasks <==> dst in tasks
      ensures dst in s.tasks && Machine.HasRoom(s.tasks[dst], size) ==>
                && s.tasks[dst].handler in s.threads && tasks[dst].handler != null
                && tasks[dst].handler.tid == s.tasks[dst].handler
                && (s.threads[s.tasks[dst].handler].status == Machine.WAITING_IPC ==> s.tasks[dst].handler !in s.ready)
    {
      hide ThreadsAre, ListsAre, TasksAre, SemsAre, Machine.HasRoom, Machine.Inv;
      TaskKeys(s.tasks);
      if dst in s.tasks {
        HandlerThere(s, dst, size);
        HandlerIs(dst, s.tasks);
      }
    }

    method StoreMessage(no: Byte, id: nat, body: seq<Byte>, dst: int, sender: int, ghost s: Machine.State)
      returns (ok: bool)
      requires Holds(s) && Here() && dst in s.tasks && dst in tasks && id < 0x1_0000 && |body| < 0x1_0000
      modifies tasks[dst].box, tasks[dst].box.mail
      ensures ok == (Machine.HasRoom(s.tasks[dst], |body|)
              && (s.tasks[dst].allow == sender || s.tasks[dst].allow == Mail.ANY_TASK))
      ensures var m := Machine.MessageOf(no, id, sender, body);
              ok ==> Holds(s.(tasks := s.tasks[dst := s.tasks[dst].(queue := s.tasks[dst].queue + [m])]))
      ensures !ok ==> Holds(s)
      ensures tasks[dst].box.allow == s.tasks[dst].allow && Rings() == old(Rings()) && RingObjs() == old(RingObjs())
    {
      hide ThreadsAre, ListsAre, TasksAre, SemsAre, Nodes, Machine.HasRoom, Machine.MessageOf;
      NodesAllocated(signals.shape);
      ok := PutMessage(no, id, body, dst, sender, s.tasks);
    }

    method StoreKernelMessage(id: nat, body: seq<Byte>, dst: int, ghost s: Machine.State) returns (ok: bool)
      requires Holds(s) && Here() && dst in s.tasks && dst in tasks && id < 0x1_0000 && |body| < 0x1_0000
      modifies tasks[dst].box, tasks[dst].box.mail
      ensures ok == (Machine.HasRoom(s.tasks[dst], |body|)
              && (s.tasks[dst].allow == Mail.DUMMY_TASK || s.tasks[dst].allow < 0))
      ensures var m := Machine.MessageOf(3, id, Mail.DUMMY_TASK, body);
              ok ==> Holds(s.(tasks := s.tasks[dst := s.tasks[dst].(queue := s.tasks[dst].queue + [m])]))
      ensures !ok ==> Holds(s)
      ensures Rings() == old(Rings()) && RingObjs() == old(RingObjs())
    {
      hide ThreadsAre, ListsAre, TasksAre, SemsAre, Nodes, Machine.HasRoom, Machine.MessageOf;
      NodesAllocated(signals.shape);
      ok := PutKernelMessage(id, body, dst, s.tasks);
    }

    lemma TaskKeys(v: map<int, Machine.Task>)
      requires TasksAre(v)
      ensures v.Keys == tasks.Keys
      ensures forall p <- tasks :: v[p].allow == tasks[p].box.allow
    {
    }

    // __check_ipc
    method CheckIpc(ghost s: Machine.State)
      requires Holds(s) && Here() && current.task in tasks
      modifies current`status
      ensures s.current in s.threads && Holds(Machine.Body(s, Machine.CheckIpc, 0).0)
    {
      hide ThreadsAre, ListsAre, TasksAre, SemsAre, Nodes, Machine.Used;
      NodesAllocated(signals.shape);
      CurrentIs(s);
      TaskHere(current.task, s.tasks);
      if !tasks[current.task].mapped {
        return;
      }
      if tasks[current.task].box.used > 0 {
        return;
      }
      SetStatus(current, Machine.WAITING_IPC, s.threads);
    }

    // __set_allow
    method SetAllow(pid: int, ghost s: Machine.State)
      requires Holds(s) && Here() && current.task in tasks
      modifies tasks[current.task].box`allow
      ensures s.current in s.threads && Holds(Machine.Body(s, Machine.SetAllow(pid), 0).0)
    {
      hide ThreadsAre, ListsAre, TasksAre, SemsAre, Nodes;
      NodesAllocated(signals.shape);
      CurrentIs(s);
      Allow(current.task, pid, s.tasks);
    }

    // __recv_msg
    method RecvMsg(dst: array<Byte>, ghost s: Machine.State) returns (pack: Mail.Pack)
      requires Holds(s) && Here() && current.task in tasks && s.current in s.threads && Fits(s, Machine.Recv, dst)
      modifies tasks[current.task].box, dst
      ensures Holds(Machine.Body(s, Machine.Recv, 0).0)
      ensures Machine.Header(pack) == Machine.Body(s, Machine.Recv, 0).1 && Received(s, dst[..], old(dst[..]))
      ensures Rings() == old(Rings()) && RingObjs() == old(RingObjs())
    {
      hide ThreadsAre, ListsAre, TasksAre, SemsAre, Nodes, Machine.Header;
      NodesAllocated(signals.shape);
      CurrentIs(s);
      pack := GetMessage(current.task, dst, s.tasks);
    }

    // __set_mailbuffer
    method SetMailbuffer(buffer: array<Byte>, size: nat, ghost s: Machine.State)
      requires Holds(s) && Here() && current.task in tasks && s.current in s.threads
               && Fits(s, Machine.SetMailbuffer(size), buffer)
      modifies tasks[current.task], tasks[current.task].box
      ensures Holds(Machine.Body(s, Machine.SetMailbuffer(size), 0).0) && Here()
      ensures Rings() == old(Rings())[current.task := buffer] && RingObjs() <= old(RingObjs()) + {buffer}
    {
      hide ThreadsAre, ListsAre, TasksAre, SemsAre, Nodes;
      NodesAllocated(signals.shape);
      CurrentIs(s);
      MapMail(current.task, buffer, s.tasks);
    }

    // What the callers owe of the memory they pass: room for the message, or no ring of another task. The number of
    // a semaphore is the one the table hands out.
    ghost predicate Fits(s: Machine.State, e: Machine.Event, user: array<Byte>)
      requires s.current in s.threads
      reads this`tasks, signals`nextId, set p | p in tasks :: tasks[p].box
    {
      var me := Machine.Pid0(s);
      match e
      case Recv => Elsewhere(user, {}) && (me in s.tasks && s.tasks[me].queue != [] ==>
        |s.tasks[me].queue[0].body| <= user.Length)
      case SetMailbuffer(size) => user.Length == size && Elsewhere(user, {me})
      case CreateSignal(id, _, _, _) => id == signals.nextId
      case _ => true
    }

    // ----- Creation

    lemma TaskEntry(p: int, v: map<int, Machine.Task>)
      requires TasksAre(v)
      ensures p in tasks <==> p in v
      ensures p in tasks ==> v[p].priority == tasks[p].priority
    {
    }

    // create_thread_info, and the new thread into the ready list.
    method CreateThread(tid: nat, pid: int, entry: Registers.Saved, ghost s: Machine.State)
      requires Holds(s) && Here() && pid in tasks && tid !in s.threads
      modifies this`threads, level0, (set i | 0 <= i < |level0.nodes| :: level0.nodes[i])`freeNext
      ensures pid in s.tasks && Holds(Machine.NewThread(s, tid, pid, entry)) && Here()
      ensures fresh(ThreadObjs() - old(ThreadObjs()))
      ensures TaskObjs() == old(TaskObjs()) && BoxObjs() == old(BoxObjs()) && RingObjs() == old(RingObjs())
      ensures Rings() == old(Rings())
    {
      hide *;
      TaskThere(pid, s);
      var thread := NewRecord(tid, pid, tasks[pid].priority, entry, s);
      NewThreadIs(s, tid, pid, entry);
      Add(thread, s);
      Submit(thread, s.(threads := s.threads[tid := thread.Value()]));
    }

    lemma TaskThere(pid: int, s: Machine.State)
      requires Holds(s)
      ensures pid in tasks <==> pid in s.tasks
      ensures pid in tasks ==> s.tasks[pid].priority == tasks[pid].priority
    {
      TaskEntry(pid, s.tasks);
    }

    // What is newly allocated changes nothing that is there.
    method NewRecord(tid: nat, pid: int, priority: int, entry: Registers.Saved, ghost s: Machine.State)
      returns (t: ThreadInfo)
      requires Holds(s) && Here()
      ensures Holds(s) && Here() && fresh(t) && t.tid == tid
      ensures t.Value() == Machine.Thread(pid, Machine.SUBBMITED, entry, priority * 3, priority)
    {
      hide ThreadsAre, ListsAre, TasksAre, SemsAre, Nodes;
      NodesAllocated(signals.shape);
      t := new ThreadInfo(tid, pid, priority, entry);
    }

    method NewTask(pid: int, level: int, priority: int, pgd: int, ghost s: Machine.State) returns (t: TaskInfo)
      requires Holds(s) && Here()
      ensures Holds(s) && Here() && fresh(t) && fresh(t.box) && fresh(t.box.mail) && t.pid == pid && t.Sound(pid)
      ensures t.handler == null && t.Value() == Machine.Task(level, priority, pgd, false, 0, [], Mail.NULL_TASK, 0)
      ensures forall p <- tasks :: tasks[p].box != t.box && tasks[p].box.mail != t.box.mail
    {
      hide ThreadsAre, ListsAre, TasksAre, SemsAre, Nodes, TaskInfo.Sound;
      NodesAllocated(signals.shape);
      t := new TaskInfo(pid, level, priority, pgd);
    }

    method Submit(t: ThreadInfo, ghost s: Machine.State)
      requires Holds(s) && Here() && t.tid in threads && threads[t.tid] == t && t.tid !in s.ready
      modifies t`freeNext, level0, (set i | 0 <= i < |level0.nodes| :: level0.nodes[i])`freeNext
      ensures t.tid in s.threads && Holds(Machine.Enqueue(s, t.tid))
    {
      hide ThreadsAre, ListsAre, TasksAre, SemsAre, Nodes, Machine.Enqueue;
      NodesAllocated(signals.shape);
      RecordHere(t.tid, s.threads);
      EnqueuedIs(s, t);
      Append(t, s.ready, s.ready1);
    }

    // The record is in the list of its task.
    method Add(t: ThreadInfo, ghost s: Machine.State)
      requires Holds(s) && Here() && t.tid !in s.threads
      modifies this`threads
      ensures Holds(s.(threads := s.threads[t.tid := t.Value()])) && Here() && t.tid !in s.ready
      ensures threads == old(threads)[t.tid := t] && ThreadObjs() <= old(ThreadObjs()) + {t}
    {
      hide SemsAre, LevelList.Valid, RecordsAre, TasksFor, Lists, Chain, Tids;
      NodesAllocated(signals.shape);
      FreshTid(t, s);
      threads := threads[t.tid := t];
    }

    lemma FreshTid(t: ThreadInfo, s: Machine.State)
      requires Holds(s) && Here() && t.tid !in s.threads
      ensures t.tid !in threads && t.tid != idle.tid && t.tid !in s.ready
      ensures RecordsAre(threads[t.tid := t], s.threads[t.tid := t.Value()])
      ensures Lists(threads[t.tid := t], level0.nodes) && TasksFor(threads[t.tid := t], tasks, s.tasks)
    {
      hide SemsAre, LevelList.Valid;
    }

    // create_task
    method CreateTask(pid: int, tid: nat, level: int, priority: int, pgd: int, entry: Registers.Saved,
                      ghost s: Machine.State)
      requires Holds(s) && Here() && pid !in s.tasks && tid !in s.threads
      modifies this`threads, this`tasks, level0, (set i | 0 <= i < |level0.nodes| :: level0.nodes[i])`freeNext
      ensures s.current in s.threads && Here()
      ensures Holds(Machine.Body(s, Machine.CreateTask(pid, tid, level, priority, pgd, entry), 0).0)
      ensures fresh(ThreadObjs() - old(ThreadObjs()))
      ensures fresh(TaskObjs() - old(TaskObjs())) && fresh(BoxObjs() - old(BoxObjs()))
      ensures fresh(RingObjs() - old(RingObjs()))
      ensures pid in tasks && pid in Rings() && fresh(Rings()[pid]) && Rings() == old(Rings())[pid := Rings()[pid]]
    {
      hide *;
      CurrentIs(s);
      NewTaskIs(s, pid, tid, level, priority, pgd, entry);
      AddNewTask(pid, level, priority, pgd, s);
      label created:
      CreateThread(tid, pid, entry, s.(tasks :=
        s.tasks[pid := Machine.Task(level, priority, pgd, false, 0, [], Mail.NULL_TASK, 0)]));
      forall o | o in ThreadObjs() && o !in old(ThreadObjs()) ensures fresh(o) {
        assert fresh@created(o) by { assert o in ThreadObjs() - old@created(ThreadObjs()); }
      }
    }

    // __create_task, without its thread.
    method AddNewTask(pid: int, level: int, priority: int, pgd: int, ghost s: Machine.State)
      requires Holds(s) && Here() && pid !in s.tasks
      modifies this`tasks
      ensures Holds(s.(tasks := s.tasks[pid := Machine.Task(level, priority, pgd, false, 0, [], Mail.NULL_TASK, 0)]))
              && Here()
      ensures pid in tasks && ThreadObjs() == old(ThreadObjs())
      ensures fresh(TaskObjs() - old(TaskObjs())) && fresh(BoxObjs() - old(BoxObjs()))
      ensures fresh(RingObjs() - old(RingObjs()))
      ensures pid in Rings() && fresh(Rings()[pid]) && Rings() == old(Rings())[pid := Rings()[pid]]
    {
      hide Holds, TaskObjs, BoxObjs, RingObjs, Rings, TaskInfo.Sound;
      TaskEntries(pid, s);
      ghost var was, boxes, rings, objs, mem := tasks, BoxObjs(), Rings(), TaskObjs(), RingObjs();
      var task := NewTask(pid, level, priority, pgd, s);
      AddTask(task, s);
      GrownBy(was, task, objs, boxes, mem, rings);
    }

    lemma TaskEntries(pid: int, s: Machine.State)
      requires Holds(s) && pid !in s.tasks
      ensures pid !in tasks && Rings().Keys == tasks.Keys
      ensures forall p <- tasks ::
                && tasks[p] in TaskObjs() && tasks[p].box in BoxObjs()
                && Rings()[p] == tasks[p].box.mail && Rings()[p] in RingObjs()
    {
      TaskKeys(s.tasks);
    }

    lemma GrownBy(was: map<int, TaskInfo>, task: TaskInfo, objs: set<TaskInfo>, boxes: set<Mail.Mailbox>,
                  mem: set<array<Byte>>, rings: map<int, array<Byte>>)
      requires tasks == was[task.pid := task] && task.pid !in was && rings.Keys == was.Keys
      requires forall p <- was :: was[p] in objs && was[p].box in boxes && rings[p] == was[p].box.mail
                                  && rings[p] in mem
      ensures TaskObjs() <= objs + {task} && BoxObjs() <= boxes + {task.box} && RingObjs() <= mem + {task.box.mail}
      ensures Rings() == rings[task.pid := task.box.mail]
    {
      assert Rings().Keys == was.Keys + {task.pid};
      assert forall p <- Rings() :: Rings()[p] == rings[task.pid := task.box.mail][p];
    }

    // add_task
    method AddTask(task: TaskInfo, ghost s: Machine.State)
      requires Holds(s) && Here() && task.pid !in s.tasks && task.Sound(task.pid) && task.handler == null
      requires forall p <- tasks :: tasks[p].box != task.box && tasks[p].box.mail != task.box.mail
      modifies this`tasks
      ensures Holds(s.(tasks := s.tasks[task.pid := task.Value()])) && Here() && tasks == old(tasks)[task.pid := task]
    {
      hide ThreadsAre, ListsAre, SemsAre, Nodes, TasksFor;
      NodesAllocated(signals.shape);
      TasksWith(threads, tasks, s.tasks, task);
      tasks := tasks[task.pid := task];
    }

    // __exit_thread, and what an exception does to a thread.
    method End(status: Machine.Status, ghost s: Machine.State)
      requires Holds(s) && Here()
      modifies current`status
      ensures s.current in s.threads && Holds(Machine.Ended(s, status))
    {
      hide ThreadsAre, ListsAre, TasksAre, SemsAre, Nodes;
      NodesAllocated(signals.shape);
      CurrentIs(s);
      SetStatus(current, status, s.threads);
    }

    // ----- One system call or interrupt

    // The calls about mailboxes.
    method MailCall(e: Machine.Event, rax: int, user: array<Byte>, ghost s: Machine.State) returns (r: int)
      requires Holds(s) && Here() && Machine.Inv(s) && Machine.Allowed(s, e) && Fits(s, e, user) && Machine.OfMail(e)
      modifies ThreadObjs(), level0, TaskObjs(), BoxObjs(), RingObjs(), user
      ensures s.current in s.threads && Holds(Machine.Body(s, e, rax).0) && r == Machine.Body(s, e, rax).1 && Here()
      ensures RingsFollow(old(Rings()), s, e, user, Rings()) && RingObjs() <= old(RingObjs()) + {user}
      ensures e.Recv? ==> Received(s, user[..], old(user[..]))
    {
      hide Holds, Here, ThreadsAre, ListsAre, TasksAre, SemsAre, Nodes, Rings, Fits, ThreadObjs, TaskObjs, BoxObjs,
           RingObjs, Received, Machine.Inv, Machine.Body, Machine.Allowed, Machine.SendAccepted, Machine.IrqAccepted,
           Machine.Header;
      ReadyNodes(s);
      Owed(s, e, user);
      Results(s, e, rax);
      match e
      case Send(no, id, body, dst) =>
        var ok := SendMsg(no, id, body, dst, s);
        r := if ok then 1 else 0;
      case Irq(id, body, dst) =>
        var ok := DummySendMsg(id, body, dst, s);
        r := rax;
      case CheckIpc =>
        CheckIpc(s);
        r := 0;
      case SetAllow(pid) =>
        SetAllow(pid, s);
        r := 0;
      case Recv =>
        var pack := RecvMsg(user, s);
        r := Machine.Header(pack);
      case SetMailbuffer(size) =>
        SetMailbuffer(user, size, s);
        r := 0;
    }

    // The calls about semaphores.
    method SignalCall(e: Machine.Event, user: array<Byte>, ghost s: Machine.State) returns (r: int)
      requires Holds(s) && Here() && Machine.Inv(s) && Machine.Allowed(s, e) && Fits(s, e, user)
      requires e.CreateSignal? || e.UpSignal? || e.DownSignal?
      modifies ThreadObjs(), level0, signals, Nodes(signals.shape), Records(signals.shape)
      ensures s.current in s.threads && Holds(Machine.Body(s, e, 0).0) && r == Machine.Body(s, e, 0).1 && Here()
      ensures fresh(Nodes(signals.shape) - old(Nodes(signals.shape)))
      ensures fresh(Records(signals.shape) - old(Records(signals.shape)))
    {
      hide *;
      NodesAllocated(signals.shape);
      ReadyNodes(s);
      Owed(s, e, user);
      Results(s, e, 0);
      r := 0;
      match e
      case CreateSignal(id, max, value, soft) => r := CreateSignal(max, value, soft, s);
      case UpSignal(id) => UpSignal(id, s);
      case DownSignal(id) => DownSignal(id, s);
    }

    // The end of a thread, by a call or by a fault.
    method EndCall(e: Machine.Event, rax: int, ghost s: Machine.State) returns (r: int)
      requires Holds(s) && Here() && Machine.Inv(s) && Machine.Allowed(s, e) && (e.ExitThread? || e.Fault?)
      modifies ThreadObjs()
      ensures s.current in s.threads && Holds(Machine.Body(s, e, rax).0) && r == Machine.Body(s, e, rax).1 && Here()
    {
      hide Holds, ThreadsAre, ListsAre, TasksAre, SemsAre, Machine.Inv, Machine.Body, Machine.Allowed, Machine.Ended;
      CurrentIs(s);
      Results(s, e, rax);
      End(if e.Fault? then Machine.EXCEPTION else Machine.TERMINATED, s);
      r := if e.Fault? then rax else 0;
    }

    // The making of a thread or a task.
    method MakeCall(e: Machine.Event, rax: int, user: array<Byte>, ghost s: Machine.State) returns (r: int)
      requires Holds(s) && Here() && Machine.Inv(s) && Machine.Allowed(s, e) && Fits(s, e, user)
      requires e.CreateThread? || e.CreateTask?
      modifies this`threads, this`tasks, ThreadObjs(), level0
      ensures s.current in s.threads && Holds(Machine.Body(s, e, rax).0) && r == Machine.Body(s, e, rax).1 && Here()
      ensures fresh(ThreadObjs() - old(ThreadObjs())) && fresh(TaskObjs() - old(TaskObjs()))
      ensures fresh(BoxObjs() - old(BoxObjs())) && fresh(RingObjs() - old(RingObjs()))
      ensures RingsFollow(old(Rings()), s, e, user, Rings())
      ensures e.CreateTask? ==> e.pid in Rings() && fresh(Rings()[e.pid])
    {
      hide Holds, Here, ThreadsAre, ListsAre, TasksAre, SemsAre, Nodes, Rings, Fits, ThreadObjs, TaskObjs, BoxObjs,
           RingObjs, Machine.Inv, Machine.Body, Machine.Allowed, Machine.NewThread;
      ReadyNodes(s);
      Owed(s, e, user);
      Results(s, e, rax);
      match e
      case CreateThread(tid, entry) =>
        CreateThread(tid, current.task, entry, s);
        r := tid;
      case CreateTask(pid, tid, level, priority, pgd, entry) =>
        CreateTask(pid, tid, level, priority, pgd, entry, s);
        r := rax;
    }

    // The dispatch of system calls, and the work of the other interrupts. What the kernel holds grows by new objects
    // and the memory it is passed only.
    method Syscall(e: Machine.Event, rax: int, user: array<Byte>, ghost s: Machine.State) returns (r: int)
      requires Holds(s) && Here() && Machine.Inv(s) && Machine.Allowed(s, e) && Fits(s, e, user)
      modifies this`threads, this`tasks, ThreadObjs(), level0, TaskObjs(), BoxObjs(), RingObjs(), user
      modifies signals, Nodes(signals.shape), Records(signals.shape)
      ensures s.current in s.threads && Holds(Machine.Body(s, e, rax).0) && r == Machine.Body(s, e, rax).1 && Here()
      ensures fresh(ThreadObjs() - old(ThreadObjs())) && fresh(TaskObjs() - old(TaskObjs()))
      ensures fresh(BoxObjs() - old(BoxObjs())) && fresh(RingObjs() - old(RingObjs()) - {user})
      ensures fresh(Nodes(signals.shape) - old(Nodes(signals.shape)))
      ensures fresh(Records(signals.shape) - old(Records(signals.shape)))
      ensures RingsFollow(old(Rings()), s, e, user, Rings())
      ensures e.CreateTask? ==> e.pid in Rings() && fresh(Rings()[e.pid])
      ensures e.Recv? ==> Received(s, user[..], old(user[..]))
    {
      hide *;
      NodesAllocated(signals.shape);
      Groups(s, e, rax);
      if !e.SetMailbuffer? && !e.CreateTask? { SameRings(Rings(), s, e, user); }
      if e.Tick? {
        r := rax;
      } else if e.CreateSignal? || e.UpSignal? || e.DownSignal? {
        r := SignalCall(e, user, s);
      } else if e.ExitThread? || e.Fault? {
        r := EndCall(e, rax, s);
      } else if e.CreateThread? || e.CreateTask? {
        r := MakeCall(e, rax, user, s);
      } else {
        r := MailCall(e, rax, user, s);
      }
    }

    lemma ReadyNodes(s: Machine.State)
      requires Holds(s) && Here()
      ensures forall i | 0 <= i < |level0.nodes| :: level0.nodes[i] in ThreadObjs()
      ensures current in ThreadObjs()
      ensures forall p <- tasks :: tasks[p] in TaskObjs() && tasks[p].box in BoxObjs()
                                   && tasks[p].box.mail in RingObjs()
    {
      NodesIn(s.ready, s.ready1);
      RingsHere();
    }

    lemma CurrentObj()
      requires Here()
      ensures current in ThreadObjs()
    {
    }

    // What the single calls need. Whoever makes a system call is not the idle thread, and has a task.
    lemma Owed(s: Machine.State, e: Machine.Event, user: array<Byte>)
      requires Holds(s) && Here() && Machine.Inv(s) && Machine.Allowed(s, e) && Fits(s, e, user)
      ensures s.current in s.threads && Machine.Pid0(s) == current.task
      ensures !e.Irq? && !e.Tick? ==> current.task in tasks && current.task in s.tasks
      ensures match e
              case UpSignal(id) => id in s.sems
              case DownSignal(id) => id in s.sems
              case CreateSignal(id, _, _, _) => id == signals.nextId
              case CreateThread(tid, _) => tid !in s.threads
              case CreateTask(pid, tid, _, _, _, _) => pid !in s.tasks && tid !in s.threads
              case _ => true
    {
      hide Machine.Listed, Machine.Covered, Machine.Mails, Machine.Settled, ListsAre, SemsAre;
      CurrentIs(s);
    }

    // The clock counts the slice of whichever thread runs now.
    method CountTick(ghost o: Machine.Outcome)
      requires Holds(o.s) && Here()
      modifies current`count
      ensures o.s.current in o.s.threads && Holds(Machine.CountTick(o).s)
    {
      hide ThreadsAre, ListsAre, TasksAre, SemsAre, Nodes;
      NodesAllocated(signals.shape);
      CurrentIs(o.s);
      if current.task in tasks && tasks[current.task].level == 1 {
        LowerCount(o.s.threads);
      }
    }

    method LowerCount(ghost v: map<nat, Machine.Thread>)
      requires ThreadsAre(v) && Here()
      modifies current`count
      ensures current.tid in v && ThreadsAre(v[current.tid := v[current.tid].(count := v[current.tid].count - 1)])
    {
      current.count := current.count - 1;
    }

    // What follows the call: the scheduling decision, and for the clock the count of the slice.
    method Decide(e: Machine.Event, regs: Registers.Frame, ghost b: Machine.State) returns (next: Registers.Frame)
      requires Holds(b) && Here() && Machine.Mid(b)
      modifies this`threads, this`current, ThreadObjs(), level0
      ensures Here() && ThreadObjs() <= old(ThreadObjs()) && b.current in b.threads
      ensures Machine.Dispatch(Machine.DownThread(b, regs)).current in Machine.DownThread(b, regs).threads
      ensures var o := Machine.AfterSyscall(b, regs);
              && next == o.regs && o.s.current in o.s.threads
              && Holds(if e.Tick? then Machine.CountTick(o).s else o.s)
      ensures TaskObjs() == old(TaskObjs()) && BoxObjs() == old(BoxObjs()) && RingObjs() == old(RingObjs())
      ensures Rings() == old(Rings()) && signals.shape == old(signals.shape)
    {
      hide *;
      Machine.DecisionKeeps(b, regs);
      next := AfterSyscall(regs, b);
      CurrentThere(Machine.AfterSyscall(b, regs).s);
      if e.Tick? {
        CurrentObj();
        CountTick(Machine.AfterSyscall(b, regs));
      }
    }

    lemma CurrentThere(s: Machine.State)
      requires Holds(s) && Here()
      ensures s.current in s.threads
    {
      CurrentIs(s);
    }

    // One whole step: the call or interrupt, and the scheduling decision. What the structures stand for makes the
    // step of the machine.
    method Interrupt(e: Machine.Event, regs: Registers.Frame, user: array<Byte>, ghost s: Machine.State)
      returns (next: Registers.Frame)
      requires Holds(s) && Here() && Machine.Inv(s) && Machine.Allowed(s, e) && Fits(s, e, user)
      modifies this, ThreadObjs(), level0, TaskObjs(), BoxObjs(), RingObjs(), user
      modifies signals, Nodes(signals.shape), Records(signals.shape)
      ensures Holds(Machine.Step(s, e, regs).s) && Here() && next == Machine.Step(s, e, regs).regs
      ensures Machine.Inv(Machine.Step(s, e, regs).s) && s.current in s.threads
      ensures fresh(ThreadObjs() - old(ThreadObjs())) && fresh(TaskObjs() - old(TaskObjs()))
      ensures fresh(BoxObjs() - old(BoxObjs())) && fresh(RingObjs() - old(RingObjs()) - {user})
      ensures fresh(Nodes(signals.shape) - old(Nodes(signals.shape)))
      ensures fresh(Records(signals.shape) - old(Records(signals.shape)))
      ensures RingsFollow(old(Rings()), s, e, user, Rings())
      ensures e.CreateTask? ==> e.pid in Rings() && fresh(Rings()[e.pid])
      ensures e.Recv? ==> Received(s, user[..], old(user[..]))
    {
      hide *;
      var rax := Syscall(e, regs.basic.rax, user, s);
      next := Finish(e, regs, rax, s);
    }

    // What follows the body of a call or interrupt makes the step whole.
    method Finish(e: Machine.Event, regs: Registers.Frame, rax: int, ghost s: Machine.State)
      returns (next: Registers.Frame)
      requires Machine.Inv(s) && Machine.Allowed(s, e) && s.current in s.threads && Here()
      requires Holds(Machine.Body(s, e, regs.basic.rax).0) && rax == Machine.Body(s, e, regs.basic.rax).1
      modifies this`threads, this`current, ThreadObjs(), level0
      ensures Holds(Machine.Step(s, e, regs).s) && Here() && next == Machine.Step(s, e, regs).regs
      ensures Machine.Inv(Machine.Step(s, e, regs).s) && ThreadObjs() <= old(ThreadObjs())
      ensures TaskObjs() == old(TaskObjs()) && BoxObjs() == old(BoxObjs()) && RingObjs() == old(RingObjs())
      ensures Rings() == old(Rings()) && signals.shape == old(signals.shape)
      ensures Nodes(signals.shape) == old(Nodes(signals.shape))
      ensures Records(signals.shape) == old(Records(signals.shape))
    {
      hide *;
      StepIs(s, e, regs);
      next := regs;
      if !e.Irq? && !e.CreateTask? {
        next := Decide(e, Registers.WithRax(regs, rax), Machine.Body(s, e, regs.basic.rax).0);
      }
    }

    // Any run of calls and interrupts: afterwards the structures stand for the state the machine's run ends in, and
    // the frames handed back are the machine's. "all" is all memory the calls pass.
    method Run(moves: seq<Machine.Move>, users: seq<array<Byte>>, ghost all: set<array<Byte>>,
               ghost rings: map<int, array<Byte>>, ghost s: Machine.State)
      returns (frames: seq<Registers.Frame>)
      requires Holds(s) && Here() && Machine.Inv(s) && Machine.CanRun(s, moves) && |users| == |moves|
      requires RunFits(s, rings, moves, users) && Agree(Rings(), rings, all) && forall user <- users :: user in all
      modifies this, ThreadObjs(), level0, TaskObjs(), BoxObjs(), RingObjs(), all
      modifies signals, Nodes(signals.shape), Records(signals.shape)
      ensures Holds(Machine.After(s, moves)) && Here() && Machine.Inv(Machine.After(s, moves))
      ensures frames == Machine.FramesOf(s, moves)
      decreases |moves|
    {
      hide *;
      if moves == [] {
        NoMoves(s, moves);
        frames := [];
      } else {
        FirstMove(s, rings, moves, users);
        var first := Serve(moves[0], users[0], all, rings, s);
        var rest := Run(moves[1..], users[1..], all, RingsAfter(rings, s, moves[0].e, users[0]),
                        Machine.Next(s, moves[0]).s);
        frames := [first] + rest;
      }
    }

    // One move of a run.
    method Serve(m: Machine.Move, user: array<Byte>, ghost all: set<array<Byte>>, ghost rings: map<int, array<Byte>>,
                 ghost s: Machine.State)
      returns (next: Registers.Frame)
      requires Holds(s) && Here() && Machine.Inv(s) && Machine.Allowed(s, m.e) && s.current in s.threads && user in all
      requires FitsIn(s, rings, m.e, user) && Agree(Rings(), rings, all)
      modifies this, ThreadObjs(), level0, TaskObjs(), BoxObjs(), RingObjs(), all
      modifies signals, Nodes(signals.shape), Records(signals.shape)
      ensures Holds(Machine.Step(s, m.e, m.regs).s) && Here() && next == Machine.Step(s, m.e, m.regs).regs
      ensures Agree(Rings(), RingsAfter(rings, s, m.e, user), all)
      ensures fresh(ThreadObjs() - old(ThreadObjs())) && fresh(TaskObjs() - old(TaskObjs()))
      ensures fresh(BoxObjs() - old(BoxObjs())) && fresh(RingObjs() - old(RingObjs()) - all)
      ensures fresh(Nodes(signals.shape) - old(Nodes(signals.shape)))
      ensures fresh(Records(signals.shape) - old(Records(signals.shape)))
    {
      hide *;
      FitsHere(s, rings, m.e, user, all);
      ghost var was := Rings();
      next := Interrupt(m.e, m.regs, user, s);
      AgreeAfter(was, Rings(), rings, s, m.e, user, all);
    }

    lemma NextNumber(v: map<nat, Semaphores.Semaphore>, id: nat)
      requires SemsAre(v) && forall j: nat :: j in v <==> j < id
      ensures id == signals.nextId
    {
      hide SignalTable.Valid, SignalTable.View;
      assert id in v <==> id < signals.nextId;
      assert signals.nextId in v <==> signals.nextId < id;
    }

    // What the run asks of the memory is what the call asks.
    lemma FitsHere(s: Machine.State, rings: map<int, array<Byte>>, e: Machine.Event, user: array<Byte>,
                   all: set<array<Byte>>)
      requires Holds(s) && Here() && Machine.Inv(s) && Machine.Allowed(s, e) && s.current in s.threads
      requires FitsIn(s, rings, e, user) && Agree(Rings(), rings, all) && user in all
      ensures Fits(s, e, user)
      ensures e.CreateTask? ==> e.pid !in Rings()
      ensures e.SetMailbuffer? ==> Machine.Pid0(s) in Rings()
    {
      hide ThreadsAre, ListsAre, TasksAre, SignalTable.Valid, SignalTable.View, Machine.Listed, Machine.Covered,
           Machine.Mails, Machine.Settled;
      TaskKeys(s.tasks);
      RingsHere();
      if e.CreateSignal? { NextNumber(s.sems, e.id); }
    }
  }

  // The first moves[0] passes memory that fits, and so do the others later on.
  ghost predicate RunFits(s: Machine.State, rings: map<int, array<Byte>>, moves: seq<Machine.Move>,
                          users: seq<array<Byte>>)
    requires Machine.Inv(s) && Machine.CanRun(s, moves) && |users| == |moves|
    decreases |moves|
  {
    hide Machine.Inv, Machine.Allowed, Machine.Next;
    Machine.StartOfStep(s);
    moves == [] ||
    (FitsIn(s, rings, moves[0].e, users[0]) &&
     RunFits(Machine.Next(s, moves[0]).s, RingsAfter(rings, s, moves[0].e, users[0]), moves[1..], users[1..]))
  }

  // The memory of one call: room for the message, no ring of another task; and semaphores are numbered in turn.
  ghost predicate FitsIn(s: Machine.State, rings: map<int, array<Byte>>, e: Machine.Event, user: array<Byte>)
    requires s.current in s.threads
  {
    var me := Machine.Pid0(s);
    match e
    case Recv =>
      && (forall p <- rings :: rings[p] != user)
      && (me in s.tasks && s.tasks[me].queue != [] ==> |s.tasks[me].queue[0].body| <= user.Length)
    case SetMailbuffer(size) => user.Length == size && forall p <- rings :: p != me ==> rings[p] != user
    case CreateSignal(id, _, _, _) => forall j: nat :: j in s.sems <==> j < id
    case _ => true
  }

  function RingsAfter(rings: map<int, array<Byte>>, s: Machine.State, e: Machine.Event, user: array<Byte>):
    map<int, array<Byte>>
    requires s.current in s.threads
  {
    if e.SetMailbuffer? then rings[Machine.Pid0(s) := user] else rings
  }

  // The rings are those, and any other one is none of the memory that is passed.
  ghost predicate Agree(now: map<int, array<Byte>>, rings: map<int, array<Byte>>, all: set<array<Byte>>)
  {
    rings.Keys <= now.Keys && forall p <- now :: if p in rings then now[p] == rings[p] else now[p] !in all
  }

  lemma AgreeAfter(was: map<int, array<Byte>>, now: map<int, array<Byte>>, rings: map<int, array<Byte>>,
                   s: Machine.State, e: Machine.Event, user: array<Byte>, all: set<array<Byte>>)
    requires s.current in s.threads && Agree(was, rings, all) && RingsFollow(was, s, e, user, now)
    requires e.CreateTask? ==> e.pid !in was && e.pid in now && now[e.pid] !in all
    requires e.SetMailbuffer? ==> Machine.Pid0(s) in was
    ensures Agree(now, RingsAfter(rings, s, e, user), all)
  {
  }

  lemma NoMoves(s: Machine.State, moves: seq<Machine.Move>)
    requires Machine.Inv(s) && moves == []
    ensures Machine.CanRun(s, moves) && Machine.After(s, moves) == s && Machine.FramesOf(s, moves) == []
  {
  }

  lemma FirstMove(s: Machine.State, rings: map<int, array<Byte>>, moves: seq<Machine.Move>, users: seq<array<Byte>>)
    requires Machine.Inv(s) && Machine.CanRun(s, moves) && |users| == |moves| && moves != []
    requires RunFits(s, rings, moves, users)
    ensures s.current in s.threads && Machine.Allowed(s, moves[0].e) && FitsIn(s, rings, moves[0].e, users[0])
    ensures var (o, rest) := (Machine.Next(s, moves[0]), moves[1..]);
            && Machine.Inv(o.s) && Machine.CanRun(o.s, rest) && o == Machine.Step(s, moves[0].e, moves[0].regs)
            && RunFits(o.s, RingsAfter(rings, s, moves[0].e, users[0]), rest, users[1..])
            && Machine.After(s, moves) == Machine.After(o.s, rest)
            && Machine.FramesOf(s, moves) == [o.regs] + Machine.FramesOf(o.s, rest)
  {
    hide Machine.Inv, Machine.Allowed, Machine.Step, FitsIn, RingsAfter;
    Machine.StartOfStep(s);
  }

  // A run from the start on that the callers keep to.
  ghost predicate Runnable(s: Machine.State, moves: seq<Machine.Move>, users: seq<array<Byte>>) {
    Machine.Inv(s) && Machine.CanRun(s, moves) && |users| == |moves| && RunFits(s, map[], moves, users)
  }

  lemma NothingPassed(now: map<int, array<Byte>>, all: set<array<Byte>>)
    requires forall p <- now :: now[p] !in all
    ensures Agree(now, map[], all)
  {
  }

  lemma RunsOn(s: Machine.State, moves: seq<Machine.Move>, users: seq<array<Byte>>)
    requires Runnable(s, moves, users)
    ensures Machine.Inv(s) && Machine.CanRun(s, moves) && |users| == |moves| && RunFits(s, map[], moves, users)
  {
  }

  // From the start of the kernel on: it is built, scheduling begins, and any run follows.
  method Boot(init: nat, empty: nat, pid: int, pgd: int, entry: Registers.Saved, spin: Registers.Saved,
              moves: seq<Machine.Move>, users: seq<array<Byte>>, ghost all: set<array<Byte>>)
    returns (k: Kernel, frames: seq<Registers.Frame>)
    requires init != empty && pid >= 0 && forall user <- users :: user in all
    requires Runnable(First(init, empty, pid, pgd, entry, spin), moves, users)
    modifies all
    ensures var s := First(init, empty, pid, pgd, entry, spin);
            && Machine.Inv(s) && Machine.CanRun(s, moves)
            && k.Here() && k.Holds(Machine.After(s, moves)) && frames == Machine.FramesOf(s, moves)
  {
    hide *;
    RunsOn(First(init, empty, pid, pgd, entry, spin), moves, users);
    k := new Kernel(init, empty, pid, pgd, entry, spin);
    k.Init(pid, pgd, entry, spin);
    k.RingsHere();
    NothingPassed(k.Rings(), all);
    frames := k.Run(moves, users, all, map[], First(init, empty, pid, pgd, entry, spin));
  }

  method NewRunning(tid: nat, task: int, entry: Registers.Saved) returns (t: ThreadInfo)
    ensures fresh(t) && t.tid == tid && t.task == task
            && t.Value() == Machine.Thread(task, Machine.RUNNING, entry, 3, 1)
  {
    t := new ThreadInfo(tid, task, 1, entry);
    t.status := Machine.RUNNING;
  }

  // A mailbox with room in it has a handler, and one that waits is in no list.
  lemma HandlerThere(s: Machine.State, dst: int, size: nat)
    requires Machine.Inv(s) && dst in s.tasks
    ensures Machine.HasRoom(s.tasks[dst], size) ==>
              && s.tasks[dst].mail && s.tasks[dst].handler in s.threads
              && (s.threads[s.tasks[dst].handler].status == Machine.WAITING_IPC ==> s.tasks[dst].handler !in s.ready)
  {
    assert Machine.MailSound(s, dst);
    var h := s.tasks[dst].handler;
    if s.tasks[dst].mail && s.threads[h].status == Machine.WAITING_IPC { Machine.NotQueued(s, h); }
  }

  lemma NewThreadIs(s: Machine.State, tid: nat, pid: int, entry: Registers.Saved)
    requires pid in s.tasks
    ensures var p := s.tasks[pid].priority;
            var u := s.(threads := s.threads[tid := Machine.Thread(pid, Machine.SUBBMITED, entry, p * 3, p)]);
            Machine.NewThread(s, tid, pid, entry) == Machine.Enqueue(u, tid)
  {
  }

  lemma NewTaskIs(s: Machine.State, pid: int, tid: nat, level: int, priority: int, pgd: int, entry: Registers.Saved)
    requires s.current in s.threads
    ensures var u := s.(tasks := s.tasks[pid := Machine.Task(level, priority, pgd, false, 0, [], Mail.NULL_TASK, 0)]);
            Machine.Body(s, Machine.CreateTask(pid, tid, level, priority, pgd, entry), 0).0 ==
              Machine.NewThread(u, tid, pid, entry)
  {
  }

  // Which calls are left for the mailboxes, and that a call of another kind touches no ring.
  lemma Groups(s: Machine.State, e: Machine.Event, rax: int)
    requires s.current in s.threads || Machine.Inv(s)
    ensures s.current in s.threads
    ensures e.Tick? ==> Machine.Body(s, e, rax) == (s, rax)
    ensures e.CreateSignal? || e.UpSignal? || e.DownSignal? ==> Machine.Body(s, e, rax) == Machine.Body(s, e, 0)
    ensures Machine.OfMail(e) || e.Tick? || e.CreateSignal? || e.UpSignal? || e.DownSignal? || e.CreateThread?
            || e.ExitThread? || e.Fault? || e.CreateTask?
  {
  }

  lemma SameRings(rings: map<int, array<Byte>>, s: Machine.State, e: Machine.Event, user: array<Byte>)
    requires !e.SetMailbuffer? && !e.CreateTask?
    ensures RingsFollow(rings, s, e, user, rings)
  {
  }

  ghost function RingSet(rings: map<int, array<Byte>>): set<array<Byte>> { set p <- rings :: rings[p] }

  // A task's ring changes only when it maps another one; a new task has one of its own.
  ghost predicate RingsFollow(was: map<int, array<Byte>>, s: Machine.State, e: Machine.Event, user: array<Byte>,
                              now: map<int, array<Byte>>)
  {
    match e
    case SetMailbuffer(_) => s.current in s.threads && now == was[Machine.Pid0(s) := user]
    case CreateTask(pid, _, _, _, _, _) => pid in now && now == was[pid := now[pid]]
    case _ => now == was
  }

  const MAIL_SIZE := 8192

  // What start_schedule starts from, and the same before set_mailbuffer.
  function First(init: nat, empty: nat, pid: int, pgd: int, entry: Registers.Saved,
                 spin: Registers.Saved): Machine.State {
    var s := Unscheduled(init, empty, pid, pgd, entry, spin);
    s.(scheduling := true, tasks := map[pid := s.tasks[pid].(mail := true, size := MAIL_SIZE, handler := init)])
  }

  function Unscheduled(init: nat, empty: nat, pid: int, pgd: int, entry: Registers.Saved,
                       spin: Registers.Saved): Machine.State {
    Machine.State(
      false,
      map[empty := Machine.Thread(Machine.EMPTY, Machine.SUBBMITED, spin, -3, -1),
          init := Machine.Thread(pid, Machine.RUNNING, entry, 3, 1)],
      map[pid := Machine.Task(0, 1, pgd, false, 0, [], Mail.NULL_TASK, 0)],
      [], [], init, empty, pgd, map[])
  }

  // The state in which scheduling starts: the first task at level 0 with priority 1 and an empty mailbox of 8192 bytes
  // that its thread handles, and nobody ready.
  lemma FirstState(init: nat, empty: nat, pid: int, pgd: int, entry: Registers.Saved, spin: Registers.Saved)
    requires init != empty && pid >= 0
    ensures Machine.Inv(First(init, empty, pid, pgd, entry, spin))
    ensures var s := First(init, empty, pid, pgd, entry, spin);
            && s.scheduling && s.threads.Keys == {init, empty} && s.tasks.Keys == {pid} && s.sems == map[]
            && s.current == init && s.idle == empty && s.ready == [] && s.ready1 == []
            && s.threads[init].task == pid && s.threads[init].status == Machine.RUNNING
            && s.threads[empty].task == -1 && s.threads[empty].regs == spin
            && s.tasks[pid].level == 0 && s.tasks[pid].priority == 1 && s.tasks[pid].pgd == pgd
            && s.tasks[pid].mail && s.tasks[pid].size == 8192 && s.tasks[pid].queue == []
            && s.tasks[pid].handler == init && s.tasks[pid].allow == 0
    ensures var s := Unscheduled(init, empty, pid, pgd, entry, spin);
            && s.current in s.threads
            && First(init, empty, pid, pgd, entry, spin) ==
               Machine.Body(s, Machine.SetMailbuffer(MAIL_SIZE), 0).0.(scheduling := true)
  {
    var s := First(init, empty, pid, pgd, entry, spin);
    forall p | p in s.tasks ensures Machine.MailSound(s, p) {}
  }

  // Where the priority fails: a level-1 task is made, then a level-0 task, and the first task goes to sleep on its
  // empty mailbox. The level-1 thread runs, and the level-0 thread stays ready behind it.
  lemma LevelZeroWaits(init: nat, empty: nat, pid: int, pgd: int, entry: Registers.Saved, spin: Registers.Saved,
                       low: Machine.Move, high: Machine.Move, check: Machine.Move)
    requires init != empty && pid >= 0
    requires low.e.CreateTask? && high.e.CreateTask? && check.e.CheckIpc?
    requires low.e.level == 1 && high.e.level == 0 && low.e.priority >= 1 && high.e.priority >= 1
    requires low.e.pid >= 0 && high.e.pid >= 0 && low.e.pid != high.e.pid && pid !in {low.e.pid, high.e.pid}
    requires low.e.tid != high.e.tid && {init, empty} !! {low.e.tid, high.e.tid}
    ensures var (s, moves) := (First(init, empty, pid, pgd, entry, spin), [low, high, check]);
            && Machine.Inv(s) && Machine.CanRun(s, moves)
            && var u := Machine.After(s, moves);
               && u.current == low.e.tid && u.ready == [high.e.tid]
               && u.current in u.threads && Machine.Level(u, u.current) == 1
               && high.e.tid in u.threads && Machine.Level(u, high.e.tid) == 0
  {
    hide Machine.Inv, Machine.Next, Machine.Body;
    var s := First(init, empty, pid, pgd, entry, spin);
    FirstState(init, empty, pid, pgd, entry, spin);
    Machine.MakesTask(s, low);
    var s1 := Machine.Next(s, low).s;
    Machine.MakesTask(s1, high);
    var s2 := Machine.Next(s1, high).s;
    Overtaken(s2, check);
    var u := Machine.Next(s2, check).s;
    assert Machine.CanRun(u, []) && Machine.CanRun(s2, [check]) && Machine.CanRun(s1, [high, check]);
    assert [low, high, check][1..] == [high, check] && [high, check][1..] == [check] && [check][1..] == [];
    assert Machine.After(s1, [high, check]) == Machine.After(s2, [check]) == u;
  }

  // The caller sleeps on an empty mailbox, and the head of the ready list goes on.
  lemma Overtaken(s: Machine.State, check: Machine.Move)
    requires Machine.Inv(s) && check.e.CheckIpc? && s.current in s.threads && s.current != s.idle
    requires |s.ready| == 2 && (forall t <- s.ready :: t in s.threads) && Machine.Level(s, s.current) == 0
    requires var me := Machine.Pid0(s); me in s.tasks && s.tasks[me].mail && s.tasks[me].queue == []
    ensures var u := Machine.Next(s, check).s;
            && u.current == s.ready[0] && u.ready == s.ready[1..]
            && (forall t <- s.ready :: t in u.threads && Machine.Level(u, t) == Machine.Level(s, t))
  {
    hide Machine.Inv, Machine.Next, Machine.Body, Machine.Level;
    Machine.SwitchExactly(s, check);
    Machine.DispatchedExactly(s, check);
    assert Machine.Candidates(s, check.e) == s.ready;
    Machine.ReadyKnown(Machine.Next(s, check).s);
    Machine.StepLevel(s, check, s.ready[0]);
    Machine.StepLevel(s, check, s.ready[1]);
  }

  lemma StepIs(s: Machine.State, e: Machine.Event, regs: Registers.Frame)
    requires Machine.Inv(s) && Machine.Allowed(s, e)
    ensures s.current in s.threads
    ensures var (b, rax) := Machine.Body(s, e, regs.basic.rax);
            && Machine.Mid(b)
            && (!e.Irq? && !e.CreateTask? ==>
                  && b.current in b.threads
                  && Machine.Dispatch(Machine.DownThread(b, Registers.WithRax(regs, rax))).current
                       in Machine.DownThread(b, Registers.WithRax(regs, rax)).threads
                  && (!e.Tick? ==> Machine.Step(s, e, regs) == Machine.AfterSyscall(b, Registers.WithRax(regs, rax)))
                  && (e.Tick? ==>
                        var o := Machine.AfterSyscall(b, Registers.WithRax(regs, rax));
                        o.s.current in o.s.threads && Machine.Step(s, e, regs) == Machine.CountTick(o)
                          && Machine.CountTick(o).regs == o.regs))
            && (e.Irq? || e.CreateTask? ==> Machine.Step(s, e, regs) == Machine.Outcome(b, regs, false))
  {
    hide Machine.Listed, Machine.Covered, Machine.Mails, Machine.Settled, Machine.Tasks, Machine.Body,
         Machine.DownThread, Machine.Dispatch, Machine.UpThread, Machine.AfterSyscall;
    Machine.BodyKeeps(s, e, regs.basic.rax);
    var (b, rax) := Machine.Body(s, e, regs.basic.rax);
    if !e.Irq? && !e.CreateTask? { Machine.DecisionKeeps(b, Registers.WithRax(regs, rax)); }
  }

  // What the calls leave in the result register.
  lemma Results(s: Machine.State, e: Machine.Event, rax: int)
    requires s.current in s.threads
    ensures Machine.Body(s, e, rax).0 == Machine.Body(s, e, 0).0
    ensures Machine.Body(s, e, rax).1 ==
            match e
            case Send(_, _, body, dst) =>
              if Machine.SendAccepted(s, dst, |body|) && s.tasks[dst].handler in s.threads then 1 else 0
            case Recv => Machine.Body(s, e, 0).1
            case CreateSignal(id, _, _, _) => id
            case CreateThread(tid, _) => if Machine.Pid0(s) in s.tasks then tid else 0
            case Irq(_, _, _) => rax
            case Fault => rax
            case Tick => rax
            case CreateTask(_, _, _, _, _, _) => rax
            case _ => 0
    ensures match e
            case CreateThread(tid, entry) =>
              Machine.Pid0(s) in s.tasks ==>
                Machine.Body(s, e, 0).0 == Machine.NewThread(s, tid, Machine.Pid0(s), entry)
            case ExitThread => Machine.Body(s, e, 0).0 == Machine.Ended(s, Machine.TERMINATED)
            case Fault => Machine.Body(s, e, 0).0 == Machine.Ended(s, Machine.EXCEPTION)
            case Tick => Machine.Body(s, e, 0).0 == s
            case _ => true
  {
    hide Machine.Header, Machine.Ended, Machine.NewThread, Machine.SendAccepted, Machine.IrqAccepted, Machine.Deliver,
         Machine.Wake, Machine.MessageOf, Semaphores.Up, Semaphores.Down;
  }

  lemma SendIs(s: Machine.State, no: Byte, id: nat, body: seq<Byte>, dst: int)
    requires s.current in s.threads
    ensures Machine.Body(s, Machine.Send(no, id, body, dst), 0).0 ==
            if Machine.SendAccepted(s, dst, |body|) && s.tasks[dst].handler in s.threads then
              Machine.Deliver(s, dst, Machine.MessageOf(no, id, Machine.Pid0(s), body),
                s.tasks[dst].allow != Mail.DUMMY_TASK)
            else s
  {
    hide Machine.Deliver, Machine.MessageOf, Machine.SendAccepted;
  }

  lemma IrqIs(s: Machine.State, id: nat, body: seq<Byte>, dst: int)
    requires s.current in s.threads
    ensures Machine.Body(s, Machine.Irq(id, body, dst), 0).0 ==
            if Machine.IrqAccepted(s, dst, |body|) && s.tasks[dst].handler in s.threads then
              Machine.Deliver(s, dst, Machine.MessageOf(3, id, Mail.DUMMY_TASK, body), true)
            else s
  {
    hide Machine.Deliver, Machine.MessageOf, Machine.IrqAccepted;
  }

  // A receive leaves the body of the oldest message at the start of the caller's memory, and the rest of it alone.
  predicate Received(s: Machine.State, mem: seq<Byte>, was: seq<Byte>)
    requires s.current in s.threads
  {
    var me := Machine.Pid0(s);
    if me !in s.tasks || s.tasks[me].queue == [] then mem == was
    else
      var body := s.tasks[me].queue[0].body;
      |body| <= |mem| == |was| && mem[..|body|] == body && mem[|body|..] == was[|body|..]
  }

  lemma DecisionIs(s: Machine.State, regs: Registers.Frame)
    requires s.current in s.threads && Machine.Dispatch(Machine.DownThread(s, regs)).current in
             Machine.DownThread(s, regs).threads
    ensures Machine.AfterSyscall(s, regs) ==
            if Machine.ShouldSwitch(s) then Machine.DoSwitch(s, regs) else Machine.Outcome(s, regs, false)
  {
  }

  lemma TidsMore(a: seq<ThreadInfo>, b: seq<ThreadInfo>)
    ensures Tids(a + b) == Tids(a) + Tids(b)
  {
  }
}
