// The shared byte FIFO of libs/libfifo/fifo.c: any number of reader and writer threads over one ring
// and three semaphores. Every step is atomic: a "down" or "up" is one system call, and the statements
// inside the critical section are single steps that any other thread may come between.
module Fifo {
  import opened Basics
  import opened Semaphores

  datatype Role = Writer | Reader

  // Where a thread is inside fifo_write_byte or fifo_read_byte. The two functions have the same steps:
  // a writer claims from "empty" and posts to "full", a reader the other way round.
  datatype Pc =
    | Claiming    // before down(empty) / down(full)
    | ClaimWait   // asleep on it
    | Entering    // before down(mutex)
    | MutexWait   // asleep on it
    | Access      // before the buffer is touched
    | Advance     // before the offset is incremented
    | Wrapping    // before the offset is compared with the ring size
    | Leaving     // before up(mutex)
    | Posting     // before up(full) / up(empty)
    | Done

  datatype Thread = Thread(role: Role, pc: Pc)

  datatype State = State(
    threads: seq<Thread>,
    empty: Semaphore, full: Semaphore, mutex: Semaphore,
    buffer: seq<Byte>, writeOffset: nat, readOffset: nat,
    // Every byte stored and every byte loaded so far, in the order of the critical sections.
    written: seq<Byte>, read: seq<Byte>)

  // Act lets thread "i" take its next step; "data" is what a writer is about to store.
  // Between two bytes a thread may turn from writing to reading or back, or quit after its last one.
  datatype Action = Act(i: nat, data: Byte) | Turn(i: nat) | Quit(i: nat)

  predicate Asleep(t: Thread) { t.pc == ClaimWait || t.pc == MutexWait }

  predicate Enabled(s: State, a: Action) {
    a.i < |s.threads| &&
    match a
    case Act(i, _) => !Asleep(s.threads[i]) && s.threads[i].pc != Done
    case Turn(i) => s.threads[i].pc == Claiming
    case Quit(i) => s.threads[i].pc == Claiming
  }

  function SetPc(ts: seq<Thread>, i: nat, pc: Pc): (r: seq<Thread>)
    requires i < |ts|
    ensures |r| == |ts|
  {
    ts[i := ts[i].(pc := pc)]
  }

  // A woken thread returns from its "down".
  function Wake(ts: seq<Thread>, i: nat): (r: seq<Thread>)
    ensures |r| == |ts|
  {
    if i >= |ts| then ts
    else if ts[i].pc == ClaimWait then SetPc(ts, i, Entering)
    else if ts[i].pc == MutexWait then SetPc(ts, i, Access)
    else ts
  }

  // A "down" by thread i: it goes on to "next", or to sleep at "wait".
  function Lower(ts: seq<Thread>, sem: Semaphore, i: nat, next: Pc, wait: Pc): seq<Thread>
    requires i < |ts|
  {
    SetPc(ts, i, if Blocks(sem) then wait else next)
  }

  // An "up" by thread i, which goes on to "next"; a sleeper, if any, is woken.
  function Raise(ts: seq<Thread>, sem: Semaphore, i: nat, next: Pc): seq<Thread>
    requires i < |ts|
  {
    var us := SetPc(ts, i, next);
    if Up(sem).Woke? then Wake(us, Up(sem).thread) else us
  }

  function After(sem: Semaphore): Semaphore { if Up(sem).Stuck? then sem else Up(sem).s }

  function Next(s: State, a: Action): State
    requires Enabled(s, a)
  {
    var ts, i := s.threads, a.i;
    var w := ts[i].role == Writer;
    if a.Quit? then s.(threads := SetPc(ts, i, Done))
    else if a.Turn? then s.(threads := ts[i := Thread(if w then Reader else Writer, Claiming)])
    else match ts[i].pc
      case Claiming =>
        if w then s.(threads := Lower(ts, s.empty, i, Entering, ClaimWait), empty := Down(s.empty, i))
        else s.(threads := Lower(ts, s.full, i, Entering, ClaimWait), full := Down(s.full, i))
      case Entering => s.(threads := Lower(ts, s.mutex, i, Access, MutexWait), mutex := Down(s.mutex, i))
      case Access =>
        if w then
          s.(threads := SetPc(ts, i, Advance), written := s.written + [a.data],
             buffer := if s.writeOffset < |s.buffer| then s.buffer[s.writeOffset := a.data] else s.buffer)
        else
          s.(threads := SetPc(ts, i, Advance),
             read := s.read + [if s.readOffset < |s.buffer| then s.buffer[s.readOffset] else 0])
      case Advance =>
        if w then s.(threads := SetPc(ts, i, Wrapping), writeOffset := s.writeOffset + 1)
        else s.(threads := SetPc(ts, i, Wrapping), readOffset := s.readOffset + 1)
      case Wrapping =>
        if w then s.(threads := SetPc(ts, i, Leaving),
                  writeOffset := if s.writeOffset == |s.buffer| then 0 else s.writeOffset)
        else s.(threads := SetPc(ts, i, Leaving), readOffset := if s.readOffset == |s.buffer| then 0 else s.readOffset)
      case Leaving => s.(threads := Raise(ts, s.mutex, i, Posting), mutex := After(s.mutex))
      case Posting =>
        if w then s.(threads := Raise(ts, s.full, i, Claiming), full := After(s.full))
        else s.(threads := Raise(ts, s.empty, i, Claiming), empty := After(s.empty))
      case _ => s
  }

  // create_fifo with a requested size "n" and a ring of "size" bytes, before any thread has started.
  function Init(roles: seq<Role>, n: nat, size: nat): State {
    State(seq(|roles|, i requires 0 <= i < |roles| => Thread(roles[i], Claiming)),
          Fresh(n, n, false), Fresh(n, 0, false), Fresh(1, 1, false),
          seq(size, _ => 0), 0, 0, [], [])
  }

  // A disabled action leaves the state alone, so that every sequence of actions is a run.
  function Run(s: State, actions: seq<Action>): State {
    if actions == [] then s
    else
      var u := Run(s, actions[..|actions| - 1]);
      var a := actions[|actions| - 1];
      if Enabled(u, a) then Next(u, a) else u
  }

  // ---------- counting threads ----------

  function Count(ts: seq<Thread>, p: Thread -> bool): nat {
    if ts == [] then 0 else Count(ts[..|ts| - 1], p) + if p(ts[|ts| - 1]) then 1 else 0
  }

  lemma {:induction false} CountUpdate(ts: seq<Thread>, p: Thread -> bool, i: nat, t: Thread)
    requires i < |ts|
    ensures Count(ts[i := t], p) + (if p(ts[i]) then 1 else 0) == Count(ts, p) + (if p(t) then 1 else 0)
  {
    var k := |ts| - 1;
    if i < k {
      assert ts[i := t][..k] == ts[..k][i := t];
      CountUpdate(ts[..k], p, i, t);
    } else {
      assert ts[i := t][..k] == ts[..k];
    }
  }

  lemma {:induction false} CountPositive(ts: seq<Thread>, p: Thread -> bool, i: nat)
    requires i < |ts| && p(ts[i])
    ensures Count(ts, p) >= 1
  {
    if i < |ts| - 1 { CountPositive(ts[..|ts| - 1], p, i); }
  }

  lemma {:induction false} CountTwo(ts: seq<Thread>, p: Thread -> bool, i: nat, j: nat)
    requires i < j < |ts| && p(ts[i]) && p(ts[j])
    ensures Count(ts, p) >= 2
  {
    if j < |ts| - 1 {
      CountTwo(ts[..|ts| - 1], p, i, j);
    } else {
      CountPositive(ts[..|ts| - 1], p, i);
    }
  }

  lemma {:induction false} CountZero(ts: seq<Thread>, p: Thread -> bool)
    requires forall t <- ts :: !p(t)
    ensures Count(ts, p) == 0
  {
    if ts != [] { CountZero(ts[..|ts| - 1], p); }
  }

  // ---------- the invariant ----------

  predicate Holds(t: Thread) { t.pc.Entering? || t.pc.MutexWait? || t.pc.Access? || Touched(t) }
  predicate Inside(t: Thread) { t.pc.Access? || t.pc.Advance? || t.pc.Wrapping? || t.pc.Leaving? }
  predicate Touched(t: Thread) { t.pc.Advance? || t.pc.Wrapping? || t.pc.Leaving? || t.pc.Posting? }
  predicate Moving(t: Thread) { t.pc == Advance || t.pc == Wrapping }

  // Writers and readers that hold a claim, before and after they touched the buffer.
  predicate WriterBefore(t: Thread) { t.role == Writer && Holds(t) && !Touched(t) }
  predicate WriterAfter(t: Thread) { t.role == Writer && Touched(t) }
  predicate ReaderBefore(t: Thread) { t.role == Reader && Holds(t) && !Touched(t) }
  predicate ReaderAfter(t: Thread) { t.role == Reader && Touched(t) }

  predicate Plain(sem: Semaphore, max: nat) { Settled(sem) && !sem.soft && sem.max == max }

  // The wait queue of a semaphore holds each sleeping thread of its kind once, and nothing else.
  ghost predicate QueueIs(ts: seq<Thread>, q: seq<Tid>, p: Thread -> bool) {
    Distinct(q) && (forall i <- q :: i < |ts|) && (forall i: nat :: i < |ts| ==> (i in q <==> p(ts[i])))
  }

  predicate WaitsEmpty(t: Thread) { t == Thread(Writer, ClaimWait) }
  predicate WaitsFull(t: Thread) { t == Thread(Reader, ClaimWait) }
  predicate WaitsMutex(t: Thread) { t.pc == MutexWait }

  ghost predicate Queues(s: State, n: nat) {
    && Plain(s.empty, n) && Plain(s.full, n) && Plain(s.mutex, 1)
    && QueueIs(s.threads, s.empty.waiting, WaitsEmpty)
    && QueueIs(s.threads, s.full.waiting, WaitsFull)
    && QueueIs(s.threads, s.mutex.waiting, WaitsMutex)
  }

  // Tokens are conserved: those in the semaphores and those the threads hold always sum to n, split by
  // how many unread bytes the ring holds.
  ghost predicate Tokens(s: State, n: nat) {
    && |s.read| <= |s.written|
    && Max0(s.full.signals) + Count(s.threads, WriterAfter) + Count(s.threads, ReaderBefore) == |s.written| - |s.read|
    && Max0(s.empty.signals) + Count(s.threads, WriterBefore) + Count(s.threads, ReaderAfter) ==
       n - (|s.written| - |s.read|)
    && Max0(s.mutex.signals) + Count(s.threads, Inside) == 1
  }

  // The offset that belongs to "count" accesses, given where the thread in the middle of one is.
  ghost predicate OffsetIs(ts: seq<Thread>, role: Role, size: nat, offset: nat, count: nat)
    requires size > 0
  {
    && ((forall j :: 0 <= j < |ts| ==> !(ts[j].role == role && Moving(ts[j]))) ==> offset == count % size)
    && (forall j :: 0 <= j < |ts| && ts[j] == Thread(role, Advance) ==> count > 0 && offset == (count - 1) % size)
    && (forall j :: 0 <= j < |ts| && ts[j] == Thread(role, Wrapping) ==> count > 0 && offset == (count - 1) % size + 1)
  }

  // No unread byte has been overwritten, and the bytes read are the first bytes written.
  predicate Intact(s: State) {
    && s.read <= s.written
    && |s.buffer| > 0
    && forall k :: |s.read| <= k < |s.written| ==> s.buffer[k % |s.buffer|] == s.written[k]
  }

  ghost predicate Offsets(s: State) {
    && |s.buffer| > 0
    && OffsetIs(s.threads, Writer, |s.buffer|, s.writeOffset, |s.written|)
    && OffsetIs(s.threads, Reader, |s.buffer|, s.readOffset, |s.read|)
  }

  ghost predicate Inv(s: State, n: nat) {
    1 <= n <= |s.buffer| && Queues(s, n) && Tokens(s, n) && Offsets(s) && Intact(s)
  }

  // ---------- queues ----------

  lemma QueueUntouched(ts: seq<Thread>, q: seq<Tid>, p: Thread -> bool, i: nat, t: Thread)
    requires QueueIs(ts, q, p) && i < |ts| && p(ts[i]) == p(t)
    ensures QueueIs(ts[i := t], q, p)
  {
  }

  lemma QueueGrows(ts: seq<Thread>, q: seq<Tid>, p: Thread -> bool, i: nat, t: Thread)
    requires QueueIs(ts, q, p) && i < |ts| && !p(ts[i]) && p(t)
    ensures QueueIs(ts[i := t], q + [i], p)
  {
    assert i !in q;
    assert forall j :: j in q + [i] <==> j in q || j == i;
  }

  lemma QueueShrinks(ts: seq<Thread>, q: seq<Tid>, p: Thread -> bool, t: Thread)
    requires QueueIs(ts, q, p) && q != [] && !p(t)
    ensures q[0] < |ts| && p(ts[q[0]]) && QueueIs(ts[q[0] := t], q[1..], p)
  {
    var i := q[0];
    assert i in q;
    assert forall j :: j in q[1..] <==> j in q && j != i by {
      forall j | j in q && j != i ensures j in q[1..] { var k :| 0 <= k < |q| && q[k] == j; assert q[1..][k - 1] == j; }
      forall j | j in q[1..] ensures j in q && j != i {
        var k :| 0 <= k < |q[1..]| && q[1..][k] == j;
        assert q[k + 1] == j;
      }
    }
    assert forall j <- q[1..] :: j in q;
  }

  // A "down" keeps every queue: the caller joins the one it sleeps in.
  lemma LowerQueue(ts: seq<Thread>, sem: Semaphore, p: Thread -> bool, i: nat, next: Pc, wait: Pc)
    requires QueueIs(ts, sem.waiting, p) && i < |ts| && !p(ts[i])
    requires !p(ts[i].(pc := next)) && p(ts[i].(pc := wait))
    ensures QueueIs(Lower(ts, sem, i, next, wait), Down(sem, i).waiting, p)
  {
    if Blocks(sem) {
      QueueGrows(ts, sem.waiting, p, i, ts[i].(pc := wait));
    } else {
      QueueUntouched(ts, sem.waiting, p, i, ts[i].(pc := next));
    }
  }

  lemma OtherQueue(ts: seq<Thread>, q: seq<Tid>, p: Thread -> bool, i: nat, pc: Pc)
    requires QueueIs(ts, q, p) && i < |ts| && !p(ts[i]) && !p(ts[i].(pc := pc))
    ensures QueueIs(SetPc(ts, i, pc), q, p)
  {
    QueueUntouched(ts, q, p, i, ts[i].(pc := pc));
  }

  // An "up" removes exactly the woken thread from the queue of its semaphore.
  lemma RaiseQueue(ts: seq<Thread>, sem: Semaphore, p: Thread -> bool, i: nat, next: Pc)
    requires QueueIs(ts, sem.waiting, p) && Settled(sem) && i < |ts| && !p(ts[i]) && !p(ts[i].(pc := next))
    requires forall t: Thread :: p(t) ==> Asleep(t) && !p(t.(pc := Entering)) && !p(t.(pc := Access))
    ensures QueueIs(Raise(ts, sem, i, next), After(sem).waiting, p)
  {
    var us := SetPc(ts, i, next);
    OtherQueue(ts, sem.waiting, p, i, next);
    if Up(sem).Woke? {
      var j := sem.waiting[0];
      assert j in sem.waiting;
      QueueShrinks(us, sem.waiting, p, Wake(us, j)[j]);
      assert Wake(us, j) == us[j := Wake(us, j)[j]];
    }
  }

  lemma RaiseOtherQueue(ts: seq<Thread>, sem: Semaphore, q: seq<Tid>, p: Thread -> bool, i: nat, next: Pc)
    requires QueueIs(ts, q, p) && i < |ts| && !p(ts[i]) && !p(ts[i].(pc := next))
    requires Up(sem).Woke? ==> Up(sem).thread < |ts| && !p(ts[Up(sem).thread])
    requires forall t: Thread :: !p(t.(pc := Entering)) && !p(t.(pc := Access))
    ensures QueueIs(Raise(ts, sem, i, next), q, p)
  {
    var us := SetPc(ts, i, next);
    OtherQueue(ts, q, p, i, next);
    if Up(sem).Woke? {
      var j := Up(sem).thread;
      assert Wake(us, j) == us[j := Wake(us, j)[j]];
      QueueUntouched(us, q, p, j, Wake(us, j)[j]);
    }
  }

  lemma QueuesKept(s: State, a: Action, n: nat)
    requires Queues(s, n) && Enabled(s, a)
    ensures Queues(Next(s, a), n)
  {
    hide QueueIs, Wake;
    var ts, i := s.threads, a.i;
    var u := Next(s, a);
    if a.Act? && ts[i].pc == Claiming {
      ClaimQueues(s, a, n);
    } else if a.Act? && ts[i].pc == Entering {
      LowerQueue(ts, s.mutex, WaitsMutex, i, Access, MutexWait);
      OtherQueue(ts, s.empty.waiting, WaitsEmpty, i, u.threads[i].pc);
      OtherQueue(ts, s.full.waiting, WaitsFull, i, u.threads[i].pc);
      DownSettled(s.mutex, i);
    } else if a.Act? && ts[i].pc == Leaving {
      UpSettled(s.mutex);
      RaiseQueue(ts, s.mutex, WaitsMutex, i, Posting);
      SleeperOf(s.threads, s.mutex, WaitsMutex);
      RaiseOtherQueue(ts, s.mutex, s.empty.waiting, WaitsEmpty, i, Posting);
      RaiseOtherQueue(ts, s.mutex, s.full.waiting, WaitsFull, i, Posting);
    } else if a.Act? && ts[i].pc == Posting {
      PostQueues(s, a, n);
    } else {
      QuietQueues(s, a, n);
    }
  }

  // Steps that go to no semaphore.
  lemma QuietQueues(s: State, a: Action, n: nat)
    requires Queues(s, n) && Enabled(s, a)
    requires a.Act? ==> s.threads[a.i].pc.Access? || s.threads[a.i].pc.Advance? || s.threads[a.i].pc.Wrapping?
    ensures Queues(Next(s, a), n)
  {
    hide QueueIs;
    var t := Next(s, a).threads[a.i];
    QueueUntouched(s.threads, s.empty.waiting, WaitsEmpty, a.i, t);
    QueueUntouched(s.threads, s.full.waiting, WaitsFull, a.i, t);
    QueueUntouched(s.threads, s.mutex.waiting, WaitsMutex, a.i, t);
  }

  lemma SleeperOf(ts: seq<Thread>, sem: Semaphore, p: Thread -> bool)
    requires QueueIs(ts, sem.waiting, p) && Settled(sem)
    ensures Up(sem).Woke? ==> Up(sem).thread < |ts| && p(ts[Up(sem).thread])
  {
    if Up(sem).Woke? { assert sem.waiting[0] in sem.waiting; }
  }

  lemma ClaimQueues(s: State, a: Action, n: nat)
    requires Queues(s, n) && Enabled(s, a) && a.Act? && s.threads[a.i].pc == Claiming
    ensures Queues(Next(s, a), n)
  {
    var ts, i := s.threads, a.i;
    var pc := Next(s, a).threads[i].pc;
    OtherQueue(ts, s.mutex.waiting, WaitsMutex, i, pc);
    if ts[i].role == Writer {
      DownSettled(s.empty, i);
      LowerQueue(ts, s.empty, WaitsEmpty, i, Entering, ClaimWait);
      OtherQueue(ts, s.full.waiting, WaitsFull, i, pc);
    } else {
      DownSettled(s.full, i);
      LowerQueue(ts, s.full, WaitsFull, i, Entering, ClaimWait);
      OtherQueue(ts, s.empty.waiting, WaitsEmpty, i, pc);
    }
  }

  lemma PostQueues(s: State, a: Action, n: nat)
    requires Queues(s, n) && Enabled(s, a) && a.Act? && s.threads[a.i].pc == Posting
    ensures Queues(Next(s, a), n)
  {
    var ts, i := s.threads, a.i;
    if ts[i].role == Writer {
      UpSettled(s.full);
      SleeperOf(ts, s.full, WaitsFull);
      RaiseQueue(ts, s.full, WaitsFull, i, Claiming);
      RaiseOtherQueue(ts, s.full, s.empty.waiting, WaitsEmpty, i, Claiming);
      RaiseOtherQueue(ts, s.full, s.mutex.waiting, WaitsMutex, i, Claiming);
    } else {
      UpSettled(s.empty);
      SleeperOf(ts, s.empty, WaitsEmpty);
      RaiseQueue(ts, s.empty, WaitsEmpty, i, Claiming);
      RaiseOtherQueue(ts, s.empty, s.full.waiting, WaitsFull, i, Claiming);
      RaiseOtherQueue(ts, s.empty, s.mutex.waiting, WaitsMutex, i, Claiming);
    }
  }

  // ---------- tokens ----------

  function One(b: bool): nat { if b then 1 else 0 }

  lemma Recount(ts: seq<Thread>, i: nat, t: Thread)
    requires i < |ts|
    ensures Count(ts[i := t], WriterBefore) + One(WriterBefore(ts[i])) == Count(ts, WriterBefore) + One(WriterBefore(t))
    ensures Count(ts[i := t], WriterAfter) + One(WriterAfter(ts[i])) == Count(ts, WriterAfter) + One(WriterAfter(t))
    ensures Count(ts[i := t], ReaderBefore) + One(ReaderBefore(ts[i])) == Count(ts, ReaderBefore) + One(ReaderBefore(t))
    ensures Count(ts[i := t], ReaderAfter) + One(ReaderAfter(ts[i])) == Count(ts, ReaderAfter) + One(ReaderAfter(t))
    ensures Count(ts[i := t], Inside) + One(Inside(ts[i])) == Count(ts, Inside) + One(Inside(t))
  {
    CountUpdate(ts, WriterBefore, i, t);
    CountUpdate(ts, WriterAfter, i, t);
    CountUpdate(ts, ReaderBefore, i, t);
    CountUpdate(ts, ReaderAfter, i, t);
    CountUpdate(ts, Inside, i, t);
  }

  ghost predicate PlainAll(s: State, n: nat) { Plain(s.empty, n) && Plain(s.full, n) && Plain(s.mutex, 1) }

  lemma TokensKeptByDown(s: State, a: Action, n: nat)
    requires PlainAll(s, n) && Tokens(s, n) && Enabled(s, a)
    requires a.Act? && (s.threads[a.i].pc.Claiming? || s.threads[a.i].pc.Entering?)
    ensures Tokens(Next(s, a), n)
  {
    hide Count;
    Recount(s.threads, a.i, Next(s, a).threads[a.i]);
  }

  // Steps inside the critical section, and those between two bytes.
  lemma TokensKeptBySteps(s: State, a: Action, n: nat)
    requires Tokens(s, n) && Enabled(s, a)
    requires !a.Act? || s.threads[a.i].pc.Access? || s.threads[a.i].pc.Advance? || s.threads[a.i].pc.Wrapping?
    ensures Tokens(Next(s, a), n)
  {
    hide Count;
    Recount(s.threads, a.i, Next(s, a).threads[a.i]);
    if s.threads[a.i] == Thread(Reader, Access) {
      CountPositive(s.threads, ReaderBefore, a.i);
    }
  }

  // The thread an "up" wakes, as a second update.
  lemma Rewoken(ts: seq<Thread>, sem: Semaphore, i: nat, next: Pc, wait: Pc)
    requires i < |ts| && Settled(sem) && (wait == ClaimWait || wait == MutexWait) && ts[i].pc != wait
    requires Up(sem).Woke? ==> Up(sem).thread < |ts| && ts[Up(sem).thread].pc == wait
    ensures var us := ts[i := ts[i].(pc := next)];
            Raise(ts, sem, i, next) ==
            if Up(sem).Woke? then
              var j := Up(sem).thread;
              us[j := ts[j].(pc := if wait == ClaimWait then Entering else Access)]
            else us
  {
  }

  lemma TokensKeptByLeaving(s: State, a: Action, n: nat)
    requires PlainAll(s, n) && Tokens(s, n) && Enabled(s, a) && a.Act? && s.threads[a.i].pc.Leaving?
    requires Up(s.mutex).Woke? ==> Up(s.mutex).thread < |s.threads| && WaitsMutex(s.threads[Up(s.mutex).thread])
    ensures Tokens(Next(s, a), n)
  {
    hide Count, Raise;
    var ts, i := s.threads, a.i;
    var us := ts[i := ts[i].(pc := Posting)];
    CountPositive(ts, Inside, i);
    UpSettled(s.mutex);
    Rewoken(ts, s.mutex, i, Posting, MutexWait);
    Recount(ts, i, us[i]);
    if Up(s.mutex).Woke? {
      var j := Up(s.mutex).thread;
      Recount(us, j, ts[j].(pc := Access));
    }
  }

  lemma TokensKeptByWriterPost(s: State, a: Action, n: nat)
    requires PlainAll(s, n) && Tokens(s, n) && Enabled(s, a) && a.Act? && s.threads[a.i] == Thread(Writer, Posting)
    requires Up(s.full).Woke? ==> Up(s.full).thread < |s.threads| && WaitsFull(s.threads[Up(s.full).thread])
    ensures Tokens(Next(s, a), n)
  {
    hide Count, Raise;
    var ts, i := s.threads, a.i;
    var us := ts[i := Thread(Writer, Claiming)];
    CountPositive(ts, WriterAfter, i);
    UpSettled(s.full);
    Rewoken(ts, s.full, i, Claiming, ClaimWait);
    Recount(ts, i, Thread(Writer, Claiming));
    if Up(s.full).Woke? {
      Recount(us, Up(s.full).thread, Thread(Reader, Entering));
    }
  }

  lemma TokensKeptByReaderPost(s: State, a: Action, n: nat)
    requires PlainAll(s, n) && Tokens(s, n) && Enabled(s, a) && a.Act? && s.threads[a.i] == Thread(Reader, Posting)
    requires Up(s.empty).Woke? ==> Up(s.empty).thread < |s.threads| && WaitsEmpty(s.threads[Up(s.empty).thread])
    ensures Tokens(Next(s, a), n)
  {
    hide Count, Raise;
    var ts, i := s.threads, a.i;
    var us := ts[i := Thread(Reader, Claiming)];
    CountPositive(ts, ReaderAfter, i);
    UpSettled(s.empty);
    Rewoken(ts, s.empty, i, Claiming, ClaimWait);
    Recount(ts, i, Thread(Reader, Claiming));
    if Up(s.empty).Woke? {
      Recount(us, Up(s.empty).thread, Thread(Writer, Entering));
    }
  }

  lemma TokensKept(s: State, a: Action, n: nat)
    requires Queues(s, n) && Tokens(s, n) && Enabled(s, a)
    ensures Tokens(Next(s, a), n)
  {
    SleeperOf(s.threads, s.mutex, WaitsMutex);
    SleeperOf(s.threads, s.full, WaitsFull);
    SleeperOf(s.threads, s.empty, WaitsEmpty);
    var pc := s.threads[a.i].pc;
    if a.Act? && (pc.Claiming? || pc.Entering?) {
      TokensKeptByDown(s, a, n);
    } else if a.Act? && pc.Leaving? {
      TokensKeptByLeaving(s, a, n);
    } else if a.Act? && pc.Posting? {
      if s.threads[a.i].role == Writer { TokensKeptByWriterPost(s, a, n); } else { TokensKeptByReaderPost(s, a, n); }
    } else {
      TokensKeptBySteps(s, a, n);
    }
  }

  // ---------- mutual exclusion ----------

  // At most one thread is between its "down(mutex)" and its "up(mutex)".
  lemma MutualExclusion(s: State, n: nat, i: nat, j: nat)
    requires Tokens(s, n) && i < |s.threads| && j < |s.threads| && Inside(s.threads[i]) && Inside(s.threads[j])
    ensures i == j
  {
    if i < j { CountTwo(s.threads, Inside, i, j); }
    if j < i { CountTwo(s.threads, Inside, j, i); }
  }

  // ---------- the ring ----------

  lemma ModStep(count: nat, size: nat)
    requires size > 0 && count > 0
    ensures count % size == if (count - 1) % size + 1 == size then 0 else (count - 1) % size + 1
  {
    var q, r := (count - 1) / size, (count - 1) % size;
    assert count == q * size + (r + 1);
    if r + 1 == size {
      assert count == (q + 1) * size;
      ModUnique(count, size, q + 1, 0);
    } else {
      ModUnique(count, size, q, r + 1);
    }
  }

  lemma ModUnique(x: nat, size: nat, q: nat, r: nat)
    requires size > 0 && x == q * size + r && r < size
    ensures x % size == r
  {
    var d := x / size;
    assert x == d * size + x % size;
    assert (d - q) * size == r - x % size;
    if d > q { MulAtLeast(d - q, size); }
    if d < q { MulAtLeast(q - d, size); }
  }

  lemma MulAtLeast(k: nat, size: nat)
    requires k >= 1
    ensures k * size >= size
  {
    assert k * size == size + (k - 1) * size;
  }

  // Two positions closer than the ring size fall on different slots.
  lemma ModDistinct(x: nat, y: nat, size: nat)
    requires size > 0 && x < y < x + size
    ensures x % size != y % size
  {
    var (a, b) := (x / size, y / size);
    assert y - x == (b - a) * size + (y % size - x % size);
    if b > a { MulAtLeast(b - a, size); }
    if b < a { MulAtLeast(a - b, size); }
  }

  lemma UnreadFits(s: State, n: nat, i: nat)
    requires Tokens(s, n) && i < |s.threads| && s.threads[i] == Thread(Writer, Access)
    ensures |s.written| - |s.read| < n
  {
    CountPositive(s.threads, WriterBefore, i);
  }

  lemma SomethingUnread(s: State, n: nat, i: nat)
    requires Tokens(s, n) && i < |s.threads| && s.threads[i] == Thread(Reader, Access)
    ensures |s.read| < |s.written|
  {
    CountPositive(s.threads, ReaderBefore, i);
  }

  // While a thread is about to touch or advance, nobody else is in the middle of it.
  lemma NobodyElseMoving(s: State, n: nat, i: nat)
    requires Tokens(s, n) && i < |s.threads| && Inside(s.threads[i])
    ensures forall j: nat :: j < |s.threads| && j != i ==> !Moving(s.threads[j])
  {
    forall j: nat | j < |s.threads| && j != i ensures !Moving(s.threads[j]) {
      if Inside(s.threads[j]) { MutualExclusion(s, n, i, j); }
    }
  }

  lemma StoreKeepsIntact(s: State, data: Byte, buffer: seq<Byte>)
    requires Intact(s) && s.writeOffset == |s.written| % |s.buffer| && |s.written| - |s.read| < |s.buffer|
    requires buffer == s.buffer[s.writeOffset := data]
    ensures Intact(s.(buffer := buffer, written := s.written + [data]))
  {
    var w := s.written + [data];
    forall k | |s.read| <= k < |w| ensures buffer[k % |s.buffer|] == w[k] {
      if k < |s.written| { ModDistinct(k, |s.written|, |s.buffer|); }
    }
  }

  // A thread that is about to touch the buffer finds its offset where the count says.
  lemma AccessOffset(s: State, n: nat, i: nat)
    requires Tokens(s, n) && Offsets(s) && i < |s.threads| && s.threads[i].pc.Access?
    ensures |s.buffer| > 0
    ensures s.threads[i].role == Writer ==> s.writeOffset == |s.written| % |s.buffer|
    ensures s.threads[i].role == Reader ==> s.readOffset == |s.read| % |s.buffer|
  {
    hide Tokens;
    NobodyElseMoving(s, n, i);
  }

  lemma IntactKept(s: State, a: Action, n: nat)
    requires Tokens(s, n) && Offsets(s) && Intact(s) && n <= |s.buffer| && Enabled(s, a)
    ensures Intact(Next(s, a))
  {
    hide Tokens, Offsets, Raise, Lower;
    if a.Act? && s.threads[a.i] == Thread(Writer, Access) {
      AccessOffset(s, n, a.i);
      UnreadFits(s, n, a.i);
      StoreKeepsIntact(s, a.data, s.buffer[s.writeOffset := a.data]);
    } else if a.Act? && s.threads[a.i] == Thread(Reader, Access) {
      AccessOffset(s, n, a.i);
      SomethingUnread(s, n, a.i);
      assert s.buffer[s.readOffset] == s.written[|s.read|];
    }
  }

  lemma OffsetUntouched(ts: seq<Thread>, us: seq<Thread>, role: Role, size: nat, offset: nat, count: nat)
    requires size > 0 && OffsetIs(ts, role, size, offset, count) && |us| == |ts|
    requires forall j :: 0 <= j < |ts| && ts[j] != us[j] ==>
               !(ts[j].role == role && Moving(ts[j])) && !(us[j].role == role && Moving(us[j]))
    ensures OffsetIs(us, role, size, offset, count)
  {
    if forall j :: 0 <= j < |us| ==> !(us[j].role == role && Moving(us[j])) {
      forall j | 0 <= j < |ts| ensures !(ts[j].role == role && Moving(ts[j])) {
        assert ts[j] == us[j] || !Moving(ts[j]) || ts[j].role != role;
      }
    }
  }

  // The three steps of one access, from the thread's own point of view.
  lemma OffsetMoves(ts: seq<Thread>, i: nat, role: Role, size: nat, offset: nat, count: nat)
    requires size > 0 && OffsetIs(ts, role, size, offset, count) && i < |ts| && ts[i].role == role
    requires forall j: nat :: j < |ts| && j != i ==> !Moving(ts[j])
    ensures ts[i].pc.Access? ==> OffsetIs(SetPc(ts, i, Advance), role, size, offset, count + 1)
    ensures ts[i].pc.Advance? ==> OffsetIs(SetPc(ts, i, Wrapping), role, size, offset + 1, count)
    ensures ts[i].pc.Wrapping? ==> OffsetIs(SetPc(ts, i, Leaving), role, size,
                                   if offset == size then 0 else offset, count)
  {
    var a := SetPc(ts, i, Advance);
    var b := SetPc(ts, i, Wrapping);
    assert a[i] == Thread(role, Advance) && b[i] == Thread(role, Wrapping);
    if ts[i].pc.Wrapping? { ModStep(count, size); }
  }

  lemma OffsetsKeptByAccess(s: State, a: Action, n: nat)
    requires Tokens(s, n) && Offsets(s) && Enabled(s, a)
    requires a.Act? && Inside(s.threads[a.i]) && !s.threads[a.i].pc.Leaving?
    ensures Offsets(Next(s, a))
  {
    hide Next, Tokens, OffsetIs;
    var ts, i, size, u := s.threads, a.i, |s.buffer|, Next(s, a);
    NobodyElseMoving(s, n, i);
    AccessStep(s, a);
    if ts[i].role == Writer {
      OffsetMoves(ts, i, Writer, size, s.writeOffset, |s.written|);
      OffsetUntouched(ts, u.threads, Reader, size, s.readOffset, |s.read|);
    } else {
      OffsetMoves(ts, i, Reader, size, s.readOffset, |s.read|);
      OffsetUntouched(ts, u.threads, Writer, size, s.writeOffset, |s.written|);
    }
  }

  function AfterPc(pc: Pc): Pc { if pc.Access? then Advance else if pc.Advance? then Wrapping else Leaving }

  function AfterOffset(pc: Pc, offset: nat, size: nat): nat {
    if pc.Access? then offset else if pc.Advance? then offset + 1 else if offset == size then 0 else offset
  }

  // What an access step does to the counts and the offsets.
  lemma AccessStep(s: State, a: Action)
    requires Enabled(s, a) && a.Act? && Inside(s.threads[a.i]) && !s.threads[a.i].pc.Leaving?
    ensures var (u, t) := (Next(s, a), s.threads[a.i]);
            var done := if t.pc.Access? then 1 else 0;
            && u.threads == SetPc(s.threads, a.i, AfterPc(t.pc)) && |u.buffer| == |s.buffer|
            && (if t.role == Writer then
                  && u.readOffset == s.readOffset && u.read == s.read && |u.written| == |s.written| + done
                  && u.writeOffset == AfterOffset(t.pc, s.writeOffset, |s.buffer|)
                else
                  && u.writeOffset == s.writeOffset && u.written == s.written && |u.read| == |s.read| + done
                  && u.readOffset == AfterOffset(t.pc, s.readOffset, |s.buffer|))
  {
  }

  ghost predicate StillBefore(ts: seq<Thread>, us: seq<Thread>) {
    |us| == |ts| && forall j :: 0 <= j < |ts| && ts[j] != us[j] ==> !Moving(ts[j]) && !Moving(us[j])
  }

  lemma RaiseMovesNobody(ts: seq<Thread>, sem: Semaphore, i: nat, next: Pc)
    requires i < |ts| && !Moving(ts[i]) && !Moving(ts[i].(pc := next))
    ensures StillBefore(ts, Raise(ts, sem, i, next))
  {
  }

  lemma OffsetsKept(s: State, a: Action, n: nat)
    requires Tokens(s, n) && Offsets(s) && Enabled(s, a)
    ensures Offsets(Next(s, a))
  {
    hide Tokens, OffsetIs, Raise, Count;
    var ts, pc, us := s.threads, s.threads[a.i].pc, Next(s, a).threads;
    if a.Act? && (pc.Access? || pc.Advance? || pc.Wrapping?) {
      OffsetsKeptByAccess(s, a, n);
    } else {
      assert StillBefore(ts, us) by {
        if a.Act? && pc.Leaving? { RaiseMovesNobody(ts, s.mutex, a.i, Posting); }
        if a.Act? && pc.Posting? {
          if ts[a.i].role == Writer {
            RaiseMovesNobody(ts, s.full, a.i, Claiming);
          } else {
            RaiseMovesNobody(ts, s.empty, a.i, Claiming);
          }
        }
      }
      OffsetUntouched(ts, us, Writer, |s.buffer|, s.writeOffset, |s.written|);
      OffsetUntouched(ts, us, Reader, |s.buffer|, s.readOffset, |s.read|);
    }
  }

  // ---------- every run ----------

  lemma InvKept(s: State, a: Action, n: nat)
    requires Inv(s, n) && Enabled(s, a)
    ensures Inv(Next(s, a), n)
  {
    hide Queues, Tokens, Offsets, Intact, Next;
    NextSize(s, a);
    QueuesKept(s, a, n);
    TokensKept(s, a, n);
    IntactKept(s, a, n);
    OffsetsKept(s, a, n);
  }

  lemma InvAtInit(roles: seq<Role>, n: nat, size: nat)
    requires 1 <= n <= size
    ensures Inv(Init(roles, n, size), n)
  {
    var ts := Init(roles, n, size).threads;
    CountZero(ts, WriterBefore);
    CountZero(ts, WriterAfter);
    CountZero(ts, ReaderBefore);
    CountZero(ts, ReaderAfter);
    CountZero(ts, Inside);
  }

  lemma {:induction false} InvAlways(roles: seq<Role>, n: nat, size: nat, actions: seq<Action>)
    requires 1 <= n <= size
    ensures Inv(Run(Init(roles, n, size), actions), n)
  {
    if actions == [] {
      InvAtInit(roles, n, size);
    } else {
      var rest, a := actions[..|actions| - 1], actions[|actions| - 1];
      InvAlways(roles, n, size, rest);
      var u := Run(Init(roles, n, size), rest);
      if Enabled(u, a) { InvKept(u, a, n); }
    }
  }

  // Safety of the FIFO over every run of any number of readers and writers: what has been read is the
  // first part of what has been written, at most n bytes are unread and none of them is overwritten.
  lemma SafeAlways(roles: seq<Role>, n: nat, size: nat, actions: seq<Action>)
    requires 1 <= n <= size
    ensures var s := Run(Init(roles, n, size), actions);
            s.read <= s.written && |s.written| - |s.read| <= n && Intact(s)
  {
    InvAlways(roles, n, size, actions);
  }

  // At every moment at most one thread is in the critical section, and no offset leaves the ring.
  lemma ExclusiveAlways(roles: seq<Role>, n: nat, size: nat, actions: seq<Action>)
    requires 1 <= n <= size
    ensures Exclusive(Run(Init(roles, n, size), actions))
  {
    InvAlways(roles, n, size, actions);
    InvIsExclusive(Run(Init(roles, n, size), actions), n);
  }

  ghost predicate Exclusive(s: State) {
    && (forall i, j :: 0 <= i < j < |s.threads| ==> !(Inside(s.threads[i]) && Inside(s.threads[j])))
    && (forall i :: 0 <= i < |s.threads| && s.threads[i].pc.Access? ==>
          s.writeOffset < |s.buffer| && s.readOffset < |s.buffer|)
  }

  lemma InvIsExclusive(s: State, n: nat)
    requires Tokens(s, n) && Offsets(s)
    ensures Exclusive(s)
  {
    forall i, j | 0 <= i < j < |s.threads| ensures !(Inside(s.threads[i]) && Inside(s.threads[j])) {
      if Inside(s.threads[i]) && Inside(s.threads[j]) { MutualExclusion(s, n, i, j); }
    }
    forall i | 0 <= i < |s.threads| && s.threads[i].pc.Access?
      ensures s.writeOffset < |s.buffer| && s.readOffset < |s.buffer|
    {
      NobodyElseMoving(s, n, i);
    }
  }

  lemma NextSize(s: State, a: Action)
    requires Enabled(s, a)
    ensures |Next(s, a).buffer| == |s.buffer| && |Next(s, a).threads| == |s.threads|
  {
    hide Up, Down, Blocks, Wake, SetPc;
  }

  lemma {:induction false} RunSize(s: State, actions: seq<Action>)
    ensures |Run(s, actions).buffer| == |s.buffer| && |Run(s, actions).threads| == |s.threads|
  {
    hide Next;
    if actions != [] {
      RunSize(s, actions[..|actions| - 1]);
      var u, a := Run(s, actions[..|actions| - 1]), actions[|actions| - 1];
      if Enabled(u, a) { NextSize(u, a); }
    }
  }

  // No "up" ever looks for a sleeper in an empty queue, and no "up" finds its semaphore at the ceiling,
  // where the token would be lost.
  lemma NoTokenLost(roles: seq<Role>, n: nat, size: nat, actions: seq<Action>, i: nat)
    requires 1 <= n <= size
    requires var ts := Run(Init(roles, n, size), actions).threads; i < |ts|
    ensures var s := Run(Init(roles, n, size), actions);
            && !Up(s.empty).Stuck? && !Up(s.full).Stuck? && !Up(s.mutex).Stuck?
            && (s.threads[i].pc.Leaving? ==> s.mutex.signals < s.mutex.max)
            && (s.threads[i] == Thread(Writer, Posting) ==> s.full.signals < s.full.max)
            && (s.threads[i] == Thread(Reader, Posting) ==> s.empty.signals < s.empty.max)
  {
    InvAlways(roles, n, size, actions);
    var s := Run(Init(roles, n, size), actions);
    if s.threads[i].pc.Leaving? { CountPositive(s.threads, Inside, i); }
    if s.threads[i] == Thread(Writer, Posting) { CountPositive(s.threads, WriterAfter, i); }
    if s.threads[i] == Thread(Reader, Posting) { CountPositive(s.threads, ReaderAfter, i); }
  }

  // No deadlock: while a reader and a writer are still looping, some thread can take a step.
  lemma NoDeadlock(roles: seq<Role>, n: nat, size: nat, actions: seq<Action>, i: nat, j: nat)
    requires 1 <= n <= size && i < |roles| && j < |roles|
    requires var ts := Run(Init(roles, n, size), actions).threads;
             |ts| == |roles| && ts[i].role == Reader && ts[i].pc != Done && ts[j].role == Writer && ts[j].pc != Done
    ensures exists k: nat :: Enabled(Run(Init(roles, n, size), actions), Act(k, 0))
  {
    InvAlways(roles, n, size, actions);
    SomebodyAwake(Run(Init(roles, n, size), actions), n, i, j);
  }

  // If every thread sleeps or has finished, all n tokens are back in the two counting semaphores.
  lemma AllTokensBack(s: State, n: nat)
    requires Inv(s, n) && forall k: nat :: k < |s.threads| ==> Asleep(s.threads[k]) || s.threads[k].pc == Done
    ensures s.full.signals > 0 || s.empty.signals > 0
    ensures forall k: nat :: k < |s.threads| ==> !WaitsMutex(s.threads[k])
  {
    var ts := s.threads;
    CountZero(ts, Inside);
    forall k: nat | k < |ts| ensures !WaitsMutex(ts[k]) { assert k !in s.mutex.waiting; }
    CountZero(ts, WriterBefore);
    CountZero(ts, WriterAfter);
    CountZero(ts, ReaderBefore);
    CountZero(ts, ReaderAfter);
  }

  lemma TokensMeanNoSleeper(ts: seq<Thread>, sem: Semaphore, p: Thread -> bool, k: nat)
    requires QueueIs(ts, sem.waiting, p) && Settled(sem) && !sem.soft && sem.signals > 0 && k < |ts|
    ensures !p(ts[k])
  {
    assert k !in sem.waiting;
  }

  lemma SomebodyAwake(s: State, n: nat, i: nat, j: nat)
    requires Inv(s, n) && i < |s.threads| && j < |s.threads|
    requires s.threads[i].role == Reader && s.threads[i].pc != Done && s.threads[j].role == Writer
             && s.threads[j].pc != Done
    ensures exists k: nat :: Enabled(s, Act(k, 0))
  {
    if k: nat :| k < |s.threads| && !Asleep(s.threads[k]) && s.threads[k].pc != Done {
      assert Enabled(s, Act(k, 0));
    } else {
      AllTokensBack(s, n);
      if s.full.signals > 0 {
        TokensMeanNoSleeper(s.threads, s.full, WaitsFull, i);
      } else {
        TokensMeanNoSleeper(s.threads, s.empty, WaitsEmpty, j);
      }
    }
  }

  // ---------- why the requested size must fit the ring ----------

  function Do(s: State, a: Action): State { if Enabled(s, a) then Next(s, a) else s }

  lemma RunOneMore(s: State, actions: seq<Action>, a: Action)
    ensures Run(s, actions + [a]) == Do(Run(s, actions), a)
  {
    assert (actions + [a])[..|actions|] == actions;
  }

  // A writer alone with the FIFO, between two bytes, with k bytes written and none read.
  predicate Alone(s: State, w: nat, n: nat, k: nat) {
    && k <= n && w < |s.threads| && s.threads[w] == Thread(Writer, Claiming)
    && s.empty == Semaphore(n - k, n, false, []) && s.full == Semaphore(k, n, false, [])
    && s.mutex == Semaphore(1, 1, false, [])
    && |s.buffer| > 0 && s.writeOffset == k % |s.buffer| && |s.written| == k && s.read == []
  }

  lemma AloneEnters(s: State, w: nat, n: nat, k: nat, b: Byte)
    requires Alone(s, w, n, k) && k < n
    ensures Do(Do(s, Act(w, b)), Act(w, b)) ==
            s.(threads := s.threads[w := Thread(Writer, Access)],
               empty := Semaphore(n - k - 1, n, false, []), mutex := Semaphore(0, 1, false, []))
  {
    var u := Do(s, Act(w, b));
    assert u == s.(threads := s.threads[w := Thread(Writer, Entering)], empty := Semaphore(n - k - 1, n, false, []));
  }

  lemma AloneStores(s: State, w: nat, b: Byte)
    requires w < |s.threads| && s.threads[w] == Thread(Writer, Access) && s.writeOffset < |s.buffer|
    ensures Do(Do(Do(s, Act(w, b)), Act(w, b)), Act(w, b)) ==
            s.(threads := s.threads[w := Thread(Writer, Leaving)], written := s.written + [b],
               buffer := s.buffer[s.writeOffset := b],
               writeOffset := if s.writeOffset + 1 == |s.buffer| then 0 else s.writeOffset + 1)
  {
    var u := Do(s, Act(w, b));
    assert u == s.(threads := s.threads[w := Thread(Writer, Advance)], written := s.written + [b],
                   buffer := s.buffer[s.writeOffset := b]);
    var v := Do(u, Act(w, b));
    assert v == u.(threads := s.threads[w := Thread(Writer, Wrapping)], writeOffset := s.writeOffset + 1);
  }

  lemma AloneLeaves(s: State, w: nat, n: nat, k: nat, b: Byte)
    requires w < |s.threads| && s.threads[w] == Thread(Writer, Leaving) && k < n
    requires s.mutex == Semaphore(0, 1, false, []) && s.full == Semaphore(k, n, false, [])
    ensures Do(Do(s, Act(w, b)), Act(w, b)) ==
            s.(threads := s.threads[w := Thread(Writer, Claiming)],
               mutex := Semaphore(1, 1, false, []), full := Semaphore(k + 1, n, false, []))
  {
    var u := Do(s, Act(w, b));
    assert u == s.(threads := s.threads[w := Thread(Writer, Posting)], mutex := Semaphore(1, 1, false, []));
  }

  lemma AloneWrites(roles: seq<Role>, w: nat, n: nat, size: nat, before: seq<Action>, k: nat, b: Byte)
    returns (actions: seq<Action>)
    requires var s := Run(Init(roles, n, size), before); Alone(s, w, n, k) && k < n && |s.buffer| == size
    ensures var (s, u) := (Run(Init(roles, n, size), before), Run(Init(roles, n, size), actions));
            && Alone(u, w, n, k + 1) && u.written == s.written + [b] && u.buffer == s.buffer[k % size := b]
  {
    hide Run, Do, Next, Enabled, Init;
    var init, a := Init(roles, n, size), Act(w, b);
    var s := Run(init, before);
    AloneEnters(s, w, n, k, b);
    var s2 := Do(Do(s, a), a);
    AloneStores(s2, w, b);
    var s5 := Do(Do(Do(s2, a), a), a);
    AloneLeaves(s5, w, n, k, b);
    ModStep(k + 1, size);
    actions := before;
    for i := 0 to 7
      invariant Run(init, actions) ==
                [s, Do(s, a), s2, Do(s2, a), Do(Do(s2, a), a), s5, Do(s5, a), Do(Do(s5, a), a)][i]
    {
      RunOneMore(init, actions, a);
      actions := actions + [a];
    }
  }

  lemma {:induction false} AloneFor(roles: seq<Role>, w: nat, n: nat, size: nat, k: nat) returns (actions: seq<Action>)
    requires size > 0 && k <= n && w < |roles|
    ensures var s := Run(Init(roles, n, size), actions);
            Alone(s, w, n, k) && |s.buffer| == size && (k > 0 ==> s.written[0] == 0)
  {
    hide Run, Init;
    if k == 0 {
      AloneFirst(roles, w, n, size);
      actions := if roles[w] == Writer then [] else [] + [Turn(w)];
      RunOneMore(Init(roles, n, size), [], Turn(w));
    } else {
      var before := AloneFor(roles, w, n, size, k - 1);
      actions := AloneWrites(roles, w, n, size, before, k - 1, 0);
    }
  }

  lemma AloneFirst(roles: seq<Role>, w: nat, n: nat, size: nat)
    requires size > 0 && w < |roles|
    ensures var s := Init(roles, n, size);
            && Run(s, []) == s && |s.buffer| == |Do(s, Turn(w)).buffer| == size
            && Alone(if roles[w] == Writer then s else Do(s, Turn(w)), w, n, 0)
  {
    hide Lower, Raise;
  }

  // With a ceiling of 0 nobody passes the first "down".
  predicate Barred(s: State) {
    && s.empty.signals <= 0 && s.full.signals <= 0 && !s.empty.soft && !s.full.soft && s.written == [] && s.read == []
    && (forall t <- s.threads :: t.pc.Claiming? || t.pc.ClaimWait? || t.pc.Done?)
  }

  lemma {:induction false} NothingPasses(roles: seq<Role>, size: nat, actions: seq<Action>)
    ensures Barred(Run(Init(roles, 0, size), actions))
  {
    if actions != [] {
      var rest, a := actions[..|actions| - 1], actions[|actions| - 1];
      NothingPasses(roles, size, rest);
      var u := Run(Init(roles, 0, size), rest);
      if Enabled(u, a) { assert u.threads[a.i] in u.threads; }
    }
  }

  // With a thread anywhere, no unread byte is ever lost, whatever the threads do, exactly when the requested size does
  // not exceed the ring.
  lemma SafeExactly(roles: seq<Role>, w: nat, n: nat, size: nat)
    requires size >= 1 && w < |roles|
    ensures (forall actions :: Intact(Run(Init(roles, n, size), actions))) <==> n <= size
  {
    if n == 0 {
      forall actions ensures Intact(Run(Init(roles, n, size), actions)) {
        NothingPasses(roles, size, actions);
        RunSize(Init(roles, 0, size), actions);
      }
    } else if n <= size {
      forall actions ensures Intact(Run(Init(roles, n, size), actions)) { SafeAlways(roles, n, size, actions); }
    } else {
      var actions := Overrun(roles, w, n, size);
    }
  }

  // The run that loses a byte: the writer alone writes one more than the ring holds.
  lemma Overrun(roles: seq<Role>, w: nat, n: nat, size: nat) returns (actions: seq<Action>)
    requires 1 <= size < n && w < |roles|
    ensures !Intact(Run(Init(roles, n, size), actions))
  {
    var before := AloneFor(roles, w, n, size, size);
    actions := AloneWrites(roles, w, n, size, before, size, 1);
    var s := Run(Init(roles, n, size), actions);
    assert size % size == 0;
    assert s.written[0] == 0 && s.buffer[0 % size] == 1;
  }

  // create_fifo: the pages that hold the request, less the header that shares them, as a size_t. For larger requests
  // the int product of pages and page size overflows.
  const PAGE := 4096
  const HEADER := 48
  const SIZE_T := 0x1_0000_0000_0000_0000

  function RingSize(n: nat): nat { ((n + PAGE - 1) / PAGE * PAGE - HEADER) % SIZE_T }

  // A FIFO created for n bytes loses nothing exactly when its last page has room for the header too. One for no
  // bytes has no page at all, but no thread gets as far as its ring.
  lemma CreatedSafeExactly(roles: seq<Role>, w: nat, n: nat)
    requires n <= 0x7FFF_F000 && w < |roles|
    ensures RingSize(n) >= 1
    ensures (forall actions :: Intact(Run(Init(roles, n, RingSize(n)), actions))) <==>
            n == 0 || 1 <= n % PAGE <= PAGE - HEADER
    ensures n == 0 ==> forall actions :: Barred(Run(Init(roles, n, RingSize(n)), actions))
  {
    hide Run, Init, Intact, Barred;
    RoomExactly(n);
    SafeExactly(roles, w, n, RingSize(n));
    if n == 0 {
      forall actions ensures Barred(Run(Init(roles, n, RingSize(n)), actions)) {
        NothingPasses(roles, RingSize(n), actions);
      }
    }
  }

  lemma RoomExactly(n: nat)
    requires n <= 0x7FFF_F000
    ensures RingSize(n) >= 1 && (n <= RingSize(n) <==> n == 0 || 1 <= n % PAGE <= PAGE - HEADER)
  {
  }
}
