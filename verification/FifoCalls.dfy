// The calls of fifo_write_byte and fifo_read_byte as those who make them see them: what the writers' calls are given is
// what the FIFO stores, and what it loads is what the readers' calls return.
module FifoCalls {
  import opened Basics
  import opened Fifo
  import Semaphores
  import opened FifoRing

  // The bytes of a thread, where who[k] is the thread that byte k belongs to.
  function Picked(bytes: seq<Byte>, who: seq<nat>, i: nat): seq<Byte>
    requires |who| == |bytes|
  {
    if bytes == [] then []
    else
      var k := |bytes| - 1;
      Picked(bytes[..k], who[..k], i) + if who[k] == i then [bytes[k]] else []
  }

  lemma PickedMore(bytes: seq<Byte>, who: seq<nat>, b: Byte, j: nat, i: nat)
    requires |who| == |bytes|
    ensures Picked(bytes + [b], who + [j], i) == Picked(bytes, who, i) + if j == i then [b] else []
  {
    assert (bytes + [b])[..|bytes|] == bytes && (who + [j])[..|bytes|] == who;
  }

  lemma {:induction false} PickedAll(bytes: seq<Byte>, who: seq<nat>, i: nat)
    requires |who| == |bytes| && forall k | 0 <= k < |who| :: who[k] == i
    ensures Picked(bytes, who, i) == bytes
  {
    if bytes != [] { PickedAll(bytes[..|bytes| - 1], who[..|bytes| - 1], i); }
  }

  // The byte of a write call that has begun and not stored it yet, and of a read call that has loaded it and not
  // returned yet.
  function Pending(t: Thread, data: Byte): seq<Byte> {
    if t.role == Writer && t.pc in {ClaimWait, Entering, MutexWait, Access} then [data] else []
  }

  function Loaded(t: Thread, data: Byte): seq<Byte> {
    if t.role == Reader && t.pc in {Advance, Wrapping, Leaving, Posting} then [data] else []
  }

  // The variable "data" of every thread's call, what its calls of fifo_write_byte were given and its calls of
  // fifo_read_byte returned so far, and which thread every byte stored or loaded belongs to.
  datatype Tally = Tally(data: seq<Byte>, asked: seq<seq<Byte>>, returned: seq<seq<Byte>>,
                         writers: seq<nat>, readers: seq<nat>)

  predicate Fits(s: State, t: Tally) {
    |t.data| == |t.asked| == |t.returned| == |s.threads| && |t.writers| == |s.written| && |t.readers| == |s.read|
  }

  // The byte that the thread's next statement stores is the one its call was given.
  function Real(s: State, t: Tally, a: Action): Action
    requires Fits(s, t) && Enabled(s, a)
  {
    if a.Act? && s.threads[a.i].pc.Access? then Act(a.i, t.data[a.i]) else a
  }

  // The byte at the read offset.
  function Loads(s: State): Byte { if s.readOffset < |s.buffer| then s.buffer[s.readOffset] else 0 }

  // What a step does to the calls: a write call begins with the byte it is given, a read call loads its byte, and
  // returns it at its end.
  function Follow(s: State, t: Tally, a: Action): Tally
    requires Fits(s, t) && Enabled(s, a)
  {
    var (i, th) := (a.i, s.threads[a.i]);
    if !a.Act? then t
    else if th == Thread(Writer, Claiming) then
      t.(data := t.data[i := a.data], asked := t.asked[i := t.asked[i] + [a.data]])
    else if th == Thread(Writer, Access) then t.(writers := t.writers + [i])
    else if th == Thread(Reader, Access) then t.(data := t.data[i := Loads(s)], readers := t.readers + [i])
    else if th == Thread(Reader, Posting) then t.(returned := t.returned[i := t.returned[i] + [t.data[i]]])
    else t
  }

  // For every thread: its write calls were given what it has stored, in that order, and what it is about to store; its
  // read calls returned what it has loaded, in that order, but for what it is about to return.
  ghost predicate Matches(s: State, t: Tally) {
    && Fits(s, t)
    && (forall i | 0 <= i < |t.data| :: MatchesAt(s, t, i))
  }

  predicate MatchesAt(s: State, t: Tally, i: nat)
    requires Fits(s, t) && i < |t.data|
  {
    && t.asked[i] == Picked(s.written, t.writers, i) + Pending(s.threads[i], t.data[i])
    && t.returned[i] + Loaded(s.threads[i], t.data[i]) == Picked(s.read, t.readers, i)
  }

  // ----- One step

  // A step moves its own thread, and may wake another one.
  predicate Woken(x: Thread, y: Thread) {
    y == x || (x.pc == ClaimWait && y == x.(pc := Entering)) || (x.pc == MutexWait && y == x.(pc := Access))
  }

  lemma RaiseOthers(ts: seq<Thread>, sem: Semaphores.Semaphore, i: nat, next: Pc, j: nat)
    requires i < |ts| && j < |ts| && next != ClaimWait && next != MutexWait
    ensures |Raise(ts, sem, i, next)| == |ts|
    ensures if j == i then Raise(ts, sem, i, next)[j] == ts[i].(pc := next)
            else Woken(ts[j], Raise(ts, sem, i, next)[j])
  {
  }

  lemma LowerOthers(ts: seq<Thread>, sem: Semaphores.Semaphore, i: nat, next: Pc, wait: Pc, j: nat)
    requires i < |ts| && j < |ts|
    ensures |Lower(ts, sem, i, next, wait)| == |ts|
    ensures Lower(ts, sem, i, next, wait)[j] ==
            if j == i then ts[i].(pc := if Semaphores.Blocks(sem) then wait else next) else ts[j]
  {
  }

  // Where a thread is after its own step.
  predicate Moved(x: Thread, y: Thread) {
    && y.role == x.role
    && match x.pc
       case Claiming => y.pc == Entering || y.pc == ClaimWait
       case Entering => y.pc == Access || y.pc == MutexWait
       case Access => y.pc == Advance
       case Advance => y.pc == Wrapping
       case Wrapping => y.pc == Leaving
       case Leaving => y.pc == Posting
       case Posting => y.pc == Claiming
       case _ => false
  }

  lemma NextThread(s: State, a: Action, j: nat)
    requires Enabled(s, a) && j < |s.threads|
    ensures |Next(s, a).threads| == |s.threads|
    ensures j != a.i ==> Woken(s.threads[j], Next(s, a).threads[j])
    ensures j == a.i && a.Act? ==> Moved(s.threads[j], Next(s, a).threads[j])
    ensures j == a.i && !a.Act? ==> s.threads[j].pc.Claiming? && Next(s, a).threads[j].pc in {Claiming, Done}
  {
    hide Lower, Raise, Semaphores.Up, Semaphores.Down, Fifo.After, Semaphores.Blocks;
    var (ts, i) := (s.threads, a.i);
    LowerOthers(ts, if ts[i].role == Writer then s.empty else s.full, i, Entering, ClaimWait, j);
    LowerOthers(ts, s.mutex, i, Access, MutexWait, j);
    RaiseOthers(ts, s.mutex, i, Posting, j);
    RaiseOthers(ts, if ts[i].role == Writer then s.full else s.empty, i, Claiming, j);
  }

  // What a step adds to what has been stored and loaded.
  lemma NextBytes(s: State, a: Action)
    requires Enabled(s, a)
    ensures Next(s, a).written ==
            s.written + if a.Act? && s.threads[a.i] == Thread(Writer, Access) then [a.data] else []
    ensures Next(s, a).read == s.read + if a.Act? && s.threads[a.i] == Thread(Reader, Access) then [Loads(s)] else []
  {
    hide Lower, Raise, Semaphores.Up, Semaphores.Down, Fifo.After, Semaphores.Blocks;
  }

  lemma FollowMatches(s: State, t: Tally, a: Action)
    requires Matches(s, t) && Enabled(s, a)
    ensures Matches(Next(s, Real(s, t, a)), Follow(s, t, a))
  {
    hide Next, Picked, MatchesAt;
    var b := Real(s, t, a);
    NextBytes(s, b);
    NextThread(s, b, a.i);
    forall j | 0 <= j < |t.data| ensures MatchesAt(Next(s, b), Follow(s, t, a), j) {
      assert MatchesAt(s, t, j);
      NextThread(s, b, j);
      FollowAt(s, t, a, j);
    }
  }

  lemma FollowAt(s: State, t: Tally, a: Action, j: nat)
    requires Fits(s, t) && Enabled(s, a) && j < |t.data| && MatchesAt(s, t, j)
    requires var (u, b) := (Next(s, Real(s, t, a)), Real(s, t, a));
             && Fits(u, Follow(s, t, a))
             && (if j != a.i then Woken(s.threads[j], u.threads[j])
                 else if a.Act? then Moved(s.threads[j], u.threads[j])
                 else s.threads[j].pc.Claiming? && u.threads[j].pc in {Claiming, Done})
             && u.written == s.written + (if b.Act? && s.threads[b.i] == Thread(Writer, Access) then [b.data] else [])
             && u.read == s.read + (if b.Act? && s.threads[b.i] == Thread(Reader, Access) then [Loads(s)] else [])
    ensures MatchesAt(Next(s, Real(s, t, a)), Follow(s, t, a), j)
  {
    hide Next, Picked;
    assert s.written + [] == s.written && s.read + [] == s.read;
    if s.threads[a.i].pc.Access? {
      PickedMore(s.written, t.writers, t.data[a.i], a.i, j);
      PickedMore(s.read, t.readers, Loads(s), a.i, j);
    }
    var w := Picked(s.written, t.writers, j);
    assert w + [] == w && w + [t.data[j]] + [] == w + [t.data[j]];
    assert t.returned[j] + [] == t.returned[j];
    assert t.returned[j] + [t.data[j]] + [] == t.returned[j] + [t.data[j]];
  }

  // ----- Every run

  datatype Play = Play(s: State, t: Tally)

  // A disabled action leaves everything alone.
  function Acted(p: Play, a: Action): Play {
    if Fits(p.s, p.t) && Enabled(p.s, a) then Play(Next(p.s, Real(p.s, p.t, a)), Follow(p.s, p.t, a)) else p
  }

  function Start(roles: seq<Role>, n: nat, size: nat): Play {
    Play(Init(roles, n, size),
         Tally(seq(|roles|, _ => 0), seq(|roles|, _ => []), seq(|roles|, _ => []), [], []))
  }

  function Plays(p: Play, actions: seq<Action>): Play {
    if actions == [] then p else Acted(Plays(p, actions[..|actions| - 1]), actions[|actions| - 1])
  }

  // The same actions with the bytes that are really stored.
  function Reals(p: Play, actions: seq<Action>): seq<Action> {
    if actions == [] then []
    else
      var (q, a) := (Plays(p, actions[..|actions| - 1]), actions[|actions| - 1]);
      Reals(p, actions[..|actions| - 1]) + [if Fits(q.s, q.t) && Enabled(q.s, a) then Real(q.s, q.t, a) else a]
  }

  // The bytes that thread i's calls of fifo_write_byte are given in a run: those of the actions that begin one.
  function Given(p: Play, actions: seq<Action>, i: nat): seq<Byte> {
    if actions == [] then []
    else
      var (q, a) := (Plays(p, actions[..|actions| - 1]), actions[|actions| - 1]);
      Given(p, actions[..|actions| - 1], i) +
      if Enabled(q.s, a) && a.Act? && a.i == i && q.s.threads[i] == Thread(Writer, Claiming) then [a.data] else []
  }

  lemma {:induction false} AskedIsGiven(roles: seq<Role>, n: nat, size: nat, actions: seq<Action>, i: nat)
    requires i < |roles|
    ensures var t := Plays(Start(roles, n, size), actions).t;
            i < |t.asked| == |roles| && t.asked[i] == Given(Start(roles, n, size), actions, i)
  {
    hide Next, Real, Matches, Run, Reals;
    if actions != [] {
      var rest := actions[..|actions| - 1];
      AskedIsGiven(roles, n, size, rest, i);
      CallsMatch(roles, n, size, rest);
      MatchesFits(Plays(Start(roles, n, size), rest).s, Plays(Start(roles, n, size), rest).t);
    }
  }

  lemma StartMatches(roles: seq<Role>, n: nat, size: nat)
    ensures Matches(Start(roles, n, size).s, Start(roles, n, size).t)
  {
  }

  lemma StepMatches(p: Play, a: Action)
    requires Matches(p.s, p.t)
    ensures Matches(Acted(p, a).s, Acted(p, a).t)
    ensures Acted(p, a).s == Do(p.s, if Enabled(p.s, a) then Real(p.s, p.t, a) else a)
  {
    hide Next, Follow, MatchesAt;
    if Enabled(p.s, a) { FollowMatches(p.s, p.t, a); }
  }

  // Every run with calls is a run of the protocol, and the calls match what it has stored and loaded.
  lemma {:induction false} CallsMatch(roles: seq<Role>, n: nat, size: nat, actions: seq<Action>)
    ensures var p := Plays(Start(roles, n, size), actions);
            Matches(p.s, p.t) && p.s == Run(Init(roles, n, size), Reals(Start(roles, n, size), actions))
  {
    hide Acted, Do, Matches, Init, Real, Enabled;
    var start := Start(roles, n, size);
    if actions == [] {
      StartMatches(roles, n, size);
    } else {
      var (rest, a) := (actions[..|actions| - 1], actions[|actions| - 1]);
      CallsMatch(roles, n, size, rest);
      var q := Plays(start, rest);
      StepMatches(q, a);
      MatchesFits(q.s, q.t);
      RunOneMore(Init(roles, n, size), Reals(start, rest), if Enabled(q.s, a) then Real(q.s, q.t, a) else a);
    }
  }

  lemma MatchesFits(s: State, t: Tally)
    requires Matches(s, t)
    ensures Fits(s, t)
  {
  }

  lemma AskedByAll(roles: seq<Role>, n: nat, size: nat, actions: seq<Action>)
    ensures var t := Plays(Start(roles, n, size), actions).t;
            && |t.asked| == |roles|
            && (forall i | 0 <= i < |roles| :: t.asked[i] == Given(Start(roles, n, size), actions, i))
  {
    hide Plays, Given, Matches, Run;
    CallsMatch(roles, n, size, actions);
    var p := Plays(Start(roles, n, size), actions);
    MatchesFits(p.s, p.t);
    RunSize(Init(roles, n, size), Reals(Start(roles, n, size), actions));
    forall i | 0 <= i < |roles| ensures p.t.asked[i] == Given(Start(roles, n, size), actions, i) {
      AskedIsGiven(roles, n, size, actions, i);
    }
  }

  // Whatever the threads call, over every run: what the write calls were given is what has been stored, thread by
  // thread, what the read calls returned is what has been loaded, and what has been loaded is the first part of what
  // has been stored.
  lemma CallsExact(roles: seq<Role>, n: nat, size: nat, actions: seq<Action>)
    requires 1 <= n <= size
    ensures var p := Plays(Start(roles, n, size), actions);
            && Matches(p.s, p.t) && p.s.read <= p.s.written && |p.s.written| - |p.s.read| <= n
            && |p.t.asked| == |roles|
            && (forall i | 0 <= i < |roles| :: p.t.asked[i] == Given(Start(roles, n, size), actions, i))
  {
    hide Matches, Intact, Run, Plays, Given;
    CallsMatch(roles, n, size, actions);
    AskedByAll(roles, n, size, actions);
    SafeAlways(roles, n, size, Reals(Start(roles, n, size), actions));
  }

  // With one thread that writes and one that reads, what the reader's calls have returned is the first part of what the
  // writer's calls were given.
  lemma OneToOne(roles: seq<Role>, n: nat, size: nat, actions: seq<Action>, w: nat, r: nat)
    requires 1 <= n <= size && w < |roles| && r < |roles|
    requires var t := Plays(Start(roles, n, size), actions).t;
             && (forall k | 0 <= k < |t.writers| :: t.writers[k] == w)
             && (forall k | 0 <= k < |t.readers| :: t.readers[k] == r)
    ensures var t := Plays(Start(roles, n, size), actions).t;
            |t.returned| == |roles| && t.returned[r] <= Given(Start(roles, n, size), actions, w)
  {
    hide Plays, Picked, Run, Next, Given;
    CallsExact(roles, n, size, actions);
    CallsMatch(roles, n, size, actions);
    var p := Plays(Start(roles, n, size), actions);
    RunSize(Init(roles, n, size), Reals(Start(roles, n, size), actions));
    assert MatchesAt(p.s, p.t, w) && MatchesAt(p.s, p.t, r);
    PickedAll(p.s.written, p.t.writers, w);
    PickedAll(p.s.read, p.t.readers, r);
    assert p.t.returned[r] <= p.s.read;
  }

  // ----- The calls in place

  // fifo_write_byte and fifo_read_byte of all threads on the shared FIFO, statement by statement. A thread that runs
  // fifo_write_bytes gives its calls the bytes of its buffer in turn, and one that runs fifo_read_bytes fills its
  // buffer with what they return.
  class Callers {
    const fifo: SharedFifo
    var data: seq<Byte>
    var asked: seq<seq<Byte>>
    var returned: seq<seq<Byte>>
    ghost var writers: seq<nat>
    ghost var readers: seq<nat>

    ghost function Now(): Play
      reads this, fifo, fifo.buffer
    {
      Play(fifo.Now(), Tally(data, asked, returned, writers, readers))
    }

    constructor (roles: seq<Role>, n: nat, size: nat)
      ensures Now() == Start(roles, n, size) && fresh(fifo) && fresh(fifo.buffer)
    {
      fifo := new SharedFifo(roles, n, size);
      data, asked, returned := seq(|roles|, _ => 0), seq(|roles|, _ => []), seq(|roles|, _ => []);
      writers, readers := [], [];
    }

    // The next statement of a write call of thread i, or the first one of a call with this byte.
    method WriterAct(i: nat, byte: Byte)
      requires Fits(Now().s, Now().t) && Enabled(fifo.Now(), Act(i, byte)) && Sound(fifo.Now())
      requires fifo.threads[i].role == Writer
      modifies this, fifo, fifo.buffer
      ensures Now() == Acted(old(Now()), Act(i, byte))
    {
      hide Next, Sound;
      var pc := fifo.threads[i].pc;
      if pc == Claiming {
        data := data[i := byte];
        asked := asked[i := asked[i] + [byte]];
      }
      if pc == Access { writers := writers + [i]; }
      ActsAlike(fifo.Now(), i, data[i], byte);
      fifo.WriterStep(i, data[i]);
    }

    // The next statement of a read call of thread i.
    method ReaderAct(i: nat, byte: Byte)
      requires Fits(Now().s, Now().t) && Enabled(fifo.Now(), Act(i, byte)) && Sound(fifo.Now())
      requires fifo.threads[i].role == Reader
      modifies this, fifo
      ensures Now() == Acted(old(Now()), Act(i, byte))
    {
      hide Sound;
      var pc := fifo.threads[i].pc;
      ActsAlike(fifo.Now(), i, data[i], byte);
      NextBytes(fifo.Now(), Act(i, data[i]));
      hide Next;
      if pc == Posting { returned := returned[i := returned[i] + [data[i]]]; }
      if pc == Access { readers := readers + [i]; }
      ghost var s := fifo.Now();
      var local := fifo.ReaderStep(i, data[i]);
      if pc == Access { assert fifo.read[|s.read|] == Loads(s); }
      assert pc != Access ==> data[i := local] == data;
      data := data[i := local];
    }

    // One action of a thread.
    method Perform(a: Action)
      requires Fits(Now().s, Now().t) && Enabled(fifo.Now(), a) && Sound(fifo.Now())
      modifies this, fifo, fifo.buffer
      ensures Now() == Acted(old(Now()), a)
    {
      hide Next, Sound;
      if !a.Act? {
        fifo.Choose(a);
      } else if fifo.threads[a.i].role == Writer {
        WriterAct(a.i, a.data);
      } else {
        ReaderAct(a.i, a.data);
      }
    }

    // Any run of a new FIFO, carried out in place, is the run the properties above are about.
    method PerformAll(actions: seq<Action>, ghost roles: seq<Role>, ghost n: nat, ghost size: nat)
      requires 1 <= n <= size && Now() == Start(roles, n, size)
      requires forall k | 0 <= k < |actions| :: Enabled(Plays(Start(roles, n, size), actions[..k]).s, actions[k])
      modifies this, fifo, fifo.buffer
      ensures Now() == Plays(Start(roles, n, size), actions)
    {
      hide Plays, Start, Acted, Next, Sound, Matches, Enabled, Fits;
      PlaysNone(Start(roles, n, size));
      var k := 0;
      while k < |actions|
        invariant 0 <= k <= |actions| && Now() == Plays(Start(roles, n, size), actions[..k])
      {
        PlaysMore(Start(roles, n, size), actions, k);
        StaysSound(roles, n, size, actions[..k]);
        Perform(actions[k]);
        k := k + 1;
      }
      assert actions[..k] == actions;
    }
  }

  lemma PlaysNone(p: Play)
    ensures Plays(p, []) == p
  {
  }

  lemma PlaysMore(p: Play, actions: seq<Action>, k: nat)
    requires k < |actions|
    ensures Plays(p, actions[..k + 1]) == Acted(Plays(p, actions[..k]), actions[k])
  {
    assert actions[..k + 1][..k] == actions[..k];
  }

  lemma StaysSound(roles: seq<Role>, n: nat, size: nat, actions: seq<Action>)
    requires 1 <= n <= size
    ensures var p := Plays(Start(roles, n, size), actions); Fits(p.s, p.t) && Sound(p.s)
  {
    CallsMatch(roles, n, size, actions);
    var p := Plays(Start(roles, n, size), actions);
    InvAlways(roles, n, size, Reals(Start(roles, n, size), actions));
    hide Plays, Reals, Run, MatchesAt, Tokens, Offsets, Intact, QueueIs;
    assert Queues(p.s, n);
  }

  // The byte of an action matters to a store only.
  lemma ActsAlike(s: State, i: nat, a: Byte, b: Byte)
    requires Enabled(s, Act(i, a))
    ensures s.threads[i] != Thread(Writer, Access) ==> Next(s, Act(i, a)) == Next(s, Act(i, b))
  {
    hide Lower, Raise, Semaphores.Up, Semaphores.Down, Fifo.After;
  }
}
