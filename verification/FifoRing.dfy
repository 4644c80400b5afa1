// The shared FIFO of libs/libfifo/fifo.c as it lies in shared memory: the buffer and its two offsets are changed
// in place. Every method is one step of one thread, and is the step of the protocol in module Fifo.
module FifoRing {
  import opened Basics
  import opened Semaphores
  import opened Fifo

  class SharedFifo {
    var threads: seq<Thread>
    var empty: Semaphore
    var full: Semaphore
    var mutex: Semaphore
    const buffer: array<Byte>
    var writeOffset: nat
    var readOffset: nat
    ghost var written: seq<Byte>
    ghost var read: seq<Byte>

    ghost function Now(): State
      reads this, buffer
    {
      State(threads, empty, full, mutex, buffer[..], writeOffset, readOffset, written, read)
    }

    // create_fifo, with the requested size the semaphores count and the size of the ring.
    constructor (roles: seq<Role>, n: nat, size: nat)
      ensures Now() == Init(roles, n, size) && fresh(buffer)
    {
      threads := seq(|roles|, i requires 0 <= i < |roles| => Thread(roles[i], Claiming));
      empty, full, mutex := Fresh(n, n, false), Fresh(n, 0, false), Fresh(1, 1, false);
      buffer := new Byte[size](_ => 0);
      writeOffset, readOffset, written, read := 0, 0, [], [];
      new;
      assert buffer[..] == seq(size, _ => 0);
    }

    // down_signal: the thread goes on, or to sleep in the queue of the semaphore.
    method DownSignal(s: Semaphore, i: nat, next: Pc, wait: Pc) returns (now: Semaphore)
      requires i < |threads|
      modifies this`threads
      ensures now == Down(s, i) && threads == Lower(old(threads), s, i, next, wait)
    {
      now := s.(signals := s.signals - 1);
      if !now.soft && now.signals < 0 {
        now := now.(waiting := now.waiting + [i]);
        threads := SetPc(threads, i, wait);
      } else {
        threads := SetPc(threads, i, next);
      }
    }

    // up_signal: the thread goes on, and the oldest sleeper is woken if the counter owes one.
    method UpSignal(s: Semaphore, i: nat, next: Pc) returns (now: Semaphore)
      requires i < |threads| && !Up(s).Stuck?
      modifies this`threads
      ensures now == Fifo.After(s) && threads == Raise(old(threads), s, i, next)
    {
      threads := SetPc(threads, i, next);
      now := s;
      if now.signals < now.max {
        now := now.(signals := now.signals + 1);
      }
      if !now.soft && now.signals <= 0 {
        var thread := now.waiting[0];
        now := now.(waiting := now.waiting[1..]);
        threads := Wake(threads, thread);
      }
    }

    // The next statement of fifo_write_byte for thread i, which is to store "data".
    method WriterStep(i: nat, data: Byte)
      requires Enabled(Now(), Act(i, data)) && threads[i].role == Writer && Sound(Now())
      modifies this, buffer
      ensures Now() == Next(old(Now()), Act(i, data))
    {
      match threads[i].pc
      case Claiming => empty := DownSignal(empty, i, Entering, ClaimWait);
      case Entering => mutex := DownSignal(mutex, i, Access, MutexWait);
      case Access =>
        if writeOffset < buffer.Length { buffer[writeOffset] := data; }
        written := written + [data];
        threads := SetPc(threads, i, Advance);
      case Advance =>
        writeOffset := writeOffset + 1;
        threads := SetPc(threads, i, Wrapping);
      case Wrapping =>
        if writeOffset == buffer.Length { writeOffset := 0; }
        threads := SetPc(threads, i, Leaving);
      case Leaving => mutex := UpSignal(mutex, i, Posting);
      case Posting => full := UpSignal(full, i, Claiming);
    }

    // Between two bytes a thread turns to the other call, or has done its last one.
    method Choose(a: Action)
      requires Enabled(Now(), a) && !a.Act?
      modifies this`threads
      ensures Now() == Next(old(Now()), a)
    {
      if a.Quit? {
        threads := SetPc(threads, a.i, Done);
      } else {
        threads := threads[a.i := Thread(if threads[a.i].role == Writer then Reader else Writer, Claiming)];
      }
    }

    // The next statement of fifo_read_byte for thread i; "data" is its local variable.
    method ReaderStep(i: nat, local: Byte) returns (data: Byte)
      requires Enabled(Now(), Act(i, local)) && threads[i].role == Reader && Sound(Now())
      modifies this
      ensures Now() == Next(old(Now()), Act(i, local))
      ensures if old(threads[i].pc) == Access then read == old(read) + [data] else data == local && read == old(read)
    {
      data := local;
      match threads[i].pc
      case Claiming => full := DownSignal(full, i, Entering, ClaimWait);
      case Entering => mutex := DownSignal(mutex, i, Access, MutexWait);
      case Access =>
        data := if readOffset < buffer.Length then buffer[readOffset] else 0;
        read := read + [data];
        threads := SetPc(threads, i, Advance);
      case Advance =>
        readOffset := readOffset + 1;
        threads := SetPc(threads, i, Wrapping);
      case Wrapping =>
        if readOffset == buffer.Length { readOffset := 0; }
        threads := SetPc(threads, i, Leaving);
      case Leaving => mutex := UpSignal(mutex, i, Posting);
      case Posting => empty := UpSignal(empty, i, Claiming);
    }
  }

  // No "up" finds its queue empty.
  predicate Sound(s: State) { !Up(s.empty).Stuck? && !Up(s.full).Stuck? && !Up(s.mutex).Stuck? }
}
