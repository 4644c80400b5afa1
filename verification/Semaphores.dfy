// One semaphore of kernel/task/signal.c: a counter with a ceiling and a queue of blocked threads.
// A soft semaphore only counts.
module Semaphores {

  type Tid = nat

  datatype Semaphore = Semaphore(signals: int, max: int, soft: bool, waiting: seq<Tid>)

  function Max0(x: int): nat { if x > 0 then x else 0 }

  // What one "up" does. Stuck stands for the dequeue from an empty wait queue, whose null result the
  // source then writes to.
  datatype UpResult = Raised(s: Semaphore) | Woke(s: Semaphore, thread: Tid) | Stuck

  function Up(s: Semaphore): UpResult {
    var u := if s.signals < s.max then s.(signals := s.signals + 1) else s;
    if !u.soft && u.signals <= 0 then
      if u.waiting == [] then Stuck else Woke(u.(waiting := u.waiting[1..]), u.waiting[0])
    else Raised(u)
  }

  // Whether the caller is put to sleep.
  predicate Blocks(s: Semaphore) { !s.soft && s.signals <= 0 }

  function Down(s: Semaphore, caller: Tid): Semaphore {
    s.(signals := s.signals - 1, waiting := if Blocks(s) then s.waiting + [caller] else s.waiting)
  }

  // The queue holds exactly the threads the counter owes.
  predicate Settled(s: Semaphore) {
    s.max >= 1 && s.signals <= s.max && (if s.soft then s.waiting == [] else |s.waiting| == Max0(-s.signals))
  }

  function Fresh(max: int, value: int, soft: bool): Semaphore { Semaphore(value, max, soft, []) }

  lemma UpSettled(s: Semaphore)
    requires Settled(s)
    ensures !Up(s).Stuck? && Settled(Up(s).s)
    ensures !s.soft ==> (Up(s).Woke? <==> s.signals < 0)
    ensures Max0(Up(s).s.signals) ==
            if s.signals < 0 || s.signals == s.max then Max0(s.signals) else Max0(s.signals) + 1
  {
  }

  lemma DownSettled(s: Semaphore, caller: Tid)
    requires Settled(s)
    ensures Settled(Down(s, caller))
    ensures Down(s, caller).signals == s.signals - 1
    ensures Max0(Down(s, caller).signals) == if s.signals <= 0 then 0 else s.signals - 1
  {
  }

  // ---------- whole runs ----------

  datatype Op = UpOp | DownOp(caller: Tid)

  // The threads put to sleep and the threads woken so far, each in order.
  datatype History = Running(s: Semaphore, slept: seq<Tid>, woken: seq<Tid>) | Crashed

  function Step(h: History, op: Op): History {
    match h
    case Crashed => Crashed
    case Running(s, slept, woken) =>
      match op
      case DownOp(caller) => Running(Down(s, caller), if Blocks(s) then slept + [caller] else slept, woken)
      case UpOp =>
        match Up(s)
        case Raised(u) => Running(u, slept, woken)
        case Woke(u, thread) => Running(u, slept, woken + [thread])
        case Stuck => Crashed
  }

  function Run(s: Semaphore, ops: seq<Op>): History {
    if ops == [] then Running(s, [], []) else Step(Run(s, ops[..|ops| - 1]), ops[|ops| - 1])
  }

  // Over every run of a well-created semaphore: the counter stays under its ceiling, the queue length is
  // what the counter owes, no "up" finds the queue empty, and threads are woken in the order they slept.
  lemma {:induction false} RunSettled(max: int, value: int, soft: bool, ops: seq<Op>)
    requires max >= 1 && 0 <= value <= max
    ensures var h := Run(Fresh(max, value, soft), ops);
            && h.Running? && h.s.max == max && h.s.soft == soft && Settled(h.s)
            && h.slept == h.woken + h.s.waiting
  {
    hide Step;
    if ops != [] {
      RunSettled(max, value, soft, ops[..|ops| - 1]);
      StepSettled(Run(Fresh(max, value, soft), ops[..|ops| - 1]), ops[|ops| - 1]);
    }
  }

  lemma StepSettled(h: History, op: Op)
    requires h.Running? && Settled(h.s) && h.slept == h.woken + h.s.waiting
    ensures var u := Step(h, op);
            && u.Running? && u.s.max == h.s.max && u.s.soft == h.s.soft && Settled(u.s)
            && u.slept == u.woken + u.s.waiting
  {
    UpSettled(h.s);
    if op.UpOp? && Up(h.s).Woke? {
      assert h.woken + h.s.waiting == (h.woken + [h.s.waiting[0]]) + h.s.waiting[1..];
    }
  }

  function Sign(op: Op): int { if op.UpOp? then 1 else -1 }

  // By how much the ups outnumber the downs.
  function Net(ops: seq<Op>): int {
    if ops == [] then 0 else Net(ops[..|ops| - 1]) + Sign(ops[|ops| - 1])
  }

  lemma {:induction false} NetMore(ops: seq<Op>, k: nat)
    requires ops != [] && k < |ops|
    ensures Net(ops[k..]) == Net(ops[..|ops| - 1][k..]) + Sign(ops[|ops| - 1])
  {
    assert ops[k..][..|ops| - k - 1] == ops[..|ops| - 1][k..];
  }

  // The counter n is the least of the initial value plus all ups and downs, and of the ceiling plus those since any
  // moment.
  ghost predicate Counts(n: int, max: int, value: int, ops: seq<Op>) {
    && n <= value + Net(ops) && (forall k | 0 <= k <= |ops| :: n <= max + Net(ops[k..]))
    && (n == value + Net(ops) || exists k :: 0 <= k <= |ops| && n == max + Net(ops[k..]))
  }

  // What the counter shows after any run, soft or not: every down counts, also where it lets nobody wait, and every up
  // but those that find the ceiling reached.
  lemma {:induction false} RunCounts(max: int, value: int, soft: bool, ops: seq<Op>)
    requires max >= 1 && 0 <= value <= max
    ensures Run(Fresh(max, value, soft), ops).Running?
    ensures Counts(Run(Fresh(max, value, soft), ops).s.signals, max, value, ops)
  {
    hide Counts, Step;
    if ops == [] {
      CountsNothing(max, value, ops);
    } else {
      var m := |ops| - 1;
      var h := Run(Fresh(max, value, soft), ops[..m]);
      RunCounts(max, value, soft, ops[..m]);
      RunSettled(max, value, soft, ops[..m]);
      CountsMore(h, ops[m], value, ops);
    }
  }

  lemma CountsNothing(max: int, value: int, ops: seq<Op>)
    requires value <= max && ops == []
    ensures Counts(value, max, value, ops)
  {
  }

  lemma CountsMore(h: History, op: Op, value: int, ops: seq<Op>)
    requires h.Running? && Settled(h.s) && ops != [] && op == ops[|ops| - 1]
    requires Counts(h.s.signals, h.s.max, value, ops[..|ops| - 1])
    ensures Step(h, op).Running? && Counts(Step(h, op).s.signals, h.s.max, value, ops)
  {
    hide Step, Net, Settled, Counts;
    StepCounts(h, op);
    NetsMore(ops);
    CountsStep(h.s.signals, Step(h, op).s.signals, h.s.max, value, ops);
  }

  lemma StepCounts(h: History, op: Op)
    requires h.Running? && Settled(h.s)
    ensures Step(h, op).Running? && h.s.signals <= h.s.max
    ensures Step(h, op).s.signals ==
            if op.UpOp? && h.s.signals == h.s.max then h.s.max else h.s.signals + Sign(op)
  {
  }

  lemma NetsMore(ops: seq<Op>)
    requires ops != []
    ensures var (m, d) := (|ops| - 1, Sign(ops[|ops| - 1]));
            && Net(ops) == Net(ops[..m]) + d && Net(ops[m + 1..]) == 0
            && (forall k | 0 <= k <= m :: Net(ops[k..]) == Net(ops[..m][k..]) + d)
  {
    hide Net;
    var m := |ops| - 1;
    NetMore(ops, 0);
    assert ops[0..] == ops && ops[..m][0..] == ops[..m];
    NetNothing(ops[m + 1..]);
    NetNothing(ops[..m][m..]);
    NetOne(ops);
    forall k | 0 <= k < m ensures Net(ops[k..]) == Net(ops[..m][k..]) + Sign(ops[m]) { NetMore(ops, k); }
  }

  lemma CountsStep(was: int, n: int, max: int, value: int, ops: seq<Op>)
    requires ops != [] && Counts(was, max, value, ops[..|ops| - 1]) && was <= max
    requires n == if ops[|ops| - 1].UpOp? && was == max then max else was + Sign(ops[|ops| - 1])
    requires var (m, d) := (|ops| - 1, Sign(ops[|ops| - 1]));
             && Net(ops) == Net(ops[..m]) + d && Net(ops[m + 1..]) == 0
             && (forall k | 0 <= k <= m :: Net(ops[k..]) == Net(ops[..m][k..]) + d)
    ensures Counts(n, max, value, ops)
  {
    hide Net;
    var (m, d) := (|ops| - 1, Sign(ops[|ops| - 1]));
    if n != was + d {
      assert n == max + Net(ops[m + 1..]);
    } else if was != value + Net(ops[..m]) {
      var k :| 0 <= k <= m && was == max + Net(ops[..m][k..]);
      assert n == max + Net(ops[k..]);
    }
  }

  lemma NetNothing(ops: seq<Op>)
    requires ops == []
    ensures Net(ops) == 0
  {
  }

  lemma NetOne(ops: seq<Op>)
    requires ops != []
    ensures Net(ops[|ops| - 1..]) == Sign(ops[|ops| - 1])
  {
    assert ops[|ops| - 1..][..0] == [];
  }

  ghost predicate NeverCrashes(s: Semaphore) { forall ops: seq<Op> :: Run(s, ops).Running? }

  lemma CrashSeen(s: Semaphore, ops: seq<Op>)
    requires Run(s, ops).Crashed?
    ensures !NeverCrashes(s)
  {
  }

  function Downs(n: nat): seq<Op> { seq(n, i => DownOp(0)) }

  lemma {:induction false} DownsLower(s: Semaphore, n: nat)
    requires !s.soft && s.waiting == [] && n <= s.signals
    ensures Run(s, Downs(n)) == Running(s.(signals := s.signals - n), [], [])
  {
    if n > 0 {
      assert Downs(n)[..n - 1] == Downs(n - 1);
      DownsLower(s, n - 1);
    }
  }

  // A non-soft semaphore is safe for every sequence of operations exactly when it is created with a
  // ceiling of at least one and a value of at least zero.
  lemma SafeExactly(max: int, value: int)
    ensures NeverCrashes(Fresh(max, value, false)) <==> max >= 1 && value >= 0
  {
    var s := Fresh(max, value, false);
    if max >= 1 && value >= 0 {
      forall ops: seq<Op> ensures Run(s, ops).Running? { Unbroken(s, ops); }
    } else {
      var downs := if value < 0 then 0 else value;
      var ops := Downs(downs) + [UpOp];
      assert ops[..downs] == Downs(downs);
      if value < 0 {
        assert Run(s, Downs(0)) == Running(s, [], []);
      } else {
        DownsLower(s, value);
      }
      CrashSeen(s, ops);
    }
  }

  // As RunSettled, without the upper bound on the initial value.
  lemma {:induction false} Unbroken(s: Semaphore, ops: seq<Op>)
    requires !s.soft && s.max >= 1 && |s.waiting| == Max0(-s.signals)
    ensures var h := Run(s, ops);
            h.Running? && !h.s.soft && h.s.max == s.max && |h.s.waiting| == Max0(-h.s.signals)
  {
    if ops != [] {
      Unbroken(s, ops[..|ops| - 1]);
    }
  }
}
