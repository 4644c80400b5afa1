// Thread records and the ready lists of kernel/task/task_manager.c as they lie in memory: records linked through
// their free_next, with a head and a tail pointer.
module ReadyList {
  import Machine
  import Registers

  // thread_info_struct
  class ThreadInfo {
    const tid: nat
    const task: int
    const priority: int
    var status: Machine.Status
    var regs: Registers.Saved
    var count: int
    var freeNext: ThreadInfo?

    // create_thread_info
    constructor (tid: nat, task: int, priority: int, entry: Registers.Saved)
      ensures this.tid == tid && Value() == Machine.Thread(task, Machine.SUBBMITED, entry, priority * 3, priority)
      ensures freeNext == null
    {
      this.tid, this.task, this.priority := tid, task, priority;
      status, regs, count, freeNext := Machine.SUBBMITED, entry, priority * 3, null;
    }

    // The record as the step machine sees it.
    ghost function Value(): Machine.Thread
      reads this`status, this`regs, this`count
    {
      Machine.Thread(task, status, regs, count, priority)
    }
  }

  // Each record points to the next one, the last to nothing.
  ghost predicate Chain(nodes: seq<ThreadInfo>)
    reads (set i | 0 <= i < |nodes| :: nodes[i])`freeNext
  {
    && (forall i, j | 0 <= i < j < |nodes| :: nodes[i] != nodes[j])
    && (forall i, j | 0 <= i && j == i + 1 < |nodes| :: nodes[i].freeNext == nodes[j])
    && (nodes != [] ==> nodes[|nodes| - 1].freeNext == null)
  }

  ghost function Tids(nodes: seq<ThreadInfo>): (s: seq<nat>)
    ensures |s| == |nodes| && forall i | 0 <= i < |nodes| :: s[i] == nodes[i].tid
  {
    seq(|nodes|, i requires 0 <= i < |nodes| => nodes[i].tid)
  }

  lemma TidsRest(nodes: seq<ThreadInfo>)
    requires nodes != []
    ensures [nodes[0].tid] + Tids(nodes[1..]) == Tids(nodes)
  {
  }

  class LevelList {
    var head: ThreadInfo?
    var tail: ThreadInfo?
    ghost var nodes: seq<ThreadInfo>

    ghost predicate Valid()
      reads this, (set i | 0 <= i < |nodes| :: nodes[i])`freeNext
    {
      && Chain(nodes)
      && head == (if nodes == [] then null else nodes[0])
      && tail == (if nodes == [] then null else nodes[|nodes| - 1])
    }

    constructor ()
      ensures Valid() && nodes == []
    {
      head, tail, nodes := null, null, [];
    }

    predicate HasThread()
      reads this
    {
      head != null
    }

    // enqueue_level0_thread. A thread that is in the list already must not be put there again.
    method Enqueue(t: ThreadInfo)
      requires Valid() && t !in nodes
      modifies this, t`freeNext, (set i | 0 <= i < |nodes| :: nodes[i])`freeNext
      ensures Valid() && nodes == old(nodes) + [t] && HasThread()
      ensures Tids(nodes) == old(Tids(nodes)) + [t.tid]
    {
      t.freeNext := null;
      if tail == null {
        tail, head := t, t;
      } else {
        tail.freeNext := t;
        tail := t;
      }
      nodes := nodes + [t];
    }

    // dequeue_level0_thread
    method Dequeue() returns (t: ThreadInfo)
      requires Valid() && HasThread()
      modifies this, (set i | 0 <= i < |nodes| :: nodes[i])`freeNext
      ensures Valid() && [t] + nodes == old(nodes) && t !in nodes && t.freeNext == null
      ensures [t.tid] + Tids(nodes) == old(Tids(nodes))
    {
      hide Tids;
      TidsRest(nodes);
      t := head;
      head := t.freeNext;
      if head == null {
        tail := null;
      }
      t.freeNext := null;
      nodes := nodes[1..];
    }
  }
}
