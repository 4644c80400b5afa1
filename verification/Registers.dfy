// The registers of an interrupted thread: the frame the interrupt entry pushes (struct intterup_args of
// kernel/intterup/init_int.h), and what a thread keeps of it while it does not run (kernel/task/thread.h).
module Registers {

  // The eighteen words both structures begin with, in the same order.
  datatype Basic = Basic(r15: int, r14: int, r13: int, r12: int, r11: int, r10: int, r9: int, r8: int,
                         rdi: int, rsi: int, rdx: int, rcx: int, rbx: int, rax: int,
                         gs: int, fs: int, es: int, ds: int)

  // "ist" is the stack the handler itself runs on.
  datatype Frame = Frame(basic: Basic, pgd: int, rbp: int, ist: int, rip: int, cs: int, rflags: int, rsp: int, ss: int)

  datatype Stack = Stack(rbp: int, rsp: int, ss: int)

  datatype Program = Program(rip: int, cs: int, rflags: int)

  datatype Saved = Saved(basic: Basic, stack: Stack, program: Program)

  // What down_thread leaves in the thread.
  function Save(f: Frame): Saved {
    Saved(f.basic, Stack(f.rbp, f.rsp, f.ss), Program(f.rip, f.cs, f.rflags))
  }

  // What up_thread leaves in the frame, with the page table of the thread's task.
  function Load(f: Frame, r: Saved, pgd: int): Frame {
    Frame(r.basic, pgd, r.stack.rbp, f.ist, r.program.rip, r.program.cs, r.program.rflags, r.stack.rsp, r.stack.ss)
  }

  function WithRax(f: Frame, rax: int): Frame { f.(basic := f.basic.(rax := rax)) }

  // Whatever frame it is loaded into, a saved frame comes back whole: only the page table is the task's own, and
  // the handler's stack that of the interrupt that ends.
  lemma LoadUndoesSave(f: Frame, g: Frame, pgd: int)
    ensures Load(g, Save(f), pgd) == f.(pgd := pgd, ist := g.ist)
  {
  }

  // Nothing a thread keeps is lost by loading it.
  lemma SaveUndoesLoad(f: Frame, r: Saved, pgd: int)
    ensures Save(Load(f, r, pgd)) == r
  {
  }

  // down_thread, copy by copy.
  method SaveFrame(f: Frame, was: Saved) returns (r: Saved)
    ensures r == Save(f)
    ensures r.basic == f.basic && r.stack.rbp == f.rbp && r.stack.rsp == f.rsp && r.stack.ss == f.ss
    ensures r.program.cs == f.cs && r.program.rip == f.rip && r.program.rflags == f.rflags
  {
    r := was.(basic := f.basic);
    r := r.(stack := r.stack.(rbp := f.rbp));
    r := r.(stack := r.stack.(rsp := f.rsp));
    r := r.(stack := r.stack.(ss := f.ss));
    r := r.(program := r.program.(cs := f.cs));
    r := r.(program := r.program.(rip := f.rip));
    r := r.(program := r.program.(rflags := f.rflags));
  }

  // up_thread, copy by copy.
  method LoadFrame(was: Frame, r: Saved, pgd: int) returns (f: Frame)
    ensures f == Load(was, r, pgd)
    ensures f.basic == r.basic && f.rbp == r.stack.rbp && f.rsp == r.stack.rsp && f.ss == r.stack.ss
    ensures f.cs == r.program.cs && f.rip == r.program.rip && f.rflags == r.program.rflags
    ensures f.pgd == pgd && f.ist == was.ist
  {
    f := was.(basic := r.basic);
    f := f.(rbp := r.stack.rbp);
    f := f.(rsp := r.stack.rsp);
    f := f.(ss := r.stack.ss);
    f := f.(cs := r.program.cs);
    f := f.(rip := r.program.rip);
    f := f.(rflags := r.program.rflags);
    f := f.(pgd := pgd);
  }
}
