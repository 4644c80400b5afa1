// Loading a kernel module: kernel/kmod_loader.c, with the copy loops of kernel/memory/pmm.c that go through a
// page table byte by byte. Program headers are those of chapter 5 of the System V gABI.
module ProgramLoader {
  import opened Basics
  import Pmm
  import PageTables

  const PAGE: nat := 4096
  const TOP: nat := 0xFFFF_FFFF_FFFF_FFFF
  const HEAP_OFFSET: nat := 2 * PAGE
  const HEAP_SIZE: nat := 0x1_0000   // TASK_INIT_HEAP_SIZE
  const STACK_TOP: nat := 0x4000_0000
  const STACK_SIZE: nat := 0x80_0000
  const RESERVED: nat := 0x200_0000  // RESERVED_LIMIT, the kernel's own 32 MB

  datatype Phdr = Phdr(load: bool, vaddr: nat, offset: nat, filesz: nat, memsz: nat)

  datatype Info = Info(entry: nat, pgd: nat, start: nat, end: nat, stackTop: nat, stackBottom: nat, heapBottom: nat,
           heapTop: nat)

  function Min(a: nat, b: nat): nat { if a < b then a else b }

  function Max(a: nat, b: nat): nat { if a > b then a else b }

  function RoundUp(a: nat): nat { (a + (PAGE - 1)) / PAGE * PAGE }

  function PageCount(h: Phdr): nat { (h.memsz + (PAGE - 1)) / PAGE }

  // ----- Bytes through a page table

  // The physical address of a virtual one; 0 when nothing is mapped.
  ghost function Target(v: PageTables.View, pgd: nat, a: nat): nat
    requires PageTables.Total(v)
  {
    match v[(pgd, a / PAGE % PageTables.PAGES)]
    case Missing => 0
    case To(frame) => frame * PAGE + a % PAGE
  }

  ghost function Targets(v: PageTables.View, pgd: nat, dst: nat, n: nat): (ts: seq<nat>)
    requires PageTables.Total(v)
    ensures |ts| == n && forall i | 0 <= i < n :: ts[i] == Target(v, pgd, dst + i)
  {
    if n == 0 then [] else Targets(v, pgd, dst, n - 1) + [Target(v, pgd, dst + n - 1)]
  }

  // Byte by byte, a later write covers an earlier one.
  function Written(ram: seq<Byte>, ts: seq<nat>, bytes: seq<Byte>): (r: seq<Byte>)
    requires |ts| == |bytes|
    ensures |r| == |ram|
  {
    if ts == [] then ram
    else
      var k := |ts| - 1;
      var r := Written(ram, ts[..k], bytes[..k]);
      if ts[k] < |r| then r[ts[k] := bytes[k]] else r
  }

  lemma {:induction false} WrittenElsewhere(ram: seq<Byte>, ts: seq<nat>, bytes: seq<Byte>, x: nat)
    requires |ts| == |bytes| && x < |ram| && x !in ts
    ensures Written(ram, ts, bytes)[x] == ram[x]
  {
    if ts != [] {
      var k := |ts| - 1;
      assert x != ts[k] && x !in ts[..k];
      WrittenElsewhere(ram, ts[..k], bytes[..k], x);
    }
  }

  // A byte arrives when no later byte goes to the same place.
  lemma {:induction false} WrittenAt(ram: seq<Byte>, ts: seq<nat>, bytes: seq<Byte>, i: nat)
    requires |ts| == |bytes| && i < |ts| && ts[i] < |ram|
    requires forall j | i < j < |ts| :: ts[j] != ts[i]
    ensures Written(ram, ts, bytes)[ts[i]] == bytes[i]
  {
    var k := |ts| - 1;
    if i < k {
      assert ts[..k][i] == ts[i] && bytes[..k][i] == bytes[i];
      WrittenAt(ram, ts[..k], bytes[..k], i);
    }
  }

  lemma WrittenMore(ram: seq<Byte>, ts: seq<nat>, bytes: seq<Byte>, k: nat)
    requires |ts| == |bytes| && k < |ts|
    ensures Written(ram, ts[..k + 1], bytes[..k + 1]) ==
            var r := Written(ram, ts[..k], bytes[..k]); if ts[k] < |r| then r[ts[k] := bytes[k]] else r
  {
    assert ts[..k + 1][..k] == ts[..k] && bytes[..k + 1][..k] == bytes[..k];
  }

  function Same(value: Byte, n: nat): (s: seq<Byte>)
    ensures |s| == n && forall i | 0 <= i < n :: s[i] == value
  {
    seq(n, _ => value)
  }

  // ----- Segments

  // What the segment is to hold.
  function Want(h: Phdr, image: seq<Byte>, i: nat): Byte
    requires h.offset + h.filesz <= |image|
  {
    if i < h.filesz then image[h.offset + i] else 0
  }

  predicate Fits(h: Phdr, image: seq<Byte>) {
    h.filesz <= h.memsz && h.offset + h.filesz <= |image| && h.vaddr + h.memsz + PAGE <= PageTables.PAGES * PAGE
  }

  // Whether a virtual page is one of those allocated for the segment.
  predicate Covers(h: Phdr, page: nat) { RoundUp(h.vaddr) / PAGE <= page < RoundUp(h.vaddr) / PAGE + PageCount(h) }

  function PageOf(h: Phdr, i: nat): nat { (h.vaddr + i) / PAGE }

  // Whether a virtual page holds a byte of the segment.
  predicate Touches(h: Phdr, page: nat) { exists i: nat :: i < h.memsz && PageOf(h, i) == page }

  // The start page is rounded up, so the pages allocated are those the segment lies in exactly when its
  // address is page-aligned.
  lemma CoversExactly(h: Phdr)
    requires h.memsz > 0
    ensures (forall page: nat :: Touches(h, page) ==> Covers(h, page)) <==> h.vaddr % PAGE == 0
  {
    if h.vaddr % PAGE == 0 {
      forall page: nat | Touches(h, page) ensures Covers(h, page) {
        var i: nat :| i < h.memsz && PageOf(h, i) == page;
        AlignedPage(h, i);
      }
    } else {
      var p := h.vaddr / PAGE;
      assert h.vaddr == PAGE * p + h.vaddr % PAGE;
      assert (h.vaddr + (PAGE - 1)) / PAGE == p + 1;
      assert PageOf(h, 0) == p;
      assert Touches(h, p) && !Covers(h, p);
    }
  }

  lemma AlignedPage(h: Phdr, i: nat)
    requires h.vaddr % PAGE == 0 && i < h.memsz
    ensures RoundUp(h.vaddr) == h.vaddr && (h.vaddr + i) / PAGE == h.vaddr / PAGE + i / PAGE && i / PAGE < PageCount(h)
    ensures (h.vaddr + i) % PAGE == i % PAGE
  {
    var p := h.vaddr / PAGE;
    assert h.vaddr == PAGE * p;
    assert (PAGE * p + i) / PAGE == p + i / PAGE;
    assert (PAGE * p + (PAGE - 1)) / PAGE == p;
    assert i / PAGE < PageCount(h) by { assert i / PAGE <= (h.memsz - 1) / PAGE; }
  }

  // Where byte i of the segment lies.
  ghost function Goes(v: PageTables.View, pgd: nat, h: Phdr, i: nat): nat
    requires PageTables.Total(v)
  {
    Target(v, pgd, h.vaddr + i)
  }

  // Read through the page table, the segment is its file bytes and then zeros.
  ghost predicate Holds(v: PageTables.View, ram: seq<Byte>, pgd: nat, h: Phdr, image: seq<Byte>)
    requires PageTables.Total(v) && h.offset + h.filesz <= |image|
  {
    forall i: nat | i < h.memsz ::
      v[(pgd, PageOf(h, i) % PageTables.PAGES)].To? && Goes(v, pgd, h, i) < |ram|
        && ram[Goes(v, pgd, h, i)] == Want(h, image, i)
  }

  // The pages of the segment have frames of their own, all free before.
  ghost predicate Backed(v: PageTables.View, pgd: nat, h: Phdr, was: seq<seq<nat>>)
    requires PageTables.Total(v) && |was| == 10
  {
    && (forall page: nat | page < PageTables.PAGES && Covers(h, page) ::
       v[(pgd, page)].To? && Pmm.CoverAll(was, 10, v[(pgd, page)].frame) == 1)
    && (forall p: nat, q: nat | p < PageTables.PAGES && q < PageTables.PAGES && Covers(h, p) && Covers(h, q)
       && p != q ::
          v[(pgd, p)] != v[(pgd, q)])
  }

  // Free pages are pages of this memory.
  ghost predicate InMemory(was: seq<seq<nat>>, pages: nat)
    requires |was| == 10
  {
    forall page: nat :: Pmm.CoverAll(was, 10, page) > 0 ==> page < pages
  }

  lemma TargetOf(v: PageTables.View, pgd: nat, h: Phdr, was: seq<seq<nat>>, i: nat)
    requires PageTables.Total(v) && |was| == 10 && Backed(v, pgd, h, was)
    requires h.vaddr % PAGE == 0 && i < h.memsz && h.vaddr + h.memsz + PAGE <= PageTables.PAGES * PAGE
    ensures PageOf(h, i) < PageTables.PAGES && Covers(h, PageOf(h, i)) && v[(pgd, PageOf(h, i))].To?
    ensures Goes(v, pgd, h, i) == v[(pgd, PageOf(h, i))].frame * PAGE + i % PAGE
    ensures Goes(v, pgd, h, i) / PAGE == v[(pgd, PageOf(h, i))].frame
    ensures Pmm.CoverAll(was, 10, Goes(v, pgd, h, i) / PAGE) == 1
  {
    AlignedPage(h, i);
    assert PageOf(h, i) < PageTables.PAGES;
    var frame := v[(pgd, PageOf(h, i))].frame;
    assert (frame * PAGE + i % PAGE) / PAGE == frame;
  }

  lemma TargetsDiffer(v: PageTables.View, pgd: nat, h: Phdr, was: seq<seq<nat>>, i: nat, j: nat)
    requires PageTables.Total(v) && |was| == 10 && Backed(v, pgd, h, was)
    requires h.vaddr % PAGE == 0 && i < h.memsz && j < h.memsz && i != j
             && h.vaddr + h.memsz + PAGE <= PageTables.PAGES * PAGE
    ensures Goes(v, pgd, h, i) != Goes(v, pgd, h, j)
  {
    TargetOf(v, pgd, h, was, i);
    TargetOf(v, pgd, h, was, j);
    AlignedPage(h, i);
    AlignedPage(h, j);
    hide Goes, Target, Backed, Covers;
    if PageOf(h, i) == PageOf(h, j) {
      assert i == i / PAGE * PAGE + i % PAGE && j == j / PAGE * PAGE + j % PAGE;
    } else {
      Different(v, pgd, h, was, PageOf(h, i), PageOf(h, j));
    }
  }

  lemma Different(v: PageTables.View, pgd: nat, h: Phdr, was: seq<seq<nat>>, p: nat, q: nat)
    requires PageTables.Total(v) && |was| == 10 && Backed(v, pgd, h, was)
    requires p < PageTables.PAGES && q < PageTables.PAGES && Covers(h, p) && Covers(h, q) && p != q
    ensures v[(pgd, p)] != v[(pgd, q)]
  {
  }

  // Memory after both copy loops of load_program.
  ghost function Filled(ram: seq<Byte>, v: PageTables.View, pgd: nat, h: Phdr, image: seq<Byte>): (r: seq<Byte>)
    requires PageTables.Total(v) && Fits(h, image)
    ensures |r| == |ram|
  {
    var copied := Written(ram, Targets(v, pgd, h.vaddr, h.filesz), image[h.offset..h.offset + h.filesz]);
    Written(copied, Targets(v, pgd, h.vaddr + h.filesz, h.memsz - h.filesz), Same(0, h.memsz - h.filesz))
  }

  // Every byte of the segment has a place of its own in memory.
  ghost predicate Placed(v: PageTables.View, pgd: nat, h: Phdr, size: nat)
    requires PageTables.Total(v)
  {
    && (forall i: nat | i < h.memsz :: v[(pgd, PageOf(h, i) % PageTables.PAGES)].To? && Goes(v, pgd, h, i) < size)
    && (forall i: nat, j: nat | i < j < h.memsz :: Goes(v, pgd, h, i) != Goes(v, pgd, h, j))
  }

  lemma OwnPlace(v: PageTables.View, pgd: nat, h: Phdr, size: nat, i: nat, j: nat)
    requires PageTables.Total(v) && Placed(v, pgd, h, size) && i < h.memsz && j < h.memsz
    ensures Goes(v, pgd, h, j) == Target(v, pgd, h.vaddr + j) && Goes(v, pgd, h, j) < size
    ensures j != i ==> Goes(v, pgd, h, j) != Goes(v, pgd, h, i)
  {
    if j < i { assert Goes(v, pgd, h, j) != Goes(v, pgd, h, i); }
    if i < j { assert Goes(v, pgd, h, i) != Goes(v, pgd, h, j); }
  }

  lemma FilledByte(ram: seq<Byte>, v: PageTables.View, pgd: nat, h: Phdr, image: seq<Byte>, i: nat)
    requires PageTables.Total(v) && Placed(v, pgd, h, |ram|) && Fits(h, image) && i < h.memsz
    ensures Filled(ram, v, pgd, h, image)[Goes(v, pgd, h, i)] == Want(h, image, i)
  {
    hide Target, Written, Placed, Goes;
    var n, data := h.filesz, image[h.offset..h.offset + h.filesz];
    var ts, us := Targets(v, pgd, h.vaddr, n), Targets(v, pgd, h.vaddr + n, h.memsz - n);
    var copied := Written(ram, ts, data);
    forall j | 0 <= j < |ts| ensures ts[j] == Goes(v, pgd, h, j) && (j != i ==> ts[j] != Goes(v, pgd, h, i)) {
      OwnPlace(v, pgd, h, |ram|, i, j);
    }
    forall j | 0 <= j < |us| ensures us[j] == Goes(v, pgd, h, n + j) && (n + j != i ==> us[j] != Goes(v, pgd, h, i)) {
      assert h.vaddr + n + j == h.vaddr + (n + j);
      OwnPlace(v, pgd, h, |ram|, i, n + j);
    }
    OwnPlace(v, pgd, h, |ram|, i, i);
    if i < n {
      WrittenAt(ram, ts, data, i);
      WrittenElsewhere(copied, us, Same(0, h.memsz - n), ts[i]);
    } else {
      WrittenAt(copied, us, Same(0, h.memsz - n), i - n);
    }
  }

  lemma PlacedHolds(ram: seq<Byte>, v: PageTables.View, pgd: nat, h: Phdr, image: seq<Byte>)
    requires PageTables.Total(v) && Placed(v, pgd, h, |ram|) && Fits(h, image)
    ensures Holds(v, Filled(ram, v, pgd, h, image), pgd, h, image)
  {
    hide Goes, Filled, Want;
    forall i: nat | i < h.memsz
      ensures Filled(ram, v, pgd, h, image)[Goes(v, pgd, h, i)] == Want(h, image, i)
    {
      FilledByte(ram, v, pgd, h, image, i);
    }
  }

  lemma FilledElsewhere(ram: seq<Byte>, v: PageTables.View, pgd: nat, h: Phdr, image: seq<Byte>, was: seq<seq<nat>>,
                        x: nat)
    requires PageTables.Total(v) && |was| == 10 && Backed(v, pgd, h, was) && Fits(h, image) && h.vaddr % PAGE == 0
    requires x < |ram| && Pmm.CoverAll(was, 10, x / PAGE) == 0
    ensures Filled(ram, v, pgd, h, image)[x] == ram[x]
  {
    hide Target, Written;
    var n, data := h.filesz, image[h.offset..h.offset + h.filesz];
    var ts, us := Targets(v, pgd, h.vaddr, n), Targets(v, pgd, h.vaddr + n, h.memsz - n);
    forall j | 0 <= j < |ts| ensures ts[j] != x {
      TargetOf(v, pgd, h, was, j);
    }
    forall j | 0 <= j < |us| ensures us[j] != x {
      assert h.vaddr + n + j == h.vaddr + (n + j);
      TargetOf(v, pgd, h, was, n + j);
    }
    WrittenElsewhere(ram, ts, data, x);
    WrittenElsewhere(Written(ram, ts, data), us, Same(0, h.memsz - n), x);
  }

  // Every page of the address space has a frame that is not free, inside memory.
  ghost predicate Own(v: PageTables.View, pgd: nat, free: seq<seq<nat>>, pages: nat)
    requires PageTables.Total(v) && |free| == 10
  {
    forall page: nat | page < PageTables.PAGES && v[(pgd, page)].To? ::
      v[(pgd, page)].frame < pages && Pmm.CoverAll(free, 10, v[(pgd, page)].frame) == 0
  }

  lemma AlignedPlaced(v: PageTables.View, pgd: nat, h: Phdr, was: seq<seq<nat>>, pages: nat)
    requires PageTables.Total(v) && |was| == 10 && Backed(v, pgd, h, was) && InMemory(was, pages)
    requires h.vaddr % PAGE == 0 && h.vaddr + h.memsz + PAGE <= PageTables.PAGES * PAGE
    ensures Placed(v, pgd, h, pages * PAGE)
  {
    hide Goes, Target, Backed;
    forall i: nat | i < h.memsz
      ensures v[(pgd, PageOf(h, i) % PageTables.PAGES)].To? && Goes(v, pgd, h, i) < pages * PAGE
    {
      TargetOf(v, pgd, h, was, i);
      assert Goes(v, pgd, h, i) / PAGE < pages;
    }
    forall i: nat, j: nat | i < j < h.memsz ensures Goes(v, pgd, h, i) != Goes(v, pgd, h, j) {
      TargetsDiffer(v, pgd, h, was, i, j);
    }
  }

  lemma SegmentHolds(ram: seq<Byte>, v: PageTables.View, pgd: nat, h: Phdr, image: seq<Byte>, was: seq<seq<nat>>,
                     pages: nat)
    requires PageTables.Total(v) && |was| == 10 && Backed(v, pgd, h, was) && InMemory(was, pages)
             && |ram| == pages * PAGE
    requires Fits(h, image) && h.vaddr % PAGE == 0
    ensures Holds(v, Filled(ram, v, pgd, h, image), pgd, h, image)
  {
    hide Filled, Backed, InMemory, Placed, Holds;
    AlignedPlaced(v, pgd, h, was, pages);
    PlacedHolds(ram, v, pgd, h, image);
  }

  // An unaligned segment begins in the page before those allocated for it.
  lemma UnalignedPage(h: Phdr, i: nat)
    requires h.vaddr % PAGE != 0 && i < h.memsz && h.vaddr + h.memsz + PAGE <= PageTables.PAGES * PAGE
    ensures PageOf(h, i) < PageTables.PAGES && (PageOf(h, i) == h.vaddr / PAGE || Covers(h, PageOf(h, i)))
    ensures h.vaddr / PAGE < PageTables.PAGES && !Covers(h, h.vaddr / PAGE)
  {
    var p := h.vaddr / PAGE;
    assert h.vaddr == PAGE * p + h.vaddr % PAGE;
    assert (h.vaddr + (PAGE - 1)) / PAGE == p + 1;
    assert PageOf(h, i) <= p + PageCount(h);
  }

  // Where byte i of such a segment goes when that first page is mapped already.
  lemma JoinedTarget(v: PageTables.View, pgd: nat, h: Phdr, was: seq<seq<nat>>, pages: nat, i: nat)
    requires PageTables.Total(v) && |was| == 10 && Backed(v, pgd, h, was) && InMemory(was, pages)
    requires h.vaddr % PAGE != 0 && i < h.memsz && h.vaddr + h.memsz + PAGE <= PageTables.PAGES * PAGE
    requires var t := v[(pgd, h.vaddr / PAGE)]; t.To? && t.frame < pages && Pmm.CoverAll(was, 10, t.frame) == 0
    ensures PageOf(h, i) < PageTables.PAGES && v[(pgd, PageOf(h, i))].To?
    ensures var frame := v[(pgd, PageOf(h, i))].frame;
            && Goes(v, pgd, h, i) == frame * PAGE + (h.vaddr + i) % PAGE && frame < pages
            && Pmm.CoverAll(was, 10, frame) == (if PageOf(h, i) == h.vaddr / PAGE then 0 else 1)
    ensures PageOf(h, i) != h.vaddr / PAGE ==> Covers(h, PageOf(h, i))
  {
    hide Covers;
    UnalignedPage(h, i);
  }

  lemma JoinedDiffer(v: PageTables.View, pgd: nat, h: Phdr, was: seq<seq<nat>>, pages: nat, i: nat, j: nat)
    requires PageTables.Total(v) && |was| == 10 && Backed(v, pgd, h, was) && InMemory(was, pages)
    requires h.vaddr % PAGE != 0 && i < j < h.memsz && h.vaddr + h.memsz + PAGE <= PageTables.PAGES * PAGE
    requires var t := v[(pgd, h.vaddr / PAGE)]; t.To? && t.frame < pages && Pmm.CoverAll(was, 10, t.frame) == 0
    ensures Goes(v, pgd, h, i) != Goes(v, pgd, h, j)
  {
    hide Goes, Target, Backed, Covers, InMemory, Pmm.CoverAll;
    JoinedTarget(v, pgd, h, was, pages, i);
    JoinedTarget(v, pgd, h, was, pages, j);
    var (a, b) := (h.vaddr + i, h.vaddr + j);
    if PageOf(h, i) == PageOf(h, j) {
      assert a == a / PAGE * PAGE + a % PAGE && b == b / PAGE * PAGE + b % PAGE;
    } else {
      if PageOf(h, i) != h.vaddr / PAGE && PageOf(h, j) != h.vaddr / PAGE {
        Different(v, pgd, h, was, PageOf(h, i), PageOf(h, j));
      }
      FramesApart(v[(pgd, PageOf(h, i))].frame, a % PAGE, v[(pgd, PageOf(h, j))].frame, b % PAGE);
    }
  }

  lemma FramesApart(f: nat, a: nat, g: nat, b: nat)
    requires f != g && a < PAGE && b < PAGE
    ensures f * PAGE + a != g * PAGE + b
  {
  }

  lemma JoinedPlaced(v: PageTables.View, pgd: nat, h: Phdr, was: seq<seq<nat>>, pages: nat)
    requires PageTables.Total(v) && |was| == 10 && Backed(v, pgd, h, was) && InMemory(was, pages)
    requires h.vaddr % PAGE != 0 && h.vaddr + h.memsz + PAGE <= PageTables.PAGES * PAGE
    requires var t := v[(pgd, h.vaddr / PAGE)]; t.To? && t.frame < pages && Pmm.CoverAll(was, 10, t.frame) == 0
    ensures Placed(v, pgd, h, pages * PAGE)
  {
    hide Goes, Target, Backed, Covers, InMemory, Pmm.CoverAll;
    forall i: nat | i < h.memsz
      ensures v[(pgd, PageOf(h, i) % PageTables.PAGES)].To? && Goes(v, pgd, h, i) < pages * PAGE
    {
      JoinedTarget(v, pgd, h, was, pages, i);
    }
    forall i: nat, j: nat | i < j < h.memsz ensures Goes(v, pgd, h, i) != Goes(v, pgd, h, j) {
      JoinedDiffer(v, pgd, h, was, pages, i, j);
    }
  }

  lemma OffsetPlain(page: nat, base: nat, n: nat)
    requires page < PageTables.PAGES && base + n <= PageTables.PAGES
    ensures PageTables.Offset(page, base) < n <==> base <= page < base + n
  {
    if page >= base {
      assert PageTables.Offset(page, base) == page - base;
    } else {
      assert (page - base + PageTables.PAGES) % PageTables.PAGES == page - base + PageTables.PAGES;
      assert page - base == -1 * PageTables.PAGES + (page - base + PageTables.PAGES);
      assert PageTables.Offset(page, base) == page - base + PageTables.PAGES;
    }
  }

  // What alloc_vpages says, for the pages of a segment.
  lemma BackingIs(v: PageTables.View, tables: PageTables.Tables, free: seq<seq<nat>>, v0: PageTables.View, count: nat,
                  was: seq<seq<nat>>, pgd: nat, h: Phdr, pages: nat)
    requires |free| == |was| == 10 && PageTables.Total(v) && PageTables.Total(v0)
    requires h.vaddr + h.memsz + PAGE <= PageTables.PAGES * PAGE && InMemory(was, pages)
    requires PageTables.Backing(v, tables, free, v0, count, was, pgd, RoundUp(h.vaddr) / PAGE, PageCount(h))
    ensures Backed(v, pgd, h, was) && forall page: nat :: Pmm.CoverAll(free, 10, page) <= Pmm.CoverAll(was, 10, page)
    ensures forall root: nat, page: nat | page < PageTables.PAGES && (root != pgd || !Covers(h, page)) ::
            v[(root, page)] == v0[(root, page)]
    ensures Own(v0, pgd, was, pages) ==> Own(v, pgd, free, pages)
  {
    var base, n := RoundUp(h.vaddr) / PAGE, PageCount(h);
    forall page: nat | page < PageTables.PAGES ensures PageTables.Offset(page, base) < n <==> Covers(h, page) {
      OffsetPlain(page, base, n);
    }
    hide PageTables.Offset, Covers, Pmm.CoverAll;
    assert Backed(v, pgd, h, was);
    if Own(v0, pgd, was, pages) {
      forall page: nat | page < PageTables.PAGES && v[(pgd, page)].To?
        ensures v[(pgd, page)].frame < pages && Pmm.CoverAll(free, 10, v[(pgd, page)].frame) == 0
      {
        if Covers(h, page) {
          assert PageTables.BackedBy(v[(pgd, page)], tables, free, was);
        } else {
          assert v[(pgd, page)] == v0[(pgd, page)];
        }
      }
    }
  }

  class Loader {
    const spaces: PageTables.AddressSpaces
    const ram: array<Byte>

    constructor (spaces: PageTables.AddressSpaces, ram: array<Byte>)
      requires spaces.Valid() && ram.Length == spaces.mem.Length0 * PAGE
      ensures Valid() && this.spaces == spaces && this.ram == ram
    {
      this.spaces, this.ram := spaces, ram;
    }

    ghost predicate Valid()
      reads spaces, spaces.mem, spaces.pmm.lists
    {
      spaces.Valid() && ram.Length == spaces.mem.Length0 * PAGE
    }

    ghost function View(): (v: PageTables.View)
      requires Valid()
      reads spaces, spaces.mem, spaces.pmm.lists
      ensures PageTables.Total(v)
    {
      spaces.View()
    }

    // *(byte *)__pa(pgd, a) = b; a write where there is no memory is lost.
    method PutByte(pgd: nat, a: nat, b: Byte)
      requires Valid() && PageTables.Key(pgd, 0, 0) in spaces.tables
      modifies ram
      ensures var t := Target(View(), pgd, a); ram[..] == if t < ram.Length then old(ram[..])[t := b] else old(ram[..])
    {
      spaces.PhysicalAddressExact(pgd, a);
      var t := PageTables.PhysicalAddress(spaces.mem, pgd, a);
      assert t == Target(View(), pgd, a);
      if t < ram.Length {
        ram[t] := b;
      }
    }

    // pvmemcpy
    method Pvmemcpy(pgd: nat, dst: nat, src: seq<Byte>)
      requires Valid() && PageTables.Key(pgd, 0, 0) in spaces.tables
      modifies ram
      ensures ram[..] == Written(old(ram[..]), Targets(View(), pgd, dst, |src|), src)
    {
      hide PageTables.AddressSpaces.Valid, PageTables.AddressSpaces.View, Target, Written, PageTables.Total;
      ghost var ts := Targets(View(), pgd, dst, |src|);
      var i := 0;
      NothingWritten(ram[..], ts, src);
      while i < |src|
        invariant 0 <= i <= |src| && ram[..] == Written(old(ram[..]), ts[..i], src[..i])
      {
        WrittenMore(old(ram[..]), ts, src, i);
        PutByte(pgd, dst + i, src[i]);
        i := i + 1;
      }
      assert ts[..i] == ts && src[..i] == src;
    }

    // vmemset
    method Vmemset(pgd: nat, addr: nat, value: Byte, size: nat)
      requires Valid() && PageTables.Key(pgd, 0, 0) in spaces.tables
      modifies ram
      ensures ram[..] == Written(old(ram[..]), Targets(View(), pgd, addr, size), Same(value, size))
    {
      hide PageTables.AddressSpaces.Valid, PageTables.AddressSpaces.View, Target, Written, PageTables.Total;
      ghost var ts := Targets(View(), pgd, addr, size);
      var i := 0;
      NothingWritten(ram[..], ts, Same(value, size));
      while i < size
        invariant 0 <= i <= size && ram[..] == Written(old(ram[..]), ts[..i], Same(value, size)[..i])
      {
        WrittenMore(old(ram[..]), ts, Same(value, size), i);
        PutByte(pgd, addr + i, value);
        i := i + 1;
      }
      assert ts[..i] == ts && Same(value, size)[..i] == Same(value, size);
    }

    lemma FreeInMemory()
      requires Valid()
      ensures |spaces.pmm.lists[..]| == 10 && InMemory(spaces.pmm.lists[..], spaces.mem.Length0)
    {
      assert forall page: nat :: spaces.pmm.Free(page) == Pmm.CoverAll(spaces.pmm.lists[..], 10, page);
    }

    // The alloc_vpages of load_program.
    method MapSegment(pgd: nat, ghost image: seq<Byte>, h: Phdr) returns (ok: bool)
      requires Valid() && PageTables.Key(pgd, 0, 0) in spaces.tables && Fits(h, image)
      modifies spaces`tables, spaces.mem, spaces.pmm.lists
      ensures ok ==> Valid() && PageTables.Key(pgd, 0, 0) in spaces.tables && SegmentMapped(
                       old(View()), old(spaces.pmm.lists[..]), View(), spaces.pmm.lists[..], pgd, h, spaces.mem.Length0)
      ensures old(spaces.pmm.Tops()) >= PageTables.AddressSpaces.Need(PageCount(h)) ==> ok
      ensures ok ==> spaces.pmm.Tops() + PageTables.AddressSpaces.Need(PageCount(h)) >= old(spaces.pmm.Tops())
    {
      hide PageTables.AddressSpaces.Valid, PageTables.AddressSpaces.View, PageTables.Backing, PageTables.Total, Own,
           InMemory, Covers;
      CountFits(h, image);
      FreeInMemory();
      ghost var v0, f0, count := View(), spaces.pmm.lists[..], |spaces.tables|;
      ok := spaces.AllocVpages(pgd, RoundUp(h.vaddr), PageCount(h));
      if ok {
        assert RoundUp(h.vaddr) / 4096 == RoundUp(h.vaddr) / PAGE;
        BackingIs(View(), spaces.tables, spaces.pmm.lists[..], v0, count, f0, pgd, h, spaces.mem.Length0);
      }
    }

    // load_program, for a segment that is to be loaded. False when memory has run out.
    method LoadSegment(pgd: nat, image: seq<Byte>, h: Phdr) returns (ok: bool)
      requires Valid() && PageTables.Key(pgd, 0, 0) in spaces.tables && Fits(h, image)
      modifies spaces`tables, spaces.mem, spaces.pmm.lists, ram
      ensures ok ==> Valid() && PageTables.Key(pgd, 0, 0) in spaces.tables && SegmentLoaded(
                       old(View()), old(ram[..]), old(spaces.pmm.lists[..]), View(), ram[..], spaces.pmm.lists[..], pgd,
                         h, image, spaces.mem.Length0)
      ensures old(spaces.pmm.Tops()) >= PageTables.AddressSpaces.Need(PageCount(h)) ==> ok
      ensures ok ==> spaces.pmm.Tops() + PageTables.AddressSpaces.Need(PageCount(h)) >= old(spaces.pmm.Tops())
    {
      hide PageTables.AddressSpaces.Valid, PageTables.AddressSpaces.View, PageTables.Total, Target, Targets, Written,
           SegmentMapped, SegmentLoaded;
      ghost var v0, r0, f0 := View(), ram[..], spaces.pmm.lists[..];
      ok := MapSegment(pgd, image, h);
      if !ok { return; }
      Pvmemcpy(pgd, h.vaddr, image[h.offset..h.offset + h.filesz]);
      Vmemset(pgd, h.vaddr + h.filesz, 0, h.memsz - h.filesz);
      LoadedIs(v0, r0, f0, View(), ram[..], spaces.pmm.lists[..], pgd, h, image, spaces.mem.Length0);
    }

    // load_program: the extent of the segment, or what the caller has put there when there is nothing to load.
    method LoadProgram(pgd: nat, image: seq<Byte>, h: Phdr) returns (ok: bool, start: nat, end: nat)
      requires Valid() && PageTables.Key(pgd, 0, 0) in spaces.tables && (h.load ==> Fits(h, image))
      modifies spaces`tables, spaces.mem, spaces.pmm.lists, ram
      ensures start == StartOf(h) && end == EndOf(h)
      ensures ok ==> Valid() && PageTables.Key(pgd, 0, 0) in spaces.tables
      ensures ok && h.load ==> SegmentLoaded(old(View()), old(ram[..]), old(spaces.pmm.lists[..]), View(), ram[..],
                                             spaces.pmm.lists[..], pgd, h, image, spaces.mem.Length0)
      ensures ok && !h.load ==>
                View() == old(View()) && ram[..] == old(ram[..]) && spaces.pmm.lists[..] == old(spaces.pmm.lists[..])
      ensures old(spaces.pmm.Tops()) >= NeedOf(h) ==> ok
      ensures ok ==> spaces.pmm.Tops() + NeedOf(h) >= old(spaces.pmm.Tops())
    {
      hide PageTables.AddressSpaces.Valid, PageTables.AddressSpaces.View, SegmentLoaded;
      ok, start, end := true, TOP, 0;
      if !h.load { return; }
      ok := LoadSegment(pgd, image, h);
      start, end := h.vaddr, h.vaddr + h.memsz;
    }

    // create_pgd, and that nothing is mapped there.
    method NewSpace() returns (pgd: nat)
      requires Valid() && spaces.FreePages() >= 1
      modifies spaces`tables, spaces.mem, spaces.pmm.lists
      ensures Valid() && PageTables.Key(pgd, 0, 0) in spaces.tables && View() == old(View())
      ensures Own(View(), pgd, spaces.pmm.lists[..], spaces.mem.Length0)
      ensures Fewer(old(spaces.pmm.lists[..]), spaces.pmm.lists[..])
      ensures PageTables.Key(pgd, 0, 0) !in old(spaces.tables) && spaces.pmm.Tops() + 1 >= old(spaces.pmm.Tops())
    {
      ghost var tables0 := spaces.tables;
      pgd := spaces.CreatePgd();
      hide Pmm.CoverAll, PageTables.Linked, PageTables.Injective;
      forall page: nat | page < PageTables.PAGES ensures View()[(pgd, page)] == PageTables.Missing {
        NoRootNoLeaf(tables0, pgd, page);
      }
    }

    lemma Starting()
      requires Valid()
      ensures spaces.pmm.Valid() && spaces.FreePages() >= spaces.pmm.Tops() && |spaces.pmm.lists[..]| == 10
    {
      spaces.TopsAreFree();
    }

    // One turn of the loop over the program headers.
    method LoadNext(pgd: nat, image: seq<Byte>, headers: seq<Phdr>, i: nat, ghost v0: PageTables.View,
                    ghost r0: seq<Byte>, ghost f0: seq<seq<nat>>)
      returns (ok: bool, start: nat, end: nat)
      requires Valid() && PageTables.Key(pgd, 0, 0) in spaces.tables && i < |headers|
               && (headers[i].load ==> Fits(headers[i], image))
      requires Own(View(), pgd, spaces.pmm.lists[..], spaces.mem.Length0) && Fewer(f0, spaces.pmm.lists[..])
      requires Loading(v0, r0, f0, View(), ram[..], pgd, headers, i, image)
      modifies spaces`tables, spaces.mem, spaces.pmm.lists, ram
      ensures start == StartOf(headers[i]) && end == EndOf(headers[i])
      ensures ok ==> Valid() && PageTables.Key(pgd, 0, 0) in spaces.tables
      ensures ok ==> Own(View(), pgd, spaces.pmm.lists[..], spaces.mem.Length0) && Fewer(f0, spaces.pmm.lists[..])
      ensures ok ==> Loading(v0, r0, f0, View(), ram[..], pgd, headers, i + 1, image)
      ensures old(spaces.pmm.Tops()) >= NeedOf(headers[i]) ==> ok
      ensures ok ==> spaces.pmm.Tops() + NeedOf(headers[i]) >= old(spaces.pmm.Tops())
    {
      hide PageTables.AddressSpaces.Valid, PageTables.AddressSpaces.View, PageTables.Total, Loading, Own, Pmm.CoverAll,
           SegmentLoaded;
      ghost var v, r, f := View(), ram[..], spaces.pmm.lists[..];
      ok, start, end := LoadProgram(pgd, image, headers[i]);
      if ok {
        LoadedMore(v0, r0, f0, v, r, f, View(), ram[..], spaces.pmm.lists[..], pgd, headers, i, image,
          spaces.mem.Length0);
      }
    }

    // load_kmod_from_memory, with the program headers already picked out of the file. False when memory has run
    // out.
    method LoadKmod(image: seq<Byte>, headers: seq<Phdr>, entry: nat) returns (ok: bool, info: Info)
      requires Valid() && forall i | 0 <= i < |headers| :: headers[i].load ==> Fits(headers[i], image)
      modifies spaces`tables, spaces.mem, spaces.pmm.lists, ram
      ensures ok ==> Valid() && PageTables.Key(info.pgd, 0, 0) in spaces.tables
                     && PageTables.Key(info.pgd, 0, 0) !in old(spaces.tables)
      ensures ok ==> Loading(old(View()), old(ram[..]), old(spaces.pmm.lists[..]), View(), ram[..], info.pgd, headers,
                     |headers|, image)
      ensures ok ==> forall page: nat | page < RESERVED / PAGE :: View()[(info.pgd, page)] == PageTables.To(page)
      ensures ok ==> info.entry == entry && info.start == LowestStart(headers) && info.end == HighestEnd(headers)
      ensures ok ==> info.heapBottom % PAGE == 0 && info.end + 2 * PAGE <= info.heapBottom < info.end + 3 * PAGE
      ensures ok ==> info.heapTop == info.heapBottom + HEAP_SIZE && info.stackTop == STACK_TOP
                     && info.stackBottom == STACK_TOP - STACK_SIZE
      ensures old(spaces.pmm.Tops()) >= 1 + NeedAll(headers) + 3 * (RESERVED / PAGE) ==> ok
    {
      hide View, Valid, PageTables.Total, Loading, Own, Fewer, Pmm.CoverAll, Pmm.Allocator.Tops, LowestStart,
           HighestEnd, NeedAll;
      info := Info(entry, 0, TOP, 0, STACK_TOP, STACK_TOP - STACK_SIZE, 0, 0);
      Starting();
      if !HasPage() { return false, info; }
      ghost var most := spaces.pmm.Tops();
      ghost var v0, r0, f0 := View(), ram[..], spaces.pmm.lists[..];
      var pgd := NewSpace();
      NothingLoaded(v0, r0, f0, pgd, headers, image);
      info := info.(pgd := pgd);
      ok := true;
      var i := 0;
      while i < |headers|
        invariant 0 <= i <= |headers| && ok && Valid() && PageTables.Key(pgd, 0, 0) in spaces.tables
        invariant Own(View(), pgd, spaces.pmm.lists[..], spaces.mem.Length0)
        invariant Fewer(f0, spaces.pmm.lists[..]) && spaces.pmm.Tops() + 1 + NeedAll(headers[..i]) >= most
        invariant Loading(v0, r0, f0, View(), ram[..], pgd, headers, i, image)
        invariant info == Info(entry, pgd, LowestStart(headers[..i]), HighestEnd(headers[..i]), STACK_TOP,
                  STACK_TOP - STACK_SIZE, 0, 0)
      {
        NeedGrows(headers, i);
        var start, end;
        ok, start, end := LoadNext(pgd, image, headers, i, v0, r0, f0);
        if !ok { return; }
        OneMore(headers, i);
        info := info.(start := Min(info.start, start), end := Max(info.end, end));
        i := i + 1;
      }
      assert headers[..i] == headers;
      info := info.(heapBottom := RoundUp(info.end + HEAP_OFFSET),
        heapTop := RoundUp(info.end + HEAP_OFFSET) + HEAP_SIZE);
      ghost var v := View();
      ok := MapKernel(pgd);
      if ok {
        KernelMapped(v0, r0, f0, v, View(), ram[..], pgd, headers, image);
      }
    }

    predicate HasPage()
      requires Valid()
      reads spaces, spaces.mem, spaces.pmm.lists
    {
      spaces.FreePages() >= 1
    }

    // mapping_kernel
    method MapKernel(pgd: nat) returns (ok: bool)
      requires Valid() && PageTables.Key(pgd, 0, 0) in spaces.tables
      modifies spaces`tables, spaces.mem, spaces.pmm.lists
      ensures ok ==> Valid() && PageTables.Key(pgd, 0, 0) in spaces.tables
      ensures ok ==> View() == PageTables.MapRange(old(View()), pgd, 0, 0, RESERVED / PAGE)
      ensures old(spaces.pmm.Tops()) >= 3 * (RESERVED / PAGE) ==> ok
    {
      spaces.TopsAreFree();
      hide PageTables.AddressSpaces.View, PageTables.Total, PageTables.Accounted, PageTables.Rooted,
           PageTables.Injective, PageTables.Linked, PageTables.MapRange;
      ghost var t, f := spaces.tables, spaces.pmm.lists[..];
      ok := spaces.SetMapping(pgd, 0, 0, RESERVED / PAGE);
      if ok {
        PageTables.AccountedLeaves(t, spaces.tables, f, spaces.pmm.lists[..], 3 * (RESERVED / PAGE),
          PageTables.Key(pgd, 0, 0));
      }
    }
  }

  lemma CountFits(h: Phdr, image: seq<Byte>)
    requires Fits(h, image)
    ensures PageCount(h) < PageTables.PAGES
  {
  }

  ghost predicate SegmentMapped(v0: PageTables.View, f0: seq<seq<nat>>, v: PageTables.View, f: seq<seq<nat>>, pgd: nat,
                                h: Phdr, pages: nat)
  {
    && PageTables.Total(v0) && PageTables.Total(v) && |f0| == |f| == 10
    && Backed(v, pgd, h, f0) && InMemory(f0, pages)
    && (forall root: nat, page: nat | page < PageTables.PAGES && (root != pgd || !Covers(h, page)) ::
       v[(root, page)] == v0[(root, page)])
    && (Own(v0, pgd, f0, pages) ==> Own(v, pgd, f, pages))
    && (forall page: nat :: Pmm.CoverAll(f, 10, page) <= Pmm.CoverAll(f0, 10, page))
  }

  lemma LoadedIs(v0: PageTables.View, r0: seq<Byte>, f0: seq<seq<nat>>, v: PageTables.View, r: seq<Byte>,
                 f: seq<seq<nat>>, pgd: nat, h: Phdr, image: seq<Byte>, pages: nat)
    requires SegmentMapped(v0, f0, v, f, pgd, h, pages) && Fits(h, image) && |r0| == pages * PAGE
             && r == Filled(r0, v, pgd, h, image)
    ensures SegmentLoaded(v0, r0, f0, v, r, f, pgd, h, image, pages)
  {
    hide Filled, Backed, Holds, Own, Covers, InMemory;
    if Own(v0, pgd, f0, pages) && h.memsz > 0 { HoldsExactly(v0, r0, f0, v, f, pgd, h, image, pages); }
    if h.vaddr % PAGE == 0 {
      SegmentHolds(r0, v, pgd, h, image, f0, pages);
      forall x: nat | x < |r| && Pmm.CoverAll(f0, 10, x / PAGE) == 0 ensures r[x] == r0[x] {
        FilledElsewhere(r0, v, pgd, h, image, f0, x);
      }
    }
  }

  // A segment reads as it should exactly when its address is page-aligned or the page it begins in was mapped before:
  // otherwise that page is not mapped at all.
  lemma HoldsExactly(v0: PageTables.View, r0: seq<Byte>, f0: seq<seq<nat>>, v: PageTables.View, f: seq<seq<nat>>,
                     pgd: nat, h: Phdr, image: seq<Byte>, pages: nat)
    requires SegmentMapped(v0, f0, v, f, pgd, h, pages) && Own(v0, pgd, f0, pages) && Fits(h, image)
    requires |r0| == pages * PAGE && h.memsz > 0
    ensures Holds(v, Filled(r0, v, pgd, h, image), pgd, h, image) <==>
            h.vaddr % PAGE == 0 || v0[(pgd, h.vaddr / PAGE)].To?
  {
    hide Goes, Want, Filled, Covers, Backed, InMemory, Placed;
    if h.vaddr % PAGE == 0 {
      SegmentHolds(r0, v, pgd, h, image, f0, pages);
    } else {
      UnalignedPage(h, 0);
      assert PageOf(h, 0) == h.vaddr / PAGE && v[(pgd, h.vaddr / PAGE)] == v0[(pgd, h.vaddr / PAGE)];
      if v0[(pgd, h.vaddr / PAGE)].To? {
        JoinedPlaced(v, pgd, h, f0, pages);
        PlacedHolds(r0, v, pgd, h, image);
      }
    }
  }

  lemma NothingWritten(ram: seq<Byte>, ts: seq<nat>, bytes: seq<Byte>)
    requires |ts| == |bytes|
    ensures Written(ram, ts[..0], bytes[..0]) == ram
  {
  }

  // What loading one segment does: only its own pages are mapped anew; it reads as it should exactly when it is aligned
  // or begins in a page that was mapped; and for an aligned one no byte of a page that was in use changes.
  ghost predicate SegmentLoaded(v0: PageTables.View, r0: seq<Byte>, f0: seq<seq<nat>>, v: PageTables.View, r: seq<Byte>,
                                f: seq<seq<nat>>, pgd: nat, h: Phdr, image: seq<Byte>, pages: nat)
  {
    && PageTables.Total(v0) && PageTables.Total(v) && |f0| == |f| == 10 && |r| == |r0| == pages * PAGE && Fits(h, image)
    && (forall root: nat, page: nat | page < PageTables.PAGES && (root != pgd || !Covers(h, page)) ::
       v[(root, page)] == v0[(root, page)])
    && (Own(v0, pgd, f0, pages) ==> Own(v, pgd, f, pages))
    && (forall page: nat :: Pmm.CoverAll(f, 10, page) <= Pmm.CoverAll(f0, 10, page))
    && (h.vaddr % PAGE == 0 ==>
          && Holds(v, r, pgd, h, image)
          && (forall x: nat | x < |r| && Pmm.CoverAll(f0, 10, x / PAGE) == 0 :: r[x] == r0[x]))
    && (Own(v0, pgd, f0, pages) && h.memsz > 0 ==>
          (Holds(v, r, pgd, h, image) <==> h.vaddr % PAGE == 0 || v0[(pgd, h.vaddr / PAGE)].To?))
  }

  // ----- Modules

  // The areas of the largest order that loading may take.
  function NeedOf(h: Phdr): nat { if h.load then PageTables.AddressSpaces.Need(PageCount(h)) else 0 }

  function NeedAll(headers: seq<Phdr>): nat {
    if headers == [] then 0 else NeedAll(headers[..|headers| - 1]) + NeedOf(headers[|headers| - 1])
  }

  lemma {:induction false} NeedPrefix(headers: seq<Phdr>, i: nat)
    requires i <= |headers|
    ensures NeedAll(headers[..i]) <= NeedAll(headers)
    decreases |headers|
  {
    if i < |headers| {
      NeedPrefix(headers[..|headers| - 1], i);
      assert headers[..|headers| - 1][..i] == headers[..i];
    } else {
      assert headers[..i] == headers;
    }
  }

  lemma NeedGrows(headers: seq<Phdr>, i: nat)
    requires i < |headers|
    ensures NeedAll(headers[..i + 1]) == NeedAll(headers[..i]) + NeedOf(headers[i])
    ensures NeedAll(headers[..i + 1]) <= NeedAll(headers)
  {
    assert headers[..i + 1][..i] == headers[..i];
    NeedPrefix(headers, i + 1);
  }

  function StartOf(h: Phdr): nat { if h.load then h.vaddr else TOP }

  function EndOf(h: Phdr): nat { if h.load then h.vaddr + h.memsz else 0 }

  function LowestStart(headers: seq<Phdr>): nat {
    if headers == [] then TOP else Min(LowestStart(headers[..|headers| - 1]), StartOf(headers[|headers| - 1]))
  }

  function HighestEnd(headers: seq<Phdr>): nat {
    if headers == [] then 0 else Max(HighestEnd(headers[..|headers| - 1]), EndOf(headers[|headers| - 1]))
  }

  // The extent of the program: no segment reaches outside it, and its ends are those of segments.
  lemma {:induction false} Extent(headers: seq<Phdr>)
    ensures forall i | 0 <= i < |headers| && headers[i].load ::
              LowestStart(headers) <= headers[i].vaddr && headers[i].vaddr + headers[i].memsz <= HighestEnd(headers)
    ensures LowestStart(headers) == TOP || exists i ::
            0 <= i < |headers| && headers[i].load && headers[i].vaddr == LowestStart(headers)
    ensures HighestEnd(headers) == 0 || exists i ::
            0 <= i < |headers| && headers[i].load && headers[i].vaddr + headers[i].memsz == HighestEnd(headers)
  {
    if headers != [] {
      var k := |headers| - 1;
      var front := headers[..k];
      Extent(front);
      forall i | 0 <= i < |headers| && headers[i].load
        ensures LowestStart(headers) <= headers[i].vaddr && headers[i].vaddr + headers[i].memsz <= HighestEnd(headers)
      {
        if i < k { assert front[i] == headers[i]; }
      }
      if LowestStart(front) != TOP {
        var i :| 0 <= i < |front| && front[i].load && front[i].vaddr == LowestStart(front);
        assert headers[i] == front[i];
      }
      if HighestEnd(front) != 0 {
        var i :| 0 <= i < |front| && front[i].load && front[i].vaddr + front[i].memsz == HighestEnd(front);
        assert headers[i] == front[i];
      }
    }
  }

  lemma OneMore(headers: seq<Phdr>, i: nat)
    requires i < |headers|
    ensures LowestStart(headers[..i + 1]) == Min(LowestStart(headers[..i]), StartOf(headers[i]))
    ensures HighestEnd(headers[..i + 1]) == Max(HighestEnd(headers[..i]), EndOf(headers[i]))
  {
    assert headers[..i + 1][..i] == headers[..i];
  }

  // What the loader counts on: aligned segments, no two in one page, all above the kernel's own 32 MB.
  ghost predicate Laid(headers: seq<Phdr>) {
    && (forall i | 0 <= i < |headers| && headers[i].load ::
       headers[i].vaddr % PAGE == 0 && headers[i].vaddr >= RESERVED)
    && (forall i, j, page: nat | 0 <= i < j < |headers| && headers[i].load && headers[j].load
       && Covers(headers[i], page) ::
          !Covers(headers[j], page))
  }

  ghost predicate Fewer(f0: seq<seq<nat>>, f: seq<seq<nat>>) {
    && |f0| == |f| == 10 && forall page: nat :: Pmm.CoverAll(f, 10, page) <= Pmm.CoverAll(f0, 10, page)
  }

  // The first k segments are in place; no other address space and no byte that was in use has changed.
  ghost predicate Loading(v0: PageTables.View, r0: seq<Byte>, f0: seq<seq<nat>>, v: PageTables.View, r: seq<Byte>,
                          pgd: nat, headers: seq<Phdr>, k: nat, image: seq<Byte>)
  {
    && PageTables.Total(v0) && PageTables.Total(v) && |f0| == 10 && |r| == |r0| && k <= |headers|
    && (forall root: nat, page: nat | page < PageTables.PAGES && root != pgd :: v[(root, page)] == v0[(root, page)])
    && (Laid(headers) ==>
          && (forall j | 0 <= j < k && headers[j].load ::
             Fits(headers[j], image) && Holds(v, r, pgd, headers[j], image))
          && (forall x: nat | x < |r| && Pmm.CoverAll(f0, 10, x / PAGE) == 0 :: r[x] == r0[x]))
  }

  lemma NothingLoaded(v: PageTables.View, r: seq<Byte>, f: seq<seq<nat>>, pgd: nat, headers: seq<Phdr>,
                      image: seq<Byte>)
    requires PageTables.Total(v) && |f| == 10
    ensures Loading(v, r, f, v, r, pgd, headers, 0, image) && LowestStart(headers[..0]) == TOP
            && HighestEnd(headers[..0]) == 0
  {
  }

  // A loaded segment stays as it is while another one is loaded.
  lemma StillHolds(v: PageTables.View, r: seq<Byte>, f: seq<seq<nat>>, w: PageTables.View, q: seq<Byte>,
                   g: seq<seq<nat>>, pgd: nat, h: Phdr, other: Phdr, image: seq<Byte>, pages: nat)
    requires SegmentLoaded(v, r, f, w, q, g, pgd, other, image, pages) && other.vaddr % PAGE == 0
    requires Fits(h, image) && h.vaddr % PAGE == 0 && Holds(v, r, pgd, h, image) && Own(v, pgd, f, pages)
    requires forall page: nat | Covers(h, page) :: !Covers(other, page)
    ensures Holds(w, q, pgd, h, image)
  {
    hide Want, Pmm.CoverAll, Goes, Target, Own, Covers;
    forall i: nat | i < h.memsz
      ensures w[(pgd, PageOf(h, i) % PageTables.PAGES)].To? && Goes(w, pgd, h, i) < |q|
              && q[Goes(w, pgd, h, i)] == Want(h, image, i)
    {
      StillByte(v, r, f, w, q, g, pgd, h, other, image, pages, i);
    }
  }

  lemma StillByte(v: PageTables.View, r: seq<Byte>, f: seq<seq<nat>>, w: PageTables.View, q: seq<Byte>,
                  g: seq<seq<nat>>, pgd: nat, h: Phdr, other: Phdr, image: seq<Byte>, pages: nat, i: nat)
    requires SegmentLoaded(v, r, f, w, q, g, pgd, other, image, pages) && other.vaddr % PAGE == 0
    requires Fits(h, image) && h.vaddr % PAGE == 0 && Own(v, pgd, f, pages) && i < h.memsz
    requires v[(pgd, PageOf(h, i) % PageTables.PAGES)].To? && Goes(v, pgd, h, i) < |r|
    requires forall page: nat | Covers(h, page) :: !Covers(other, page)
    ensures w[(pgd, PageOf(h, i) % PageTables.PAGES)].To?
    ensures Goes(w, pgd, h, i) == Goes(v, pgd, h, i) && |q| == |r| && q[Goes(v, pgd, h, i)] == r[Goes(v, pgd, h, i)]
  {
    hide Pmm.CoverAll, Holds;
    AlignedPage(h, i);
    var page := PageOf(h, i);
    assert page < PageTables.PAGES && Covers(h, page);
    assert w[(pgd, page)] == v[(pgd, page)];
    var frame := v[(pgd, page)].frame;
    assert Goes(v, pgd, h, i) == frame * PAGE + (h.vaddr + i) % PAGE;
    assert (frame * PAGE + (h.vaddr + i) % PAGE) / PAGE == frame;
  }

  lemma LoadedMore(v0: PageTables.View, r0: seq<Byte>, f0: seq<seq<nat>>, v: PageTables.View, r: seq<Byte>,
                   f: seq<seq<nat>>, w: PageTables.View, q: seq<Byte>, g: seq<seq<nat>>, pgd: nat, headers: seq<Phdr>,
                   k: nat, image: seq<Byte>, pages: nat)
    requires k < |headers| && Loading(v0, r0, f0, v, r, pgd, headers, k, image) && |f| == 10 && Own(v, pgd, f, pages)
             && Fewer(f0, f)
    requires PageTables.Total(w) && |g| == 10
    requires if headers[k].load then SegmentLoaded(v, r, f, w, q, g, pgd, headers[k], image, pages)
                                     else w == v && q == r && g == f
    ensures Loading(v0, r0, f0, w, q, pgd, headers, k + 1, image) && Own(w, pgd, g, pages) && Fewer(f0, g)
  {
    hide Holds, Own, Covers, Pmm.CoverAll;
    if headers[k].load && Laid(headers) {
      forall j | 0 <= j < k && headers[j].load ensures Holds(w, q, pgd, headers[j], image) {
        Parted(headers, j, k);
        StillHolds(v, r, f, w, q, g, pgd, headers[j], headers[k], image, pages);
      }
    }
  }

  lemma Parted(headers: seq<Phdr>, j: nat, k: nat)
    requires Laid(headers) && j < k < |headers| && headers[j].load && headers[k].load
    ensures forall page: nat | Covers(headers[j], page) :: !Covers(headers[k], page)
  {
  }

  lemma NoRootNoLeaf(tables: PageTables.Tables, root: nat, page: nat)
    requires PageTables.Rooted(tables) && PageTables.Key(root, 0, 0) !in tables && page < PageTables.PAGES
    ensures PageTables.LeafKey(root, page) !in tables
  {
    PageTables.PathIn(tables, root, page);
    var k := PageTables.Key(root, 1, page / 512 / 512 / 512);
    assert PageTables.Parent(k) == PageTables.Key(root, 0, 0);
  }

  lemma KernelMapped(v0: PageTables.View, r0: seq<Byte>, f0: seq<seq<nat>>, v: PageTables.View, w: PageTables.View,
                     r: seq<Byte>, pgd: nat, headers: seq<Phdr>, image: seq<Byte>)
    requires Loading(v0, r0, f0, v, r, pgd, headers, |headers|, image)
    requires w == PageTables.MapRange(v, pgd, 0, 0, RESERVED / PAGE)
    ensures Loading(v0, r0, f0, w, r, pgd, headers, |headers|, image)
    ensures forall page: nat | page < RESERVED / PAGE :: w[(pgd, page)] == PageTables.To(page)
  {
    hide Want, Pmm.CoverAll, PageTables.MapRange;
    forall root: nat, page: nat | page < PageTables.PAGES
      ensures w[(root, page)] == if root == pgd && page < RESERVED / PAGE then PageTables.To(page) else v[(root, page)]
    {
      PageTables.MapRangeExact(v, pgd, 0, 0, RESERVED / PAGE, root, page);
      assert PageTables.Offset(page, 0) == page;
    }
    if Laid(headers) {
      forall j | 0 <= j < |headers| && headers[j].load ensures Holds(w, r, pgd, headers[j], image) {
        AboveKernel(v, w, r, pgd, headers[j], image);
      }
    }
  }

  lemma AboveKernel(v: PageTables.View, w: PageTables.View, r: seq<Byte>, pgd: nat, h: Phdr, image: seq<Byte>)
    requires PageTables.Total(v) && PageTables.Total(w) && Fits(h, image) && h.vaddr >= RESERVED
             && Holds(v, r, pgd, h, image)
    requires forall page: nat | RESERVED / PAGE <= page < PageTables.PAGES :: w[(pgd, page)] == v[(pgd, page)]
    ensures Holds(w, r, pgd, h, image)
  {
    hide Want;
    forall i: nat | i < h.memsz
      ensures w[(pgd, PageOf(h, i))] == v[(pgd, PageOf(h, i))] && PageOf(h, i) < PageTables.PAGES
    {
      assert RESERVED / PAGE <= PageOf(h, i);
    }
    assert forall i: nat | i < h.memsz :: Goes(w, pgd, h, i) == Goes(v, pgd, h, i);
  }
}
