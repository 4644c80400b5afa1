// The identity map the boot loader builds in bulk before entering long mode (setup_paging in
// loader/grub_loader/lm/setup_lm.c): four linear arrays of entries, one after the other, that the
// kernel's own walker reads as one 4-level tree.
module LongMode {
  import opened PageTables

  const PAGE_FRAME: nat := 0x3000  // PAGE_ADDRESS in frames

  function CeilDiv(n: nat, d: nat): nat
    requires d > 0
  {
    (n + d - 1) / d
  }

  // How many tables each level takes, and in which frames the four arrays start.
  datatype Layout = Layout(pages: nat, pts: nat, pds: nat, pdpts: nat, pml4s: nat) {
    function Pdpt0(): nat { PAGE_FRAME + pml4s }
    function Pd0(): nat { Pdpt0() + pdpts }
    function Pt0(): nat { Pd0() + pds }
    function Limit(): nat { Pt0() + pts }
  }

  function LayoutFor(memsz: nat): Layout {
    var pages := CeilDiv(memsz, 4096);
    var pts := CeilDiv(pages, 512);
    var pds := CeilDiv(pts, 512);
    var pdpts := CeilDiv(pds, 512);
    Layout(pages, pts, pds, pdpts, CeilDiv(pdpts, 512))
  }

  // Every level takes as few tables as hold its entries: the last one holds at least one entry, and none is missing.
  // The four arrays lie one behind the other.
  lemma LayoutExactly(memsz: nat)
    ensures var l := LayoutFor(memsz);
            && (l.pages - 1) * 4096 < memsz <= l.pages * 4096 && (l.pts - 1) * 512 < l.pages <= l.pts * 512
            && (l.pds - 1) * 512 < l.pts <= l.pds * 512 && (l.pdpts - 1) * 512 < l.pds <= l.pdpts * 512
            && (l.pml4s - 1) * 512 < l.pdpts <= l.pml4s * 512
            && l.Pdpt0() == PAGE_FRAME + l.pml4s && l.Pd0() == l.Pdpt0() + l.pdpts && l.Pt0() == l.Pd0() + l.pds
            && l.Limit() == l.Pt0() + l.pts
  {
  }

  function EntryFor(no: nat, entries: nat, target: nat): Entry {
    if no < entries then Entry(true, target + no) else ABSENT
  }

  // "tables" tables from frame "start" on, of which the first "entries" entries lead to consecutive frames
  // from "target" on and the others are absent.
  ghost predicate Filled(mem: array2<Entry>, start: nat, tables: nat, entries: nat, target: nat)
    requires mem.Length1 == 512 && start + tables <= mem.Length0
    reads mem
  {
    forall f, j | start <= f < start + tables && 0 <= j < 512 ::
           mem[f, j] == EntryFor((f - start) * 512 + j, entries, target)
  }

  // One of the four nested loops.
  method Fill(mem: array2<Entry>, start: nat, tables: nat, entries: nat, target: nat)
    requires mem.Length1 == 512 && start + tables <= mem.Length0
    modifies mem
    ensures Filled(mem, start, tables, entries, target)
    ensures forall f, j | 0 <= f < mem.Length0 && 0 <= j < 512 && !(start <= f < start + tables) ::
              mem[f, j] == old(mem[f, j])
  {
    var i := 0;
    while i < tables
      invariant 0 <= i <= tables
      invariant Filled(mem, start, i, entries, target)
      invariant forall f, j | 0 <= f < mem.Length0 && 0 <= j < 512 && !(start <= f < start + i) ::
                  mem[f, j] == old(mem[f, j])
    {
      var j := 0;
      while j < 512
        invariant 0 <= j <= 512
        invariant forall f, k | f == start + i && 0 <= k < j :: mem[f, k] == EntryFor(i * 512 + k, entries, target)
        invariant Filled(mem, start, i, entries, target)
        invariant forall f, k | 0 <= f < mem.Length0 && 0 <= k < 512 && !(start <= f <= start + i) ::
                    mem[f, k] == old(mem[f, k])
      {
        var no := i * 512 + j;
        mem[start + i, j] := ABSENT;
        if no < entries {
          mem[start + i, j] := Entry(true, target + no);
        }
        j := j + 1;
      }
      i := i + 1;
    }
  }

  // The four arrays hold what the loops put there.
  ghost predicate Built(mem: array2<Entry>, l: Layout)
    requires mem.Length1 == 512 && l.Limit() <= mem.Length0
    reads mem
  {
    && Filled(mem, PAGE_FRAME, l.pml4s, l.pdpts, l.Pdpt0())
    && Filled(mem, l.Pdpt0(), l.pdpts, l.pds, l.Pd0())
    && Filled(mem, l.Pd0(), l.pds, l.pts, l.Pt0())
    && Filled(mem, l.Pt0(), l.pts, l.pages, 0)
  }

  lemma FilledAt(mem: array2<Entry>, start: nat, tables: nat, entries: nat, target: nat, no: nat)
    requires mem.Length1 == 512 && start + tables <= mem.Length0 && Filled(mem, start, tables, entries, target)
    requires no / 512 < tables
    ensures Read(mem, start + no / 512, no % 512) == EntryFor(no, entries, target)
  {
    assert no / 512 * 512 + no % 512 == no;
  }

  // The kernel's walker, started at the loader's tables, finds every page of memory at its own number and
  // no page beyond.
  lemma IdentityMapped(mem: array2<Entry>, memsz: nat, n: nat)
    requires mem.Length1 == 512 && LayoutFor(memsz).Limit() <= mem.Length0 && Built(mem, LayoutFor(memsz))
    requires LayoutFor(memsz).pml4s == 1 && n < PAGES
    ensures Walk(mem, PAGE_FRAME, n) == if n * 4096 < memsz then To(n) else Missing
  {
    hide Filled, CeilDiv;
    var l := LayoutFor(memsz);
    LayoutExactly(memsz);
    var a, b, c := n / 512 / 512 / 512, n / 512 / 512, n / 512;
    SlotsOf(n);
    Levels(memsz, n);
    FilledAt(mem, PAGE_FRAME, l.pml4s, l.pdpts, l.Pdpt0(), a);
    if a < l.pdpts {
      FilledAt(mem, l.Pdpt0(), l.pdpts, l.pds, l.Pd0(), b);
      if b < l.pds {
        FilledAt(mem, l.Pd0(), l.pds, l.pts, l.Pt0(), c);
        if c < l.pts { FilledAt(mem, l.Pt0(), l.pts, l.pages, 0, n); }
      }
    }
  }

  lemma SlotsOf(n: nat)
    requires n < PAGES
    ensures Slot3(n) == n / 512 / 512 / 512 < 512 && n / 512 / 512 / 512 / 512 == 0
    ensures Slot2(n) == n / 512 / 512 % 512 && Slot1(n) == n / 512 % 512 && Slot0(n) == n % 512
  {
  }

  // A page of memory has its tables at every level.
  lemma Levels(memsz: nat, n: nat)
    ensures var l := LayoutFor(memsz);
            && (n < l.pages ==> n / 512 < l.pts) && (n / 512 < l.pts ==> n / 512 / 512 < l.pds)
            && (n / 512 / 512 < l.pds ==> n / 512 / 512 / 512 < l.pdpts)
  {
    var l := LayoutFor(memsz);
    Above(n, l.pages);
    Above(n / 512, l.pts);
    Above(n / 512 / 512, l.pds);
  }

  lemma Above(n: nat, m: nat)
    ensures n < m ==> n / 512 < CeilDiv(m, 512)
  {
  }

  // setup_paging: the top table's frame and the end of the tables, or nothing when one top table would not do.
  method SetupPaging(mem: array2<Entry>, memsz: nat) returns (ok: bool, top: nat, limit: nat)
    requires mem.Length1 == 512 && LayoutFor(memsz).Limit() <= mem.Length0 && memsz <= 0x1_0000_0000
    modifies mem
    ensures ok <==> memsz > 0
    ensures ok ==> top == PAGE_FRAME && limit == LayoutFor(memsz).Limit() && limit < 0x10_0000
    ensures ok ==> forall n: nat | n < PAGES :: Walk(mem, top, n) == if n * 4096 < memsz then To(n) else Missing
    ensures forall f, j | 0 <= f < mem.Length0 && 0 <= j < 512 && !(PAGE_FRAME <= f < LayoutFor(memsz).Limit()) ::
              mem[f, j] == old(mem[f, j])
  {
    var l := LayoutFor(memsz);
    if l.pml4s != 1 { return false, 0, 0; }
    Fill(mem, l.Pt0(), l.pts, l.pages, 0);
    Fill(mem, l.Pd0(), l.pds, l.pts, l.Pt0());
    Fill(mem, l.Pdpt0(), l.pdpts, l.pds, l.Pd0());
    Fill(mem, PAGE_FRAME, l.pml4s, l.pdpts, l.Pdpt0());
    forall n: nat | n < PAGES
      ensures Walk(mem, PAGE_FRAME, n) == if n * 4096 < memsz then To(n) else Missing
    {
      IdentityMapped(mem, memsz, n);
    }
    return true, PAGE_FRAME, l.Limit();
  }
}
