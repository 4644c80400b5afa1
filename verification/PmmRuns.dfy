// Whole runs of the page allocator, and how it is filled at the start.
module PmmRuns {
  import Pmm
  import Powers

  // ----- Free and allocated pages

  datatype Block = Block(start: nat, count: nat)

  // The free lists and the blocks that are handed out.
  datatype Snapshot = Snapshot(lists: seq<seq<nat>>, blocks: seq<Block>)

  // How many blocks contain the page.
  function Held(blocks: seq<Block>, page: nat): nat {
    if blocks == [] then 0 else Held(blocks[1..], page) + Pmm.One(Pmm.InBlock(page, blocks[0].start, blocks[0].count))
  }

  function HeldPages(blocks: seq<Block>): nat {
    if blocks == [] then 0 else HeldPages(blocks[1..]) + blocks[0].count
  }

  // Every managed page is in exactly one free area or one block, and no other page is in any.
  ghost predicate Partitioned(s: Snapshot, base: nat, total: nat) {
    && |s.lists| == 10 && Pmm.Pages(s.lists, 10) + HeldPages(s.blocks) == total
    && forall page: nat :: Pmm.CoverAll(s.lists, 10, page) + Held(s.blocks, page) ==
                           Pmm.One(Pmm.InBlock(page, base, total))
  }

  lemma {:induction false} HeldSplit(a: seq<Block>, b: seq<Block>, page: nat)
    ensures Held(a + b, page) == Held(a, page) + Held(b, page)
    ensures HeldPages(a + b) == HeldPages(a) + HeldPages(b)
  {
    if a == [] {
      assert a + b == b;
    } else {
      assert (a + b)[1..] == a[1..] + b;
      HeldSplit(a[1..], b, page);
    }
  }

  // A range of pages as a block, if there are any.
  function Part(start: nat, count: nat): seq<Block> { if count == 0 then [] else [Block(start, count)] }

  predicate Within(b: Block, start: nat, count: nat) { b.start <= start && start + count <= b.start + b.count }

  // What is left of a block without a range inside it.
  function Without(b: Block, start: nat, count: nat): seq<Block>
    requires Within(b, start, count)
  {
    Part(b.start, start - b.start) + Part(start + count, b.start + b.count - (start + count))
  }

  lemma HeldWithout(b: Block, start: nat, count: nat, page: nat)
    requires Within(b, start, count)
    ensures Held(Without(b, start, count), page) + Pmm.One(Pmm.InBlock(page, start, count)) ==
            Pmm.One(Pmm.InBlock(page, b.start, b.count))
    ensures HeldPages(Without(b, start, count)) + count == b.count
  {
    HeldSplit(Part(b.start, start - b.start), Part(start + count, b.start + b.count - (start + count)), page);
  }

  lemma HeldReturned(blocks: seq<Block>, k: nat, start: nat, count: nat, page: nat)
    requires k < |blocks| && Within(blocks[k], start, count)
    ensures var left := blocks[..k] + Without(blocks[k], start, count) + blocks[k + 1..];
            && Held(blocks, page) == Held(left, page) + Pmm.One(Pmm.InBlock(page, start, count))
            && HeldPages(blocks) == HeldPages(left) + count
  {
    hide Without;
    var a, b, w := blocks[..k], blocks[k + 1..], Without(blocks[k], start, count);
    assert blocks == a + [blocks[k]] + b;
    HeldSplit(a + [blocks[k]], b, page);
    HeldSplit(a, [blocks[k]], page);
    HeldSplit(a + w, b, page);
    HeldSplit(a, w, page);
    HeldWithout(blocks[k], start, count, page);
  }

  // alloc_pages hands out a block; return_pages takes one back, or any range inside one.
  ghost predicate Allocates(a: Snapshot, b: Snapshot) {
    && |a.lists| == |b.lists| == 10 && b.blocks != [] && b.blocks[1..] == a.blocks
    && Pmm.Added(b.lists, a.lists, b.blocks[0].start, b.blocks[0].count)
  }

  ghost predicate Returns(a: Snapshot, b: Snapshot, k: nat, start: nat, count: nat) {
    && |a.lists| == |b.lists| == 10 && k < |a.blocks| && Within(a.blocks[k], start, count)
    && b.blocks == a.blocks[..k] + Without(a.blocks[k], start, count) + a.blocks[k + 1..]
    && Pmm.Added(a.lists, b.lists, start, count)
  }

  ghost predicate Moves(a: Snapshot, b: Snapshot) {
    Allocates(a, b) || exists k, start, count :: Returns(a, b, k, start, count)
  }

  lemma AllocKeeps(a: Snapshot, b: Snapshot, base: nat, total: nat)
    requires Partitioned(a, base, total) && Allocates(a, b)
    ensures Partitioned(b, base, total)
  {
  }

  lemma ReturnKeeps(a: Snapshot, b: Snapshot, k: nat, start: nat, count: nat, base: nat, total: nat)
    requires Partitioned(a, base, total) && Returns(a, b, k, start, count)
    ensures Partitioned(b, base, total)
  {
    hide Without, Held, HeldPages;
    HeldReturned(a.blocks, k, start, count, 0);
    forall page: nat
      ensures Pmm.CoverAll(b.lists, 10, page) + Held(b.blocks, page) == Pmm.One(Pmm.InBlock(page, base, total))
    {
      HeldReturned(a.blocks, k, start, count, page);
    }
  }

  // Over every run of allocations and valid returns, free areas and blocks partition the managed pages.
  lemma {:induction false} EveryRunPartitions(run: seq<Snapshot>, base: nat, total: nat)
    requires |run| > 0 && Partitioned(run[0], base, total)
    requires forall i, j | 0 <= i && j == i + 1 < |run| :: Moves(run[i], run[j])
    ensures Partitioned(run[|run| - 1], base, total)
  {
    if |run| > 1 {
      var n := |run| - 1;
      EveryRunPartitions(run[..n], base, total);
      var (a, b) := (run[n - 1], run[n]);
      assert Moves(a, b) && run[..n][n - 1] == a;
      if Allocates(a, b) {
        AllocKeeps(a, b, base, total);
      } else {
        var k: nat, start: nat, count: nat :| Returns(a, b, k, start, count);
        ReturnKeeps(a, b, k, start, count, base, total);
      }
    }
  }

  // The methods of the allocator make such moves.
  method Alloc(pmm: Pmm.Allocator, order: nat, ghost blocks: seq<Block>) returns (start: nat, ghost now: seq<Block>)
    requires pmm.Valid() && pmm.HasArea(order)
    modifies pmm.lists
    ensures now == [Block(start, Powers.Pow2(order))] + blocks
    ensures Moves(Snapshot(old(pmm.lists[..]), blocks), Snapshot(pmm.lists[..], now))
  {
    start := pmm.AllocPages(order);
    now := [Block(start, Powers.Pow2(order))] + blocks;
    assert now[1..] == blocks;
    assert Allocates(Snapshot(old(pmm.lists[..]), blocks), Snapshot(pmm.lists[..], now));
  }

  method Return(pmm: Pmm.Allocator, start: nat, count: nat, ghost blocks: seq<Block>, ghost k: nat)
    returns (ghost now: seq<Block>)
    requires pmm.Valid() && k < |blocks| && Within(blocks[k], start, count)
    modifies pmm.lists
    ensures now == blocks[..k] + Without(blocks[k], start, count) + blocks[k + 1..]
    ensures Moves(Snapshot(old(pmm.lists[..]), blocks), Snapshot(pmm.lists[..], now))
  {
    pmm.ReturnPages(start, count);
    now := blocks[..k] + Without(blocks[k], start, count) + blocks[k + 1..];
    assert Returns(Snapshot(old(pmm.lists[..]), blocks), Snapshot(pmm.lists[..], now), k, start, count);
  }

  // ----- init_pmm

  // The loops of init_pmm: after an area of less than 512 pages the next one starts two pages further on,
  // whatever its size.
  function Filled(lists: seq<seq<nat>>, start: nat, pages: nat, i: nat): (r: seq<seq<nat>>)
    requires |lists| == 10 && i <= 9
    ensures |r| == 10
    decreases 9 - i, pages
  {
    if i == 9 then
      if pages == 0 then lists else Filled(lists[9 := lists[9] + [start]], start + Powers.Pow2(9), pages - 1, 9)
    else if pages % 2 != 0 then Filled(lists[i := lists[i] + [start]], start + 2, pages / 2, i + 1)
    else Filled(lists, start, pages / 2, i + 1)
  }

  // Every area that another one follows is as long as the step behind it.
  predicate InStep(pages: nat, i: nat)
    requires i <= 9
    decreases 9 - i
  {
    i == 9 || ((pages % 2 != 0 ==> pages / 2 == 0 || i == 1) && InStep(pages / 2, i + 1))
  }

  method InitPmm(pmm: Pmm.Allocator, start0: nat, pages0: nat)
    requires pmm.Valid()
    modifies pmm.lists
    ensures pmm.lists[..] == Filled(old(pmm.lists[..]), start0, pages0, 0)
  {
    hide Pmm.Added, Pmm.CoverAll, Pmm.Pages;
    var start: nat, pages: nat, i := start0, pages0, 0;
    while i < Pmm.MAX_ORDER
      invariant 0 <= i <= 9 && Filled(pmm.lists[..], start, pages, i) == Filled(old(pmm.lists[..]), start0, pages0, 0)
    {
      if pages % 2 != 0 {
        pmm.AddFreeArea(i, start);
        start := start + 2;
      }
      pages := pages / 2;
      i := i + 1;
    }
    while pages > 0
      invariant Filled(pmm.lists[..], start, pages, 9) == Filled(old(pmm.lists[..]), start0, pages0, 0)
    {
      pmm.AddFreeArea(Pmm.MAX_ORDER, start);
      start := start + Powers.Pow2(9);
      pages := pages - 1;
    }
  }

  // What the rest of the loops adds to one page.
  function Gain(lists: seq<seq<nat>>, start: nat, pages: nat, i: nat, page: nat): int
    requires |lists| == 10 && i <= 9
  {
    Pmm.CoverAll(Filled(lists, start, pages, i), 10, page) - Pmm.CoverAll(lists, 10, page)
  }

  // One area, then the rest.
  lemma GainOne(lists: seq<seq<nat>>, start: nat, pages: nat, i: nat, page: nat)
    requires |lists| == 10 && i <= 9 && if i < 9 then pages % 2 != 0 else pages > 0
    ensures Gain(lists, start, pages, i, page) == Pmm.One(Pmm.InBlock(page, start, Powers.Pow2(i))) +
              if i < 9 then Gain(lists[i := lists[i] + [start]], start + 2, pages / 2, i + 1, page)
              else Gain(lists[i := lists[i] + [start]], start + Powers.Pow2(9), pages - 1, 9, page)
  {
    hide Pmm.CoverAll, Pmm.Pages, Powers.Pow2;
    Pmm.AreaAdded(lists, i, start);
    assert Pmm.CoverAll(lists[i := lists[i] + [start]], 10, page) ==
           Pmm.CoverAll(lists, 10, page) + Pmm.One(Pmm.InBlock(page, start, Powers.Pow2(i)));
  }

  lemma {:induction false} NothingBefore(lists: seq<seq<nat>>, start: nat, pages: nat, i: nat, page: nat)
    requires |lists| == 10 && i <= 9 && page < start
    ensures Gain(lists, start, pages, i, page) == 0
    decreases 9 - i, pages
  {
    if i == 9 && pages == 0 {
    } else if i < 9 && pages % 2 == 0 {
      NothingBefore(lists, start, pages / 2, i + 1, page);
    } else {
      GainOne(lists, start, pages, i, page);
      var next := lists[i := lists[i] + [start]];
      if i < 9 { NothingBefore(next, start + 2, pages / 2, i + 1, page); }
      else { NothingBefore(next, start + Powers.Pow2(9), pages - 1, 9, page); }
    }
  }

  lemma {:induction false} FirstCovered(lists: seq<seq<nat>>, start: nat, pages: nat, i: nat)
    requires |lists| == 10 && i <= 9 && pages > 0
    ensures Gain(lists, start, pages, i, start) == 1
    decreases 9 - i, pages
  {
    if i < 9 && pages % 2 == 0 {
      FirstCovered(lists, start, pages / 2, i + 1);
    } else {
      GainOne(lists, start, pages, i, start);
      var next := lists[i := lists[i] + [start]];
      if i < 9 { NothingBefore(next, start + 2, pages / 2, i + 1, start); }
      else { NothingBefore(next, start + Powers.Pow2(9), pages - 1, 9, start); }
    }
  }

  lemma {:induction false} InStepCovers(lists: seq<seq<nat>>, start: nat, pages: nat, i: nat, page: nat)
    requires |lists| == 10 && i <= 9 && InStep(pages, i)
    ensures Gain(lists, start, pages, i, page) == Pmm.One(Pmm.InBlock(page, start, Pmm.Whole(pages, i)))
    decreases 9 - i, pages
  {
    hide Pmm.CoverAll, Pmm.Whole, Gain;
    if pages == 0 {
      Empty(lists, start, i, page);
      Pmm.WholeBasics(0, i);
    } else if i < 9 && pages % 2 == 0 {
      Pmm.Digit(pages, i);
      SameGain(lists, start, pages, i, page);
      InStepCovers(lists, start, pages / 2, i + 1, page);
    } else {
      GainOne(lists, start, pages, i, page);
      var next := lists[i := lists[i] + [start]];
      if i < 9 {
        Pmm.Digit(pages, i);
        InStepCovers(next, start + 2, pages / 2, i + 1, page);
        Pmm.WholeBasics(0, i + 1);
        assert Powers.Pow2(1) == 2;
      } else {
        Pmm.OneUnit(pages, 9);
        InStepCovers(next, start + Powers.Pow2(9), pages - 1, 9, page);
      }
    }
  }

  lemma SameGain(lists: seq<seq<nat>>, start: nat, pages: nat, i: nat, page: nat)
    requires |lists| == 10 && i < 9 && pages % 2 == 0
    ensures Gain(lists, start, pages, i, page) == Gain(lists, start, pages / 2, i + 1, page)
  {
  }

  lemma {:induction false} Empty(lists: seq<seq<nat>>, start: nat, i: nat, page: nat)
    requires |lists| == 10 && i <= 9
    ensures Gain(lists, start, 0, i, page) == 0
    decreases 9 - i
  {
    if i < 9 { Empty(lists, start, i + 1, page); }
  }

  // Out of step, some page of the range is in no area or in two.
  lemma {:induction false} OutOfStep(lists: seq<seq<nat>>, start: nat, pages: nat, i: nat) returns (page: nat)
    requires |lists| == 10 && i <= 9 && !InStep(pages, i)
    ensures Gain(lists, start, pages, i, page) != Pmm.One(Pmm.InBlock(page, start, Pmm.Whole(pages, i)))
    decreases 9 - i
  {
    hide Pmm.CoverAll, Pmm.Whole, Gain;
    Pmm.Digit(pages, i);
    if pages % 2 == 0 {
      page := OutOfStep(lists, start, pages / 2, i + 1);
      SameGain(lists, start, pages, i, page);
    } else {
      var next := lists[i := lists[i] + [start]];
      if pages / 2 > 0 && i == 0 {
        page := start + 1;
        GainOne(lists, start, pages, i, page);
        NothingBefore(next, start + 2, pages / 2, i + 1, page);
        AtLeast(pages / 2, i + 1);
      } else if pages / 2 > 0 && i > 1 {
        page := start + 2;
        GainOne(lists, start, pages, i, page);
        FirstCovered(next, start + 2, pages / 2, i + 1);
        Powers.Pow2Monotone(2, i);
        assert Powers.Pow2(2) == 4;
      } else {
        page := OutOfStep(next, start + 2, pages / 2, i + 1);
        GainOne(lists, start, pages, i, page);
        assert Powers.Pow2(1) == 2;
        Pmm.WholeBasics(0, i + 1);
        if pages / 2 == 0 { ZeroInStep(i + 1); }
      }
    }
  }

  lemma {:induction false} ZeroInStep(i: nat)
    requires i <= 9
    ensures InStep(0, i)
    decreases 9 - i
  {
    if i < 9 { ZeroInStep(i + 1); }
  }

  lemma AtLeast(pages: nat, i: nat)
    requires pages > 0
    ensures Pmm.Whole(pages, i) >= 1
  {
    hide Pmm.Whole;
    Pmm.OneUnit(pages, i);
  }

  // From empty lists, init_pmm makes every page of the managed range free exactly once, and no other page, if and
  // only if the page count is in step.
  lemma InitExactly(lists: seq<seq<nat>>, start: nat, pages: nat)
    requires |lists| == 10 && forall i | 0 <= i < 10 :: lists[i] == []
    ensures (forall page: nat :: Pmm.CoverAll(Filled(lists, start, pages, 0), 10, page) ==
                                 Pmm.One(Pmm.InBlock(page, start, pages)))
            <==> InStep(pages, 0)
  {
    Pmm.WholeBasics(pages, 0);
    forall page: nat ensures Pmm.CoverAll(lists, 10, page) == 0 { Pmm.NothingFree(lists, 10, page); }
    hide Pmm.CoverAll, Pmm.Whole, Filled;
    if InStep(pages, 0) {
      forall page: nat
        ensures Pmm.CoverAll(Filled(lists, start, pages, 0), 10, page) == Pmm.One(Pmm.InBlock(page, start, pages))
      {
        InStepCovers(lists, start, pages, 0, page);
      }
    } else {
      var page := OutOfStep(lists, start, pages, 0);
      assert Pmm.CoverAll(Filled(lists, start, pages, 0), 10, page) != Pmm.One(Pmm.InBlock(page, start, pages));
    }
  }

  // One binary digit of the page count.
  lemma StepOf(pages: nat, i: nat) returns (half: nat, bit: nat)
    requires i < 9
    ensures pages == 2 * half + bit && bit <= 1
    ensures InStep(pages, i) <==> (bit == 1 ==> half == 0 || i == 1) && InStep(half, i + 1)
    ensures InStep(half, 9)
  {
    half, bit := pages / 2, pages % 2;
  }

  // The areas of the orders from 2 on.
  lemma HighInStep(p2: nat)
    requires p2 >= 128
    ensures InStep(p2, 2) <==> p2 % 128 == 0
  {
    hide InStep;
    var p3, b2 := StepOf(p2, 2);
    var p4, b3 := StepOf(p3, 3);
    var p5, b4 := StepOf(p4, 4);
    var p6, b5 := StepOf(p5, 5);
    var p7, b6 := StepOf(p6, 6);
    var p8, b7 := StepOf(p7, 7);
    var p9, b8 := StepOf(p8, 8);
    LowBits(p2, p9, b2 + 2 * b3 + 4 * b4 + 8 * b5 + 16 * b6 + 32 * b7 + 64 * b8);
  }

  lemma LowBits(pages: nat, q: nat, low: nat)
    ensures pages == 128 * q + low && low < 128 ==> pages % 128 == low
    ensures pages == 512 * q + low && low < 512 ==> pages % 512 == low
  {
  }

  // With at least one 2 MB area to follow, that means a multiple of 512 pages, or two more than one.
  lemma InStepMeans(pages: nat)
    requires pages >= 512
    ensures InStep(pages, 0) <==> pages % 512 == 0 || pages % 512 == 2
  {
    hide InStep;
    var p1, b0 := StepOf(pages, 0);
    var p2, b1 := StepOf(p1, 1);
    HighInStep(p2);
    LowBits(pages, p2 / 128, 4 * (p2 % 128) + 2 * b1 + b0);
  }

  // ----- From the start

  lemma {:induction false} FilledPages(lists: seq<seq<nat>>, start: nat, pages: nat, i: nat)
    requires |lists| == 10 && i <= 9
    ensures Pmm.Pages(Filled(lists, start, pages, i), 10) == Pmm.Pages(lists, 10) + Pmm.Whole(pages, i)
    decreases 9 - i, pages
  {
    hide Pmm.CoverAll, Pmm.Pages, Pmm.Whole;
    if i == 9 && pages == 0 {
      Pmm.WholeBasics(0, i);
    } else {
      var next := lists[i := lists[i] + [start]];
      Pmm.AreaAdded(lists, i, start);
      if i == 9 {
        Pmm.OneUnit(pages, 9);
        FilledPages(next, start + Powers.Pow2(9), pages - 1, 9);
      } else {
        Pmm.Digit(pages, i);
        if pages % 2 != 0 { FilledPages(next, start + 2, pages / 2, i + 1); }
        else { FilledPages(lists, start, pages / 2, i + 1); }
      }
    }
  }

  // What init_pmm leaves begins a run, with every managed page free and none handed out, exactly when the page
  // count is in step.
  lemma InitBeginsRun(lists: seq<seq<nat>>, start: nat, pages: nat)
    requires |lists| == 10 && forall i | 0 <= i < 10 :: lists[i] == []
    ensures Partitioned(Snapshot(Filled(lists, start, pages, 0), []), start, pages) <==> InStep(pages, 0)
  {
    hide Pmm.CoverAll, Pmm.Pages, Pmm.Whole, Filled, InStep;
    Pmm.NothingFree(lists, 10, 0);
    Pmm.WholeBasics(pages, 0);
    FilledPages(lists, start, pages, 0);
    InitExactly(lists, start, pages);
    var s := Snapshot(Filled(lists, start, pages, 0), []);
    assert forall page: nat :: Pmm.CoverAll(s.lists, 10, page) + Held(s.blocks, page) ==
                               Pmm.CoverAll(s.lists, 10, page);
  }
}
