// How the kernel heap and the page allocator lean on each other: kmalloc takes pages when nothing fits and
// gives the rest back, and giving pages back needs list nodes from kmalloc.
module HeapGrowth {
  import Heap
  import Pmm
  import Powers

  const ORDER: nat := 6  // ALLOC_PAGE_ORDER: 64 pages, Heap.GROWTH bytes

  // ----- Free room in the heap

  // The size of the largest free segment.
  function Largest(l: Heap.Layout): (n: nat)
    ensures forall i | 0 <= i < |l| && !l[i].used :: l[i].size <= n
    ensures n > 0 ==> exists i :: 0 <= i < |l| && !l[i].used && l[i].size == n
  {
    if l == [] then 0
    else
      var rest := Largest(l[1..]);
      if !l[0].used && l[0].size > rest then
        assert l[0].size > 0;
        l[0].size
      else
        assert forall i | 1 <= i < |l| :: l[i] == l[1..][i - 1];
        assert rest > 0 ==> exists i :: 0 <= i < |l[1..]| && !l[1..][i].used && l[1..][i].size == rest
                                        && l[i + 1] == l[1..][i];
        rest
  }

  predicate HasFit(l: Heap.Layout, size: nat) {
    Heap.FirstFit(l, Heap.Rounded(size + Heap.HEADER)) < |l|
  }

  lemma FitsIn(l: Heap.Layout, size: nat)
    requires Heap.Rounded(size + Heap.HEADER) <= Largest(l)
    ensures HasFit(l, size)
  {
    var i :| 0 <= i < |l| && !l[i].used && l[i].size == Largest(l);
    assert Heap.Fits(l[i], Heap.Rounded(size + Heap.HEADER));
  }

  lemma LargestAtLeast(l: Heap.Layout, i: nat)
    requires i < |l| && !l[i].used
    ensures Largest(l) >= l[i].size
  {
  }

  // One 64-byte node costs the largest segment at most 64 bytes.
  lemma NodeTaken(l: Heap.Layout, k: nat)
    requires k < |l| && Heap.Fits(l[k], 64) && Largest(l) >= 128
    ensures Largest(Heap.Taken(l, k, 64)) >= Largest(l) - 64
  {
    hide Largest, Heap.Taken;
    var i :| 0 <= i < |l| && !l[i].used && l[i].size == Largest(l);
    var m := Heap.Taken(l, k, 64);
    if l[k].size - 64 >= 64 {
      Heap.TakenAt(l, k, 64);
      LargestAtLeast(m, if i < k then i else i + 1);
    } else {
      Heap.TakenWhole(l, k, 64);
      LargestAtLeast(m, i);
    }
  }

  // A new area leaves a free segment at least as large as itself.
  lemma GrownRoom(l: Heap.Layout, addr: nat)
    ensures Largest(Heap.Grown(l, addr)) >= Heap.GROWTH
  {
    var m := l + [Heap.Block(addr, Heap.GROWTH, false)];
    if |l| > 0 && Heap.Joinable(m[|l| - 1], m[|l|]) {
      Heap.JoinedAt(m, |l| - 1);
      LargestAtLeast(Heap.Joined(m, |l| - 1), |l| - 1);
    } else {
      LargestAtLeast(m, |l|);
    }
  }

  // ----- The bytes the heap holds

  ghost predicate Holds(l: Heap.Layout, a: nat) {
    exists i :: 0 <= i < |l| && In(l[i], a)
  }

  predicate In(b: Heap.Block, a: nat) { b.addr <= a < b.addr + b.size }

  lemma HoldsTaken(l: Heap.Layout, k: nat, need: nat, a: nat)
    requires k < |l| && Heap.Fits(l[k], need)
    ensures Holds(Heap.Taken(l, k, need), a) <==> Holds(l, a)
  {
    hide Heap.Taken;
    var m := Heap.Taken(l, k, need);
    if l[k].size - need >= 64 {
      Heap.TakenAt(l, k, need);
      if i: nat :| i < |l| && In(l[i], a) {
        assert In(m[if i < k || (i == k && a < l[k].addr + need) then i else i + 1], a);
      }
      if i: nat :| i < |m| && In(m[i], a) {
        assert In(l[if i <= k then i else i - 1], a);
      }
    } else {
      Heap.TakenWhole(l, k, need);
      if i: nat :| i < |l| && In(l[i], a) { assert In(m[i], a); }
      if i: nat :| i < |m| && In(m[i], a) { assert In(l[i], a); }
    }
  }

  lemma HoldsJoined(l: Heap.Layout, k: nat, a: nat)
    requires k + 1 < |l| && Heap.Joinable(l[k], l[k + 1])
    ensures Holds(Heap.Joined(l, k), a) <==> Holds(l, a)
  {
    hide Heap.Joined;
    Heap.JoinedAt(l, k);
    var m := Heap.Joined(l, k);
    if i: nat :| i < |l| && In(l[i], a) {
      assert In(m[if i <= k then i else i - 1], a);
    }
    if i: nat :| i < |m| && In(m[i], a) {
      assert In(l[if i < k || (i == k && a < l[k].addr + l[k].size) then i else i + 1], a);
    }
  }

  // A release keeps the bytes of the heap.
  lemma HoldsFreed(l: Heap.Layout, i: nat, a: nat)
    requires i < |l|
    ensures Holds(Heap.Freed(l, i), a) <==> Holds(l, a)
  {
    hide Heap.Joined;
    var f := l[i := l[i].(used := false)];
    HoldsMarked(l, i, a);
    var m := Heap.WithNext(f, i);
    if i + 1 < |f| && Heap.Joinable(f[i], f[i + 1]) {
      HoldsJoined(f, i, a);
      Heap.JoinedAt(f, i);
    }
    if i > 0 && Heap.Joinable(m[i - 1], m[i]) { HoldsJoined(m, i - 1, a); }
  }

  lemma HoldsMarked(l: Heap.Layout, i: nat, a: nat)
    requires i < |l|
    ensures Holds(l[i := l[i].(used := false)], a) <==> Holds(l, a)
  {
    var f := l[i := l[i].(used := false)];
    if k: nat :| k < |l| && In(l[k], a) { assert In(f[k], a); }
    if k: nat :| k < |f| && In(f[k], a) { assert In(l[k], a); }
  }

  lemma HoldsGrown(l: Heap.Layout, addr: nat, a: nat)
    ensures Holds(Heap.Grown(l, addr), a) <==> Holds(l, a) || addr <= a < addr + Heap.GROWTH
  {
    var x := Heap.Block(addr, Heap.GROWTH, false);
    var m := l + [x];
    if i: nat :| i < |l| && In(l[i], a) { assert In(m[i], a); }
    if In(x, a) { assert In(m[|l|], a); }
    if i: nat :| i < |m| && In(m[i], a) { assert i < |l| ==> In(l[i], a); }
    hide Heap.Joined;
    if |l| > 0 && Heap.Joinable(m[|l| - 1], m[|l|]) { HoldsJoined(m, |l| - 1, a); }
  }

  // ----- The heap and the free lists together

  datatype Memory = Memory(l: Heap.Layout, lists: seq<seq<nat>>)

  ghost function Free(m: Memory, page: nat): nat
    requires |m.lists| == 10
  {
    Pmm.CoverAll(m.lists, 10, page)
  }

  function FreePages(m: Memory): nat
    requires |m.lists| == 10
  {
    Pmm.Pages(m.lists, 10)
  }

  // No page is free twice, and no free page is part of the heap.
  ghost predicate Separate(m: Memory) {
    && |m.lists| == 10
    && (forall page: nat :: Free(m, page) <= 1 && (Free(m, page) > 0 ==> page > 0))
    && (forall a: nat :: Holds(m.l, a) ==> Free(m, a / 4096) == 0)
  }

  // Pages that are neither free nor part of the heap.
  ghost predicate Clear(m: Memory, start: nat, count: nat)
    requires |m.lists| == 10
  {
    && (forall page: nat :: Pmm.InBlock(page, start, count) ==> page > 0 && Free(m, page) == 0)
    && (forall a: nat :: Pmm.InBlock(a / 4096, start, count) ==> !Holds(m.l, a))
  }

  // All that is new in the free lists are pages of the range, and all that is new in the heap was free or is
  // of the range.
  ghost predicate Shifted(was: Memory, now: Memory, start: nat, count: nat) {
    && |was.lists| == |now.lists| == 10
    && (forall page: nat :: Free(now, page) <= Free(was, page) + Pmm.One(Pmm.InBlock(page, start, count)))
    && (forall a: nat :: Holds(now.l, a) ==>
                         Holds(was.l, a) || Free(was, a / 4096) > 0 || Pmm.InBlock(a / 4096, start, count))
    && FreePages(now) <= FreePages(was) + count
  }

  lemma ShiftedMore(a: Memory, b: Memory, c: Memory, start: nat, m: nat, n: nat)
    requires Shifted(a, b, start, m) && Shifted(b, c, start + m, n)
    ensures Shifted(a, c, start, m + n)
  {
  }

  lemma ShiftedNone(a: Memory, b: Memory, start: nat)
    requires Shifted(a, b, 0, 0)
    ensures Shifted(a, b, start, 0)
  {
  }

  lemma StillClear(a: Memory, b: Memory, start: nat, m: nat, n: nat)
    requires |a.lists| == 10 && Clear(a, start, m + n) && Shifted(a, b, start, m)
    ensures Clear(b, start + m, n)
  {
  }

  // ----- The free lists

  // __alloc_free_pages: the lowest list at or above "order" that is not empty, or 10.
  function Lowest(lists: seq<seq<nat>>, order: nat): (k: nat)
    requires |lists| == 10 && order <= 10
    ensures order <= k <= 10 && (k < 10 ==> lists[k] != []) && forall i | order <= i < k :: lists[i] == []
    decreases 10 - order
  {
    if order == 10 || lists[order] != [] then order else Lowest(lists, order + 1)
  }

  // What return_pages leaves when its nodes come without growth.
  function ReturnedFrom(lists: seq<seq<nat>>, start: nat, pages: nat, i: nat): (r: seq<seq<nat>>)
    requires |lists| == 10 && i <= 9
    ensures |r| == 10
    decreases 9 - i, pages
  {
    if i == 9 then
      if pages == 0 then lists else ReturnedFrom(lists[9 := lists[9] + [start]], start + Powers.Pow2(9), pages - 1, 9)
    else if pages % 2 != 0 then
      ReturnedFrom(lists[i := lists[i] + [start]], start + Powers.Pow2(i), pages / 2, i + 1)
    else
      ReturnedFrom(lists, start, pages / 2, i + 1)
  }

  function AreasFrom(pages: nat, i: nat): nat
    requires i <= 9
    decreases 9 - i
  {
    if i == 9 then pages else pages % 2 + AreasFrom(pages / 2, i + 1)
  }

  // What that is, list by list: the areas of the range's binary digits at the tails.
  lemma ReturnedParts(lists: seq<seq<nat>>, start: nat, pages: nat, k: nat)
    requires |lists| == 10 && k <= 9
    ensures ReturnedFrom(lists, start, pages, 0)[k] == lists[k] + Pmm.Parts(start, pages, k)
  {
    Pmm.WholeBasics(pages, 9);
    PartsFrom(lists, start, pages, pages, 0, 0, k);
  }

  lemma {:induction false} PartsFrom(lists: seq<seq<nat>>, start: nat, count: nat, pages: nat, done: nat, i: nat,
                                     k: nat)
    requires |lists| == 10 && i <= 9 && k <= 9 && done < Powers.Pow2(i) && done + Pmm.Whole(pages, i) == count
    ensures ReturnedFrom(lists, start + done, pages, i)[k] ==
            lists[k] + if k < i then [] else Pmm.Parts(start, count, k)
    decreases 9 - i
  {
    hide Pmm.Whole, Pmm.Parts, Powers.Pow2;
    if i == 9 {
      Pmm.LargeParts(start, count, pages, done);
      LargeReturned(lists, start + done, pages);
    } else {
      Pmm.Digit(pages, i);
      Pmm.DigitPart(start, count, i, pages, done);
      if pages % 2 != 0 {
        PartsFrom(lists[i := lists[i] + [start + done]], start, count, pages / 2, done + Powers.Pow2(i), i + 1, k);
      } else {
        PartsFrom(lists, start, count, pages / 2, done, i + 1, k);
      }
    }
  }

  lemma {:induction false} LargeReturned(lists: seq<seq<nat>>, start: nat, pages: nat)
    requires |lists| == 10
    ensures ReturnedFrom(lists, start, pages, 9) == lists[9 := lists[9] + Pmm.Spaced(start, pages)]
    decreases pages
  {
    if pages == 0 {
      assert lists[9] + Pmm.Spaced(start, 0) == lists[9];
    } else {
      Pmm.NinthPower();
      LargeReturned(lists[9 := lists[9] + [start]], start + 512, pages - 1);
      assert [start] + Pmm.Spaced(start + 512, pages - 1) == Pmm.Spaced(start, pages);
      assert lists[9] + [start] + Pmm.Spaced(start + 512, pages - 1) == lists[9] + Pmm.Spaced(start, pages);
    }
  }

  // The place after the tail node that add_free_area remembered, or 0 when that node has left the list.
  function Behind(list: seq<nat>, tail: nat): (k: nat)
    ensures k <= |list| && (k > 0 ==> list[k - 1] == tail) && (k == 0 ==> tail !in list)
  {
    if list == [] then 0 else if list[|list| - 1] == tail then |list| else Behind(list[..|list| - 1], tail)
  }

  // add_free_area reads the list before it asks for the node and links the node afterwards: into an empty list
  // as its only area, otherwise behind the node that was the tail, wherever that is by now.
  function Relinked(was: seq<nat>, now: seq<nat>, start: nat): seq<nat> {
    if was == [] then [start]
    else if Behind(now, was[|was| - 1]) > 0 then now[..Behind(now, was[|was| - 1])] + [start]
    else now
  }

  lemma RelinkedSame(was: seq<nat>, start: nat)
    ensures Relinked(was, was, start) == was + [start]
  {
  }

  lemma RelinkedTail(was: seq<nat>, now: seq<nat>, start: nat)
    requires was != [] && now != [] && now[|now| - 1] == was[|was| - 1]
    ensures Relinked(was, now, start) == now + [start]
  {
    assert now[..|now|] == now;
  }

  lemma {:induction false} CoverPrefix(list: seq<nat>, k: nat, size: nat, page: nat)
    requires k <= |list|
    ensures Pmm.Cover(list[..k], size, page) <= Pmm.Cover(list, size, page)
  {
    if k > 0 {
      CoverPrefix(list[1..], k - 1, size, page);
      assert list[..k][1..] == list[1..][..k - 1];
    }
  }

  lemma RelinkedCover(was: seq<nat>, now: seq<nat>, start: nat, size: nat, page: nat)
    ensures Pmm.Cover(Relinked(was, now, start), size, page) <= Pmm.Cover(now, size, page) +
            Pmm.One(Pmm.InBlock(page, start, size))
    ensures |Relinked(was, now, start)| <= |now| + 1
  {
    if was == [] {
      assert [] + [start] == [start];
      Pmm.CoverAppend([], start, size, page);
    } else {
      var k := Behind(now, was[|was| - 1]);
      Pmm.CoverAppend(now[..k], start, size, page);
      CoverPrefix(now, k, size, page);
    }
  }

  // However the node is linked, at most the area's own pages are added.
  lemma RelinkedShift(m: Memory, was: seq<nat>, order: nat, start: nat)
    requires |m.lists| == 10 && order <= 9
    ensures Shifted(m, Memory(m.l, m.lists[order := Relinked(was, m.lists[order], start)]), start, Powers.Pow2(order))
  {
    var list := Relinked(was, m.lists[order], start);
    var now := Memory(m.l, m.lists[order := list]);
    hide Relinked;
    forall page: nat ensures Free(now, page) <= Free(m, page) + Pmm.One(Pmm.InBlock(page, start, Powers.Pow2(order))) {
      RelinkedCover(was, m.lists[order], start, Powers.Pow2(order), page);
      Pmm.CoverAllUpdate(m.lists, 10, order, list, page);
    }
    RelinkedCover(was, m.lists[order], start, Powers.Pow2(order), 0);
    Pmm.PagesUpdate(m.lists, 10, order, list);
    Times(|list|, |m.lists[order]| + 1, Powers.Pow2(order));
    assert (|m.lists[order]| + 1) * Powers.Pow2(order) == |m.lists[order]| * Powers.Pow2(order) + Powers.Pow2(order);
  }

  lemma Times(a: nat, b: nat, c: nat)
    requires a <= b
    ensures a * c <= b * c
  {
    assert (b - a) * c >= 0;
  }

  lemma SeparateAfter(m: Memory, now: Memory, start: nat, count: nat)
    requires Separate(m) && Clear(m, start, count) && Shifted(m, now, start, count) && now.l == m.l
    ensures Separate(now)
  {
  }

  // The range has left the free lists, and nothing else has.
  ghost predicate TookFree(was: Memory, now: Memory, start: nat, count: nat) {
    && |was.lists| == |now.lists| == 10 && FreePages(was) == FreePages(now) + count
    && forall page: nat :: Free(was, page) == Free(now, page) + Pmm.One(Pmm.InBlock(page, start, count))
  }

  // The taken area: its pages were free, so nothing of the heap is there.
  lemma AreaIsClear(m: Memory, given: nat, start: nat)
    requires Separate(m) && ORDER <= given <= 9 && m.lists[given] != [] && start == m.lists[given][0]
    ensures var now := Memory(m.l, m.lists[given := m.lists[given][1..]]);
            && Clear(now, start, Powers.Pow2(given)) && Separate(now) && Shifted(m, now, 0, 0)
            && TookFree(m, now, start, Powers.Pow2(given))
  {
    Pmm.AreaTaken(m.lists, given, m.lists[given][1..]);
    var now := Memory(m.l, m.lists[given := m.lists[given][1..]]);
    assert forall page: nat :: Free(m, page) == Free(now, page) + Pmm.One(Pmm.InBlock(page, start, Powers.Pow2(given)));
    forall a: nat | Pmm.InBlock(a / 4096, start, Powers.Pow2(given)) ensures !Holds(m.l, a) {
      assert Free(m, a / 4096) > 0;
    }
  }

  lemma BigEnough(given: nat)
    requires ORDER <= given <= 9
    ensures Powers.Pow2(given) >= 64
  {
    assert Powers.Pow2(3) == 8;
    Powers.Pow2Monotone(6, given);
  }

  // An area outside the heap is apart from every segment.
  lemma ClearIsApart(m: Memory, start: nat, count: nat)
    requires |m.lists| == 10 && Clear(m, start, count) && count >= 64 && Heap.WellFormed(m.l)
    ensures forall i | 0 <= i < |m.l| :: Heap.Apart(m.l[i], Heap.Block(start * 4096, Heap.GROWTH, false))
  {
    forall i | 0 <= i < |m.l| ensures Heap.Apart(m.l[i], Heap.Block(start * 4096, Heap.GROWTH, false)) {
      var b := m.l[i];
      assert Heap.Sized(b);
      var a := if b.addr > start * 4096 then b.addr else start * 4096;
      assert In(b, a) ==> Holds(m.l, a);
      assert a < start * 4096 + Heap.GROWTH ==> Pmm.InBlock(a / 4096, start, count);
    }
  }

  lemma AreaJoinsHeap(m: Memory, start: nat, count: nat)
    requires Separate(m) && Clear(m, start, count) && count >= 64
    ensures var now := Memory(Heap.Grown(m.l, start * 4096), m.lists);
            && Separate(now) && Clear(now, start + 64, count - 64)
            && (forall a: nat :: Holds(now.l, a) ==> Holds(m.l, a) || Pmm.InBlock(a / 4096, start, 64))
  {
    forall a: nat
      ensures Holds(Heap.Grown(m.l, start * 4096), a) <==> Holds(m.l, a) || Pmm.InBlock(a / 4096, start, 64)
    {
      HoldsGrown(m.l, start * 4096, a);
      assert start * 4096 <= a < start * 4096 + Heap.GROWTH <==> start <= a / 4096 < start + 64;
    }
    var now := Memory(Heap.Grown(m.l, start * 4096), m.lists);
    assert forall page: nat :: Free(now, page) == Free(m, page);
    forall a: nat | Holds(now.l, a) ensures Free(now, a / 4096) == 0 {
      assert Holds(m.l, a) || Pmm.InBlock(a / 4096, start, count);
    }
    forall a: nat | Pmm.InBlock(a / 4096, start + 64, count - 64) ensures !Holds(now.l, a) {
      assert Pmm.InBlock(a / 4096, start, count);
    }
    forall page: nat | Pmm.InBlock(page, start + 64, count - 64) ensures page > 0 && Free(now, page) == 0 {
      assert Pmm.InBlock(page, start, count);
    }
  }

  // What growing by one area leaves, when the nodes come without growth.
  function GrownLists(lists: seq<seq<nat>>): seq<seq<nat>>
    requires |lists| == 10 && Lowest(lists, ORDER) < 10
  {
    var g := Lowest(lists, ORDER);
    BigEnough(g);
    ReturnedFrom(lists[g := lists[g][1..]], lists[g][0] + 64, Powers.Pow2(g) - 64, 0)
  }

  // The block behind whose header ptr lies is new, and all blocks in use stay.
  ghost predicate HandedOut(was: Heap.Layout, now: Heap.Layout, ptr: nat, size: nat) {
    && Heap.Live(was) <= Heap.Live(now)
    && exists b :: b in Heap.Live(now) && b !in Heap.Live(was) && ptr == b.addr + Heap.HEADER
                   && b.size >= size + Heap.HEADER
  }

  // sizeof(free_area_struct)
  const NODE: nat := 16

  // Memory after an allocation that needs no growth.
  function NodeMade(m: Memory, size: nat): Memory
    requires HasFit(m.l, size)
  {
    var need := Heap.Rounded(size + Heap.HEADER);
    Memory(Heap.Taken(m.l, Heap.FirstFit(m.l, need), need), m.lists)
  }

  // Nothing fits, there is an area to grow by, and the request fits into what one area leaves beside three nodes.
  // The retry adds the header size a second time.
  predicate GrowsOnce(m: Memory, size: nat) {
    && !HasFit(m.l, size) && |m.lists| == 10 && Lowest(m.lists, ORDER) < 10
    && Heap.Rounded(size + 2 * Heap.HEADER) <= Heap.GROWTH - 192
  }

  function AreaAdded(m: Memory, order: nat, start: nat): Memory
    requires |m.lists| == 10 && order <= 9 && HasFit(m.l, NODE)
  {
    Memory(NodeMade(m, NODE).l, m.lists[order := m.lists[order] + [start]])
  }

  // add_free_area when its node makes the heap grow.
  function AddedAroundGrowth(lists: seq<seq<nat>>, order: nat, start: nat): seq<seq<nat>>
    requires |lists| == 10 && order <= 9 && Lowest(lists, ORDER) < 10
  {
    GrownLists(lists)[order := Relinked(lists[order], GrownLists(lists)[order], start)]
  }

  class KernelMemory {
    const heap: Heap.KernelHeap
    const pmm: Pmm.Allocator

    ghost function Now(): (m: Memory)
      requires heap.Linked() && pmm.Valid()
      reads heap, pmm.lists
      ensures |m.lists| == 10
    {
      Memory(heap.Layout(), pmm.lists[..])
    }

    ghost predicate Valid()
      reads heap, pmm.lists
    {
      heap.Valid() && pmm.Valid() && Separate(Now())
    }

    constructor (heap: Heap.KernelHeap, pmm: Pmm.Allocator)
      requires heap.Valid() && pmm.Valid() && Separate(Memory(heap.Layout(), pmm.lists[..]))
      ensures Valid() && this.heap == heap && this.pmm == pmm
    {
      this.heap, this.pmm := heap, pmm;
    }

    // The first half of a growth: an area of at least 64 pages is taken and its first 64 pages join the heap.
    method TakeArea(cur: nat) returns (ok: bool, start: nat, given: nat)
      requires Valid() && heap.chain[|heap.chain| - 1] == cur
      modifies heap, pmm.lists
      ensures ok == (Lowest(old(Now()).lists, ORDER) < 10)
      ensures ok ==> Valid() && given == Lowest(old(Now()).lists, ORDER) && start == old(Now()).lists[given][0]
                     && Powers.Pow2(given) >= 64
      ensures ok ==> Now() == Memory(Heap.Grown(old(Now()).l, start * 4096),
                                     old(Now()).lists[given := old(Now()).lists[given][1..]])
      ensures ok ==> Clear(Now(), start + 64, Powers.Pow2(given) - 64) && Shifted(old(Now()), Now(), 0, 0)
      ensures ok ==> TookFree(old(Now()), Now(), start, Powers.Pow2(given))
    {
      hide Separate, Clear, Shifted, TookFree, Heap.Grown, Heap.Disjoint, Heap.Tight, Heap.Shown, Heap.Chained,
           Pmm.Added, Free, FreePages;
      assert Heap.WellFormed(heap.Layout());
      if !pmm.HasArea(ORDER) { return false, 0, 0; }
      ok := true;
      ghost var m := Now();
      start, given := pmm.AllocFreePages(ORDER);
      LowestIs(m.lists, given);
      AreaTakenIn(m, given, start);
      assert pmm.lists[..] == m.lists[given := m.lists[given][1..]];
      heap.AddArea(cur, start * 4096);
    }

    // The end of kmalloc, with the segment found.
    method TakeHere(cur: nat, size: nat, ghost i: nat) returns (ptr: nat)
      requires Valid() && i < |heap.chain| && heap.chain[i] == cur && HasFit(Now().l, size)
      requires i == Heap.FirstFit(Now().l, Heap.Rounded(size + Heap.HEADER))
      modifies heap
      ensures Valid() && Now() == NodeMade(old(Now()), size)
      ensures Shifted(old(Now()), Now(), 0, 0) && HandedOut(old(Now()).l, Now().l, ptr, size)
    {
      hide Separate, Shifted, HandedOut, Heap.Taken, Heap.Disjoint, Heap.Tight, Heap.Shown, Heap.Chained;
      NodeSound(Now(), size);
      ptr := heap.Take(cur, Heap.Rounded(size + Heap.HEADER), i);
    }

    // kmalloc. It fails only when it must grow and no area of 64 pages is left, or when a growth inside fails.
    method Kmalloc(size: nat) returns (ok: bool, ptr: nat)
      requires Valid()
      modifies heap, pmm.lists
      ensures ok ==> Valid() && Shifted(old(Now()), Now(), 0, 0) && HandedOut(old(Now()).l, Now().l, ptr, size)
      ensures HasFit(old(Now()).l, size) ==> ok && Now() == NodeMade(old(Now()), size)
      ensures GrowsOnce(old(Now()), size) ==> ok && Now().lists == GrownLists(old(Now()).lists)
      ensures GrowsOnce(old(Now()), size) ==> Heap.Total(Now().l) == Heap.Total(old(Now()).l) + Heap.GROWTH
      decreases FreePages(Now()), 1
    {
      hide Separate, Shifted, HandedOut, GrownLists, NodeMade, GrowsOnce, HasFit, FreePages, Heap.Disjoint, Heap.Tight,
           Heap.Total, Heap.Shown, Heap.Chained;
      NoFitGrows(Now(), size);
      var found, cur, i := Search(size);
      if !found {
        ok, ptr := Grow(cur, size);
      } else {
        ptr := TakeHere(cur, size, i);
        ok := true;
      }
    }

    // kfree
    method Kfree(ptr: nat, ghost i: nat)
      requires Valid() && i < |heap.chain| && ptr == heap.chain[i] + Heap.HEADER && Now().l[i].used
      modifies heap
      ensures Valid() && Now() == Memory(Heap.Freed(old(Now()).l, i), old(Now()).lists)
    {
      hide Separate, Heap.Disjoint, Heap.Tight, Heap.Shown, Heap.Chained, Heap.Combined;
      FreedSeparate(Now(), i);
      heap.Kfree(ptr, i);
    }

    // The search, and the test of what it ends at.
    method Search(size: nat) returns (found: bool, cur: nat, ghost i: nat)
      requires Valid()
      ensures found == HasFit(Now().l, size) && i < |heap.chain| && heap.chain[i] == cur
      ensures i == if found then Heap.FirstFit(Now().l, Heap.Rounded(size + Heap.HEADER)) else |heap.chain| - 1
    {
      hide Separate, Heap.Disjoint, Heap.Tight;
      var total := size + Heap.HEADER;
      var need := Heap.Rounded(total);
      cur, i := heap.FindFit(need);
      heap.NextIs(i);
      assert Now().l[i] == Heap.Block(cur, heap.mem[cur].size, heap.mem[cur].used);
      found := !(heap.mem[cur].size < need || heap.mem[cur].used);
    }

    // The other half of kmalloc: the heap grows, what the area has too much goes back, and all is tried again
    // with the size that already has the header in it.
    method Grow(cur: nat, size: nat) returns (ok: bool, ptr: nat)
      requires Valid() && heap.chain[|heap.chain| - 1] == cur && !HasFit(Now().l, size)
      modifies heap, pmm.lists
      ensures ok ==> Valid() && Shifted(old(Now()), Now(), 0, 0) && HandedOut(old(Now()).l, Now().l, ptr, size)
      ensures GrowsOnce(old(Now()), size) ==> ok && Now().lists == GrownLists(old(Now()).lists)
      ensures GrowsOnce(old(Now()), size) ==> Heap.Total(Now().l) == Heap.Total(old(Now()).l) + Heap.GROWTH
      decreases FreePages(Now()), 0
    {
      hide Separate, Shifted, HandedOut, Clear, Largest, AreasFrom, ReturnedFrom, Returned, Roomy, TookFree, Free,
           Powers.Pow2, Heap.Disjoint, Heap.Tight, Heap.Total, Heap.Grown, Heap.FirstFit, Heap.Live, Heap.Taken,
           Heap.Shown, Heap.Chained, HasFit, GrowsOnce, NodeMade, GrownLists, Lowest;
      ghost var m := Now();
      AreaNeeded(m, size);
      var start, given;
      ok, start, given := TakeArea(cur);
      if !ok { return false, 0; }
      ghost var m1 := Now();
      RoomForNodes(m, m1, given, start);
      ok := ReturnPages(start + 64, Powers.Pow2(given) - 64);
      ghost var m2 := Now();
      AfterGrowth(m, m1, m2, given, start, size);
      ok, ptr := Kmalloc(size + Heap.HEADER);
      if ok {
        Finally(m, m2, Now(), ptr, size);
      }
    }

    // add_free_area
    method AddFreeArea(order: nat, start: nat) returns (ok: bool)
      requires Valid() && order <= 9 && Clear(Now(), start, Powers.Pow2(order))
      modifies heap, pmm.lists
      ensures ok ==> Valid() && Shifted(old(Now()), Now(), start, Powers.Pow2(order))
                     && Heap.Live(old(Now()).l) <= Heap.Live(Now().l)
      ensures HasFit(old(Now()).l, NODE) ==> ok && Now() == AreaAdded(old(Now()), order, start)
      ensures GrowsOnce(old(Now()), NODE) ==> ok && Now().lists == AddedAroundGrowth(old(Now()).lists, order, start)
      decreases FreePages(Now()) + Powers.Pow2(order), 0
    {
      hide Separate, Shifted, Clear, GrownLists, Largest, Powers.Pow2, Heap.Disjoint, Heap.Tight, Heap.Total, Heap.Live,
           HasFit, GrowsOnce, Relinked;
      ghost var m := Now();
      var was := pmm.lists[order];
      var node;
      ok, node := Kmalloc(NODE);
      if ok {
        ghost var mid := Now();
        RelinkedSame(was, start);
        AddedSoundly(m, mid, order, start);
        pmm.lists[order] := Relinked(was, pmm.lists[order], start);
        assert pmm.lists[..] == mid.lists[order := Relinked(was, mid.lists[order], start)];
      }
    }

    // return_pages
    method ReturnPages(addr: nat, count: nat) returns (ok: bool)
      requires Valid() && Clear(Now(), addr, count)
      modifies heap, pmm.lists
      ensures ok ==> Valid() && Shifted(old(Now()), Now(), addr, count) && Heap.Live(old(Now()).l) <= Heap.Live(Now().l)
      ensures Roomy(old(Now()), count) ==> ok && Returned(old(Now()), Now(), addr, count)
      decreases FreePages(Now()) + count, 2
    {
      hide Separate, Returning, Roomy, Returned, Clear, Shifted, Free, Pmm.Whole, Powers.Pow2, Heap.Live, Heap.Disjoint,
           Heap.Tight, Heap.Shown, Heap.Chained;
      ghost var m := Now();
      var start, pages, i, unit := addr, count, 0, 1;
      ok := true;
      NothingReturned(m, addr, count);
      while i < 9
        invariant 0 <= i <= 9 && unit == Powers.Pow2(i) && ok
        invariant Valid() && Returning(m, Now(), addr, count, start, pages, i)
      {
        var was := pages;
        if pages % 2 != 0 {
          ok := ReturnOne(m, addr, count, start, pages, i);
          if !ok { return; }
          start := start + unit;
        } else {
          ZeroDigit(m, Now(), addr, count, start, pages, i);
        }
        Pmm.Digit(was, i);
        pages, i, unit := pages / 2, i + 1, 2 * unit;
      }
      while pages > 0
        invariant unit == Powers.Pow2(9) && ok
        invariant Valid() && Returning(m, Now(), addr, count, start, pages, 9)
      {
        ok := ReturnOne(m, addr, count, start, pages, 9);
        if !ok { return; }
        start := start + unit;
        pages := pages - 1;
      }
      AllReturned(m, Now(), addr, count, start);
    }

    // One area of return_pages.
    method ReturnOne(ghost m: Memory, ghost addr: nat, ghost count: nat, start: nat, ghost pages: nat, i: nat)
      returns (ok: bool)
      requires Valid() && i <= 9 && Returning(m, Now(), addr, count, start, pages, i)
      requires if i < 9 then pages % 2 != 0 else pages > 0
      modifies heap, pmm.lists
      ensures ok ==> Valid()
      ensures ok ==> if i < 9 then Returning(m, Now(), addr, count, start + Powers.Pow2(i), pages / 2, i + 1)
                     else Returning(m, Now(), addr, count, start + Powers.Pow2(9), pages - 1, 9)
      ensures Roomy(m, count) ==> ok
      decreases FreePages(m) + count, 1
    {
      hide Separate, Returning, Roomy, Returned, Clear, Shifted, Free, Pmm.Whole, Powers.Pow2, Heap.Live, Heap.Disjoint,
           Heap.Tight, Heap.Shown, Heap.Chained;
      ghost var mid := Now();
      BeforeOne(m, mid, addr, count, start, pages, i);
      ok := AddFreeArea(i, start);
      if ok {
        AfterOne(m, mid, Now(), addr, count, start, pages, i);
      }
    }

    // One call of a caller.
    method Make(call: Call, held: seq<Handle>, ghost start: Heap.Layout) returns (ok: bool, now: seq<Handle>)
      requires Valid() && Holding(start, Now().l, held)
      modifies heap, pmm.lists
      ensures ok ==> Valid() && Holding(start, Now().l, now)
      ensures ok ==> Sizes(now) == SizesNext(call, Sizes(held))
      ensures var areas := BigAreas(old(Now()).lists);
              Modest(call) && areas >= Asked([call]) ==>
                && ok && Bytes(Now()) == Bytes(old(Now())) && BigAreas(Now().lists) + Asked([call]) >= areas
    {
      hide Separate, Shifted, HandedOut, Holding, Owns, Bytes, BigAreas, Modest, Heap.Live, Heap.Freed, Heap.Disjoint,
           Heap.Tight, Heap.Shown, Heap.Chained, HasFit, GrowsOnce, NodeMade, GrownLists;
      ghost var m := Now();
      now := held;
      match call {
        case Ask(size) =>
          var ptr;
          ok, ptr := Kmalloc(size);
          NoNeedOrGrowth(m, size);
          if ok {
            HoldingMore(start, m.l, Now().l, held, ptr, size);
            now := held + [Handle(ptr, size)];
            if Modest(call) && BigAreas(m.lists) > 0 { MallocCost(m, Now(), size); }
          }
        case Release(n) =>
          ok := true;
          if n < |held| {
            HeldThere(start, m.l, held, n);
            ghost var i := Place(start, m.l, held[n]);
            HoldingLess(start, m.l, held, n, i);
            FreedBytes(m, i);
            Kfree(held[n].ptr, i);
            now := held[..n] + held[n + 1..];
          }
      }
    }

    // Any number of them.
    method RunCalls(calls: seq<Call>) returns (ok: bool, held: seq<Handle>)
      requires Valid()
      modifies heap, pmm.lists
      ensures ok ==> Valid() && Holding(old(Now()).l, Now().l, held) && Sizes(held) == SizesLeft(calls, [])
      ensures (forall call <- calls :: Modest(call)) && BigAreas(old(Now()).lists) >= Asked(calls) ==>
                ok && Bytes(Now()) == Bytes(old(Now()))
    {
      hide Separate, Owns, Bytes, BigAreas, Modest, Heap.Live;
      ghost var m, k := Now(), 0;
      ok, held := true, [];
      NothingHeld(m.l);
      var rest := calls;
      assert calls[0..] == calls;
      while rest != []
        invariant ok && k <= |calls| && rest == calls[k..] && Valid() && Holding(m.l, Now().l, held)
        invariant SizesLeft(rest, Sizes(held)) == SizesLeft(calls, [])
        invariant (forall call <- calls :: Modest(call)) && BigAreas(m.lists) >= Asked(calls) ==>
                    Bytes(Now()) == Bytes(m) && BigAreas(Now().lists) >= Asked(rest)
      {
        assert rest[0] == calls[k];
        OneAsked(rest);
        ok, held := Make(rest[0], held, m.l);
        if !ok { return; }
        rest, k := rest[1..], k + 1;
      }
    }
  }

  lemma FreedSeparate(m: Memory, i: nat)
    requires Separate(m) && i < |m.l|
    ensures Separate(Memory(Heap.Freed(m.l, i), m.lists))
  {
    hide Heap.Freed;
    var now := Memory(Heap.Freed(m.l, i), m.lists);
    forall a: nat ensures Holds(now.l, a) <==> Holds(m.l, a) { HoldsFreed(m.l, i, a); }
    assert forall page: nat :: Free(now, page) == Free(m, page);
  }

  // ----- Returning pages, area by area

  // Room for one node for every area, and one to spare.
  predicate Roomy(m: Memory, count: nat) {
    Largest(m.l) >= 64 * AreasFrom(count, 0) + 64
  }

  ghost predicate Returned(was: Memory, now: Memory, addr: nat, count: nat) {
    && |was.lists| == 10 && now.lists == ReturnedFrom(was.lists, addr, count, 0)
    && Heap.Total(now.l) == Heap.Total(was.l)
    && Largest(now.l) + 64 * AreasFrom(count, 0) >= Largest(was.l)
  }

  // The pages before "start" are back, "pages" units of 2^i are left.
  ghost predicate Returning(m: Memory, now: Memory, addr: nat, count: nat, start: nat, pages: nat, i: nat) {
    && |m.lists| == |now.lists| == 10 && i <= 9 && addr <= start && start + Pmm.Whole(pages, i) == addr + count
    && Clear(m, addr, count) && Shifted(m, now, addr, start - addr) && Heap.Live(m.l) <= Heap.Live(now.l)
    && (Roomy(m, count) ==>
          && ReturnedFrom(now.lists, start, pages, i) == ReturnedFrom(m.lists, addr, count, 0)
          && Heap.Total(now.l) == Heap.Total(m.l)
          && Largest(now.l) + 64 * AreasFrom(count, 0) >= Largest(m.l) + 64 * AreasFrom(pages, i))
  }

  lemma NothingReturned(m: Memory, addr: nat, count: nat)
    requires |m.lists| == 10 && Clear(m, addr, count)
    ensures Returning(m, m, addr, count, addr, count, 0) && Powers.Pow2(0) == 1
  {
    Pmm.WholeBasics(count, 0);
  }

  lemma ZeroDigit(m: Memory, now: Memory, addr: nat, count: nat, start: nat, pages: nat, i: nat)
    requires i < 9 && pages % 2 == 0 && Returning(m, now, addr, count, start, pages, i)
    ensures Returning(m, now, addr, count, start, pages / 2, i + 1)
  {
    hide Clear, Shifted, Heap.Live, Pmm.Whole;
    Pmm.Digit(pages, i);
  }

  lemma AllReturned(m: Memory, now: Memory, addr: nat, count: nat, start: nat)
    requires Returning(m, now, addr, count, start, 0, 9)
    ensures Shifted(m, now, addr, count) && Heap.Live(m.l) <= Heap.Live(now.l)
    ensures Roomy(m, count) ==> Returned(m, now, addr, count)
  {
    Pmm.WholeBasics(0, 9);
  }

  lemma OneLess(pages: nat, i: nat)
    requires i <= 9 && if i < 9 then pages % 2 != 0 else pages > 0
    ensures AreasFrom(pages, i) >= 1
    ensures i < 9 ==> Pmm.Whole(pages, i) == Powers.Pow2(i) + Pmm.Whole(pages / 2, i + 1)
                      && AreasFrom(pages, i) == 1 + AreasFrom(pages / 2, i + 1)
    ensures i == 9 ==> Pmm.Whole(pages, i) == Powers.Pow2(i) + Pmm.Whole(pages - 1, i)
                       && AreasFrom(pages, i) == 1 + AreasFrom(pages - 1, i)
  {
    if i < 9 { Pmm.Digit(pages, i); } else { Pmm.OneUnit(pages, i); }
  }

  lemma BeforeOne(m: Memory, mid: Memory, addr: nat, count: nat, start: nat, pages: nat, i: nat)
    requires Returning(m, mid, addr, count, start, pages, i)
    requires if i < 9 then pages % 2 != 0 else pages > 0
    ensures Clear(mid, start, Powers.Pow2(i))
    ensures FreePages(mid) + Powers.Pow2(i) <= FreePages(m) + count
    ensures Roomy(m, count) ==> HasFit(mid.l, NODE) && Largest(mid.l) >= 128
  {
    hide Heap.Live, Clear, Pmm.Whole, Powers.Pow2, Largest, AreasFrom, ReturnedFrom, HasFit, Free, Heap.Total;
    OneLess(pages, i);
    StillClear(m, mid, addr, start - addr, count - (start - addr));
    ClearPart(mid, start, Powers.Pow2(i), count - (start - addr));
    if Roomy(m, count) {
      assert Heap.Rounded(NODE + Heap.HEADER) == 64;
      FitsIn(mid.l, NODE);
    }
  }

  lemma ClearPart(m: Memory, start: nat, n: nat, more: nat)
    requires |m.lists| == 10 && Clear(m, start, more) && n <= more
    ensures Clear(m, start, n)
  {
    assert forall page: nat :: Pmm.InBlock(page, start, n) ==> Pmm.InBlock(page, start, more);
  }

  lemma AfterOne(m: Memory, mid: Memory, now: Memory, addr: nat, count: nat, start: nat, pages: nat, i: nat)
    requires Returning(m, mid, addr, count, start, pages, i)
    requires if i < 9 then pages % 2 != 0 else pages > 0
    requires |now.lists| == 10 && Shifted(mid, now, start, Powers.Pow2(i)) && Heap.Live(mid.l) <= Heap.Live(now.l)
    requires HasFit(mid.l, NODE) ==> now == AreaAdded(mid, i, start)
    ensures if i < 9 then Returning(m, now, addr, count, start + Powers.Pow2(i), pages / 2, i + 1)
            else Returning(m, now, addr, count, start + Powers.Pow2(9), pages - 1, 9)
  {
    hide Heap.Live, Heap.Total, Clear, Shifted, Pmm.Whole, Powers.Pow2, Largest, AreasFrom, HasFit, Heap.Taken,
         Heap.FirstFit;
    BeforeOne(m, mid, addr, count, start, pages, i);
    OneLess(pages, i);
    ShiftedMore(m, mid, now, addr, start - addr, Powers.Pow2(i));
    assert start - addr + Powers.Pow2(i) == start + Powers.Pow2(i) - addr;
    if Roomy(m, count) {
      NodeEffect(mid, i, start);
      assert now.lists == mid.lists[i := mid.lists[i] + [start]];
    }
  }

  lemma NodeEffect(m: Memory, order: nat, start: nat)
    requires |m.lists| == 10 && order <= 9 && HasFit(m.l, NODE) && Largest(m.l) >= 128
    ensures Heap.Total(AreaAdded(m, order, start).l) == Heap.Total(m.l)
    ensures Largest(AreaAdded(m, order, start).l) + 64 >= Largest(m.l)
  {
    hide Heap.Total, Heap.Taken, Largest;
    assert Heap.Rounded(NODE + Heap.HEADER) == 64;
    var k := Heap.FirstFit(m.l, 64);
    NodeTaken(m.l, k);
    Heap.TotalTaken(m.l, k, 64);
  }

  // ----- One growth

  lemma AreasEven(k: nat, i: nat)
    requires i < 9
    ensures AreasFrom(2 * k, i) == AreasFrom(k, i + 1)
  {
    hide AreasFrom;
    EvenDigit(2 * k, i);
    assert 2 * k / 2 == k;
  }

  lemma EvenDigit(n: nat, i: nat)
    requires i < 9 && n % 2 == 0
    ensures AreasFrom(n, i) == AreasFrom(n / 2, i + 1)
  {
  }

  lemma AreasOdd(k: nat, i: nat)
    requires i < 9
    ensures AreasFrom(2 * k + 1, i) == 1 + AreasFrom(k, i + 1)
  {
    var n := 2 * k + 1;
    assert n / 2 == k && n % 2 == 1;
    OneLess(n, i);
  }

  lemma SixZeros(k: nat)
    ensures AreasFrom(64 * k, 0) == AreasFrom(k, 6)
  {
    hide AreasFrom;
    AreasEven(32 * k, 0);
    AreasEven(16 * k, 1);
    AreasEven(8 * k, 2);
    AreasEven(4 * k, 3);
    AreasEven(2 * k, 4);
    AreasEven(k, 5);
  }

  lemma TopPowers()
    ensures Powers.Pow2(6) == 64 && Powers.Pow2(7) == 128 && Powers.Pow2(8) == 256 && Powers.Pow2(9) == 512
  {
    assert Powers.Pow2(3) == 8;
    assert Powers.Pow2(6) == 64;
  }

  lemma NoAreas()
    ensures AreasFrom(0, 9) == 0
  {
  }

  // What is given back of an area takes at most three nodes.
  lemma ThreeNodes(given: nat)
    requires ORDER <= given <= 9
    ensures Powers.Pow2(given) >= 64 && AreasFrom(Powers.Pow2(given) - 64, 0) == given - 6
  {
    hide AreasFrom, Powers.Pow2;
    TopPowers();
    NoAreas();
    AreasEven(0, 8);
    AreasEven(0, 7);
    AreasEven(0, 6);
    AreasOdd(0, 8);
    AreasOdd(0, 7);
    AreasOdd(0, 6);
    AreasOdd(1, 7);
    AreasOdd(1, 6);
    AreasOdd(3, 6);
    SixZeros(if given == 6 then 0 else if given == 7 then 1 else if given == 8 then 3 else 7);
  }

  lemma NoFitGrows(m: Memory, size: nat)
    ensures GrowsOnce(m, size) ==> !HasFit(m.l, size)
  {
  }

  lemma AreaNeeded(m: Memory, size: nat)
    ensures GrowsOnce(m, size) ==> |m.lists| == 10 && Lowest(m.lists, ORDER) < 10
  {
  }

  lemma RoomForNodes(m: Memory, m1: Memory, given: nat, start: nat)
    requires ORDER <= given <= 9 && m1.l == Heap.Grown(m.l, start * 4096) && TookFree(m, m1, start, Powers.Pow2(given))
    ensures Powers.Pow2(given) >= 64 && Roomy(m1, Powers.Pow2(given) - 64)
    ensures FreePages(m1) + (Powers.Pow2(given) - 64) < FreePages(m)
  {
    ThreeNodes(given);
    GrownRoom(m.l, start * 4096);
  }

  lemma AfterGrowth(m: Memory, m1: Memory, m2: Memory, given: nat, start: nat, size: nat)
    requires |m.lists| == 10 && given == Lowest(m.lists, ORDER) < 10 && start == m.lists[given][0]
    requires m1 == Memory(Heap.Grown(m.l, start * 4096), m.lists[given := m.lists[given][1..]])
    requires Shifted(m, m1, 0, 0) && TookFree(m, m1, start, Powers.Pow2(given)) && Powers.Pow2(given) >= 64
    requires Shifted(m1, m2, start + 64, Powers.Pow2(given) - 64)
             && Returned(m1, m2, start + 64, Powers.Pow2(given) - 64)
    requires Heap.Live(m1.l) <= Heap.Live(m2.l)
    ensures Shifted(m, m2, 0, 0) && FreePages(m2) < FreePages(m) && Heap.Live(m.l) <= Heap.Live(m2.l)
    ensures m2.lists == GrownLists(m.lists) && Heap.Total(m2.l) == Heap.Total(m.l) + Heap.GROWTH
    ensures GrowsOnce(m, size) ==> HasFit(m2.l, size + Heap.HEADER)
  {
    hide Heap.Live, Heap.Total, Heap.Grown, Largest, AreasFrom, ReturnedFrom, HasFit;
    Heap.LiveGrown(m.l, start * 4096);
    Heap.TotalGrown(m.l, start * 4096);
    GrownRoom(m.l, start * 4096);
    ThreeNodes(given);
    BackAgain(m, m1, m2, start, Powers.Pow2(given));
    if GrowsOnce(m, size) { FitsIn(m2.l, size + Heap.HEADER); }
  }

  lemma BackAgain(m: Memory, m1: Memory, m2: Memory, start: nat, count: nat)
    requires Shifted(m, m1, 0, 0) && TookFree(m, m1, start, count) && count >= 64
             && Shifted(m1, m2, start + 64, count - 64)
    ensures Shifted(m, m2, 0, 0) && FreePages(m2) < FreePages(m)
  {
    forall page: nat ensures Free(m2, page) <= Free(m, page) {
      assert Free(m2, page) <= Free(m1, page) + Pmm.One(Pmm.InBlock(page, start + 64, count - 64));
    }
    forall a: nat | Holds(m2.l, a) ensures Holds(m.l, a) || Free(m, a / 4096) > 0 {
      assert Holds(m1.l, a) || Free(m1, a / 4096) > 0 || Pmm.InBlock(a / 4096, start + 64, count - 64);
      assert Free(m, a / 4096) == Free(m1, a / 4096) + Pmm.One(Pmm.InBlock(a / 4096, start, count));
    }
  }

  lemma Finally(m: Memory, m2: Memory, now: Memory, ptr: nat, size: nat)
    requires Shifted(m, m2, 0, 0) && Heap.Live(m.l) <= Heap.Live(m2.l)
    requires Shifted(m2, now, 0, 0) && HandedOut(m2.l, now.l, ptr, size + Heap.HEADER)
    ensures Shifted(m, now, 0, 0) && HandedOut(m.l, now.l, ptr, size)
    ensures HasFit(m2.l, size + Heap.HEADER) ==>
              var made := NodeMade(m2, size + Heap.HEADER);
              made.lists == m2.lists && Heap.Total(made.l) == Heap.Total(m2.l)
  {
    ShiftedMore(m, m2, now, 0, 0, 0);
    hide Heap.Total, Heap.Taken;
    if HasFit(m2.l, size + Heap.HEADER) {
      var need := Heap.Rounded(size + Heap.HEADER + Heap.HEADER);
      Heap.TotalTaken(m2.l, Heap.FirstFit(m2.l, need), need);
    }
  }

  lemma TakenLonger(l: Heap.Layout, k: nat, need: nat)
    requires k < |l| && Heap.Fits(l[k], need)
    ensures |Heap.Taken(l, k, need)| >= |l|
  {
  }

  lemma NodeSound(m: Memory, size: nat)
    requires Separate(m) && Heap.WellFormed(m.l) && HasFit(m.l, size)
    ensures var k := Heap.FirstFit(m.l, Heap.Rounded(size + Heap.HEADER));
            && Separate(NodeMade(m, size)) && Shifted(m, NodeMade(m, size), 0, 0)
            && k < |NodeMade(m, size).l|
               && HandedOut(m.l, NodeMade(m, size).l, NodeMade(m, size).l[k].addr + Heap.HEADER, size)
  {
    hide Heap.Taken, Heap.FirstFit, Heap.Live;
    var need := Heap.Rounded(size + Heap.HEADER);
    var k := Heap.FirstFit(m.l, need);
    var now := NodeMade(m, size);
    forall a: nat ensures Holds(now.l, a) <==> Holds(m.l, a) {
      HoldsTaken(m.l, k, need, a);
    }
    assert forall page: nat :: Free(now, page) == Free(m, page);
    Heap.LiveTaken(m.l, k, need);
    TakenLonger(m.l, k, need);
    assert now.l[k] in Heap.Live(m.l) + {now.l[k]};
  }

  lemma AddedSoundly(m: Memory, mid: Memory, order: nat, start: nat)
    requires |m.lists| == |mid.lists| == 10 && order <= 9 && Separate(mid) && Shifted(m, mid, 0, 0)
             && Clear(m, start, Powers.Pow2(order))
    ensures var now := Memory(mid.l, mid.lists[order := Relinked(m.lists[order], mid.lists[order], start)]);
            Separate(now) && Shifted(m, now, start, Powers.Pow2(order))
  {
    hide Separate, Shifted, Clear, Relinked;
    var now := Memory(mid.l, mid.lists[order := Relinked(m.lists[order], mid.lists[order], start)]);
    RelinkedShift(mid, m.lists[order], order, start);
    ShiftedNone(m, mid, start);
    StillClear(m, mid, start, 0, Powers.Pow2(order));
    SeparateAfter(mid, now, start, Powers.Pow2(order));
    ShiftedMore(m, mid, now, start, 0, Powers.Pow2(order));
  }

  lemma LowestIs(lists: seq<seq<nat>>, given: nat)
    requires |lists| == 10 && ORDER <= given <= 9 && lists[given] != []
             && forall i | ORDER <= i < given :: lists[i] == []
    ensures Lowest(lists, ORDER) == given
  {
    assert Lowest(lists, ORDER) <= given;
  }

  // Both steps of taking an area.
  lemma AreaTakenIn(m: Memory, given: nat, start: nat)
    requires Separate(m) && ORDER <= given <= 9 && m.lists[given] != [] && start == m.lists[given][0]
             && Heap.WellFormed(m.l)
    ensures var lists := m.lists[given := m.lists[given][1..]];
            var now := Memory(Heap.Grown(m.l, start * 4096), lists);
            && start > 0 && Powers.Pow2(given) >= 64
               && (forall i | 0 <= i < |m.l| :: Heap.Apart(m.l[i], Heap.Block(start * 4096, Heap.GROWTH, false)))
            && Separate(now) && Clear(now, start + 64, Powers.Pow2(given) - 64) && Shifted(m, now, 0, 0)
            && TookFree(m, now, start, Powers.Pow2(given))
  {
    BigEnough(given);
    AreaIsClear(m, given, start);
    var mid := Memory(m.l, m.lists[given := m.lists[given][1..]]);
    ClearIsApart(mid, start, Powers.Pow2(given));
    AreaJoinsHeap(mid, start, Powers.Pow2(given));
    var now := Memory(Heap.Grown(m.l, start * 4096), mid.lists);
    assert Pmm.InBlock(start, start, Powers.Pow2(given));
    WasFree(m, given, start);
  }

  lemma WasFree(m: Memory, given: nat, start: nat)
    requires |m.lists| == 10 && given <= 9 && m.lists[given] != [] && start == m.lists[given][0]
    ensures forall page: nat :: Pmm.InBlock(page, start, Powers.Pow2(given)) ==> Free(m, page) > 0
  {
    Pmm.AreaTaken(m.lists, given, m.lists[given][1..]);
  }

  // ----- What growth does to the free lists

  lemma NothingBack(lists: seq<seq<nat>>, start: nat, i: nat)
    requires |lists| == 10 && i <= 9
    ensures ReturnedFrom(lists, start, 0, i) == lists
    decreases 9 - i
  {
    if i < 9 { NothingBack(lists, start, i + 1); }
  }

  lemma ZeroBack(lists: seq<seq<nat>>, start: nat, k: nat, i: nat)
    requires |lists| == 10 && i < 9
    ensures ReturnedFrom(lists, start, 2 * k, i) == ReturnedFrom(lists, start, k, i + 1)
  {
    var n := 2 * k;
    assert n % 2 == 0 && n / 2 == k;
    assert ReturnedFrom(lists, start, n, i) == ReturnedFrom(lists, start, n / 2, i + 1);
  }

  lemma OneBack(lists: seq<seq<nat>>, start: nat, k: nat, i: nat)
    requires |lists| == 10 && i < 9
    ensures ReturnedFrom(lists, start, 2 * k + 1, i) ==
            ReturnedFrom(lists[i := lists[i] + [start]], start + Powers.Pow2(i), k, i + 1)
  {
    var n := 2 * k + 1;
    assert n % 2 == 1 && n / 2 == k;
    assert ReturnedFrom(lists, start, n, i) ==
           ReturnedFrom(lists[i := lists[i] + [start]], start + Powers.Pow2(i), n / 2, i + 1);
  }

  lemma SixZerosBack(lists: seq<seq<nat>>, start: nat, k: nat)
    requires |lists| == 10
    ensures ReturnedFrom(lists, start, 64 * k, 0) == ReturnedFrom(lists, start, k, 6)
  {
    hide ReturnedFrom;
    ZeroBack(lists, start, 32 * k, 0);
    ZeroBack(lists, start, 16 * k, 1);
    ZeroBack(lists, start, 8 * k, 2);
    ZeroBack(lists, start, 4 * k, 3);
    ZeroBack(lists, start, 2 * k, 4);
    ZeroBack(lists, start, k, 5);
  }

  // Growing takes the head of the lowest list that has one from 64 pages up, and puts one area into every list
  // between 64 pages and that one.
  lemma GrownShape(lists: seq<seq<nat>>)
    requires |lists| == 10 && Lowest(lists, ORDER) < 10
    ensures var g := Lowest(lists, ORDER);
            && |GrownLists(lists)| == 10 && GrownLists(lists)[g] == lists[g][1..]
            && (forall j | 0 <= j < 10 && !(ORDER <= j <= g) :: GrownLists(lists)[j] == lists[j])
            && (forall j | ORDER <= j < g :: |GrownLists(lists)[j]| == 1 && lists[j] == [])
  {
    var g := Lowest(lists, ORDER);
    TopPowers();
    hide ReturnedFrom, Powers.Pow2, Lowest;
    var l6, s6 := lists[g := lists[g][1..]], lists[g][0] + 64;
    var l7, s7 := l6[6 := l6[6] + [s6]], s6 + 64;
    var l8, s8 := l7[7 := l7[7] + [s7]], s7 + 128;
    var l9, s9 := l8[8 := l8[8] + [s8]], s8 + 256;
    if g == 6 {
      NothingBack(l6, s6, 0);
    } else if g == 7 {
      SixZerosBack(l6, s6, 1);
      OneBack(l6, s6, 0, 6);
      NothingBack(l7, s7, 7);
    } else if g == 8 {
      SixZerosBack(l6, s6, 3);
      OneBack(l6, s6, 1, 6);
      OneBack(l7, s7, 0, 7);
      NothingBack(l8, s8, 8);
    } else {
      SixZerosBack(l6, s6, 7);
      OneBack(l6, s6, 3, 6);
      OneBack(l7, s7, 1, 7);
      OneBack(l8, s8, 0, 8);
      NothingBack(l9, s9, 9);
    }
  }

  // The list an area is to join still ends with the node it ended with before the growth.
  predicate TailStays(lists: seq<seq<nat>>, order: nat)
    requires |lists| == 10 && order <= 9
  {
    var g := Lowest(lists, ORDER);
    !(ORDER <= order < g) && !(order == g && |lists[order]| == 1)
  }

  // add_free_area is exact around a growth if and only if the tail it remembered is still the tail. Otherwise
  // 2^order pages are lost: the area itself when its list has been emptied, or the area the growth has put there.
  lemma AddedAroundGrowthExactly(lists: seq<seq<nat>>, order: nat, start: nat)
    requires |lists| == 10 && order <= 9 && Lowest(lists, ORDER) < 10
    ensures Pmm.Added(GrownLists(lists), AddedAroundGrowth(lists, order, start), start, Powers.Pow2(order)) <==>
            TailStays(lists, order)
    ensures !TailStays(lists, order) ==>
            Pmm.Pages(AddedAroundGrowth(lists, order, start), 10) == Pmm.Pages(GrownLists(lists), 10)
  {
    hide GrownLists, Pmm.Added, Powers.Pow2, Pmm.Pages, Pmm.CoverAll;
    GrownShape(lists);
    var mid, now, g := GrownLists(lists), AddedAroundGrowth(lists, order, start), Lowest(lists, ORDER);
    if TailStays(lists, order) {
      if order == g {
        RelinkedTail(lists[g], mid[g], start);
      } else {
        RelinkedSame(lists[order], start);
      }
      assert now == mid[order := mid[order] + [start]];
      Pmm.AreaAdded(mid, order, start);
    } else {
      SameLength(mid, order, now[order]);
      NotAdded(mid, now, start, Powers.Pow2(order));
    }
  }

  // Such a loss can happen: one segment in use, one free area of 128 pages, and an area of 64 pages to be given back.
  lemma PagesCanBeLost() returns (m: Memory, start: nat)
    ensures Separate(m) && Heap.WellFormed(m.l) && Clear(m, start, Powers.Pow2(6)) && GrowsOnce(m, NODE)
    ensures !TailStays(m.lists, 6)
    ensures Pmm.Pages(AddedAroundGrowth(m.lists, 6, start), 10) == Pmm.Pages(GrownLists(m.lists), 10)
  {
    hide Pmm.CoverAll, Pmm.Pages, Powers.Pow2, GrownLists, AddedAroundGrowth;
    TopPowers();
    var none := seq(10, _ => []);
    m, start := Memory([Heap.Block(64, 64, true)], none[7 := none[7] + [1000]]), 2000;
    Pmm.AreaAdded(none, 7, 1000);
    forall page: nat ensures Free(m, page) == Pmm.One(Pmm.InBlock(page, 1000, 128)) {
      Pmm.NothingFree(none, 10, page);
    }
    forall a: nat | Holds(m.l, a) ensures a / 4096 == 0 { assert In(m.l[0], a); }
    LowestIs(m.lists, 7);
    AddedAroundGrowthExactly(m.lists, 6, start);
  }

  lemma SameLength(lists: seq<seq<nat>>, i: nat, list: seq<nat>)
    requires |lists| == 10 && i < 10 && |list| == |lists[i]|
    ensures Pmm.Pages(lists[i := list], 10) == Pmm.Pages(lists, 10)
  {
    Pmm.PagesUpdate(lists, 10, i, list);
  }

  lemma NotAdded(was: seq<seq<nat>>, now: seq<seq<nat>>, start: nat, count: nat)
    requires |was| == |now| == 10 && Pmm.Pages(now, 10) == Pmm.Pages(was, 10) && count > 0
    ensures !Pmm.Added(was, now, start, count)
  {
  }

  // The growth of kmalloc takes exactly 64 pages from the free lists.
  lemma GrownExactly(lists: seq<seq<nat>>)
    requires |lists| == 10 && Lowest(lists, ORDER) < 10
    ensures Pmm.Added(GrownLists(lists), lists, lists[Lowest(lists, ORDER)][0], 64)
  {
    hide Powers.Pow2, Pmm.Pages, Pmm.CoverAll, Pmm.Added, ReturnedFrom, Lowest;
    BigEnough(Lowest(lists, ORDER));
    HeadTaken(lists, Lowest(lists, ORDER));
  }

  lemma HeadTaken(lists: seq<seq<nat>>, g: nat)
    requires |lists| == 10 && g < 10 && lists[g] != [] && Powers.Pow2(g) >= 64
    ensures Pmm.Added(ReturnedFrom(lists[g := lists[g][1..]], lists[g][0] + 64, Powers.Pow2(g) - 64, 0), lists,
            lists[g][0], 64)
  {
    hide Powers.Pow2, Pmm.Pages, Pmm.CoverAll, ReturnedFrom, Pmm.Added;
    var mid := lists[g := lists[g][1..]];
    Pmm.AreaTaken(lists, g, lists[g][1..]);
    ReturnedExactly(mid, lists[g][0] + 64, Powers.Pow2(g) - 64, 0);
    Pmm.WholeBasics(Powers.Pow2(g) - 64, 0);
    Pmm.AddedLess(lists, mid, ReturnedFrom(mid, lists[g][0] + 64, Powers.Pow2(g) - 64, 0), lists[g][0], Powers.Pow2(g),
      64);
  }

  // return_pages puts back exactly the range it is given, for every page count.
  lemma {:induction false} ReturnedExactly(lists: seq<seq<nat>>, start: nat, pages: nat, i: nat)
    requires |lists| == 10 && i <= 9
    ensures Pmm.Added(lists, ReturnedFrom(lists, start, pages, i), start, Pmm.Whole(pages, i))
    decreases 9 - i, pages
  {
    hide Powers.Pow2, Pmm.Pages, Pmm.CoverAll, Pmm.Added, Pmm.Whole;
    if i == 9 && pages == 0 {
      Pmm.WholeBasics(0, 9);
      Pmm.AddedNone(lists, start);
    } else if i < 9 && pages % 2 == 0 {
      Pmm.Digit(pages, i);
      ReturnedExactly(lists, start, pages / 2, i + 1);
    } else {
      OneLess(pages, i);
      var left := if i < 9 then pages / 2 else pages - 1;
      var next := if i < 9 then i + 1 else 9;
      var mid := lists[i := lists[i] + [start]];
      Pmm.AreaAdded(lists, i, start);
      ReturnedExactly(mid, start + Powers.Pow2(i), left, next);
      Pmm.AddedMore(lists, mid, ReturnedFrom(lists, start, pages, i), start, Powers.Pow2(i), Pmm.Whole(left, next));
    }
  }

  // ----- Runs of calls

  // What a caller does: ask for memory, or release the n-th of the blocks it holds, if it holds that many.
  datatype Call = Ask(size: nat) | Release(n: nat)

  // What kmalloc returned for which size.
  datatype Handle = Handle(ptr: nat, size: nat)

  function Asked(calls: seq<Call>): nat {
    if calls == [] then 0 else Asked(calls[1..]) + if calls[0].Ask? then 1 else 0
  }

  function Sizes(held: seq<Handle>): (r: seq<nat>)
    ensures |r| == |held| && forall i | 0 <= i < |held| :: r[i] == held[i].size
  {
    seq(|held|, i requires 0 <= i < |held| => held[i].size)
  }

  // The sizes of what is held after a call, and after all of them.
  function SizesNext(call: Call, sizes: seq<nat>): seq<nat> {
    match call
    case Ask(size) => sizes + [size]
    case Release(n) => if n < |sizes| then sizes[..n] + sizes[n + 1..] else sizes
  }

  function SizesLeft(calls: seq<Call>, sizes: seq<nat>): seq<nat>
    decreases |calls|
  {
    if calls == [] then sizes else SizesLeft(calls[1..], SizesNext(calls[0], sizes))
  }

  // One area has room for it, with the header twice and three nodes.
  predicate Modest(call: Call) { call.Ask? ==> Heap.Rounded(call.size + 2 * Heap.HEADER) <= Heap.GROWTH - 192 }

  // The areas a growth can take.
  function BigAreas(lists: seq<seq<nat>>): nat
    requires |lists| == 10
  {
    |lists[6]| + |lists[7]| + |lists[8]| + |lists[9]|
  }

  // All bytes, those of the heap and those of the free pages.
  function Bytes(m: Memory): nat
    requires |m.lists| == 10
  {
    Heap.Total(m.l) + 4096 * FreePages(m)
  }

  // The block of a handle is in use, was not at the start, and is as long as asked.
  ghost predicate Owns(start: Heap.Layout, l: Heap.Layout, h: Handle) {
    exists b :: b in Heap.Live(l) && b !in Heap.Live(start) && h.ptr == b.addr + Heap.HEADER
                && b.size >= h.size + Heap.HEADER
  }

  // All that was in use at the start still is, and every handle has a block of its own.
  ghost predicate Holding(start: Heap.Layout, l: Heap.Layout, held: seq<Handle>) {
    && Heap.Live(start) <= Heap.Live(l)
    && (forall i | 0 <= i < |held| :: Owns(start, l, held[i]))
    && (forall i, j | 0 <= i < j < |held| :: held[i].ptr != held[j].ptr)
  }

  lemma SameAddress(l: Heap.Layout, a: Heap.Block, b: Heap.Block)
    requires Heap.Disjoint(l) && a in l && b in l && a.addr == b.addr
    ensures a == b
  {
    var i :| 0 <= i < |l| && l[i] == a;
    var j :| 0 <= j < |l| && l[j] == b;
    assert Heap.Sized(l[i]) && Heap.Sized(l[j]);
  }

  lemma StillOwns(start: Heap.Layout, was: Heap.Layout, now: Heap.Layout, h: Handle)
    requires Owns(start, was, h) && Heap.Live(was) <= Heap.Live(now)
    ensures Owns(start, now, h)
  {
  }

  // The new block is at no address that is held.
  lemma NewPointer(start: Heap.Layout, was: Heap.Layout, now: Heap.Layout, h: Handle, ptr: nat, size: nat)
    requires Owns(start, was, h) && HandedOut(was, now, ptr, size) && Heap.Disjoint(now)
    ensures h.ptr != ptr
  {
    hide Heap.Disjoint;
    var a :| a in Heap.Live(was) && h.ptr == a.addr + Heap.HEADER;
    var b :| b in Heap.Live(now) && b !in Heap.Live(was) && ptr == b.addr + Heap.HEADER;
    if h.ptr == ptr { SameAddress(now, a, b); }
  }

  lemma HoldingMore(start: Heap.Layout, was: Heap.Layout, now: Heap.Layout, held: seq<Handle>, ptr: nat, size: nat)
    requires Holding(start, was, held) && HandedOut(was, now, ptr, size) && Heap.Disjoint(now)
    ensures Holding(start, now, held + [Handle(ptr, size)])
  {
    hide Heap.Disjoint, Heap.Live, Owns;
    forall i | 0 <= i < |held| ensures Owns(start, now, held[i]) && held[i].ptr != ptr {
      StillOwns(start, was, now, held[i]);
      NewPointer(start, was, now, held[i], ptr, size);
    }
    assert Owns(start, now, Handle(ptr, size)) by {
      var b :| b in Heap.Live(now) && b !in Heap.Live(was) && ptr == b.addr + Heap.HEADER
               && b.size >= size + Heap.HEADER;
      OwnsBlock(start, now, Handle(ptr, size), b);
    }
  }

  lemma OwnsBlock(start: Heap.Layout, l: Heap.Layout, h: Handle, b: Heap.Block)
    requires b in Heap.Live(l) && b !in Heap.Live(start) && h.ptr == b.addr + Heap.HEADER
    requires b.size >= h.size + Heap.HEADER
    ensures Owns(start, l, h)
  {
  }

  // Where the block of a handle is.
  lemma Place(start: Heap.Layout, l: Heap.Layout, h: Handle) returns (i: nat)
    requires Owns(start, l, h)
    ensures i < |l| && l[i].used && l[i].addr + Heap.HEADER == h.ptr && l[i] !in Heap.Live(start)
  {
    var b :| b in Heap.Live(l) && b !in Heap.Live(start) && h.ptr == b.addr + Heap.HEADER;
    i :| 0 <= i < |l| && l[i] == b;
  }

  lemma OthersOwn(start: Heap.Layout, l: Heap.Layout, i: nat, h: Handle)
    requires Heap.WellFormed(l) && i < |l| && Owns(start, l, h) && h.ptr != l[i].addr + Heap.HEADER
    ensures Owns(start, Heap.Freed(l, i), h)
  {
    hide Heap.Freed, Heap.WellFormed, Heap.Live;
    Heap.LiveFreed(l, i);
    var b :| b in Heap.Live(l) && b !in Heap.Live(start) && h.ptr == b.addr + Heap.HEADER
             && b.size >= h.size + Heap.HEADER;
    OwnsBlock(start, Heap.Freed(l, i), h, b);
  }

  lemma HoldingLess(start: Heap.Layout, l: Heap.Layout, held: seq<Handle>, n: nat, i: nat)
    requires Heap.WellFormed(l) && Holding(start, l, held) && n < |held| && i < |l|
    requires l[i].addr + Heap.HEADER == held[n].ptr && l[i] !in Heap.Live(start)
    ensures Holding(start, Heap.Freed(l, i), held[..n] + held[n + 1..])
  {
    hide Heap.Freed, Heap.WellFormed, Heap.Live, Owns;
    var less := held[..n] + held[n + 1..];
    assert forall k | 0 <= k < |less| :: less[k] == held[if k < n then k else k + 1];
    forall k | 0 <= k < |less| ensures Owns(start, Heap.Freed(l, i), less[k]) { OthersOwn(start, l, i, less[k]); }
    Heap.LiveFreed(l, i);
  }

  // A growth uses up one of the areas at most, and moves 64 pages from the free lists to the heap.
  lemma GrowthCost(lists: seq<seq<nat>>)
    requires |lists| == 10 && Lowest(lists, ORDER) < 10
    ensures |GrownLists(lists)| == 10 && BigAreas(GrownLists(lists)) + 1 >= BigAreas(lists)
    ensures Pmm.Pages(lists, 10) == Pmm.Pages(GrownLists(lists), 10) + 64
  {
    hide GrownLists, Pmm.Pages, Pmm.CoverAll;
    GrownShape(lists);
    GrownExactly(lists);
  }

  lemma NodeBytes(m: Memory, size: nat)
    requires |m.lists| == 10 && HasFit(m.l, size)
    ensures Bytes(NodeMade(m, size)) == Bytes(m)
  {
    hide Heap.Total, Heap.Taken;
    var need := Heap.Rounded(size + Heap.HEADER);
    Heap.TotalTaken(m.l, Heap.FirstFit(m.l, need), need);
  }

  lemma NoNeedOrGrowth(m: Memory, size: nat)
    requires |m.lists| == 10
    ensures Modest(Ask(size)) && BigAreas(m.lists) > 0 ==> HasFit(m.l, size) || GrowsOnce(m, size)
  {
    hide HasFit;
  }

  // What a call of kmalloc costs that finds an area if it needs one.
  lemma MallocCost(m: Memory, now: Memory, size: nat)
    requires |m.lists| == |now.lists| == 10 && Modest(Ask(size)) && BigAreas(m.lists) > 0
    requires HasFit(m.l, size) ==> now == NodeMade(m, size)
    requires GrowsOnce(m, size) ==> now.lists == GrownLists(m.lists)
                                    && Heap.Total(now.l) == Heap.Total(m.l) + Heap.GROWTH
    ensures Bytes(now) == Bytes(m) && BigAreas(now.lists) + 1 >= BigAreas(m.lists)
  {
    hide Heap.Total, GrownLists, Pmm.Pages, HasFit;
    if HasFit(m.l, size) { NodeBytes(m, size); } else { GrowthCost(m.lists); }
  }

  lemma FreedBytes(m: Memory, i: nat)
    requires |m.lists| == 10 && i < |m.l|
    ensures Bytes(Memory(Heap.Freed(m.l, i), m.lists)) == Bytes(m)
  {
    hide Heap.Freed, Heap.Total;
    Heap.TotalFreed(m.l, i);
  }

  lemma HeldThere(start: Heap.Layout, l: Heap.Layout, held: seq<Handle>, n: nat)
    requires Holding(start, l, held) && n < |held|
    ensures Owns(start, l, held[n])
  {
  }

  lemma NothingHeld(l: Heap.Layout)
    ensures Holding(l, l, [])
  {
  }

  lemma OneAsked(calls: seq<Call>)
    requires calls != []
    ensures Asked(calls) == Asked([calls[0]]) + Asked(calls[1..])
  {
    assert [calls[0]][1..] == [];
  }
}
