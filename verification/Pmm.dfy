// The physical page allocator of kernel/memory/pmm.c: ten FIFO lists of free areas, the i-th holding
// areas of 2^i pages. Addresses are page numbers.
module Pmm {
  import opened Powers

  const MAX_ORDER: nat := 9

  predicate InBlock(page: nat, start: nat, pages: nat) { start <= page < start + pages }

  function One(b: bool): nat { if b then 1 else 0 }

  // How many areas of one list contain the page.
  function Cover(list: seq<nat>, size: nat, page: nat): nat {
    if list == [] then 0 else One(InBlock(page, list[0], size)) + Cover(list[1..], size, page)
  }

  // How many areas of the first "n" lists contain the page.
  function CoverAll(lists: seq<seq<nat>>, n: nat, page: nat): nat
    requires n <= |lists|
  {
    if n == 0 then 0 else CoverAll(lists, n - 1, page) + Cover(lists[n - 1], Pow2(n - 1), page)
  }

  // How many free pages the first "n" lists hold.
  function Pages(lists: seq<seq<nat>>, n: nat): nat
    requires n <= |lists|
  {
    if n == 0 then 0 else Pages(lists, n - 1) + |lists[n - 1]| * Pow2(n - 1)
  }

  lemma {:induction false} CoverAppend(list: seq<nat>, start: nat, size: nat, page: nat)
    ensures Cover(list + [start], size, page) == Cover(list, size, page) + One(InBlock(page, start, size))
  {
    if list == [] {
      assert [start][1..] == [];
    } else {
      assert (list + [start])[1..] == list[1..] + [start];
      CoverAppend(list[1..], start, size, page);
    }
  }

  lemma {:induction false} CoverAllUpdate(lists: seq<seq<nat>>, n: nat, i: nat, list: seq<nat>, page: nat)
    requires n <= |lists| && i < |lists|
    ensures CoverAll(lists[i := list], n, page) + (if i < n then Cover(lists[i], Pow2(i), page) else 0)
         == CoverAll(lists, n, page) + (if i < n then Cover(list, Pow2(i), page) else 0)
  {
    if n > 0 { CoverAllUpdate(lists, n - 1, i, list, page); }
  }

  lemma {:induction false} PagesUpdate(lists: seq<seq<nat>>, n: nat, i: nat, list: seq<nat>)
    requires n <= |lists| && i < |lists|
    ensures Pages(lists[i := list], n) + (if i < n then |lists[i]| * Pow2(i) else 0)
         == Pages(lists, n) + (if i < n then |list| * Pow2(i) else 0)
  {
    if n > 0 { PagesUpdate(lists, n - 1, i, list); }
  }

  // "now" has exactly the pages [start, start + count) more than "was", each of them once more.
  ghost predicate Added(was: seq<seq<nat>>, now: seq<seq<nat>>, start: nat, count: nat)
    requires |was| == |now| == 10
  {
    && (forall page :: CoverAll(now, 10, page) == CoverAll(was, 10, page) + One(InBlock(page, start, count)))
    && Pages(now, 10) == Pages(was, 10) + count
  }

  lemma AddedMore(was: seq<seq<nat>>, mid: seq<seq<nat>>, now: seq<seq<nat>>, start: nat, m: nat, n: nat)
    requires |was| == |mid| == |now| == 10 && Added(was, mid, start, m) && Added(mid, now, start + m, n)
    ensures Added(was, now, start, m + n)
  {
  }

  lemma AddedNone(was: seq<seq<nat>>, start: nat)
    requires |was| == 10
    ensures Added(was, was, start, 0)
  {
  }

  // A block taken whole and given back but for its first pages.
  lemma AddedLess(was: seq<seq<nat>>, mid: seq<seq<nat>>, now: seq<seq<nat>>, start: nat, m: nat, n: nat)
    requires |was| == |mid| == |now| == 10 && n <= m && Added(mid, was, start, m) && Added(mid, now, start + n, m - n)
    ensures Added(now, was, start, n)
  {
  }

  // An area joins the tail of list i, or leaves its head.
  lemma AreaAdded(was: seq<seq<nat>>, i: nat, start: nat)
    requires |was| == 10 && i < 10
    ensures Added(was, was[i := was[i] + [start]], start, Pow2(i))
  {
    var now := was[i := was[i] + [start]];
    forall page ensures CoverAll(now, 10, page) == CoverAll(was, 10, page) + One(InBlock(page, start, Pow2(i))) {
      CoverAllUpdate(was, 10, i, now[i], page);
      CoverAppend(was[i], start, Pow2(i), page);
    }
    PagesUpdate(was, 10, i, now[i]);
    assert (|was[i]| + 1) * Pow2(i) == |was[i]| * Pow2(i) + Pow2(i);
  }

  lemma AreaTaken(was: seq<seq<nat>>, i: nat, list: seq<nat>)
    requires |was| == 10 && i < 10 && was[i] != [] && list == was[i][1..]
    ensures Added(was[i := list], was, was[i][0], Pow2(i))
  {
    forall page
      ensures CoverAll(was, 10, page) == CoverAll(was[i := list], 10, page) + One(InBlock(page, was[i][0], Pow2(i)))
    {
      CoverAllUpdate(was, 10, i, list, page);
    }
    PagesUpdate(was, 10, i, list);
    assert (|list| + 1) * Pow2(i) == |list| * Pow2(i) + Pow2(i);
  }

  // n areas of the largest order, one behind the other.
  function Spaced(start: nat, n: nat): seq<nat> { seq(n, k requires 0 <= k => start + 512 * k) }

  // The areas of order i that a range of pages is cut into: one if that binary digit of its length is set, behind the
  // areas of the lower digits, and for the largest order as many as there are 512 pages.
  function Parts(start: nat, count: nat, i: nat): seq<nat>
    requires i <= MAX_ORDER
  {
    if i == MAX_ORDER then Spaced(start + count % 512, count / 512)
    else if count / Pow2(i) % 2 == 1 then [start + count % Pow2(i)]
    else []
  }

  // What taking 2^order pages from the oldest area of order g leaves: g is the lowest order that has one, and every
  // order from the one asked for up to g has one area of the rest.
  ghost predicate Split(was: seq<seq<nat>>, now: seq<seq<nat>>, order: nat, g: nat, start: nat)
    requires |was| == |now| == 10 && order <= g <= MAX_ORDER
  {
    && was[g] != [] && start == was[g][0] && (forall i | order <= i < g :: was[i] == [])
    && forall i | 0 <= i <= MAX_ORDER ::
         now[i] == if i == g then was[g][1..] else if order <= i < g then [start + Pow2(i)] else was[i]
  }

  class Allocator {
    const lists: array<seq<nat>>

    ghost predicate Valid()
      reads lists
    {
      lists.Length == MAX_ORDER + 1
    }

    // How many free areas contain the page.
    ghost function Free(page: nat): nat
      requires Valid()
      reads lists
    {
      CoverAll(lists[..], 10, page)
    }

    predicate HasArea(order: nat)
      requires Valid()
      reads lists
    {
      exists i :: order <= i <= MAX_ORDER && lists[i] != []
    }

    // How many areas of the largest order there are.
    function Tops(): nat
      requires Valid()
      reads lists
    {
      |lists[MAX_ORDER]|
    }

    constructor ()
      ensures Valid() && fresh(lists) && forall page :: Free(page) == 0
    {
      lists := new seq<nat>[10](_ => []);
      new;
      forall page ensures Free(page) == 0 { NothingFree(lists[..], 10, page); }
    }

    // add_free_area: the area goes to the tail of its list.
    method AddFreeArea(order: nat, start: nat)
      requires Valid() && order <= MAX_ORDER
      modifies lists
      ensures lists[..] == old(lists[..])[order := old(lists[order]) + [start]]
      ensures Added(old(lists[..]), lists[..], start, Pow2(order))
    {
      ghost var was := lists[..];
      lists[order] := lists[order] + [start];
      AreaAdded(was, order, start);
      assert lists[..] == was[order := was[order] + [start]];
    }

    // __alloc_free_pages: the oldest area of the lowest list that has one.
    method AllocFreePages(order: nat) returns (start: nat, given: nat)
      requires Valid() && HasArea(order)
      modifies lists
      ensures order <= given <= MAX_ORDER && old(lists[given]) != [] && start == old(lists[given][0])
      ensures forall i :: order <= i < given ==> old(lists[i]) == []
      ensures lists[..] == old(lists[..])[given := old(lists[given])[1..]]
      ensures Added(lists[..], old(lists[..]), start, Pow2(given))
    {
      ghost var was := lists[..];
      given := order;
      while lists[given] == []
        invariant order <= given <= MAX_ORDER && lists[..] == was
        invariant forall i :: order <= i < given ==> lists[i] == []
        decreases MAX_ORDER - given
      {
        given := given + 1;
      }
      start := lists[given][0];
      lists[given] := lists[given][1..];
      AreaTaken(was, given, was[given][1..]);
      assert lists[..] == was[given := was[given][1..]];
    }

    // return_pages: the range is cut into areas by the binary digits of its length, and each goes to the tail of its
    // list.
    method ReturnPages(addr: nat, count: nat)
      requires Valid()
      modifies lists
      ensures forall i | 0 <= i <= MAX_ORDER :: lists[i] == old(lists[i]) + Parts(addr, count, i)
      ensures Added(old(lists[..]), lists[..], addr, count) && Tops() >= old(Tops())
    {
      WholeBasics(count, MAX_ORDER);
      hide Added, CoverAll, Pages, Whole, Pow2, Parts;
      var start: nat, pages: nat, i, unit := addr, count, 0, 1;
      ghost var was := lists[..];
      AddedNone(was, addr);
      while i < MAX_ORDER
        invariant 0 <= i <= MAX_ORDER && unit == Pow2(i)
        invariant addr <= start < addr + unit && start + Whole(pages, i) == addr + count
        invariant forall k | 0 <= k < i :: lists[k] == was[k] + Parts(addr, count, k)
        invariant forall k | i <= k <= MAX_ORDER :: lists[k] == was[k]
        invariant Added(was, lists[..], addr, start - addr)
      {
        Digit(pages, i);
        DigitPart(addr, count, i, pages, start - addr);
        if pages % 2 != 0 {
          ghost var mid := lists[..];
          AddFreeArea(i, start);
          AddedMore(was, mid, lists[..], addr, start - addr, unit);
          start := start + unit;
        }
        pages, i, unit := pages / 2, i + 1, 2 * unit;
      }
      LargeParts(addr, count, pages, start - addr);
      var k := 0;
      ghost var first := start;
      while k < pages
        invariant 0 <= k <= pages && unit == Pow2(MAX_ORDER) == 512 && start == first + 512 * k
        invariant start + Whole(pages - k, MAX_ORDER) == addr + count
        invariant forall j | 0 <= j < MAX_ORDER :: lists[j] == was[j] + Parts(addr, count, j)
        invariant lists[MAX_ORDER] == was[MAX_ORDER] + Spaced(first, k)
        invariant Added(was, lists[..], addr, start - addr)
      {
        OneUnit(pages - k, MAX_ORDER);
        SpacedMore(first, k);
        ghost var mid := lists[..];
        AddFreeArea(MAX_ORDER, start);
        AddedMore(was, mid, lists[..], addr, start - addr, unit);
        start := start + unit;
        k := k + 1;
      }
    }

    // alloc_pages: the oldest area of the lowest order there is gives its first 2^order pages, and each list below that
    // order, down to the one asked for, gets one area of the rest; exactly 2^order pages leave the free set.
    method AllocPages(order: nat) returns (start: nat)
      requires Valid() && HasArea(order)
      modifies lists
      ensures exists g :: order <= g <= MAX_ORDER && Split(old(lists[..]), lists[..], order, g, start)
      ensures Added(lists[..], old(lists[..]), start, Pow2(order)) && Tops() + 1 >= old(Tops())
    {
      hide Added, CoverAll, Pages, Parts, Split, Pow2;
      var given;
      ghost var was := lists[..];
      start, given := AllocFreePages(order);
      ghost var mid := lists[..];
      Pow2Monotone(order, given);
      ReturnPages(start + Pow2(order), Pow2(given) - Pow2(order));
      AddedLess(was, mid, lists[..], start, Pow2(given), Pow2(order));
      RestReturned(was, mid, lists[..], order, given, start);
    }
  }

  lemma RestReturned(was: seq<seq<nat>>, mid: seq<seq<nat>>, now: seq<seq<nat>>, order: nat, g: nat, start: nat)
    requires |was| == |now| == 10 && order <= g <= MAX_ORDER && Pow2(order) <= Pow2(g)
    requires was[g] != [] && start == was[g][0] && (forall i | order <= i < g :: was[i] == [])
    requires mid == was[g := was[g][1..]]
    requires forall i | 0 <= i <= MAX_ORDER ::
             now[i] == mid[i] + Parts(start + Pow2(order), Pow2(g) - Pow2(order), i)
    ensures Split(was, now, order, g, start)
  {
    hide Parts, Pow2;
    forall i | 0 <= i <= MAX_ORDER
      ensures now[i] == if i == g then was[g][1..] else if order <= i < g then [start + Pow2(i)] else was[i]
    {
      RestParts(start, order, g, i);
    }
  }

  lemma {:induction false} NothingFree(lists: seq<seq<nat>>, n: nat, page: nat)
    requires n <= |lists| && forall i :: 0 <= i < n ==> lists[i] == []
    ensures CoverAll(lists, n, page) == 0 && Pages(lists, n) == 0
  {
    if n > 0 { NothingFree(lists, n - 1, page); }
  }

  lemma Halve(pages: nat, unit: nat)
    ensures pages * unit == (pages / 2) * (2 * unit) + (if pages % 2 != 0 then unit else 0)
  {
    var h := pages / 2;
    assert h * (2 * unit) == (2 * h) * unit;
    assert (2 * h + 1) * unit == (2 * h) * unit + unit;
  }

  // "pages" units of 2^i pages.
  function Whole(pages: nat, i: nat): nat { pages * Pow2(i) }

  // One binary digit of the count is taken off.
  lemma Digit(pages: nat, i: nat)
    ensures Whole(pages, i) == Whole(pages / 2, i + 1) + (if pages % 2 != 0 then Pow2(i) else 0)
    ensures Pow2(i + 1) == 2 * Pow2(i)
  {
    Halve(pages, Pow2(i));
  }

  lemma Quotient(n: nat, d: nat, q: nat, r: nat)
    requires d > 0 && n == q * d + r && r < d
    ensures n / d == q && n % d == r
  {
    var x := n / d;
    if x > q {
      Multiples(q, x, d);
    } else if x < q {
      Multiples(x, q, d);
    }
  }

  lemma Multiples(a: nat, b: nat, d: nat)
    requires a < b
    ensures a * d + d <= b * d
  {
    assert (b - a - 1) * d >= 0;
  }

  // The area that one binary digit of the count stands for.
  lemma DigitPart(start: nat, count: nat, i: nat, pages: nat, done: nat)
    requires i < MAX_ORDER && done < Pow2(i) && done + Whole(pages, i) == count
    ensures Parts(start, count, i) == if pages % 2 != 0 then [start + done] else []
  {
    Quotient(count, Pow2(i), pages, done);
  }

  lemma LargeParts(start: nat, count: nat, pages: nat, done: nat)
    requires done < Pow2(MAX_ORDER) && done + Whole(pages, MAX_ORDER) == count
    ensures Pow2(MAX_ORDER) == 512 && Parts(start, count, MAX_ORDER) == Spaced(start + done, pages)
    ensures Spaced(start + done, 0) == []
  {
    NinthPower();
    Quotient(count, 512, pages, done);
  }

  lemma SpacedMore(start: nat, k: nat)
    ensures Spaced(start, k + 1) == Spaced(start, k) + [start + 512 * k]
  {
  }

  lemma {:induction false} Pow2Product(a: nat, b: nat)
    ensures Pow2(a + b) == Pow2(a) * Pow2(b)
  {
    if b > 0 {
      Pow2Product(a, b - 1);
      assert Pow2(a) * (2 * Pow2(b - 1)) == 2 * (Pow2(a) * Pow2(b - 1));
    }
  }

  // The binary digits of 2^g - 2^o are the ones from o to g - 1.
  lemma RestParts(start: nat, o: nat, g: nat, i: nat)
    requires o <= g <= MAX_ORDER && i <= MAX_ORDER
    ensures Pow2(o) <= Pow2(g)
    ensures Parts(start + Pow2(o), Pow2(g) - Pow2(o), i) == if o <= i < g then [start + Pow2(i)] else []
  {
    hide Pow2, Parts;
    Pow2Monotone(o, g);
    Pow2Monotone(g, MAX_ORDER);
    NinthPower();
    if i < MAX_ORDER {
      RestDigit(o, g, i);
      PartIs(start + Pow2(o), Pow2(g) - Pow2(o), i);
    } else {
      FewParts(start + Pow2(o), Pow2(g) - Pow2(o));
    }
  }

  lemma PartIs(start: nat, count: nat, i: nat)
    requires i < MAX_ORDER
    ensures Parts(start, count, i) == if count / Pow2(i) % 2 == 1 then [start + count % Pow2(i)] else []
  {
  }

  lemma FewParts(start: nat, count: nat)
    requires count < 512
    ensures Parts(start, count, MAX_ORDER) == []
  {
  }

  lemma RestDigit(o: nat, g: nat, i: nat)
    requires o <= g && Pow2(o) <= Pow2(g)
    ensures var n := Pow2(g) - Pow2(o);
            n / Pow2(i) % 2 == (if o <= i < g then 1 else 0) && (o <= i < g ==> n % Pow2(i) == Pow2(i) - Pow2(o))
  {
    if i < o {
      EvenPart(o, g, i);
    } else if i < g {
      OddPart(o, g, i);
    } else {
      Pow2Monotone(g, i);
      Quotient(Pow2(g) - Pow2(o), Pow2(i), 0, Pow2(g) - Pow2(o));
    }
  }

  lemma Twice(a: nat, u: nat)
    ensures u * (2 * a) == 2 * (u * a)
  {
  }

  // Above a digit a power of two is a multiple of twice that digit.
  lemma Higher(i: nat, g: nat)
    requires i < g
    ensures Pow2(g) == (2 * Pow2(g - i - 1)) * Pow2(i)
  {
    Pow2Product(i, g - i);
    Twice(Pow2(g - i - 1), Pow2(i));
  }

  lemma EvenPart(o: nat, g: nat, i: nat)
    requires i < o <= g && Pow2(o) <= Pow2(g)
    ensures (Pow2(g) - Pow2(o)) / Pow2(i) % 2 == 0
  {
    hide Pow2;
    Higher(i, g);
    Higher(i, o);
    Pow2Monotone(o - i - 1, g - i - 1);
    EvenQuotient(Pow2(g), Pow2(o), Pow2(g - i - 1), Pow2(o - i - 1), Pow2(i));
  }

  lemma EvenQuotient(p: nat, q: nat, a: nat, b: nat, u: nat)
    requires u > 0 && q <= p && b <= a && p == (2 * a) * u && q == (2 * b) * u
    ensures (p - q) / u % 2 == 0
  {
    Minus(2 * a, 2 * b, u);
    Quotient(p - q, u, 2 * (a - b), 0);
  }

  lemma OddQuotient(p: nat, q: nat, a: nat, u: nat)
    requires 0 < q <= u && q <= p && a > 0 && p == (2 * a) * u
    ensures (p - q) / u % 2 == 1 && (p - q) % u == u - q
  {
    Minus(2 * a, 1, u);
    Quotient(p - q, u, 2 * a - 1, u - q);
  }

  lemma OddPart(o: nat, g: nat, i: nat)
    requires o <= i < g && Pow2(o) <= Pow2(g)
    ensures var n := Pow2(g) - Pow2(o); n / Pow2(i) % 2 == 1 && n % Pow2(i) == Pow2(i) - Pow2(o)
  {
    hide Pow2;
    Higher(i, g);
    Pow2Monotone(o, i);
    OddQuotient(Pow2(g), Pow2(o), Pow2(g - i - 1), Pow2(i));
  }

  lemma Minus(a: nat, b: nat, u: nat)
    requires b <= a
    ensures (a - b) * u == a * u - b * u
  {
  }

  lemma OneUnit(pages: nat, i: nat)
    requires pages > 0
    ensures Whole(pages, i) == Whole(pages - 1, i) + Pow2(i)
  {
    assert pages * Pow2(i) == (pages - 1) * Pow2(i) + Pow2(i);
  }

  lemma WholeBasics(pages: nat, i: nat)
    ensures Whole(pages, 0) == pages && Pow2(0) == 1 && Whole(0, i) == 0
  {
  }

  lemma FullBlocks(pages: nat, done: nat, count: nat)
    ensures done + Whole(pages, 9) == count ==> pages <= count / 512
    ensures done + Whole(pages, 9) == count && pages > 0 ==> done + 512 <= count
  {
    NinthPower();
  }

  lemma NinthPower()
    ensures Pow2(9) == 512
  {
    assert Pow2(3) == 8;
    assert Pow2(6) == 64;
  }

  lemma TopPages(lists: seq<seq<nat>>)
    requires |lists| == 10
    ensures Pages(lists, 10) >= |lists[9]|
  {
    NinthPower();
  }
}
