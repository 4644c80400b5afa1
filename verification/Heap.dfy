// The kernel heap of kernel/memory/kheap.c: a doubly linked list of segments, each behind a 24-byte header,
// first fit, split on allocation and joined on release.
module Heap {

  const HEADER: nat := 24   // sizeof(seg_info_struct)
  const UNIT: nat := 64     // MIN_SEG_SIZE
  const GROWTH: nat := 0x4_0000  // 2^6 pages

  // One segment as the list shows it, header included.
  datatype Block = Block(addr: nat, size: nat, used: bool)

  type Layout = seq<Block>

  function Rounded(size: nat): (r: nat)
    ensures r >= size && r % UNIT == 0 && r < size + UNIT
  {
    (size + UNIT - 1) / UNIT * UNIT
  }

  predicate Sized(b: Block) { b.addr > 0 && b.size >= UNIT && b.size % UNIT == 0 }

  predicate Apart(a: Block, b: Block) { a.addr + a.size <= b.addr || b.addr + b.size <= a.addr }

  // Free neighbours, in the list and in memory.
  predicate Joinable(a: Block, b: Block) { !a.used && !b.used && a.addr + a.size == b.addr }

  ghost predicate Disjoint(l: Layout) {
    && (forall i | 0 <= i < |l| :: Sized(l[i]))
    && (forall i, j | 0 <= i < j < |l| :: Apart(l[i], l[j]))
  }

  // Nothing is left to join.
  ghost predicate Tight(l: Layout) {
    forall i, j | 0 <= i && j == i + 1 < |l| :: !Joinable(l[i], l[j])
  }

  ghost predicate WellFormed(l: Layout) { Disjoint(l) && Tight(l) }

  function Total(l: Layout): nat {
    if l == [] then 0 else Total(l[..|l| - 1]) + l[|l| - 1].size
  }

  predicate Fits(b: Block, need: nat) { !b.used && b.size >= need }

  // The place of the first segment that fits, or the length of the list.
  function FirstFit(l: Layout, need: nat): (k: nat)
    ensures k <= |l| && (k < |l| ==> Fits(l[k], need))
    ensures forall i | 0 <= i < k :: !Fits(l[i], need)
  {
    if l == [] then 0 else if Fits(l[0], need) then 0 else 1 + FirstFit(l[1..], need)
  }

  // Segment i is handed out, split if what remains can be a segment.
  function Taken(l: Layout, i: nat, need: nat): Layout
    requires i < |l| && Fits(l[i], need)
  {
    if l[i].size - need >= UNIT then
      l[..i] + [Block(l[i].addr, need, true), Block(l[i].addr + need, l[i].size - need, false)] + l[i + 1..]
    else
      l[i := l[i].(used := true)]
  }

  function Joined(l: Layout, i: nat): Layout
    requires i + 1 < |l|
  {
    l[..i] + [Block(l[i].addr, l[i].size + l[i + 1].size, l[i].used)] + l[i + 2..]
  }

  // do_combine: first with the next segment, then with the one before.
  function Combined(l: Layout, i: nat): Layout
    requires i < |l|
  {
    var m := if i + 1 < |l| && Joinable(l[i], l[i + 1]) then Joined(l, i) else l;
    if i > 0 && Joinable(m[i - 1], m[i]) then Joined(m, i - 1) else m
  }

  function Freed(l: Layout, i: nat): Layout
    requires i < |l|
  {
    Combined(l[i := l[i].(used := false)], i)
  }

  function Grown(l: Layout, addr: nat): Layout {
    Combined(l + [Block(addr, GROWTH, false)], |l|)
  }

  // ----- What every operation keeps

  lemma Spliced(a: Layout, x: Block, y: Block, b: Layout)
    ensures var m := a + [x, y] + b;
            && |m| == |a| + |b| + 2 && m[|a|] == x && m[|a| + 1] == y
            && (forall k | 0 <= k < |a| :: m[k] == a[k]) && (forall k | |a| + 1 < k < |m| :: m[k] == b[k - |a| - 2])
  {
  }

  lemma TakenAt(l: Layout, i: nat, need: nat)
    requires i < |l| && Fits(l[i], need) && l[i].size - need >= UNIT
    ensures var m := Taken(l, i, need);
            && |m| == |l| + 1 && m[i] == Block(l[i].addr, need, true)
            && m[i + 1] == Block(l[i].addr + need, l[i].size - need, false)
            && (forall k | 0 <= k < i :: m[k] == l[k]) && (forall k | i + 1 < k < |m| :: m[k] == l[k - 1])
  {
    Spliced(l[..i], Block(l[i].addr, need, true), Block(l[i].addr + need, l[i].size - need, false), l[i + 1..]);
  }

  lemma TakenKeeps(l: Layout, i: nat, need: nat)
    requires WellFormed(l) && i < |l| && Fits(l[i], need) && need > 0 && need % UNIT == 0
    ensures WellFormed(Taken(l, i, need))
  {
    var m := Taken(l, i, need);
    if l[i].size - need >= UNIT {
      TakenAt(l, i, need);
      hide Taken;
      forall j, k | 0 <= j < k < |m| ensures Apart(m[j], m[k]) {
        SplitApart(l, m, i, need, j, k);
      }
      forall j, k | 0 <= j && k == j + 1 < |m| ensures !Joinable(m[j], m[k]) {
        assert k < i ==> !Joinable(l[j], l[k]);
        assert j > i + 1 ==> !Joinable(l[j - 1], l[k - 1]);
        assert j == i + 1 ==> !Joinable(l[i], l[k - 1]);
      }
    }
  }

  lemma SplitApart(l: Layout, m: Layout, i: nat, need: nat, j: nat, k: nat)
    requires Disjoint(l) && i < |l| && |m| == |l| + 1 && j < k < |m| && l[i].size >= need
    requires m[i] == Block(l[i].addr, need, true) && m[i + 1] == Block(l[i].addr + need, l[i].size - need, false)
    requires (forall k | 0 <= k < i :: m[k] == l[k]) && (forall k | i + 1 < k < |m| :: m[k] == l[k - 1])
    ensures Apart(m[j], m[k])
  {
    var x, y := if j <= i then j else j - 1, if k <= i then k else k - 1;
    assert x < y ==> Apart(l[x], l[y]);
  }

  // All pairs but those at place i.
  ghost predicate TightBut(l: Layout, i: nat) {
    forall j, k | 0 <= j && k == j + 1 < |l| && j != i && k != i :: !Joinable(l[j], l[k])
  }

  lemma JoinedAt(l: Layout, i: nat)
    requires i + 1 < |l|
    ensures var m := Joined(l, i);
            && |m| == |l| - 1 && m[i] == Block(l[i].addr, l[i].size + l[i + 1].size, l[i].used)
            && (forall k | 0 <= k < i :: m[k] == l[k]) && (forall k | i < k < |m| :: m[k] == l[k + 1])
  {
  }

  lemma JoinedKeeps(l: Layout, i: nat)
    requires Disjoint(l) && i + 1 < |l| && Joinable(l[i], l[i + 1])
    ensures Disjoint(Joined(l, i))
    ensures forall k | 0 <= k < |l| - 1 && k != i :: Joined(l, i)[k] == if k < i then l[k] else l[k + 1]
    ensures Joined(l, i)[i] == Block(l[i].addr, l[i].size + l[i + 1].size, false)
  {
    var m := Joined(l, i);
    var b := Block(l[i].addr, l[i].size + l[i + 1].size, false);
    assert forall k | 0 <= k < |m| :: m[k] == if k < i then l[k] else if k == i then b else l[k + 1];
  }

  // Segment i is joined with the next one if it can be: then only the pair before it may be left to join.
  function WithNext(l: Layout, i: nat): Layout
    requires i < |l|
  {
    if i + 1 < |l| && Joinable(l[i], l[i + 1]) then Joined(l, i) else l
  }

  lemma WithNextKeeps(l: Layout, i: nat)
    requires Disjoint(l) && i < |l| && !l[i].used && TightBut(l, i)
    ensures var m := WithNext(l, i);
            Disjoint(m) && i < |m| && !m[i].used
              && forall j, k | 0 <= j && k == j + 1 < |m| && k != i :: !Joinable(m[j], m[k])
  {
    var m := WithNext(l, i);
    if i + 1 < |l| && Joinable(l[i], l[i + 1]) {
      JoinedKeeps(l, i);
      hide Joined, Disjoint;
      forall j, k | 0 <= j && k == j + 1 < |m| && k != i ensures !Joinable(m[j], m[k]) {
        if j > i { assert !Joinable(l[j + 1], l[k + 1]); }
        if j == i { assert !Joinable(l[i + 1], l[i + 2]); }
        if j < i { assert !Joinable(l[j], l[k]); }
      }
    }
  }

  lemma WithLastKeeps(m: Layout, i: nat)
    requires Disjoint(m) && 0 < i < |m| && Joinable(m[i - 1], m[i])
    requires forall j, k | 0 <= j && k == j + 1 < |m| && k != i :: !Joinable(m[j], m[k])
    ensures WellFormed(Joined(m, i - 1))
  {
    JoinedKeeps(m, i - 1);
    var n := Joined(m, i - 1);
    hide Joined, Disjoint;
    forall j, k | 0 <= j && k == j + 1 < |n| ensures !Joinable(n[j], n[k]) {
      if j > i - 1 { assert !Joinable(m[j + 1], m[k + 1]); }
      if j == i - 1 { assert !Joinable(m[i], m[i + 1]); }
      if k <= i - 1 { assert !Joinable(m[j], m[k]); }
    }
  }

  lemma CombinedKeeps(l: Layout, i: nat)
    requires Disjoint(l) && i < |l| && !l[i].used && TightBut(l, i)
    ensures WellFormed(Combined(l, i))
  {
    hide Disjoint, Joined, TightBut;
    WithNextKeeps(l, i);
    var m := WithNext(l, i);
    if i > 0 && Joinable(m[i - 1], m[i]) { WithLastKeeps(m, i); }
  }

  lemma FreedKeeps(l: Layout, i: nat)
    requires WellFormed(l) && i < |l|
    ensures WellFormed(Freed(l, i))
  {
    CombinedKeeps(l[i := l[i].(used := false)], i);
  }

  lemma GrownKeeps(l: Layout, addr: nat)
    requires WellFormed(l) && addr > 0 && forall i | 0 <= i < |l| :: Apart(l[i], Block(addr, GROWTH, false))
    ensures WellFormed(Grown(l, addr))
  {
    CombinedKeeps(l + [Block(addr, GROWTH, false)], |l|);
  }

  // ----- The bytes of the heap

  lemma {:induction false} TotalSplit(a: Layout, b: Layout)
    ensures Total(a + b) == Total(a) + Total(b)
  {
    if b == [] {
      assert a + b == a;
    } else {
      assert (a + b)[..|a + b| - 1] == a + b[..|b| - 1];
      TotalSplit(a, b[..|b| - 1]);
    }
  }

  lemma TotalOne(b: Block)
    ensures Total([b]) == b.size
  {
    assert [b][..0] == [];
  }

  lemma TotalMid(a: Layout, mid: Layout, b: Layout)
    ensures Total(a + mid + b) == Total(a) + Total(mid) + Total(b)
  {
    TotalSplit(a + mid, b);
    TotalSplit(a, mid);
  }

  lemma TotalTwo(x: Block, y: Block)
    ensures Total([x, y]) == x.size + y.size
  {
    TotalSplit([x], [y]);
    TotalOne(x);
    TotalOne(y);
  }

  lemma TotalTaken(l: Layout, i: nat, need: nat)
    requires i < |l| && Fits(l[i], need)
    ensures Total(Taken(l, i, need)) == Total(l)
  {
    hide Total;
    var a, b := l[..i], l[i + 1..];
    assert l == a + [l[i]] + b;
    TotalMid(a, [l[i]], b);
    TotalOne(l[i]);
    if l[i].size - need >= UNIT {
      var x, y := Block(l[i].addr, need, true), Block(l[i].addr + need, l[i].size - need, false);
      TotalMid(a, [x, y], b);
      TotalTwo(x, y);
    } else {
      TotalMarked(l, i, true);
    }
  }

  lemma TotalMarked(l: Layout, i: nat, used: bool)
    requires i < |l|
    ensures Total(l[i := l[i].(used := used)]) == Total(l)
  {
    hide Total;
    var a, b, x := l[..i], l[i + 1..], l[i].(used := used);
    assert l == a + [l[i]] + b && l[i := x] == a + [x] + b;
    TotalMid(a, [l[i]], b);
    TotalMid(a, [x], b);
    TotalOne(l[i]);
    TotalOne(x);
  }

  lemma TotalJoined(l: Layout, i: nat)
    requires i + 1 < |l|
    ensures Total(Joined(l, i)) == Total(l)
  {
    hide Total;
    var a, b := l[..i], l[i + 2..];
    var x := Block(l[i].addr, l[i].size + l[i + 1].size, l[i].used);
    assert l == a + [l[i], l[i + 1]] + b;
    TotalMid(a, [l[i], l[i + 1]], b);
    TotalTwo(l[i], l[i + 1]);
    TotalMid(a, [x], b);
    TotalOne(x);
  }

  lemma TotalCombined(l: Layout, i: nat)
    requires i < |l|
    ensures Total(Combined(l, i)) == Total(l)
  {
    hide Total, Joined, Joinable;
    var m := if i + 1 < |l| && Joinable(l[i], l[i + 1]) then Joined(l, i) else l;
    if i + 1 < |l| {
      JoinedAt(l, i);
      TotalJoined(l, i);
    }
    if i > 0 && Joinable(m[i - 1], m[i]) { TotalJoined(m, i - 1); }
  }

  lemma TotalFreed(l: Layout, i: nat)
    requires i < |l|
    ensures Total(Freed(l, i)) == Total(l)
  {
    TotalMarked(l, i, false);
    TotalCombined(l[i := l[i].(used := false)], i);
  }

  lemma TotalGrown(l: Layout, addr: nat)
    ensures Total(Grown(l, addr)) == Total(l) + GROWTH
  {
    TotalSplit(l, [Block(addr, GROWTH, false)]);
    TotalOne(Block(addr, GROWTH, false));
    TotalCombined(l + [Block(addr, GROWTH, false)], |l|);
  }

  // ----- Live blocks

  ghost function Live(l: Layout): set<Block> { set b | b in l && b.used }

  // Handing out a segment takes no block in use away and adds only that one.
  lemma TakenStays(l: Layout, i: nat, need: nat, k: nat)
    requires i < |l| && Fits(l[i], need) && k < |l| && l[k].used
    ensures l[k] in Taken(l, i, need)
  {
    hide Taken;
    var m := Taken(l, i, need);
    if l[i].size - need >= UNIT {
      TakenAt(l, i, need);
      assert m[if k < i then k else k + 1] == l[k];
    } else {
      TakenWhole(l, i, need);
      assert m[k] == l[k];
    }
  }

  lemma TakenAdds(l: Layout, i: nat, need: nat, k: nat)
    requires i < |l| && Fits(l[i], need) && k < |Taken(l, i, need)| && k != i && Taken(l, i, need)[k].used
    ensures Taken(l, i, need)[k] in l
  {
    hide Taken;
    if l[i].size - need >= UNIT {
      TakenAt(l, i, need);
      assert l[if k < i then k else k - 1] == Taken(l, i, need)[k];
    } else {
      TakenWhole(l, i, need);
    }
  }

  lemma TakenBlock(l: Layout, i: nat, need: nat)
    requires i < |l| && Fits(l[i], need)
    ensures i < |Taken(l, i, need)|
    ensures var b := Taken(l, i, need)[i];
            b.addr == l[i].addr && b.used && need <= b.size < need + UNIT && b.size <= l[i].size
  {
    hide Taken;
    if l[i].size - need >= UNIT { TakenAt(l, i, need); } else { TakenWhole(l, i, need); }
  }

  lemma TakenWhole(l: Layout, i: nat, need: nat)
    requires i < |l| && Fits(l[i], need) && l[i].size - need < UNIT
    ensures Taken(l, i, need) == l[i := l[i].(used := true)]
  {
  }

  // What kmalloc hands out is at least as long as asked, new, and apart from everything live.
  lemma LiveTaken(l: Layout, i: nat, need: nat)
    requires WellFormed(l) && i < |l| && Fits(l[i], need) && need > 0 && need % UNIT == 0
    ensures var b := Taken(l, i, need)[i];
            && b.addr == l[i].addr && b.used && need <= b.size < need + UNIT && b !in Live(l)
            && Live(Taken(l, i, need)) == Live(l) + {b}
            && forall a <- Live(l) :: Apart(a, b)
  {
    hide Taken, Apart, Disjoint, Tight;
    TakenBlock(l, i, need);
    var m := Taken(l, i, need);
    var b := m[i];
    forall k | 0 <= k < |l| && l[k].used ensures Apart(l[k], b) && l[k] != b && l[k] in m {
      NextToTaken(l, i, k, b);
      TakenStays(l, i, need, k);
    }
    forall k | 0 <= k < |m| && m[k].used && k != i ensures m[k] in l { TakenAdds(l, i, need, k); }
    assert Live(m) == Live(l) + {b};
  }

  // A segment handed out lies inside the free one, so it is apart from all others.
  lemma NextToTaken(l: Layout, i: nat, k: nat, b: Block)
    requires Disjoint(l) && i < |l| && k < |l| && k != i && b.addr == l[i].addr && 0 < b.size <= l[i].size
    ensures Apart(l[k], b) && l[k] != b
  {
    assert k < i ==> Apart(l[k], l[i]);
    assert k > i ==> Apart(l[i], l[k]);
    assert Sized(l[k]);
  }

  lemma LiveJoined(l: Layout, i: nat)
    requires i + 1 < |l| && Joinable(l[i], l[i + 1])
    ensures Live(Joined(l, i)) == Live(l)
  {
    var m := Joined(l, i);
    forall x ensures x in Live(m) <==> x in Live(l) {
      if x in m && x.used {
        var k :| 0 <= k < |m| && m[k] == x;
        assert if k < i then l[k] == x else k > i && l[k + 1] == x;
      }
      if x in l && x.used {
        var k :| 0 <= k < |l| && l[k] == x;
        assert if k < i then m[k] == x else k > i + 1 && m[k - 1] == x;
      }
    }
  }

  lemma LiveCombined(l: Layout, i: nat)
    requires i < |l|
    ensures Live(Combined(l, i)) == Live(l)
  {
    var m := if i + 1 < |l| && Joinable(l[i], l[i + 1]) then Joined(l, i) else l;
    if i + 1 < |l| && Joinable(l[i], l[i + 1]) { LiveJoined(l, i); }
    if i > 0 && Joinable(m[i - 1], m[i]) { LiveJoined(m, i - 1); }
  }

  // kfree takes exactly the freed block from the live ones.
  lemma LiveFreed(l: Layout, i: nat)
    requires WellFormed(l) && i < |l|
    ensures Live(Freed(l, i)) == Live(l) - {l[i]}
  {
    var m := l[i := l[i].(used := false)];
    LiveCombined(m, i);
    forall x ensures x in Live(m) <==> x in Live(l) - {l[i]} {
      if x in Live(m) {
        var k :| 0 <= k < |m| && m[k] == x;
        assert l[k] == x && k != i;
        assert Apart(l[if k < i then k else i], l[if k < i then i else k]);
      }
      if x in Live(l) - {l[i]} {
        var k :| 0 <= k < |l| && l[k] == x;
        assert m[k] == x;
      }
    }
  }

  lemma LiveGrown(l: Layout, addr: nat)
    ensures Live(Grown(l, addr)) == Live(l)
  {
    var m := l + [Block(addr, GROWTH, false)];
    LiveCombined(m, |l|);
    assert forall x :: x in m && x.used <==> x in l && x.used;
  }

  // Releasing what was just handed out gives back the very layout there was.
  lemma FreeUndoesTake(l: Layout, i: nat, need: nat)
    requires WellFormed(l) && i < |l| && Fits(l[i], need) && need > 0
    ensures Freed(Taken(l, i, need), i) == l
  {
    var m := Taken(l, i, need);
    var f := m[i := m[i].(used := false)];
    if l[i].size - need >= UNIT {
      assert Joinable(f[i], f[i + 1]);
      assert Joined(f, i) == l;
    } else {
      assert f == l;
      assert i + 1 < |l| ==> !Joinable(l[i], l[i + 1]);
    }
    assert i > 0 ==> !Joinable(l[i - 1], l[i]);
  }

  // ----- Runs

  // Malloc(n) is an allocation that needs no growth (or nothing, when nothing fits), Free the release of a
  // segment in use, Grow the arrival of a new area.
  datatype Op = Malloc(n: nat) | Free(addr: nat) | Grow(area: nat)

  function PlaceOf(l: Layout, addr: nat): (k: nat)
    ensures k <= |l| && (k < |l| ==> l[k].addr == addr)
    ensures forall i | 0 <= i < k :: l[i].addr != addr
  {
    if l == [] then 0 else if l[0].addr == addr then 0 else 1 + PlaceOf(l[1..], addr)
  }

  ghost predicate Allowed(l: Layout, op: Op) {
    match op
    case Malloc(_) => true
    case Free(addr) => PlaceOf(l, addr) < |l| && l[PlaceOf(l, addr)].used
    case Grow(area) => area > 0 && forall i | 0 <= i < |l| :: Apart(l[i], Block(area, GROWTH, false))
  }

  function Apply(l: Layout, op: Op): Layout {
    match op
    case Malloc(n) =>
      var k := FirstFit(l, Rounded(n + HEADER));
      if k < |l| then Taken(l, k, Rounded(n + HEADER)) else l
    case Free(addr) => if PlaceOf(l, addr) < |l| then Freed(l, PlaceOf(l, addr)) else l
    case Grow(area) => Grown(l, area)
  }

  function After(l: Layout, ops: seq<Op>): Layout {
    if ops == [] then l else Apply(After(l, ops[..|ops| - 1]), ops[|ops| - 1])
  }

  ghost predicate Proper(l: Layout, ops: seq<Op>) {
    ops != [] ==> Proper(l, ops[..|ops| - 1]) && Allowed(After(l, ops[..|ops| - 1]), ops[|ops| - 1])
  }

  function Growths(ops: seq<Op>): nat {
    if ops == [] then 0 else Growths(ops[..|ops| - 1]) + if ops[|ops| - 1].Grow? then 1 else 0
  }

  // The block kmalloc makes of the segment it picked.
  function Handed(b: Block, need: nat): Block
    requires Fits(b, need)
  {
    Block(b.addr, if b.size - need >= UNIT then need else b.size, true)
  }

  ghost function OwnedNext(m: Layout, op: Op, owned: set<Block>): set<Block> {
    match op
    case Malloc(n) =>
      var k := FirstFit(m, Rounded(n + HEADER));
      if k < |m| then owned + {Handed(m[k], Rounded(n + HEADER))} else owned
    case Free(addr) => set b | b in owned && b.addr != addr
    case Grow(_) => owned
  }

  // The blocks a run should leave live: those handed out and not released since.
  ghost function Owned(l: Layout, ops: seq<Op>): set<Block> {
    if ops == [] then Live(l)
    else OwnedNext(After(l, ops[..|ops| - 1]), ops[|ops| - 1], Owned(l, ops[..|ops| - 1]))
  }

  lemma StepKeeps(m: Layout, op: Op)
    requires WellFormed(m) && Allowed(m, op)
    ensures WellFormed(Apply(m, op))
    ensures Total(Apply(m, op)) == Total(m) + if op.Grow? then GROWTH else 0
  {
    hide Total, Taken, Combined, Disjoint, Tight;
    match op
    case Malloc(n) =>
      var need := Rounded(n + HEADER);
      var k := FirstFit(m, need);
      if k < |m| {
        TakenKeeps(m, k, need);
        TotalTaken(m, k, need);
      }
    case Free(addr) =>
      FreedKeeps(m, PlaceOf(m, addr));
      TotalFreed(m, PlaceOf(m, addr));
    case Grow(area) =>
      GrownKeeps(m, area);
      TotalGrown(m, area);
  }

  lemma StepLive(m: Layout, op: Op)
    requires WellFormed(m) && Allowed(m, op)
    ensures Live(Apply(m, op)) == OwnedNext(m, op, Live(m))
  {
    hide Taken, Combined, Live, WellFormed;
    match op
    case Malloc(n) =>
      var need := Rounded(n + HEADER);
      var k := FirstFit(m, need);
      if k < |m| {
        LiveTaken(m, k, need);
        HandedIs(m, k, need);
      }
    case Free(addr) =>
      LiveFreed(m, PlaceOf(m, addr));
      OnePlace(m, PlaceOf(m, addr));
    case Grow(area) =>
      LiveGrown(m, area);
  }

  lemma HandedIs(m: Layout, k: nat, need: nat)
    requires k < |m| && Fits(m[k], need)
    ensures Taken(m, k, need)[k] == Handed(m[k], need)
  {
  }

  // After every run: the segments are disjoint multiples of 64 bytes with nothing left to join, they add up to
  // the first heap and 256 KB for every growth, and exactly the blocks handed out and not released are live.
  lemma {:induction false} EveryRun(l: Layout, ops: seq<Op>)
    requires WellFormed(l) && Proper(l, ops)
    ensures WellFormed(After(l, ops))
    ensures Total(After(l, ops)) == Total(l) + GROWTH * Growths(ops)
    ensures Live(After(l, ops)) == Owned(l, ops)
  {
    hide WellFormed, Total, Live, OwnedNext, Apply, Allowed;
    if ops != [] {
      EveryRun(l, ops[..|ops| - 1]);
      StepKeeps(After(l, ops[..|ops| - 1]), ops[|ops| - 1]);
      StepLive(After(l, ops[..|ops| - 1]), ops[|ops| - 1]);
    }
  }

  lemma OnePlace(l: Layout, k: nat)
    requires WellFormed(l) && k < |l| && l[k].used
    ensures Live(l) - {l[k]} == set b | b in Live(l) && b.addr != l[k].addr
  {
    forall j | 0 <= j < |l| && j != k ensures l[j].addr != l[k].addr {
      assert Sized(l[j]) && Sized(l[k]);
      assert Apart(l[if j < k then j else k], l[if j < k then k else j]);
    }
  }

  // ----- The segment headers in memory

  // seg_info_struct; 0 is NULL.
  datatype Header = Header(size: nat, used: bool, next: nat, last: nat)

  // What each address holds where a header has been written.
  type Headers = map<nat, Header>

  ghost predicate Present(mem: Headers, chain: seq<nat>) {
    forall i | 0 <= i < |chain| :: chain[i] in mem
  }

  function NextOf(chain: seq<nat>, i: nat): nat
    requires i < |chain|
  {
    if i + 1 < |chain| then chain[i + 1] else 0
  }

  function LastOf(chain: seq<nat>, i: nat): nat
    requires i < |chain|
  {
    if i > 0 then chain[i - 1] else 0
  }

  // The list of segments that starts at chain[0], linked both ways.
  ghost predicate Chained(mem: Headers, chain: seq<nat>) {
    && |chain| > 0 && Present(mem, chain)
    && (forall i {:trigger mem[chain[i]]} | 0 <= i < |chain| :: mem[chain[i]].next == NextOf(chain, i))
    && (forall i {:trigger mem[chain[i]]} | 0 <= i < |chain| :: mem[chain[i]].last == LastOf(chain, i))
  }

  ghost function Shown(mem: Headers, chain: seq<nat>): (l: Layout)
    requires Present(mem, chain)
    ensures |l| == |chain|
    ensures forall i | 0 <= i < |chain| :: l[i] == Block(chain[i], mem[chain[i]].size, mem[chain[i]].used)
  {
    seq(|chain|, i requires 0 <= i < |chain| => Block(chain[i], mem[chain[i]].size, mem[chain[i]].used))
  }

  // No two segments start at the same place.
  lemma Distinct(mem: Headers, chain: seq<nat>)
    requires Present(mem, chain) && Disjoint(Shown(mem, chain))
    ensures forall i, j | 0 <= i < j < |chain| :: chain[i] != chain[j]
    ensures forall i | 0 <= i < |chain| :: chain[i] > 0
  {
    var l := Shown(mem, chain);
    forall i, j | 0 <= i < j < |chain| ensures chain[i] != chain[j] {
      assert Apart(l[i], l[j]);
    }
    assert forall i | 0 <= i < |chain| :: Sized(l[i]);
  }

  class KernelHeap {
    const start: nat
    var mem: Headers
    ghost var chain: seq<nat>

    ghost predicate Linked()
      reads this
    {
      Present(mem, chain) && Chained(mem, chain) && chain[0] == start && Disjoint(Shown(mem, chain))
    }

    ghost function Layout(): (l: Layout)
      requires Linked()
      reads this
      ensures Disjoint(l)
    {
      Shown(mem, chain)
    }

    ghost predicate Valid()
      reads this
    {
      Linked() && Tight(Layout())
    }

    // init_kheap
    constructor (base: nat, size: nat)
      requires base > 0 && size >= UNIT && size % UNIT == 0
      ensures Valid() && Layout() == [Block(base, size, false)]
    {
      start := base;
      mem := map[base := Header(size, false, 0, 0)];
      chain := [base];
    }

    // A segment takes in the one after it, as both halves of do_combine do.
    method TakeIn(seg: nat)
      requires seg in mem && mem[seg].next in mem && mem[seg].next != seg
      requires mem[mem[seg].next].next == 0 || mem[mem[seg].next].next in mem
      modifies this`mem
      ensures mem == Absorbed(old(mem), seg)
    {
      var next := mem[seg].next;
      mem := mem[seg := mem[seg].(size := mem[seg].size + mem[next].size)];
      mem := mem[seg := mem[seg].(next := mem[next].next)];
      if mem[seg].next != 0 {
        mem := mem[mem[seg].next := mem[mem[seg].next].(last := seg)];
      }
    }

    method Absorb(seg: nat, ghost i: nat)
      requires Linked() && i + 1 < |chain| && chain[i] == seg && Joinable(Layout()[i], Layout()[i + 1])
      modifies this
      ensures Linked() && Layout() == Joined(old(Layout()), i) && chain == old(chain)[..i + 1] + old(chain)[i + 2..]
      ensures !Layout()[i].used
    {
      NextIs(i);
      NextIs(i + 1);
      Distinct(mem, chain);
      JoinedKeeps(Layout(), i);
      AbsorbedChain(mem, chain, i);
      hide Joined, Disjoint, Chained, Shown, Absorbed;
      TakeIn(seg);
      chain := chain[..i + 1] + chain[i + 2..];
    }

    // do_combine on segment i, which is free.
    method DoCombine(seg: nat, ghost i: nat) returns (r: nat)
      requires Linked() && i < |chain| && chain[i] == seg && !Layout()[i].used
      modifies this
      ensures Linked() && Layout() == Combined(old(Layout()), i)
    {
      hide Chained, Disjoint, Joined;
      NextIs(i);
      if mem[seg].next != 0 && !mem[mem[seg].next].used {
        if seg + mem[seg].size == mem[seg].next {
          Absorb(seg, i);
        }
      }
      r := seg;
      NextIs(i);
      if mem[seg].last != 0 && !mem[mem[seg].last].used {
        var last := mem[seg].last;
        if last + mem[last].size == seg {
          Absorb(last, i - 1);
          r := last;
        }
      }
    }

    // The search of kmalloc: the first segment that fits, or the last one of the list when none does.
    method FindFit(need: nat) returns (cur: nat, ghost i: nat)
      requires Linked()
      ensures i == if FirstFit(Layout(), need) < |chain| then FirstFit(Layout(), need) else |chain| - 1
      ensures i < |chain|
      ensures var k := FirstFit(Layout(), need); cur == chain[if k < |chain| then k else |chain| - 1]
    {
      cur, i := start, 0;
      NextIs(0);
      while (mem[cur].size < need || mem[cur].used) && mem[cur].next != 0
        invariant i < |chain| && chain[i] == cur && cur in mem
        invariant forall k | 0 <= k < i :: !Fits(Layout()[k], need)
        decreases |chain| - i
      {
        NextIs(i);
        cur, i := mem[cur].next, i + 1;
      }
      NextIs(i);
      assert Layout()[i] == Block(cur, mem[cur].size, mem[cur].used);
    }

    // The header writes of a split.
    method Cut(cur: nat, need: nat)
      requires cur in mem && need < mem[cur].size && need > 0 && mem[cur].next != cur + need && mem[cur].next != cur
      requires mem[cur].next == 0 || mem[cur].next in mem
      modifies this`mem
      ensures mem == CutUp(old(mem), cur, need)
    {
      var new_ := cur + need;
      mem := mem[new_ := Header(mem[cur].size - need, false, mem[cur].next, 0)];
      if mem[cur].next != 0 {
        mem := mem[mem[cur].next := mem[mem[cur].next].(last := new_)];
      }
      mem := mem[new_ := mem[new_].(last := cur)];
      mem := mem[cur := mem[cur].(size := need)];
      mem := mem[cur := mem[cur].(next := new_)];
      mem := mem[cur := mem[cur].(used := true)];
    }

    method TakeSplit(cur: nat, need: nat, ghost i: nat)
      requires Valid() && i < |chain| && chain[i] == cur && Fits(Layout()[i], need) && need > 0 && need % UNIT == 0
      requires cur in mem && mem[cur].size >= need + UNIT
      modifies this
      ensures Valid() && Layout() == Taken(old(Layout()), i, need)
      ensures chain == old(chain)[..i + 1] + [cur + need] + old(chain)[i + 1..]
    {
      hide Taken, Disjoint, Chained, Shown, Tight, CutUp, Present, Fits;
      TakenKeeps(Layout(), i, need);
      CutChain(mem, chain, i, need);
      ghost var c := chain[..i + 1] + [cur + need] + chain[i + 1..];
      assert c[0] == start;
      Cut(cur, need);
      chain := c;
    }

    // The rest of kmalloc, once a segment is found: the address behind its header is handed out.
    method Take(cur: nat, need: nat, ghost i: nat) returns (ptr: nat)
      requires Valid() && i < |chain| && chain[i] == cur && Fits(Layout()[i], need) && need > 0 && need % UNIT == 0
      modifies this
      ensures Valid() && Layout() == Taken(old(Layout()), i, need) && ptr == Layout()[i].addr + HEADER
    {
      TakenKeeps(Layout(), i, need);
      MarkedChain(mem, chain, i, true);
      hide Disjoint, Chained, Shown, Tight;
      if mem[cur].size - need >= UNIT {
        hide Taken;
        TakeSplit(cur, need, i);
      } else {
        mem := mem[cur := mem[cur].(used := true)];
      }
      ptr := cur + HEADER;
      assert Layout()[i].addr == chain[i];
    }

    // kfree of the segment behind whose header ptr lies.
    method Kfree(ptr: nat, ghost i: nat)
      requires Valid() && i < |chain| && ptr == chain[i] + HEADER && Layout()[i].used
      modifies this
      ensures Valid() && Layout() == Freed(old(Layout()), i)
    {
      var seg := ptr - HEADER;
      MarkedChain(mem, chain, i, false);
      FreedKeeps(Layout(), i);
      MarkedApart(Layout(), i, false);
      hide Disjoint, Chained, Shown, Tight, Combined;
      mem := mem[seg := mem[seg].(used := false)];
      var r := DoCombine(seg, i);
    }

    // The growth of kmalloc: a new area is linked in behind the last segment and joined with it.
    method AddArea(cur: nat, addr: nat)
      requires Valid() && chain[|chain| - 1] == cur && addr > 0
      requires forall i | 0 <= i < |chain| :: Apart(Layout()[i], Block(addr, GROWTH, false))
      modifies this
      ensures Valid() && Layout() == Grown(old(Layout()), addr)
    {
      GrownKeeps(Layout(), addr);
      AddedChain(mem, chain, addr);
      AddedApart(Layout(), addr);
      NextIs(|chain| - 1);
      hide Disjoint, Chained, Shown, Tight, Combined;
      ghost var was, i := mem, |chain|;
      var seg := addr;
      mem := mem[seg := Header(GROWTH, false, 0, cur)];
      mem := mem[cur := mem[cur].(next := seg)];
      assert mem == Extended(was, cur, seg);
      hide Extended;
      chain := chain + [seg];
      var r := DoCombine(seg, i);
    }

    lemma NextIs(i: nat)
      requires Linked() && i < |chain|
      ensures mem[chain[i]].next == NextOf(chain, i) && mem[chain[i]].last == LastOf(chain, i)
      ensures forall i | 0 <= i < |chain| :: chain[i] > 0 && chain[i] in mem
    {
      Distinct(mem, chain);
    }
  }

  // The header of the joined segment, and the one behind it pointing back.
  function Absorbed(mem: Headers, seg: nat): Headers
    requires seg in mem && mem[seg].next in mem
  {
    var next := mem[mem[seg].next];
    var now := mem[seg := Header(mem[seg].size + next.size, mem[seg].used, next.next, mem[seg].last)];
    if next.next != 0 && next.next in now then now[next.next := now[next.next].(last := seg)] else now
  }

  lemma AbsorbedAt(was: Headers, chain: seq<nat>, i: nat, k: nat)
    requires Chained(was, chain) && i + 1 < |chain| && k < |chain|
    requires forall i, j | 0 <= i < j < |chain| :: chain[i] != chain[j]
    requires forall i | 0 <= i < |chain| :: chain[i] > 0
    ensures var now := Absorbed(was, chain[i]);
            chain[k] in now && now[chain[k]] ==
              if k == i then Header(was[chain[i]].size + was[chain[i + 1]].size, was[chain[i]].used,
                             was[chain[i + 1]].next, was[chain[i]].last)
              else if k == i + 2 then was[chain[k]].(last := chain[i]) else was[chain[k]]
  {
    assert was[chain[i]].next == chain[i + 1];
    assert was[chain[i + 1]].next == NextOf(chain, i + 1);
  }

  lemma AbsorbedChain(was: Headers, chain: seq<nat>, i: nat)
    requires Chained(was, chain) && Disjoint(Shown(was, chain)) && i + 1 < |chain|
    ensures var c := chain[..i + 1] + chain[i + 2..];
            was[chain[i]].next in was && Present(Absorbed(was, chain[i]), c) &&
            Chained(Absorbed(was, chain[i]), c) && Shown(Absorbed(was, chain[i]), c) == Joined(Shown(was, chain), i)
  {
    assert was[chain[i]].next == chain[i + 1];
    Distinct(was, chain);
    hide Disjoint, Shown, Joined, Absorbed;
    forall k | 0 <= k < |chain|
      ensures chain[k] in Absorbed(was, chain[i])
      ensures Absorbed(was, chain[i])[chain[k]] ==
              if k == i then Header(was[chain[i]].size + was[chain[i + 1]].size, was[chain[i]].used,
                             was[chain[i + 1]].next, was[chain[i]].last)
              else if k == i + 2 then was[chain[k]].(last := chain[i]) else was[chain[k]]
    {
      AbsorbedAt(was, chain, i, k);
    }
    AbsorbedLinks(was, chain, i, Absorbed(was, chain[i]));
  }

  lemma AbsorbedLinks(was: Headers, chain: seq<nat>, i: nat, now: Headers)
    requires Chained(was, chain) && i + 1 < |chain| && Present(now, chain)
    requires forall k {:trigger now[chain[k]]} | 0 <= k < |chain| :: now[chain[k]] ==
               if k == i then Header(was[chain[i]].size + was[chain[i + 1]].size, was[chain[i]].used,
                              was[chain[i + 1]].next, was[chain[i]].last)
               else if k == i + 2 then was[chain[k]].(last := chain[i]) else was[chain[k]]
    ensures var c := chain[..i + 1] + chain[i + 2..];
            Chained(now, c) && Shown(now, c) == Joined(Shown(was, chain), i)
  {
    var c := chain[..i + 1] + chain[i + 2..];
    forall k | 0 <= k < |c| ensures c[k] in now && now[c[k]].next == NextOf(c, k) && now[c[k]].last == LastOf(c, k) {
      var j := if k <= i then k else k + 1;
      assert c[k] == chain[j];
      assert now[chain[j]].next == if j == i then was[chain[j + 1]].next else was[chain[j]].next;
      assert now[chain[j]].last == if j == i + 2 then chain[i] else was[chain[j]].last;
    }
    AbsorbedShown(was, chain, i, now);
  }

  lemma AbsorbedShown(was: Headers, chain: seq<nat>, i: nat, now: Headers)
    requires Present(was, chain) && i + 1 < |chain| && Present(now, chain)
    requires now[chain[i]].size == was[chain[i]].size + was[chain[i + 1]].size
             && now[chain[i]].used == was[chain[i]].used
    requires forall k | 0 <= k < |chain| && k != i ::
             now[chain[k]].size == was[chain[k]].size && now[chain[k]].used == was[chain[k]].used
    ensures var c := chain[..i + 1] + chain[i + 2..];
            Present(now, c) && Shown(now, c) == Joined(Shown(was, chain), i)
  {
    var c := chain[..i + 1] + chain[i + 2..];
    var l := Shown(was, chain);
    JoinedAt(l, i);
    var m := Joined(l, i);
    hide Joined;
    forall k | 0 <= k < |c| ensures c[k] in now && Block(c[k], now[c[k]].size, now[c[k]].used) == m[k] {
      assert c[k] == chain[if k <= i then k else k + 1];
    }
    assert Shown(now, c) == m;
  }

  function CutUp(mem: Headers, cur: nat, need: nat): Headers
    requires cur in mem && need < mem[cur].size
  {
    var (next, back) := (mem[cur].next, cur + need);
    var now := mem[back := Header(mem[cur].size - need, false, next, cur)][cur :=
      Header(need, true, back, mem[cur].last)];
    if next != 0 && next in mem then now[next := mem[next].(last := back)] else now
  }

  // The place of the split is inside segment i, so nothing starts there yet.
  lemma NewPlace(mem: Headers, chain: seq<nat>, i: nat, need: nat)
    requires Present(mem, chain) && Disjoint(Shown(mem, chain)) && i < |chain| && 0 < need < mem[chain[i]].size
    ensures forall k | 0 <= k < |chain| :: chain[k] != chain[i] + need
  {
    var l := Shown(mem, chain);
    forall k | 0 <= k < |chain| ensures chain[k] != chain[i] + need {
      assert Sized(l[k]);
      assert k < i ==> Apart(l[k], l[i]);
      assert k > i ==> Apart(l[i], l[k]);
    }
  }

  lemma CutAt(was: Headers, chain: seq<nat>, i: nat, need: nat, k: nat)
    requires Chained(was, chain) && i < |chain| && k < |chain| && 0 < need < was[chain[i]].size
    requires chain[k] != chain[i] + need && (k != i ==> chain[k] != chain[i])
    requires i + 1 < |chain| ==>
               chain[i + 1] > 0 && chain[i + 1] != chain[i] + need && chain[i + 1] != chain[i]
                 && (k != i + 1 ==> chain[k] != chain[i + 1])
    ensures var now := CutUp(was, chain[i], need);
            && chain[k] in now && chain[i] + need in now
            && now[chain[i] + need] == Header(was[chain[i]].size - need, false, was[chain[i]].next, chain[i])
            && now[chain[k]] == if k == i then Header(need, true, chain[i] + need, was[chain[i]].last)
                                else if k == i + 1 then was[chain[k]].(last := chain[i] + need) else was[chain[k]]
  {
    assert was[chain[i]].next == NextOf(chain, i);
  }

  lemma CutChain(was: Headers, chain: seq<nat>, i: nat, need: nat)
    requires Chained(was, chain) && Disjoint(Shown(was, chain)) && i < |chain| && 0 < need
             && was[chain[i]].size >= need + UNIT
    requires Fits(Shown(was, chain)[i], need)
    ensures var c := chain[..i + 1] + [chain[i] + need] + chain[i + 1..];
            var now := CutUp(was, chain[i], need);
            && Present(now, c) && Chained(now, c) && Shown(now, c) == Taken(Shown(was, chain), i, need)
    ensures var next := was[chain[i]].next; next != chain[i] + need && next != chain[i] && (next == 0 || next in was)
  {
    assert was[chain[i]].next == NextOf(chain, i);
    Distinct(was, chain);
    NewPlace(was, chain, i, need);
    var now := CutUp(was, chain[i], need);
    hide CutUp, Taken, Disjoint, Shown;
    CutAt(was, chain, i, need, i);
    forall k | 0 <= k < |chain|
      ensures chain[k] in now
      ensures now[chain[k]] == if k == i then Header(need, true, chain[i] + need, was[chain[i]].last)
                               else if k == i + 1 then was[chain[k]].(last := chain[i] + need) else was[chain[k]]
    {
      CutAt(was, chain, i, need, k);
    }
    CutLinks(was, chain, i, need, now);
    CutShown(was, chain, i, need, now);
  }

  // What the headers of a split say, one by one.
  ghost predicate CutHeaders(was: Headers, chain: seq<nat>, i: nat, need: nat, now: Headers) {
    && i < |chain| && Present(was, chain) && Present(now, chain) && was[chain[i]].size >= need && chain[i] + need in now
    && now[chain[i] + need] == Header(was[chain[i]].size - need, false, was[chain[i]].next, chain[i])
    && forall k {:trigger now[chain[k]]} | 0 <= k < |chain| :: now[chain[k]] ==
         if k == i then Header(need, true, chain[i] + need, was[chain[i]].last)
         else if k == i + 1 then was[chain[k]].(last := chain[i] + need) else was[chain[k]]
  }

  lemma CutLinks(was: Headers, chain: seq<nat>, i: nat, need: nat, now: Headers)
    requires Chained(was, chain) && CutHeaders(was, chain, i, need, now)
    ensures Chained(now, chain[..i + 1] + [chain[i] + need] + chain[i + 1..])
  {
    var c := chain[..i + 1] + [chain[i] + need] + chain[i + 1..];
    forall k | 0 <= k < |c| ensures c[k] in now && now[c[k]].next == NextOf(c, k) && now[c[k]].last == LastOf(c, k) {
      var j := if k <= i then k else k - 1;
      assert c[k] == if k == i + 1 then chain[i] + need else chain[j];
      assert was[chain[j]].next == NextOf(chain, j) && was[chain[j]].last == LastOf(chain, j);
      assert k != i + 1 ==> now[chain[j]].next == if j == i then chain[i] + need else was[chain[j]].next;
      assert k != i + 1 ==> now[chain[j]].last == if j == i + 1 then chain[i] + need else was[chain[j]].last;
    }
  }

  lemma CutShown(was: Headers, chain: seq<nat>, i: nat, need: nat, now: Headers)
    requires CutHeaders(was, chain, i, need, now) && Fits(Shown(was, chain)[i], need)
             && was[chain[i]].size >= need + UNIT
    ensures var c := chain[..i + 1] + [chain[i] + need] + chain[i + 1..];
            Present(now, c) && Shown(now, c) == Taken(Shown(was, chain), i, need)
  {
    var c := chain[..i + 1] + [chain[i] + need] + chain[i + 1..];
    var l := Shown(was, chain);
    var m := Taken(l, i, need);
    TakenAt(l, i, need);
    hide Taken;
    forall k | 0 <= k < |c| ensures c[k] in now && Block(c[k], now[c[k]].size, now[c[k]].used) == m[k] {
      assert c[k] == if k == i + 1 then chain[i] + need else chain[if k <= i then k else k - 1];
    }
    assert Shown(now, c) == m;
  }

  lemma MarkedChain(was: Headers, chain: seq<nat>, i: nat, used: bool)
    requires Chained(was, chain) && Disjoint(Shown(was, chain)) && i < |chain|
    ensures var now := was[chain[i] := was[chain[i]].(used := used)];
            && Present(now, chain) && Chained(now, chain)
            && Shown(now, chain) == Shown(was, chain)[i := Shown(was, chain)[i].(used := used)]
  {
    Distinct(was, chain);
  }

  lemma MarkedApart(l: Layout, i: nat, used: bool)
    requires Disjoint(l) && i < |l|
    ensures Disjoint(l[i := l[i].(used := used)])
  {
  }

  function Extended(mem: Headers, last: nat, addr: nat): Headers
    requires last in mem
  {
    var mid := mem[addr := Header(GROWTH, false, 0, last)];
    mid[last := mid[last].(next := addr)]
  }

  lemma AddedChain(was: Headers, chain: seq<nat>, addr: nat)
    requires Chained(was, chain) && Disjoint(Shown(was, chain)) && addr > 0
    requires forall i | 0 <= i < |chain| :: Apart(Shown(was, chain)[i], Block(addr, GROWTH, false))
    ensures var last := chain[|chain| - 1];
            var now := Extended(was, last, addr);
            && Present(now, chain + [addr]) && Chained(now, chain + [addr])
            && Shown(now, chain + [addr]) == Shown(was, chain) + [Block(addr, GROWTH, false)]
  {
    Distinct(was, chain);
    assert forall i | 0 <= i < |chain| :: Sized(Shown(was, chain)[i]) && chain[i] != addr;
    hide Disjoint, Shown, Extended;
    var n := |chain|;
    var now := Extended(was, chain[n - 1], addr);
    AddedAt(was, chain, addr, n - 1);
    forall k | 0 <= k < n
      ensures chain[k] in now && now[chain[k]] == if k == n - 1 then was[chain[k]].(next := addr) else was[chain[k]]
    {
      AddedAt(was, chain, addr, k);
    }
    AddedLinks(was, chain, addr, now);
  }

  lemma AddedAt(was: Headers, chain: seq<nat>, addr: nat, k: nat)
    requires Chained(was, chain) && k < |chain| && chain[k] != addr && chain[|chain| - 1] != addr
    requires forall i, j | 0 <= i < j < |chain| :: chain[i] != chain[j]
    ensures var last := chain[|chain| - 1];
            var now := Extended(was, last, addr);
            addr in now && now[addr] == Header(GROWTH, false, 0, last) &&
            chain[k] in now && now[chain[k]] == if k == |chain| - 1 then was[chain[k]].(next := addr) else was[chain[k]]
  {
  }

  lemma AddedLinks(was: Headers, chain: seq<nat>, addr: nat, now: Headers)
    requires Chained(was, chain) && Present(now, chain) && addr in now
    requires forall k {:trigger now[chain[k]]} | 0 <= k < |chain| ::
               now[chain[k]] == if k == |chain| - 1 then was[chain[k]].(next := addr) else was[chain[k]]
    requires now[addr] == Header(GROWTH, false, 0, chain[|chain| - 1])
    ensures Chained(now, chain + [addr])
            && Shown(now, chain + [addr]) == Shown(was, chain) + [Block(addr, GROWTH, false)]
  {
    var c, n := chain + [addr], |chain|;
    forall k | 0 <= k < |c| ensures c[k] in now && now[c[k]].next == NextOf(c, k) && now[c[k]].last == LastOf(c, k)
      && Block(c[k], now[c[k]].size, now[c[k]].used) == (Shown(was, chain) + [Block(addr, GROWTH, false)])[k]
    {
      if k < n {
        assert c[k] == chain[k] && was[chain[k]].next == NextOf(chain, k);
      }
    }
    assert Shown(now, c) == Shown(was, chain) + [Block(addr, GROWTH, false)];
  }

  lemma AddedApart(l: Layout, addr: nat)
    requires Disjoint(l) && addr > 0 && forall i | 0 <= i < |l| :: Apart(l[i], Block(addr, GROWTH, false))
    ensures Disjoint(l + [Block(addr, GROWTH, false)])
  {
  }
}
