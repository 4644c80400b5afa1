// The 4-level page tables of kernel/memory/paging.c, written in place in physical frames that come from
// the page allocator, against the flat map from virtual pages to physical frames they stand for.
// 4-level paging is described in section 4.5 of the Intel SDM, volume 3A.
module PageTables {
  import Pmm
  import Powers

  // The present bit and the frame number of one table entry.
  datatype Entry = Entry(p: bool, address: nat)

  const ABSENT := Entry(false, 0)

  datatype Translation = Missing | To(frame: nat)

  const PAGES: nat := 0x10_0000_0000  // the virtual pages four 9-bit indices can name

  function Slot3(n: nat): (i: nat) ensures i < 512 { n / 512 / 512 / 512 % 512 }
  function Slot2(n: nat): (i: nat) ensures i < 512 { n / 512 / 512 % 512 }
  function Slot1(n: nat): (i: nat) ensures i < 512 { n / 512 % 512 }
  function Slot0(n: nat): (i: nat) ensures i < 512 { n % 512 }

  // Frame f of physical memory holds the entries mem[f, 0..512].
  function Read(mem: array2<Entry>, frame: nat, i: nat): Entry
    requires mem.Length1 == 512 && i < 512
    reads mem
  {
    if frame < mem.Length0 then mem[frame, i] else ABSENT
  }

  // get_physical_address, for page numbers: one entry per level, stopping at the first absent one.
  function Walk(mem: array2<Entry>, pgd: nat, n: nat): Translation
    requires mem.Length1 == 512
    reads mem
  {
    var e3 := Read(mem, pgd, Slot3(n));
    if !e3.p then Missing
    else
      var e2 := Read(mem, e3.address, Slot2(n));
      if !e2.p then Missing
      else
        var e1 := Read(mem, e2.address, Slot1(n));
        if !e1.p then Missing
        else
          var e0 := Read(mem, e1.address, Slot0(n));
          if !e0.p then Missing else To(e0.address)
  }

  // get_physical_address itself: the frame's address plus the offset, or NULL.
  function PhysicalAddress(mem: array2<Entry>, pgd: nat, vaddr: nat): nat
    requires mem.Length1 == 512
    reads mem
  {
    match Walk(mem, pgd, vaddr / 4096)
    case Missing => 0
    case To(frame) => frame * 4096 + vaddr % 4096
  }

  // Higher address bits than the indices use are ignored.
  lemma SlotsWrap(n: nat)
    ensures var m := n % PAGES;
            Slot3(n) == m / 512 / 512 / 512 && Slot2(n) == Slot2(m) && Slot1(n) == Slot1(m) && Slot0(n) == Slot0(m)
  {
    var k, m := n / PAGES, n % PAGES;
    assert n == PAGES * k + m;
    assert n / 512 == 0x800_0000 * k + m / 512;
    assert n / 512 / 512 == 0x4_0000 * k + m / 512 / 512;
    assert n / 512 / 512 / 512 == 512 * k + m / 512 / 512 / 512;
  }

  // Where a table belongs: the address space, the level (0 for the top), and the part of the page number
  // that leads to it.
  datatype Key = Key(root: nat, level: nat, prefix: nat)

  type Tables = map<Key, nat>

  function Child(k: Key, i: nat): Key { Key(k.root, k.level + 1, k.prefix * 512 + i) }

  function Parent(k: Key): Key
    requires k.level > 0
  {
    Key(k.root, k.level - 1, k.prefix / 512)
  }

  lemma ParentOfChild(k: Key, i: nat)
    requires i < 512
    ensures Parent(Child(k, i)) == k
  {
    assert (k.prefix * 512 + i) / 512 == k.prefix;
  }

  function LeafKey(root: nat, page: nat): Key { Key(root, 3, page / 512) }

  // Each table frame is referenced by exactly one entry, and every table hangs below its root.
  ghost predicate Rooted(tables: Tables) {
    && (forall k <- tables :: k.level <= 3)
    && (forall k | k in tables && k.level == 0 :: k.prefix == 0 && tables[k] == k.root)
    && (forall k {:trigger Parent(k)} | k in tables && k.level > 0 :: Parent(k) in tables)
  }

  ghost predicate Injective(tables: Tables) {
    forall k, l :: k in tables && l in tables && tables[k] == tables[l] ==> k == l
  }

  // The entries of every inner table are present exactly where a child table exists, and name its frame.
  ghost predicate Linked(mem: array2<Entry>, tables: Tables)
    requires mem.Length1 == 512
    reads mem
  {
    && (forall k <- tables :: 0 < tables[k] < mem.Length0)
    && (forall k, i {:trigger mem[tables[k], i]} | k in tables && k.level < 3 && 0 <= i < 512 ::
          && (mem[tables[k], i].p <==> Child(k, i) in tables)
          && (mem[tables[k], i].p ==> mem[tables[k], i].address == tables[Child(k, i)]))
  }

  // The flat map: what the leaf tables say.
  ghost function Flat(mem: array2<Entry>, tables: Tables, root: nat, page: nat): Translation
    requires mem.Length1 == 512 && forall k <- tables :: 0 < tables[k] < mem.Length0
    reads mem
  {
    var k := LeafKey(root, page);
    if k in tables && mem[tables[k], page % 512].p then To(mem[tables[k], page % 512].address) else Missing
  }

  lemma Follow(mem: array2<Entry>, tables: Tables, k: Key, i: nat)
    requires mem.Length1 == 512 && Linked(mem, tables) && k in tables && k.level < 3 && i < 512
    ensures Read(mem, tables[k], i).p <==> Child(k, i) in tables
    ensures Child(k, i) in tables ==> Read(mem, tables[k], i).address == tables[Child(k, i)]
  {
    assert mem[tables[k], i].p <==> Child(k, i) in tables;
  }

  lemma PathIn(tables: Tables, root: nat, m: nat)
    requires Rooted(tables) && m < PAGES
    ensures LeafKey(root, m) in tables ==> Key(root, 2, m / 512 / 512) in tables
    ensures Key(root, 2, m / 512 / 512) in tables ==> Key(root, 1, m / 512 / 512 / 512) in tables
  {
    assert Parent(LeafKey(root, m)) == Key(root, 2, m / 512 / 512);
    assert Parent(Key(root, 2, m / 512 / 512)) == Key(root, 1, m / 512 / 512 / 512);
  }

  // The walk through the tree finds exactly what the flat map says.
  lemma WalkIsFlat(mem: array2<Entry>, tables: Tables, root: nat, n: nat)
    requires mem.Length1 == 512 && Rooted(tables) && Linked(mem, tables) && Key(root, 0, 0) in tables
    ensures Walk(mem, root, n) == Flat(mem, tables, root, n % PAGES)
  {
    SlotsWrap(n);
    var m := n % PAGES;
    PathIn(tables, root, m);
    var k0, k1, k2 := Key(root, 0, 0), Key(root, 1, m / 512 / 512 / 512), Key(root, 2, m / 512 / 512);
    assert tables[k0] == root;
    Follow(mem, tables, k0, Slot3(n));
    assert Child(k0, Slot3(n)) == k1;
    if k1 in tables {
      Follow(mem, tables, k1, Slot2(n));
      assert Child(k1, Slot2(n)) == k2;
      if k2 in tables {
        Follow(mem, tables, k2, Slot1(n));
        assert Child(k2, Slot1(n)) == LeafKey(root, m);
      }
    }
  }

  lemma GrownRooted(tables: Tables, k: Key, i: nat, frame: nat)
    requires Rooted(tables) && Injective(tables) && k in tables && k.level < 3 && i < 512
    requires Child(k, i) !in tables && forall l <- tables :: tables[l] != frame
    ensures Rooted(tables[Child(k, i) := frame]) && Injective(tables[Child(k, i) := frame])
  {
    ParentOfChild(k, i);
  }

  // Nothing can hang below a table that does not exist.
  lemma NoChildYet(tables: Tables, c: Key)
    requires Rooted(tables) && c !in tables
    ensures forall j: nat :: j < 512 ==> Child(c, j) !in tables
  {
    forall j: nat | j < 512 ensures Child(c, j) !in tables {
      ParentOfChild(c, j);
    }
  }

  // What a new child means for entry j of table l.
  lemma AttachedAt(tables: Tables, k: Key, i: nat, l: Key, j: nat)
    requires Rooted(tables) && Injective(tables) && k in tables && Child(k, i) !in tables && i < 512 && j < 512
    ensures Child(l, j) == Child(k, i) ==> l == k && j == i
    ensures l == Child(k, i) ==> Child(l, j) !in tables && l != k
    ensures l in tables && l != k ==> tables[l] != tables[k]
  {
    hide Rooted;
    ParentOfChild(k, i);
    ParentOfChild(l, j);
    NoChildYet(tables, Child(k, i));
  }

  lemma AttachedLeaves(tables: Tables, k: Key, i: nat)
    requires Rooted(tables) && Injective(tables) && k in tables && k.level < 3 && Child(k, i) !in tables && i < 512
    ensures forall root: nat, page: nat ::
            LeafKey(root, page) in tables ==> LeafKey(root, page) != k && tables[LeafKey(root, page)] != tables[k]
  {
  }

  // The kernel's walker finds in these address spaces what the view says.
  ghost predicate WalksAs(mem: array2<Entry>, tables: Tables, v: View)
    requires mem.Length1 == 512 && Total(v)
    reads mem
  {
    forall root: nat, n: nat :: Key(root, 0, 0) in tables ==> Walk(mem, root, n) == v[(root, n % PAGES)]
  }

  // All is linked but for one entry, which names frame 0 as if that were a table.
  ghost predicate LinkedBut(mem: array2<Entry>, tables: Tables, k: Key, i: nat)
    requires mem.Length1 == 512 && i < 512
    reads mem
  {
    && (forall l <- tables :: 0 < tables[l] < mem.Length0)
    && k in tables && k.level < 3 && Child(k, i) !in tables && mem[tables[k], i] == Entry(true, 0)
    && (forall l, j {:trigger mem[tables[l], j]} | l in tables && l.level < 3 && 0 <= j < 512 && (l != k || j != i) ::
          && (mem[tables[l], j].p <==> Child(l, j) in tables)
          && (mem[tables[l], j].p ==> mem[tables[l], j].address == tables[Child(l, j)]))
  }

  // One level of the walk: to the child table, to an absent entry, or through the entry that names frame 0.
  lemma FollowBut(mem: array2<Entry>, tables: Tables, k: Key, i: nat, l: Key, j: nat)
    requires mem.Length1 == 512 && i < 512 && j < 512 && LinkedBut(mem, tables, k, i) && l in tables && l.level < 3
    ensures var e := Read(mem, tables[l], j);
            if Child(l, j) in tables then e == Entry(true, tables[Child(l, j)])
            else e.p <==> Child(l, j) == Child(k, i)
    ensures Child(l, j) == Child(k, i) ==> Read(mem, tables[l], j) == Entry(true, 0)
  {
    ParentOfChild(l, j);
    ParentOfChild(k, i);
    if l == k && j == i {
    } else {
      assert mem[tables[l], j].p <==> Child(l, j) in tables;
    }
  }

  // The last levels of a walk, from a frame taken as a table.
  function WalkFrom(mem: array2<Entry>, frame: nat, n: nat, levels: nat): Translation
    requires mem.Length1 == 512 && 1 <= levels <= 3
    reads mem
    decreases levels
  {
    var e := Read(mem, frame, if levels == 1 then Slot0(n) else if levels == 2 then Slot1(n) else Slot2(n));
    if !e.p then Missing else if levels == 1 then To(e.address) else WalkFrom(mem, e.address, n, levels - 1)
  }

  // The walk to a page goes through entry i of table k.
  predicate Below(root: nat, n: nat, k: Key, i: nat) {
    var m := n % PAGES;
    k.level < 3 && Child(k, i) == if k.level == 0 then Key(root, 1, m / 512 / 512 / 512)
                                  else if k.level == 1 then Key(root, 2, m / 512 / 512) else LeafKey(root, m)
  }

  // Which pages keep their translations: those whose walks do not go through the entry, and those for which the rest of
  // the walk, from frame 0 on, finds nothing.
  lemma NullFrameExactly(mem: array2<Entry>, tables: Tables, k: Key, i: nat, root: nat, n: nat)
    requires mem.Length1 == 512 && i < 512 && Rooted(tables) && LinkedBut(mem, tables, k, i)
             && Key(root, 0, 0) in tables
    ensures Walk(mem, root, n) == Flat(mem, tables, root, n % PAGES) <==>
            (Below(root, n, k, i) ==> WalkFrom(mem, 0, n, 3 - k.level) == Missing)
  {
    hide LinkedBut, Child;
    SlotsWrap(n);
    var m := n % PAGES;
    PathIn(tables, root, m);
    PathKeys(root, n);
    InMemoryBut(mem, tables, k, i);
    RootIsOwn(tables, Key(root, 0, 0));
    var k0, k1, k2 := Key(root, 0, 0), Key(root, 1, m / 512 / 512 / 512), Key(root, 2, m / 512 / 512);
    FollowBut(mem, tables, k, i, k0, Slot3(n));
    if Below(root, n, k, i) { BelowOwn(root, n, k, i); }
    WalkIsFrom(mem, root, n);
    if k1 in tables {
      FollowBut(mem, tables, k, i, k1, Slot2(n));
      FromStep(mem, tables[k1], n, 3);
      if k2 in tables {
        FollowBut(mem, tables, k, i, k2, Slot1(n));
        FromStep(mem, tables[k2], n, 2);
        if LeafKey(root, m) in tables { FromStep(mem, tables[LeafKey(root, m)], n, 1); }
      }
    }
  }

  lemma BelowOwn(root: nat, n: nat, k: Key, i: nat)
    requires i < 512 && Below(root, n, k, i)
    ensures var m := n % PAGES;
            k == if k.level == 0 then Key(root, 0, 0) else if k.level == 1 then Key(root, 1, m / 512 / 512 / 512)
                 else Key(root, 2, m / 512 / 512)
  {
    ParentOfChild(k, i);
  }

  lemma WalkIsFrom(mem: array2<Entry>, root: nat, n: nat)
    requires mem.Length1 == 512
    ensures var e := Read(mem, root, Slot3(n));
            Walk(mem, root, n) == if e.p then WalkFrom(mem, e.address, n, 3) else Missing
  {
    var e3 := Read(mem, root, Slot3(n));
    var e2 := Read(mem, e3.address, Slot2(n));
    FromStep(mem, e3.address, n, 3);
    FromStep(mem, e2.address, n, 2);
    FromStep(mem, Read(mem, e2.address, Slot1(n)).address, n, 1);
  }

  lemma FromStep(mem: array2<Entry>, frame: nat, n: nat, levels: nat)
    requires mem.Length1 == 512 && 1 <= levels <= 3
    ensures var e := Read(mem, frame, if levels == 1 then Slot0(n) else if levels == 2 then Slot1(n) else Slot2(n));
            WalkFrom(mem, frame, n, levels) ==
            if !e.p then Missing else if levels == 1 then To(e.address) else WalkFrom(mem, e.address, n, levels - 1)
  {
  }

  // Frame 0 is empty, so the walk ends there, and nothing is found that was not there before.
  lemma WalkIsFlatBut(mem: array2<Entry>, tables: Tables, k: Key, i: nat, root: nat, n: nat)
    requires mem.Length1 == 512 && i < 512 && Rooted(tables) && LinkedBut(mem, tables, k, i)
             && Key(root, 0, 0) in tables
    requires mem.Length0 > 0 && forall j | 0 <= j < 512 :: mem[0, j] == ABSENT
    ensures Walk(mem, root, n) == Flat(mem, tables, root, n % PAGES)
  {
    hide LinkedBut, Walk, Flat;
    InMemoryBut(mem, tables, k, i);
    NullFrameExactly(mem, tables, k, i, root, n);
  }

  lemma InMemoryBut(mem: array2<Entry>, tables: Tables, k: Key, i: nat)
    requires mem.Length1 == 512 && i < 512 && LinkedBut(mem, tables, k, i)
    ensures k in tables && k.level < 3 && Child(k, i) !in tables && Child(k, i).level == k.level + 1
    ensures forall l <- tables :: 0 < tables[l] < mem.Length0
  {
  }

  lemma PathKeys(root: nat, n: nat)
    ensures var m := n % PAGES;
            && Child(Key(root, 0, 0), Slot3(n)) == Key(root, 1, m / 512 / 512 / 512)
            && Child(Key(root, 1, m / 512 / 512 / 512), Slot2(n)) == Key(root, 2, m / 512 / 512)
            && Child(Key(root, 2, m / 512 / 512), Slot1(n)) == LeafKey(root, m)
  {
    SlotsWrap(n);
  }

  // An empty frame becomes the top table of a new address space.
  lemma RootAdded(mem: array2<Entry>, tables: Tables, pgd: nat)
    requires mem.Length1 == 512 && Rooted(tables) && Injective(tables) && Linked(mem, tables)
    requires 0 < pgd < mem.Length0 && (forall k <- tables :: tables[k] != pgd)
    requires forall i | 0 <= i < 512 :: mem[pgd, i] == ABSENT
    ensures Key(pgd, 0, 0) !in tables
    ensures var now := tables[Key(pgd, 0, 0) := pgd];
            && Rooted(now) && Injective(now) && Linked(mem, now)
            && forall root: nat, page: nat :: Flat(mem, now, root, page) == Flat(mem, tables, root, page)
  {
    var k := Key(pgd, 0, 0);
    assert k !in tables by { if k in tables { RootIsOwn(tables, k); } }
    NoChildYet(tables, k);
    var now := tables[k := pgd];
    assert Rooted(now) && Injective(now);
    forall l, j | l in now && l.level < 3 && 0 <= j < 512
      ensures mem[now[l], j].p <==> Child(l, j) in now
      ensures mem[now[l], j].p ==> mem[now[l], j].address == now[Child(l, j)]
    {
      if l != k { Follow(mem, tables, l, j); }
    }
  }

  lemma RootIsOwn(tables: Tables, k: Key)
    requires Rooted(tables) && k in tables && k.level == 0
    ensures tables[k] == k.root
  {
  }

  class AddressSpaces {
    const pmm: Pmm.Allocator
    const mem: array2<Entry>
    ghost var tables: Tables

    ghost predicate Valid()
      reads this, mem, pmm.lists
    {
      && mem.Length1 == 512 && pmm.Valid()
      && Rooted(tables) && Injective(tables) && Linked(mem, tables)
      && (forall k <- tables :: pmm.Free(tables[k]) == 0)
      && (forall page: nat :: pmm.Free(page) > 0 ==> 0 < page < mem.Length0 && pmm.Free(page) == 1)
    }

    ghost function Translate(root: nat, page: nat): Translation
      requires Valid()
      reads this, mem, pmm.lists
    {
      Flat(mem, tables, root, page)
    }

    constructor (pmm: Pmm.Allocator, mem: array2<Entry>)
      requires mem.Length1 == 512 && pmm.Valid()
      requires forall page: nat :: pmm.Free(page) > 0 ==> 0 < page < mem.Length0 && pmm.Free(page) == 1
      ensures Valid() && this.pmm == pmm && this.mem == mem && tables == map[]
    {
      this.pmm, this.mem, tables := pmm, mem, map[];
    }

    // All translations of all address spaces.
    ghost function View(): (v: View)
      requires Valid()
      reads this, mem, pmm.lists
      ensures Total(v) && forall root: nat, page: nat :: v[(root, page)] == Translate(root, page)
    {
      imap k: (nat, nat) | true :: Translate(k.0, k.1)
    }

    function FreePages(): nat
      requires pmm.Valid()
      reads pmm.lists
    {
      Pmm.Pages(pmm.lists[..], 10)
    }

    // __get_free_page: a frame that was free, zeroed.
    method TakeFrame() returns (frame: nat)
      requires Valid() && pmm.HasArea(0)
      modifies mem, pmm.lists
      ensures Valid() && Pmm.Added(pmm.lists[..], old(pmm.lists[..]), frame, 1) && pmm.Tops() + 1 >= old(pmm.Tops())
      ensures 0 < frame < mem.Length0 && pmm.Free(frame) == 0 && old(pmm.Free(frame)) == 1
      ensures forall k <- tables :: tables[k] != frame
      ensures forall i | 0 <= i < 512 :: mem[frame, i] == ABSENT
      ensures View() == old(View())
    {
      hide Pmm.Split;
      frame := pmm.AllocPages(0);
      OnePageLess(old(pmm.lists[..]), pmm.lists[..], frame);
      assert old(pmm.Free(frame)) == 1;
      assert Linked(mem, tables);
      assert forall page: nat :: pmm.Free(page) <= old(pmm.Free(page));
      assert forall k <- tables :: pmm.Free(tables[k]) == 0;
      assert Rooted(tables);
      Clear(frame);
    }

    // memset(page, 0, 4096)
    method Clear(frame: nat)
      requires Valid() && frame < mem.Length0 && forall k <- tables :: tables[k] != frame
      modifies mem
      ensures Valid()
      ensures forall i | 0 <= i < 512 :: mem[frame, i] == ABSENT
      ensures forall f, i | 0 <= f < mem.Length0 && 0 <= i < 512 && f != frame :: mem[f, i] == old(mem[f, i])
    {
      forall i | 0 <= i < 512 { mem[frame, i] := ABSENT; }
    }

    // The entry of a table that has no child there yet is made to point to an empty frame.
    method Attach(ghost k: Key, table: nat, i: nat, child: nat)
      requires Valid() && k in tables && tables[k] == table && k.level < 3 && i < 512 && Child(k, i) !in tables
      requires 0 < child < mem.Length0 && pmm.Free(child) == 0 && forall l <- tables :: tables[l] != child
      requires forall j | 0 <= j < 512 :: mem[child, j] == ABSENT
      modifies this`tables, mem
      ensures Valid() && tables == old(tables)[Child(k, i) := child]
      ensures forall root: nat, page: nat :: Translate(root, page) == old(Translate(root, page))
    {
      hide Rooted, Injective, Child;
      GrownRooted(tables, k, i, child);
      ghost var t := tables;
      mem[table, i] := Entry(true, child);
      tables := tables[Child(k, i) := child];
      forall l, j | l in tables && l.level < 3 && 0 <= j < 512
        ensures mem[tables[l], j].p <==> Child(l, j) in tables
        ensures mem[tables[l], j].p ==> mem[tables[l], j].address == tables[Child(l, j)]
      {
        AttachedAt(t, k, i, l, j);
      }
      AttachedLeaves(t, k, i);
    }

    // memset(NULL, 0, 4096)
    method ClearNull()
      requires Valid() && mem.Length0 > 0
      modifies mem
      ensures Valid() && View() == old(View()) && forall i | 0 <= i < 512 :: mem[0, i] == ABSENT
    {
      hide Rooted, Injective;
      assert Linked(mem, tables);
      Clear(0);
    }

    // What a failed allocation leaves: frame 0 is cleared in place of a new table, and the entry names it. No
    // translation has changed.
    method Dangle(ghost k: Key, table: nat, i: nat)
      requires Valid() && k in tables && tables[k] == table && k.level < 3 && i < 512 && Child(k, i) !in tables
      modifies mem
      ensures WalksAs(mem, tables, old(View()))
    {
      hide Rooted, Injective, Child;
      ghost var v := View();
      ClearNull();
      AttachedLeaves(tables, k, i);
      mem[table, i] := Entry(true, 0);
      assert LinkedBut(mem, tables, k, i) by {
        forall l, j | l in tables && l.level < 3 && 0 <= j < 512 && (l != k || j != i)
          ensures mem[tables[l], j].p <==> Child(l, j) in tables
          ensures mem[tables[l], j].p ==> mem[tables[l], j].address == tables[Child(l, j)]
        {
          AttachedAt(tables, k, i, l, j);
        }
      }
      DangledWalks(k, i, v);
    }

    lemma DangledWalks(k: Key, i: nat, v: View)
      requires mem.Length1 == 512 && i < 512 && Rooted(tables) && LinkedBut(mem, tables, k, i) && Total(v)
      requires mem.Length0 > 0 && forall j | 0 <= j < 512 :: mem[0, j] == ABSENT
      requires forall l <- tables :: 0 < tables[l] < mem.Length0
      requires forall root: nat, page: nat :: Flat(mem, tables, root, page) == v[(root, page)]
      ensures WalksAs(mem, tables, v)
    {
      hide LinkedBut, Rooted, Flat;
      forall root: nat, n: nat | Key(root, 0, 0) in tables ensures Walk(mem, root, n) == v[(root, n % PAGES)] {
        WalkIsFlatBut(mem, tables, k, i, root, n);
      }
    }

    // One level of __set_mapping: the child table of entry i, made if it is not there. 0 stands for the NULL
    // that alloc_pages gives when memory has run out.
    method EnsureTable(ghost k: Key, table: nat, i: nat) returns (child: nat)
      requires Valid() && k in tables && tables[k] == table && k.level < 3 && i < 512
      modifies this`tables, mem, pmm.lists
      ensures child != 0 ==> Valid() && Child(k, i) in tables && tables[Child(k, i)] == child
      ensures child != 0 ==> Accounted(old(tables), tables, old(pmm.lists[..]), pmm.lists[..], 1)
                             && View() == old(View())
      ensures child != 0 ==> tables.Keys <= old(tables).Keys + {Child(k, i)}
      ensures old(FreePages()) >= 1 ==> child != 0
      ensures child != 0 ==> pmm.Tops() + 1 >= old(pmm.Tops())
      ensures child == 0 ==> WalksAs(mem, tables, old(View())) && tables == old(tables)
    {
      hide Rooted, Injective, Flat, WalksAs;
      Follow(mem, tables, k, i);
      if !mem[table, i].p {
        if FreePages() == 0 {
          Dangle(k, table, i);
          return 0;
        }
        SomeArea();
        child := TakeFrame();
        AccountedOne(tables, Child(k, i), child, old(pmm.lists[..]), pmm.lists[..]);
        hide Accounted;
        ghost var view := View();
        Attach(k, table, i, child);
        assert View() == view;
        Follow(mem, tables, k, i);
      }
      child := mem[table, i].address;
    }

    // The leaf entry of a page: made present, then given its frame.
    method WriteLeaf(ghost k: Key, table: nat, i: nat, frame: nat)
      requires Valid() && k in tables && tables[k] == table && k.level == 3 && i < 512
      modifies mem
      ensures Valid()
      ensures forall root: nat, page: nat :: Translate(root, page) ==
                if LeafKey(root, page) == k && page % 512 == i then To(frame) else old(Translate(root, page))
    {
      if !mem[table, i].p {
        mem[table, i] := mem[table, i].(p := true);
      }
      mem[table, i] := mem[table, i].(address := frame);
    }

    // One more level, counted from where the path began.
    method NextTable(ghost k: Key, table: nat, i: nat, ghost v: View, ghost t: Tables, ghost f: seq<seq<nat>>,
                     ghost most: nat)
      returns (child: nat)
      requires Valid() && k in tables && tables[k] == table && k.level < 3 && i < 512 && |f| == 10
      requires Accounted(t, tables, f, pmm.lists[..], most) && View() == v
      modifies this`tables, mem, pmm.lists
      ensures child != 0 ==> Valid() && Child(k, i) in tables && tables[Child(k, i)] == child
      ensures child != 0 ==> FreePages() >= old(FreePages()) - 1 && pmm.Tops() + 1 >= old(pmm.Tops())
      ensures child != 0 ==> tables.Keys <= old(tables).Keys + {Child(k, i)}
      ensures child != 0 ==> Accounted(t, tables, f, pmm.lists[..], most + 1) && View() == v
      ensures old(FreePages()) >= 1 ==> child != 0
      ensures child == 0 ==> WalksIn(t, v)
    {
      hide WalksAs, Rooted, Injective, Linked, Flat, Accounted, View, Translate, Total;
      ghost var t1, f1 := tables, pmm.lists[..];
      child := EnsureTable(k, table, i);
      if child != 0 {
        AccountedMore(t, t1, tables, f, f1, pmm.lists[..], most, 1);
        AccountedLeaves(t1, tables, f1, pmm.lists[..], 1, k);
      } else {
        WalksEarlier(t, f, f1, most, v);
      }
    }

    // The walker finds the view in all address spaces there were.
    ghost predicate WalksIn(t: Tables, v: View)
      requires Total(v)
      reads mem
    {
      mem.Length1 == 512 && WalksAs(mem, t, v)
    }

    lemma WalksBefore(t: Tables, t1: Tables, f: seq<seq<nat>>, f1: seq<seq<nat>>, most: nat, v: View)
      requires Total(v) && WalksIn(t1, v) && |f| == |f1| == 10 && Accounted(t, t1, f, f1, most)
      ensures WalksIn(t, v)
    {
    }

    lemma WalksEarlier(t: Tables, f: seq<seq<nat>>, f1: seq<seq<nat>>, most: nat, v: View)
      requires mem.Length1 == 512 && Total(v) && WalksAs(mem, tables, v) && |f| == |f1| == 10
               && Accounted(t, tables, f, f1, most)
      ensures WalksIn(t, v)
    {
    }

    lemma RootTable(pgd: nat)
      requires Valid() && Key(pgd, 0, 0) in tables
      ensures tables[Key(pgd, 0, 0)] == pgd && pmm.Valid() && |pmm.lists[..]| == 10 && mem.Length1 == 512
    {
      RootIsOwn(tables, Key(pgd, 0, 0));
    }

    // The three inner tables of __set_mapping, each of which may be NULL.
    method EnsurePath(pgd: nat, n: nat) returns (table: nat, ghost k: Key)
      requires Valid() && Key(pgd, 0, 0) in tables
      modifies this`tables, mem, pmm.lists
      ensures table != 0 ==> Valid() && k in tables && tables[k] == table
      ensures table != 0 ==> k == Child(Child(Child(Key(pgd, 0, 0), Slot3(n)), Slot2(n)), Slot1(n))
      ensures table != 0 ==> Accounted(old(tables), tables, old(pmm.lists[..]), pmm.lists[..], 3)
                             && View() == old(View())
      ensures table != 0 ==> Needed(old(tables), tables, pgd, n, 1)
      ensures old(FreePages()) >= 3 ==> table != 0
      ensures table != 0 ==> pmm.Tops() + 3 >= old(pmm.Tops())
      ensures table == 0 ==> WalksIn(old(tables), old(View()))
    {
      hide Valid, View, Accounted, WalksIn, Slot3, Slot2, Slot1, Needed;
      PathNeeded(tables, pgd, n);
      k := Key(pgd, 0, 0);
      RootTable(pgd);
      ghost var v, t, f := View(), tables, pmm.lists[..];
      AccountedNone(t, f);
      table := NextTable(k, pgd, Slot3(n), v, t, f, 0);
      if table == 0 { return; }
      k := Child(k, Slot3(n));
      table := NextTable(k, table, Slot2(n), v, t, f, 1);
      if table == 0 { return; }
      k := Child(k, Slot2(n));
      table := NextTable(k, table, Slot1(n), v, t, f, 2);
      k := Child(k, Slot1(n));
    }

    // __set_mapping: only this page of this address space changes. False when memory has run out; then no translation
    // has changed at all.
    method MapPage(pgd: nat, n: nat, frame: nat) returns (ok: bool)
      requires Valid() && Key(pgd, 0, 0) in tables
      modifies this`tables, mem, pmm.lists
      ensures ok ==> Valid() && Accounted(old(tables), tables, old(pmm.lists[..]), pmm.lists[..], 3)
      ensures ok ==> Needed(old(tables), tables, pgd, n, 1)
      ensures ok ==> View() == old(View())[(pgd, n % PAGES) := To(frame)]
      ensures old(FreePages()) >= 3 ==> ok
      ensures ok ==> pmm.Tops() + 3 >= old(pmm.Tops())
      ensures !ok ==> WalksIn(old(tables), old(View()))
    {
      hide Rooted, Injective, Linked, Flat, WalksIn, Needed;
      var table, k := EnsurePath(pgd, n);
      if table == 0 { return false; }
      ghost var mid := View();
      LeafReached(pgd, n);
      WriteLeaf(k, table, Slot0(n), frame);
      assert View() == mid[(pgd, n % PAGES) := To(frame)];
      ok := true;
    }

    // create_pgd: an empty top-level table.
    method CreatePgd() returns (pgd: nat)
      requires Valid() && FreePages() >= 1
      modifies this`tables, mem, pmm.lists
      ensures Valid() && tables == old(tables)[Key(pgd, 0, 0) := pgd] && Key(pgd, 0, 0) !in old(tables)
      ensures Accounted(old(tables), tables, old(pmm.lists[..]), pmm.lists[..], 1)
      ensures View() == old(View()) && pmm.Tops() + 1 >= old(pmm.Tops())
    {
      SomeArea();
      pgd := TakeFrame();
      AddRoot(pgd);
    }

    ghost method AddRoot(pgd: nat)
      requires Valid() && 0 < pgd < mem.Length0 && pmm.Free(pgd) == 0
      requires forall k <- tables :: tables[k] != pgd
      requires forall i | 0 <= i < 512 :: mem[pgd, i] == ABSENT
      modifies this`tables
      ensures Valid() && tables == old(tables)[Key(pgd, 0, 0) := pgd] && Key(pgd, 0, 0) !in old(tables)
      ensures View() == old(View())
    {
      hide Rooted, Injective, Linked, Flat;
      RootAdded(mem, tables, pgd);
      tables := tables[Key(pgd, 0, 0) := pgd];
    }

    // Page i of a set_mapping, after the first i.
    method MapNext(pgd: nat, base: nat, frame: nat, i: nat, ghost v: View, ghost t: Tables, ghost f: seq<seq<nat>>)
      returns (ok: bool)
      requires Valid() && Key(pgd, 0, 0) in tables && Total(v) && |f| == 10
      requires Accounted(t, tables, f, pmm.lists[..], 3 * i) && View() == MapRange(v, pgd, base, frame, i)
      requires Needed(t, tables, pgd, base, i)
      modifies this`tables, mem, pmm.lists
      ensures ok ==> Valid() && Key(pgd, 0, 0) in tables && FreePages() >= old(FreePages()) - 3
      ensures ok ==> pmm.Tops() + 3 >= old(pmm.Tops())
      ensures ok ==> Accounted(t, tables, f, pmm.lists[..], 3 * (i + 1))
                     && View() == MapRange(v, pgd, base, frame, i + 1)
      ensures ok ==> Needed(t, tables, pgd, base, i + 1)
      ensures old(FreePages()) >= 3 ==> ok
      ensures !ok ==> WalksIn(t, MapRange(v, pgd, base, frame, i))
    {
      hide WalksIn, Rooted, Injective, Linked, Flat, Accounted, View, Translate, Total, MapRange, Needed;
      MapStep(v, pgd, base, frame, i);
      ghost var t1, f1 := tables, pmm.lists[..];
      ok := MapPage(pgd, base + i, frame + i);
      if ok {
        OneMore(t, t1, tables, f, f1, pmm.lists[..], pgd, base, i, Key(pgd, 0, 0));
      } else {
        WalksBefore(t, t1, f, f1, 3 * i, MapRange(v, pgd, base, frame, i));
      }
    }

    // set_mapping: the pages from vaddr's on are translated to consecutive frames, in this address space only.
    // False when memory has run out.
    method SetMapping(pgd: nat, vaddr: nat, paddr: nat, pages: nat) returns (ok: bool)
      requires Valid() && Key(pgd, 0, 0) in tables && pages <= 0x8_0000
      modifies this`tables, mem, pmm.lists
      ensures ok ==> Valid() && Accounted(old(tables), tables, old(pmm.lists[..]), pmm.lists[..], 3 * pages)
      ensures ok ==> View() == MapRange(old(View()), pgd, vaddr / 4096, paddr / 4096, pages)
      ensures ok ==> Needed(old(tables), tables, pgd, vaddr / 4096, pages)
      ensures old(FreePages()) >= 3 * pages ==> ok
      ensures ok ==> pmm.Tops() + 3 * pages >= old(pmm.Tops())
      ensures !ok ==> exists done: nat ::
                      done < pages && WalksIn(old(tables), MapRange(old(View()), pgd, vaddr / 4096, paddr / 4096, done))
    {
      hide WalksIn, Rooted, Injective, Linked, Flat, Accounted, View, Translate, Total, Needed;
      AccountedNone(tables, pmm.lists[..]);
      NeededNone(tables, pgd, vaddr / 4096);
      ok := true;
      var i := 0;
      while i < pages
        invariant 0 <= i <= pages && ok && Valid() && Key(pgd, 0, 0) in tables
        invariant Needed(old(tables), tables, pgd, vaddr / 4096, i)
        invariant FreePages() >= old(FreePages()) - 3 * i && pmm.Tops() + 3 * i >= old(pmm.Tops())
        invariant Accounted(old(tables), tables, old(pmm.lists[..]), pmm.lists[..], 3 * i)
        invariant View() == MapRange(old(View()), pgd, vaddr / 4096, paddr / 4096, i)
      {
        ok := MapNext(pgd, vaddr / 4096, paddr / 4096, i, old(View()), old(tables), old(pmm.lists[..]));
        if !ok { return; }
        i := i + 1;
      }
    }

    // get_physical_address agrees with the flat map: NULL when nothing is mapped.
    lemma PhysicalAddressExact(pgd: nat, vaddr: nat)
      requires Valid() && Key(pgd, 0, 0) in tables
      ensures PhysicalAddress(mem, pgd, vaddr) ==
              match Translate(pgd, vaddr / 4096 % PAGES)
              case Missing => 0
              case To(frame) => frame * 4096 + vaddr % 4096
    {
      WalkIsFlat(mem, tables, pgd, vaddr / 4096);
    }

    lemma PhysicalFrame(pgd: nat, n: nat)
      requires Valid() && Key(pgd, 0, 0) in tables
      ensures PhysicalAddress(mem, pgd, n * 4096) / 4096 == FrameOf(View()[(pgd, n % PAGES)])
    {
      PhysicalAddressExact(pgd, n * 4096);
      assert n * 4096 / 4096 == n;
    }

    // Page i of a set_mappingvv, after the first i.
    method ShareNext(src: nat, from: nat, dst: nat, to: nat, i: nat, ghost v: View, ghost t: Tables,
                     ghost f: seq<seq<nat>>)
      returns (ok: bool)
      requires Valid() && Key(src, 0, 0) in tables && Key(dst, 0, 0) in tables && Total(v) && |f| == 10
      requires Accounted(t, tables, f, pmm.lists[..], 3 * i) && View() == ShareRange(v, src, from, dst, to, i)
      requires Needed(t, tables, dst, to, i)
      modifies this`tables, mem, pmm.lists
      ensures ok ==> Valid() && Key(src, 0, 0) in tables && Key(dst, 0, 0) in tables
                     && FreePages() >= old(FreePages()) - 3
      ensures ok ==> Accounted(t, tables, f, pmm.lists[..], 3 * (i + 1))
                     && View() == ShareRange(v, src, from, dst, to, i + 1)
      ensures ok ==> Needed(t, tables, dst, to, i + 1)
      ensures old(FreePages()) >= 3 ==> ok
      ensures !ok ==> WalksIn(t, ShareRange(v, src, from, dst, to, i))
    {
      hide Valid, WalksIn, Rooted, Injective, Linked, Flat, Accounted, View, Translate, Total, PhysicalAddress,
           ShareRange, FrameOf, Needed;
      ghost var t1, f1 := tables, pmm.lists[..];
      RootTable(src);
      PhysicalFrame(src, from + i);
      ShareStep(v, src, from, dst, to, i);
      var paddr := PhysicalAddress(mem, src, (from + i) * 4096);
      ok := MapPage(dst, to + i, paddr / 4096);
      if ok {
        OneMore(t, t1, tables, f, f1, pmm.lists[..], dst, to, i, Key(src, 0, 0));
        AccountedLeaves(t1, tables, f1, pmm.lists[..], 3, Key(dst, 0, 0));
      } else {
        WalksBefore(t, t1, f, f1, 3 * i, ShareRange(v, src, from, dst, to, i));
      }
    }

    // set_mappingvv: the pages of one address space are shared into another one. False when memory has run out.
    method SetMappingVV(src: nat, srcAddr: nat, dst: nat, dstAddr: nat, pages: nat) returns (ok: bool)
      requires Valid() && Key(src, 0, 0) in tables && Key(dst, 0, 0) in tables && pages <= 0x8_0000
      modifies this`tables, mem, pmm.lists
      ensures ok ==> Valid() && Accounted(old(tables), tables, old(pmm.lists[..]), pmm.lists[..], 3 * pages)
      ensures ok ==> View() == ShareRange(old(View()), src, srcAddr / 4096, dst, dstAddr / 4096, pages)
      ensures ok ==> Needed(old(tables), tables, dst, dstAddr / 4096, pages)
      ensures old(FreePages()) >= 3 * pages ==> ok
      ensures !ok ==> exists done: nat ::
                      done < pages && WalksIn(old(tables),
                      ShareRange(old(View()), src, srcAddr / 4096, dst, dstAddr / 4096, done))
    {
      hide WalksIn, Rooted, Injective, Linked, Flat, Accounted, View, Translate, Total, Needed;
      AccountedNone(tables, pmm.lists[..]);
      NeededNone(tables, dst, dstAddr / 4096);
      ok := true;
      var i := 0;
      while i < pages
        invariant Needed(old(tables), tables, dst, dstAddr / 4096, i)
        invariant 0 <= i <= pages && ok && Valid() && Key(src, 0, 0) in tables && Key(dst, 0, 0) in tables
        invariant FreePages() >= old(FreePages()) - 3 * i
        invariant Accounted(old(tables), tables, old(pmm.lists[..]), pmm.lists[..], 3 * i)
        invariant View() == ShareRange(old(View()), src, srcAddr / 4096, dst, dstAddr / 4096, i)
      {
        ok := ShareNext(src, srcAddr / 4096, dst, dstAddr / 4096, i, old(View()), old(tables), old(pmm.lists[..]));
        if !ok { return; }
        i := i + 1;
      }
    }

    // alloc_pages for data: the block leaves the free set. False when no area is large enough.
    method TakeBlock(order: nat) returns (ok: bool, start: nat)
      requires Valid()
      modifies pmm.lists
      ensures Valid() && View() == old(View())
      ensures ok ==> Pmm.Added(pmm.lists[..], old(pmm.lists[..]), start, Powers.Pow2(order))
      ensures forall k <- tables :: Pmm.CoverAll(old(pmm.lists[..]), 10, tables[k]) == 0
      ensures order <= 9 && old(pmm.Tops()) >= 1 ==> ok
      ensures pmm.Tops() + 1 >= old(pmm.Tops())
    {
      hide Pmm.Split;
      if !pmm.HasArea(order) { return false, 0; }
      ok := true;
      start := pmm.AllocPages(order);
      hide Rooted, Injective, Flat;
      assert Linked(mem, tables);
      hide Linked;
      FewerFree(old(pmm.lists[..]), pmm.lists[..], start, Powers.Pow2(order));
      assert forall page: nat :: pmm.Free(page) <= old(pmm.Free(page));
      assert forall k <- tables :: pmm.Free(tables[k]) <= old(pmm.Free(tables[k]));
    }

    // The set_mapping of one block.
    method MapBlock(pgd: nat, base: nat, start: nat, n: nat) returns (ok: bool)
      requires Valid() && Key(pgd, 0, 0) in tables && n <= 512
      modifies this`tables, mem, pmm.lists
      ensures ok ==> Valid() && Key(pgd, 0, 0) in tables
      ensures ok ==> Accounted(old(tables), tables, old(pmm.lists[..]), pmm.lists[..], 3 * n)
      ensures ok ==> View() == MapRange(old(View()), pgd, base, start, n)
      ensures ok ==> Needed(old(tables), tables, pgd, base, n)
      ensures old(pmm.Tops()) >= 3 * n ==> ok
      ensures ok ==> pmm.Tops() + 3 * n >= old(pmm.Tops())
    {
      TopsAreFree();
      hide Rooted, Injective, Linked, Flat, View, Translate, Total, MapRange, Accounted, Needed;
      assert base * 4096 / 4096 == base && start * 4096 / 4096 == start;
      ok := SetMapping(pgd, base * 4096, start * 4096, n);
      if ok {
        AccountedLeaves(old(tables), tables, old(pmm.lists[..]), pmm.lists[..], 3 * n, Key(pgd, 0, 0));
      }
    }

    // The first "done" pages of an allocated range are served, since the view was v0, there were "count"
    // tables and the free lists were "was".
    ghost predicate Served(v0: View, count: nat, was: seq<seq<nat>>, pgd: nat, base: nat, done: nat)
      reads this, mem, pmm.lists
    {
      && Valid() && Key(pgd, 0, 0) in tables && Total(v0) && |was| == 10
      && Backing(View(), tables, pmm.lists[..], v0, count, was, pgd, base, done)
    }

    // One block of alloc_vpages: alloc_pages, then set_mapping. False when memory has run out.
    method BackBlock(pgd: nat, base: nat, done: nat, order: nat, ghost v0: View, ghost count: nat,
                     ghost was: seq<seq<nat>>)
      returns (ok: bool, start: nat)
      requires Served(v0, count, was, pgd, base, done) && Valid() && Total(View())
      requires order <= 9 && done + Powers.Pow2(order) <= PAGES
      modifies this`tables, mem, pmm.lists
      ensures ok ==> Served(v0, count, was, pgd, base, done + Powers.Pow2(order))
      ensures ok ==> Valid() && View() == MapRange(old(View()), pgd, base + done, start, Powers.Pow2(order))
      ensures ok ==> Needed(old(tables), tables, pgd, base + done, Powers.Pow2(order))
      ensures old(pmm.Tops()) >= 1 + 3 * Powers.Pow2(order) ==> ok
      ensures ok ==> pmm.Tops() + 1 + 3 * Powers.Pow2(order) >= old(pmm.Tops())
    {
      hide Rooted, Injective, Linked, Flat, View, Translate, Total, Backing, Accounted, MapRange, Offset, Needed;
      hide Pmm.Added, Pmm.Pages, Pmm.CoverAll, Powers.Pow2;
      ghost var v, t, f := View(), tables, pmm.lists[..];
      ok, start := TakeBlock(order);
      if !ok { return; }
      ghost var g := pmm.lists[..];
      SmallOrder(order);
      ok := MapBlock(pgd, base + done, start, Powers.Pow2(order));
      if ok {
        BackingMore(v, t, f, g, tables, pmm.lists[..], v0, count, was, pgd, base, done, start, Powers.Pow2(order));
      }
    }

    // One binary digit of the page count: a block of 2^i pages if it is set.
    method BackDigit(pgd: nat, base: nat, i: nat, done: nat, pages: nat, count: nat, ghost v0: View, ghost t0: nat,
                     ghost f0: seq<seq<nat>>)
      returns (ok: bool, now: nat)
      requires i < 9 && done + Pmm.Whole(pages, i) == count < PAGES && Served(v0, t0, f0, pgd, base, done)
      requires Valid() && done < Powers.Pow2(i) && Total(View()) && InBlocks(View(), pgd, base, count, done)
      modifies this`tables, mem, pmm.lists
      ensures ok ==> Valid() && now < Powers.Pow2(i + 1) && Total(View()) && InBlocks(View(), pgd, base, count, now)
      ensures ok ==> done <= now && Needed(old(tables), tables, pgd, base + done, now - done)
      ensures ok ==> now + Pmm.Whole(pages / 2, i + 1) == count && Served(v0, t0, f0, pgd, base, now)
      ensures ok ==> done <= now && pmm.Tops() + 1 + 3 * (now - done) >= old(pmm.Tops())
      ensures old(pmm.Tops()) >= 1 + 3 * (count - done) ==> ok
    {
      hide *;
      Pmm.Digit(pages, i);
      NeededNone(tables, pgd, base + done);
      ok, now := true, done;
      if pages % 2 != 0 {
        ghost var v := View();
        DigitBegins(count, pages, done, i);
        var start;
        ok, start := BackBlock(pgd, base, done, i, v0, t0, f0);
        InBlocksMore(v, pgd, base, count, done, start, Powers.Pow2(i));
        now := done + Powers.Pow2(i);
      }
    }

    // One full-size block.
    method BackFull(pgd: nat, base: nat, done: nat, pages: nat, count: nat, ghost v0: View, ghost t0: nat,
                    ghost f0: seq<seq<nat>>)
      returns (ok: bool, now: nat)
      requires pages > 0 && done + Pmm.Whole(pages, 9) == count < PAGES && Served(v0, t0, f0, pgd, base, done)
      requires Valid() && done in Pmm.Parts(0, count, 9) && Total(View()) && InBlocks(View(), pgd, base, count, done)
      modifies this`tables, mem, pmm.lists
      ensures ok ==> Valid() && now == done + 512 && Total(View()) && InBlocks(View(), pgd, base, count, now)
      ensures ok ==> Needed(old(tables), tables, pgd, base + done, 512)
      ensures ok ==> now + Pmm.Whole(pages - 1, 9) == count && Served(v0, t0, f0, pgd, base, now)
      ensures ok ==> done <= now && pmm.Tops() + 1 + 3 * (now - done) >= old(pmm.Tops())
      ensures old(pmm.Tops()) >= 1 + 3 * (count - done) ==> ok
    {
      hide *;
      Pmm.NinthPower();
      Pmm.OneUnit(pages, 9);
      ghost var v := View();
      BeginsAt(count, done, 9);
      var start;
      ok, start := BackBlock(pgd, base, done, 9, v0, t0, f0);
      InBlocksMore(v, pgd, base, count, done, start, 512);
      now := done + 512;
    }

    // What an allocation of that many pages can take off the list of largest areas: one area for every block and for
    // every table.
    static function Need(count: nat): nat { count / 512 + 9 + 3 * count }

    // alloc_vpages: it succeeds when there are enough areas of the largest order, and then every page of the range is
    // backed by its own frame, which was free before; exactly the data pages and the new tables have left the free
    // set; and nothing else is mapped differently, here or in any other address space.
    method AllocVpages(pgd: nat, vaddr: nat, count: nat) returns (ok: bool)
      requires Valid() && Key(pgd, 0, 0) in tables && count < PAGES
      modifies this`tables, mem, pmm.lists
      ensures ok ==> Served(old(View()), |old(tables)|, old(pmm.lists[..]), pgd, vaddr / 4096, count)
      ensures ok ==> Valid() && Total(View()) && InBlocks(View(), pgd, vaddr / 4096, count, count)
      ensures ok ==> Needed(old(tables), tables, pgd, vaddr / 4096, count)
      ensures old(pmm.Tops()) >= Need(count) ==> ok
      ensures ok ==> pmm.Tops() + Need(count) >= old(pmm.Tops())
    {
      NothingServed(pgd, vaddr / 4096);
      Pmm.WholeBasics(count, 9);
      ghost var v0, t0, f0 := View(), |tables|, pmm.lists[..];
      ok := BackAll(pgd, vaddr / 4096, count, v0, t0, f0);
    }

    method BackAll(pgd: nat, base: nat, count: nat, ghost v0: View, ghost t0: nat, ghost f0: seq<seq<nat>>)
      returns (ok: bool)
      requires Served(v0, t0, f0, pgd, base, 0) && Pmm.Whole(count, 0) == count < PAGES && Pmm.Whole(0, 9) == 0
               && Valid()
      modifies this`tables, mem, pmm.lists
      ensures ok ==> Served(v0, t0, f0, pgd, base, count)
      ensures ok ==> Valid() && Total(View()) && InBlocks(View(), pgd, base, count, count)
      ensures ok ==> Needed(old(tables), tables, pgd, base, count)
      ensures old(pmm.Tops()) >= count / 512 + 9 + 3 * count ==> ok
      ensures ok ==> pmm.Tops() + count / 512 + 9 + 3 * count >= old(pmm.Tops())
    {
      hide Served, Pmm.Whole, Pmm.Allocator.Tops, InBlocks, View, Translate, Total, Powers.Pow2, Pmm.Parts, Pmm.Spaced,
           Rooted, Injective, Linked, Flat, Needed;
      Pmm.WholeBasics(count, 9);
      NeededNone(tables, pgd, base);
      var done: nat, pages: nat, i := 0, count, 0;
      ok := true;
      NothingInBlocks(View(), pgd, base, count);
      while i < 9 && ok
        invariant ok ==> Needed(old(tables), tables, pgd, base, done)
        invariant ok ==> Valid() && done < Powers.Pow2(i) && Total(View()) && InBlocks(View(), pgd, base, count, done)
        invariant 0 <= i <= 9 && (ok ==> done + Pmm.Whole(pages, i) == count && Served(v0, t0, f0, pgd, base, done))
        invariant ok ==> pmm.Tops() + i + 3 * done >= old(pmm.Tops())
        invariant old(pmm.Tops()) >= count / 512 + 9 + 3 * count ==> ok
      {
        ghost var t, was := tables, done;
        ok, done := BackDigit(pgd, base, i, done, pages, count, v0, t0, f0);
        if ok { NeededMore(old(tables), t, tables, pgd, base, was, done - was); }
        pages, i := pages / 2, i + 1;
      }
      Pmm.FullBlocks(pages, done, count);
      if ok {
        ghost var t := tables;
        ok := BackLarge(pgd, base, count, done, pages, v0, t0, f0);
        if ok { NeededMore(old(tables), t, tables, pgd, base, done, count - done); }
      }
    }

    // The blocks of the largest order.
    method BackLarge(pgd: nat, base: nat, count: nat, done0: nat, pages0: nat, ghost v0: View, ghost t0: nat,
                     ghost f0: seq<seq<nat>>)
      returns (ok: bool)
      requires Served(v0, t0, f0, pgd, base, done0) && done0 + Pmm.Whole(pages0, 9) == count < PAGES
      requires Valid() && done0 < Powers.Pow2(9) && Total(View()) && InBlocks(View(), pgd, base, count, done0)
      modifies this`tables, mem, pmm.lists
      ensures ok ==> Served(v0, t0, f0, pgd, base, count)
      ensures ok ==> Valid() && Total(View()) && InBlocks(View(), pgd, base, count, count)
      ensures ok ==> done0 <= count && Needed(old(tables), tables, pgd, base + done0, count - done0)
      ensures old(pmm.Tops()) >= pages0 + 3 * (count - done0) ==> ok
      ensures ok ==> pmm.Tops() + pages0 + 3 * (count - done0) >= old(pmm.Tops())
    {
      hide Served, Pmm.Whole, Pmm.Allocator.Tops, InBlocks, View, Translate, Total, Powers.Pow2, Pmm.Parts, Pmm.Spaced,
           Rooted, Injective, Linked, Flat, Needed;
      Pmm.WholeBasics(count, 9);
      NeededNone(tables, pgd, base + done0);
      LargeSpaced(count, pages0, done0);
      var done, pages := done0, pages0;
      ok := true;
      while 0 < pages && ok
        invariant 0 <= pages <= pages0 && (ok ==> done == done0 + 512 * (pages0 - pages))
        invariant ok ==> Valid() && Total(View()) && InBlocks(View(), pgd, base, count, done)
        invariant ok ==> Needed(old(tables), tables, pgd, base + done0, done - done0)
        invariant ok ==> done + Pmm.Whole(pages, 9) == count && Served(v0, t0, f0, pgd, base, done)
        invariant ok ==> pmm.Tops() + (pages0 - pages) + 3 * (done - done0) >= old(pmm.Tops())
        invariant old(pmm.Tops()) >= pages0 + 3 * (count - done0) ==> ok
      {
        SpacedHas(done0, pages0, pages0 - pages);
        ghost var t, was := tables, done;
        ok, done := BackFull(pgd, base, done, pages, count, v0, t0, f0);
        if ok { NeededMore(old(tables), t, tables, pgd, base + done0, was - done0, 512); }
        pages := pages - 1;
      }
    }

    lemma LargeSpaced(count: nat, pages: nat, done: nat)
      requires done + Pmm.Whole(pages, 9) == count && done < Powers.Pow2(9)
      ensures Pmm.Parts(0, count, 9) == Pmm.Spaced(done, pages)
    {
      Pmm.LargeParts(0, count, pages, done);
    }

    lemma NothingServed(pgd: nat, base: nat)
      requires Valid() && Key(pgd, 0, 0) in tables
      ensures Served(View(), |tables|, pmm.lists[..], pgd, base, 0)
    {
      assert forall page: nat :: pmm.Free(page) <= 1 && pmm.Free(page) == Pmm.CoverAll(pmm.lists[..], 10, page);
    }

    lemma TopsAreFree()
      requires pmm.Valid()
      ensures FreePages() >= pmm.Tops()
    {
      Pmm.TopPages(pmm.lists[..]);
    }

    lemma SomeArea()
      requires pmm.Valid()
      ensures FreePages() > 0 ==> pmm.HasArea(0)
    {
      if forall i :: 0 <= i < 10 ==> pmm.lists[i] == [] { Pmm.NothingFree(pmm.lists[..], 10, 0); }
    }
  }

  // A NULL physical address names frame 0.
  function FrameOf(t: Translation): nat { match t case Missing => 0 case To(frame) => frame }

  // How far a page lies behind "base", going round the whole virtual space.
  function Offset(page: nat, base: nat): nat { (page - base) % PAGES }

  lemma OffsetOf(base: nat, i: nat)
    requires i < PAGES
    ensures forall page: nat | page < PAGES :: page == (base + i) % PAGES <==> Offset(page, base) == i
  {
    forall page: nat | page < PAGES ensures page == (base + i) % PAGES <==> Offset(page, base) == i {
      var a, b := (base + i) / PAGES, (base + i) % PAGES;
      var c, d := (page - base) / PAGES, Offset(page, base);
      assert base + i == PAGES * a + b && page - base == PAGES * c + d;
      assert page + i == PAGES * (a + c) + b + d;
    }
  }

  // A view that says something of every page of every address space.
  type View = imap<(nat, nat), Translation>

  ghost predicate Total(v: View) { forall root: nat, page: nat :: (root, page) in v }

  ghost function MapRange(v: View, pgd: nat, base: nat, frame: nat, n: nat): (w: View)
    requires Total(v)
    ensures Total(w)
  {
    if n == 0 then v else MapRange(v, pgd, base, frame, n - 1)[(pgd, (base + n - 1) % PAGES) := To(frame + n - 1)]
  }

  // What mapping a range means: page base + i goes to frame + i for exactly the pages of the range, and
  // every other translation, of this and of every other address space, is as before.
  lemma {:induction false} MapRangeExact(v: View, pgd: nat, base: nat, frame: nat, n: nat, root: nat, page: nat)
    requires Total(v) && n <= PAGES && page < PAGES
    ensures MapRange(v, pgd, base, frame, n)[(root, page)] ==
            if root == pgd && Offset(page, base) < n then To(frame + Offset(page, base)) else v[(root, page)]
  {
    if n > 0 {
      MapRangeExact(v, pgd, base, frame, n - 1, root, page);
      OffsetOf(base, n - 1);
    }
  }

  ghost function ShareRange(v: View, src: nat, from: nat, dst: nat, to: nat, n: nat): (w: View)
    requires Total(v)
    ensures Total(w)
  {
    if n == 0 then v
    else
      var w := ShareRange(v, src, from, dst, to, n - 1);
      w[(dst, (to + n - 1) % PAGES) := To(FrameOf(w[(src, (from + n - 1) % PAGES)]))]
  }

  lemma MapStep(v: View, pgd: nat, base: nat, frame: nat, i: nat)
    requires Total(v)
    ensures MapRange(v, pgd, base, frame, i + 1) ==
            MapRange(v, pgd, base, frame, i)[(pgd, (base + i) % PAGES) := To(frame + i)]
  {
  }

  lemma ShareStep(v: View, src: nat, from: nat, dst: nat, to: nat, n: nat)
    requires Total(v)
    ensures ShareRange(v, src, from, dst, to, n + 1) ==
            var w := ShareRange(v, src, from, dst, to, n);
            w[(dst, (to + n) % PAGES) := To(FrameOf(w[(src, (from + n) % PAGES)]))]
  {
  }

  // How far behind its source a page of a shared range lies, if both are in one address space.
  function Gap(src: nat, from: nat, dst: nat, to: nat): nat { if src == dst then Offset(to, from) else 0 }

  // Which page of the source a page of a shared range gets its frame from: pages are shared one after the other, so
  // within
  // one address space a destination that starts inside the source repeats what lies before it.
  function Origin(o: nat, gap: nat): nat { if gap > 0 then o % gap else o }

  // Afterwards the range sees the frames of the source.
  lemma {:induction false} ShareRangeExact(v: View, src: nat, from: nat, dst: nat, to: nat, n: nat, root: nat,
                                           page: nat)
    requires Total(v) && n <= PAGES && page < PAGES
    ensures var o := Offset(page, to);
            ShareRange(v, src, from, dst, to, n)[(root, page)] ==
            if root == dst && o < n then To(FrameOf(v[(src, (from + Origin(o, Gap(src, from, dst, to))) % PAGES)]))
            else v[(root, page)]
  {
    hide Offset, Origin, Gap, ShareRange;
    if n == 0 {
      NothingShared(v, src, from, dst, to);
    } else {
      OffsetNew(page, to, n);
      ShareStep(v, src, from, dst, to, n - 1);
      ShareRangeExact(v, src, from, dst, to, n - 1, root, page);
      if root == dst && Offset(page, to) == n - 1 {
        ShareRangeExact(v, src, from, dst, to, n - 1, src, (from + n - 1) % PAGES);
        Behind(src, from, dst, to, n - 1);
        OriginBefore(n - 1, Gap(src, from, dst, to));
      }
    }
  }

  lemma NothingShared(v: View, src: nat, from: nat, dst: nat, to: nat)
    requires Total(v)
    ensures ShareRange(v, src, from, dst, to, 0) == v
  {
  }

  // Page n of the source was a page of the destination before exactly if the destination starts at most n pages behind.
  lemma Behind(src: nat, from: nat, dst: nat, to: nat, n: nat)
    requires n < PAGES
    ensures var (o, gap) := (Offset((from + n) % PAGES, to), Gap(src, from, dst, to));
            if src == dst then (if n >= gap then o == n - gap else o > n) else gap == 0
  {
    OffsetBehind(from, to, n);
  }

  // Where page n of the source lies in the destination.
  lemma OffsetBehind(from: nat, to: nat, n: nat)
    requires n < PAGES
    ensures var gap := Offset(to, from);
            Offset((from + n) % PAGES, to) == if n >= gap then n - gap else n - gap + PAGES
  {
    var gap, p := Offset(to, from), (from + n) % PAGES;
    var a, b := (to - from) / PAGES, (from + n) / PAGES;
    assert to - from == PAGES * a + gap && from + n == PAGES * b + p;
    assert p - to == n - gap - PAGES * (a + b);
    ModAdds(n - gap, a + b, p - to);
  }

  lemma ModAdds(x: int, k: int, y: int)
    requires 0 <= x + PAGES && x < PAGES && y == x - PAGES * k
    ensures y % PAGES == if x >= 0 then x else x + PAGES
  {
    if x >= 0 {
      assert y == PAGES * -k + x;
    } else {
      assert y == PAGES * (-k - 1) + (x + PAGES);
    }
  }

  lemma OriginBefore(o: nat, gap: nat)
    ensures o < gap || gap == 0 ==> Origin(o, gap) == o
    ensures o >= gap > 0 ==> Origin(o - gap, gap) == Origin(o, gap)
  {
    if o >= gap > 0 {
      var q, r := (o - gap) / gap, (o - gap) % gap;
      assert o == gap * (q + 1) + r;
      ModUnique(o, gap, q + 1, r);
    }
  }

  lemma ModUnique(x: nat, m: nat, q: nat, r: nat)
    requires m > 0 && x == m * q + r && r < m
    ensures x % m == r
  {
    var c, d := x / m, x % m;
    assert x == m * c + d;
    if c > q { Times(m, q, c); } else if c < q { Times(m, c, q); }
  }

  lemma {:induction false} Times(m: nat, a: nat, b: nat)
    requires a < b
    ensures m * b >= m * a + m
    decreases b - a
  {
    assert m * b == m * (b - 1) + m;
    if a + 1 < b { Times(m, a, b - 1); }
  }

  // Page n of a range is the one place that the range of n + 1 pages has more.
  lemma OffsetNew(page: nat, to: nat, n: nat)
    requires 0 < n <= PAGES && page < PAGES
    ensures page == (to + n - 1) % PAGES <==> Offset(page, to) == n - 1
    ensures Offset(page, to) >= 0
  {
    OffsetOf(to, n - 1);
  }

  // Tables are only added, at most "most" of them; each takes one page that was free, and no page is freed.
  ghost predicate Accounted(was: Tables, now: Tables, wasFree: seq<seq<nat>>, nowFree: seq<seq<nat>>, most: nat)
    requires |wasFree| == |nowFree| == 10
  {
    && (forall k <- was :: k in now && now[k] == was[k])
    && |was| <= |now| <= |was| + most && Pmm.Pages(wasFree, 10) == Pmm.Pages(nowFree, 10) + (|now| - |was|)
    && (forall page: nat :: Pmm.CoverAll(nowFree, 10, page) <= Pmm.CoverAll(wasFree, 10, page))
    && (forall k <- now :: k in was || Pmm.CoverAll(wasFree, 10, now[k]) > 0)
  }

  // A table on the way to a page, and to page i of a range.
  predicate OnPath(k: Key, root: nat, page: nat) {
    k == Key(root, 1, page / 512 / 512 / 512) || k == Key(root, 2, page / 512 / 512) || k == Key(root, 3, page / 512)
  }

  predicate OnPathTo(k: Key, root: nat, base: nat, i: nat) { OnPath(k, root, (base + i) % PAGES) }

  // The only tables that are new are those on the way to one of the pages.
  ghost predicate Needed(was: Tables, now: Tables, root: nat, base: nat, n: nat) {
    forall k <- now :: k in was || exists i: nat :: i < n && OnPathTo(k, root, base, i)
  }

  lemma NeededNone(tables: Tables, root: nat, base: nat)
    ensures Needed(tables, tables, root, base, 0)
  {
    hide OnPath;
  }

  // Page i of a range is mapped.
  ghost predicate Mapped(mem: array2<Entry>, tables: Tables, root: nat, base: nat, i: nat)
    requires mem.Length1 == 512 && forall k <- tables :: 0 < tables[k] < mem.Length0
    reads mem
  {
    Flat(mem, tables, root, (base + i) % PAGES).To?
  }

  // When the pages of a range are mapped, and no table is new but those needed, the tables are exactly the old ones and
  // those on the way to the pages of the range.
  lemma TablesExactly(mem: array2<Entry>, was: Tables, now: Tables, root: nat, base: nat, n: nat, k: Key)
    requires mem.Length1 == 512 && Rooted(now) && forall k <- now :: 0 < now[k] < mem.Length0
    requires was.Keys <= now.Keys && Needed(was, now, root, base, n)
    requires forall i: nat | i < n :: Mapped(mem, now, root, base, i)
    ensures k in now <==> k in was || exists i: nat :: i < n && OnPathTo(k, root, base, i)
  {
    if i: nat :| i < n && OnPathTo(k, root, base, i) {
      assert Mapped(mem, now, root, base, i);
      var leaf := LeafKey(root, (base + i) % PAGES);
      assert Parent(leaf) in now;
      assert Parent(Parent(leaf)) in now;
    }
    assert k in was ==> k in was.Keys;
  }

  lemma NeededMore(was: Tables, mid: Tables, now: Tables, root: nat, base: nat, m: nat, n: nat)
    requires Needed(was, mid, root, base, m) && Needed(mid, now, root, base + m, n)
    ensures Needed(was, now, root, base, m + n)
  {
    hide OnPath;
    forall k | k in now && k !in was ensures exists i: nat :: i < m + n && OnPathTo(k, root, base, i) {
      if k in mid {
        var i: nat :| i < m && OnPathTo(k, root, base, i);
      } else {
        var i: nat :| i < n && OnPathTo(k, root, base + m, i);
        assert OnPathTo(k, root, base, m + i);
      }
    }
  }

  lemma PathNeeded(t: Tables, root: nat, n: nat)
    ensures var k := Key(root, 0, 0);
            var (a, b) := (Child(k, Slot3(n)), Child(Child(k, Slot3(n)), Slot2(n)));
            forall now: Tables | now.Keys <= t.Keys + {a, b, Child(b, Slot1(n))} :: Needed(t, now, root, n, 1)
  {
    var k := Key(root, 0, 0);
    var (a, b) := (Child(k, Slot3(n)), Child(Child(k, Slot3(n)), Slot2(n)));
    PathKeys(root, n);
    assert OnPath(a, root, n % PAGES) && OnPath(b, root, n % PAGES) && OnPath(Child(b, Slot1(n)), root, n % PAGES);
    hide OnPath, Child;
    forall now: Tables | now.Keys <= t.Keys + {a, b, Child(b, Slot1(n))} ensures Needed(t, now, root, n, 1) {
      forall l | l in now && l !in t ensures OnPathTo(l, root, n, 0) {
        assert l in now.Keys;
      }
    }
  }

  lemma AccountedMore(was: Tables, mid: Tables, now: Tables, a: seq<seq<nat>>, b: seq<seq<nat>>, c: seq<seq<nat>>,
                      m: nat, n: nat)
    requires |a| == |b| == |c| == 10 && Accounted(was, mid, a, b, m) && Accounted(mid, now, b, c, n)
    ensures Accounted(was, now, a, c, m + n)
  {
    forall k <- now ensures k in was || Pmm.CoverAll(a, 10, now[k]) > 0 {
      assert k in mid ==> mid[k] == now[k];
    }
  }

  lemma AccountedLeaves(was: Tables, now: Tables, wasFree: seq<seq<nat>>, nowFree: seq<seq<nat>>, most: nat, k: Key)
    requires |wasFree| == |nowFree| == 10 && Accounted(was, now, wasFree, nowFree, most)
    ensures k in was ==> k in now
    ensures Pmm.Pages(nowFree, 10) >= Pmm.Pages(wasFree, 10) - most
  {
  }

  lemma AccountedNone(tables: Tables, free: seq<seq<nat>>)
    requires |free| == 10
    ensures Accounted(tables, tables, free, free, 0)
  {
  }

  lemma AccountedOne(was: Tables, k: Key, frame: nat, a: seq<seq<nat>>, b: seq<seq<nat>>)
    requires |a| == |b| == 10 && k !in was && Pmm.Added(b, a, frame, 1)
    ensures Accounted(was, was[k := frame], a, b, 1)
  {
    assert |was[k := frame]| == |was| + 1;
    OnePageLess(a, b, frame);
  }

  lemma FewerFree(was: seq<seq<nat>>, now: seq<seq<nat>>, start: nat, count: nat)
    requires |was| == |now| == 10 && Pmm.Added(now, was, start, count)
    ensures forall page: nat :: Pmm.CoverAll(now, 10, page) <= Pmm.CoverAll(was, 10, page)
  {
  }

  lemma SmallOrder(order: nat)
    requires order <= 9
    ensures Powers.Pow2(order) <= 512
  {
    Powers.Pow2Monotone(order, 9);
    assert Powers.Pow2(3) == 8;
    assert Powers.Pow2(6) == 64;
  }

  // One page of an allocated range: its frame was free, and is neither free nor a table now.
  ghost predicate BackedBy(t: Translation, tables: Tables, free: seq<seq<nat>>, was: seq<seq<nat>>)
    requires |free| == |was| == 10
  {
    t.To? && Pmm.CoverAll(was, 10, t.frame) == 1 && Pmm.CoverAll(free, 10, t.frame) == 0
      && forall k <- tables :: tables[k] != t.frame
  }

  // The first n pages behind "base" are backed by different frames; nothing else has changed since v0.
  // Exactly those n pages and the tables made since there were "count" of them have left the free set.
  ghost predicate Backing(v: View, tables: Tables, free: seq<seq<nat>>, v0: View, count: nat, was: seq<seq<nat>>,
                          pgd: nat, base: nat, n: nat)
    requires |free| == |was| == 10 && Total(v) && Total(v0)
  {
    && |tables| >= count && Pmm.Pages(was, 10) == Pmm.Pages(free, 10) + n + (|tables| - count)
    && (forall page: nat | page < PAGES && Offset(page, base) < n :: BackedBy(v[(pgd, page)], tables, free, was))
    && (forall p: nat, q: nat | p < PAGES && q < PAGES && Offset(p, base) < n && Offset(q, base) < n && p != q ::
          v[(pgd, p)] != v[(pgd, q)])
    && (forall root: nat, page: nat | page < PAGES && (root != pgd || Offset(page, base) >= n) ::
          v[(root, page)] == v0[(root, page)])
    && (forall page: nat :: Pmm.CoverAll(free, 10, page) <= Pmm.CoverAll(was, 10, page) <= 1)
  }

  // Where alloc_vpages begins a new block of a range of "count" pages.
  ghost predicate Begins(count: nat, j: nat) { exists i :: 0 <= i <= 9 && j in Pmm.Parts(0, count, i) }

  // The first n pages of a range of "count" pages are backed block by block: a page that begins no block lies in the
  // frame behind that of the page before it.
  ghost predicate InBlocks(v: View, pgd: nat, base: nat, count: nat, n: nat)
    requires Total(v)
  {
    forall p: nat, q: nat | p < PAGES && q < PAGES && Offset(q, base) < n && Offset(q, base) == Offset(p, base) + 1
                            && !Begins(count, Offset(q, base)) ::
      v[(pgd, p)].To? && v[(pgd, q)] == To(v[(pgd, p)].frame + 1)
  }

  lemma BeginsAt(count: nat, j: nat, i: nat)
    requires i <= 9 && j in Pmm.Parts(0, count, i)
    ensures Begins(count, j)
  {
  }

  lemma DigitBegins(count: nat, pages: nat, done: nat, i: nat)
    requires i < 9 && done < Powers.Pow2(i) && done + Pmm.Whole(pages, i) == count && pages % 2 != 0
    ensures Begins(count, done)
  {
    Pmm.DigitPart(0, count, i, pages, done);
    BeginsAt(count, done, i);
  }

  lemma SpacedHas(start: nat, n: nat, k: nat)
    requires k < n
    ensures start + 512 * k in Pmm.Spaced(start, n)
  {
    assert Pmm.Spaced(start, n)[k] == start + 512 * k;
  }

  lemma NothingInBlocks(v: View, pgd: nat, base: nat, count: nat)
    requires Total(v)
    ensures InBlocks(v, pgd, base, count, 0)
  {
    hide Begins;
  }

  lemma InBlocksMore(v: View, pgd: nat, base: nat, count: nat, done: nat, start: nat, n: nat)
    requires Total(v) && n > 0 && done + n <= PAGES && InBlocks(v, pgd, base, count, done) && Begins(count, done)
    ensures Total(MapRange(v, pgd, base + done, start, n))
    ensures InBlocks(MapRange(v, pgd, base + done, start, n), pgd, base, count, done + n)
  {
    MappedBehind(v, pgd, base, done, start, n);
    hide MapRange, Offset, Begins;
  }

  lemma OffsetShift(page: nat, base: nat, done: nat)
    requires page < PAGES && done < PAGES
    ensures Offset(page, base + done) ==
            if Offset(page, base) >= done then Offset(page, base) - done else Offset(page, base) + PAGES - done
  {
    var c, d := (page - base) / PAGES, Offset(page, base);
    assert page - base == PAGES * c + d;
    assert page - (base + done) == PAGES * c + (d - done);
  }

  lemma MappedBehind(v: View, pgd: nat, base: nat, done: nat, start: nat, n: nat)
    requires Total(v) && n > 0 && done + n <= PAGES
    ensures forall root: nat, page: nat | page < PAGES ::
              MapRange(v, pgd, base + done, start, n)[(root, page)] ==
              if root == pgd && done <= Offset(page, base) < done + n then To(start + (Offset(page, base) - done))
              else v[(root, page)]
  {
    forall root: nat, page: nat | page < PAGES
      ensures MapRange(v, pgd, base + done, start, n)[(root, page)] ==
              if root == pgd && done <= Offset(page, base) < done + n then To(start + (Offset(page, base) - done))
              else v[(root, page)]
    {
      MapRangeExact(v, pgd, base + done, start, n, root, page);
      OffsetShift(page, base, done);
    }
  }

  lemma BackingMore(v: View, t: Tables, f: seq<seq<nat>>, g: seq<seq<nat>>, t2: Tables, h: seq<seq<nat>>, v0: View,
                    count: nat, was: seq<seq<nat>>, pgd: nat, base: nat, done: nat, start: nat, n: nat)
    requires |f| == |g| == |h| == |was| == 10 && Total(v) && Total(v0) && n > 0 && done + n <= PAGES
    requires Backing(v, t, f, v0, count, was, pgd, base, done)
    requires Pmm.Added(g, f, start, n) && (forall k <- t :: Pmm.CoverAll(f, 10, t[k]) == 0)
    requires Accounted(t, t2, g, h, 3 * n)
    ensures Backing(MapRange(v, pgd, base + done, start, n), t2, h, v0, count, was, pgd, base, done + n)
  {
    var w := MapRange(v, pgd, base + done, start, n);
    MappedBehind(v, pgd, base, done, start, n);
    FewerFree(f, g, start, n);
    assert forall page: nat :: Pmm.CoverAll(h, 10, page) <= Pmm.CoverAll(g, 10, page);
    hide MapRange, Pmm.Added, Accounted, Offset, BackedBy, Pmm.CoverAll, Pmm.Pages, Needed;
    forall page: nat | page < PAGES && Offset(page, base) < done + n
      ensures BackedBy(w[(pgd, page)], t2, h, was)
      ensures Offset(page, base) < done ==> Pmm.CoverAll(f, 10, w[(pgd, page)].frame) == 0
      ensures Offset(page, base) >= done ==> Pmm.CoverAll(f, 10, w[(pgd, page)].frame) == 1
    {
      if Offset(page, base) < done {
        StillBacked(v[(pgd, page)], t, f, g, t2, h, was, start, n);
      } else {
        NewlyBacked(start + (Offset(page, base) - done), t, f, g, t2, h, was, start, n);
      }
    }
    forall p: nat, q: nat | p < PAGES && q < PAGES && Offset(p, base) < done + n && Offset(q, base) < done + n && p != q
      ensures w[(pgd, p)] != w[(pgd, q)]
    {
      OffsetInjective(p, q, base);
    }
  }

  lemma OffsetInjective(p: nat, q: nat, base: nat)
    requires p < PAGES && q < PAGES && p != q
    ensures Offset(p, base) != Offset(q, base)
  {
    var (a, b) := ((p - base) / PAGES, (q - base) / PAGES);
    assert p - base == PAGES * a + Offset(p, base) && q - base == PAGES * b + Offset(q, base);
    assert p - q == PAGES * (a - b) + (Offset(p, base) - Offset(q, base));
  }

  lemma StillBacked(x: Translation, t: Tables, f: seq<seq<nat>>, g: seq<seq<nat>>, t2: Tables, h: seq<seq<nat>>,
                    was: seq<seq<nat>>, start: nat, n: nat)
    requires |f| == |g| == |h| == |was| == 10 && BackedBy(x, t, f, was)
    requires Pmm.Added(g, f, start, n) && Accounted(t, t2, g, h, 3 * n)
    ensures BackedBy(x, t2, h, was) && x.To? && Pmm.CoverAll(f, 10, x.frame) == 0
  {
    assert Pmm.CoverAll(f, 10, x.frame) >= Pmm.CoverAll(g, 10, x.frame) >= Pmm.CoverAll(h, 10, x.frame);
    forall k <- t2 ensures t2[k] != x.frame { assert k in t ==> t2[k] == t[k]; }
  }

  lemma NewlyBacked(frame: nat, t: Tables, f: seq<seq<nat>>, g: seq<seq<nat>>, t2: Tables, h: seq<seq<nat>>,
                    was: seq<seq<nat>>, start: nat, n: nat)
    requires |f| == |g| == |h| == |was| == 10 && start <= frame < start + n
    requires Pmm.CoverAll(f, 10, frame) <= Pmm.CoverAll(was, 10, frame) <= 1
    requires Pmm.Added(g, f, start, n) && (forall k <- t :: Pmm.CoverAll(f, 10, t[k]) == 0)
    requires Accounted(t, t2, g, h, 3 * n)
    ensures BackedBy(To(frame), t2, h, was) && Pmm.CoverAll(f, 10, frame) == 1
  {
    assert Pmm.CoverAll(f, 10, frame) == Pmm.CoverAll(g, 10, frame) + 1;
    forall k <- t2 ensures t2[k] != frame { assert k in t ==> t2[k] == t[k]; }
  }

  // One more page of a range is mapped.
  lemma OneMore(t: Tables, t1: Tables, now: Tables, f: seq<seq<nat>>, f1: seq<seq<nat>>, g: seq<seq<nat>>, root: nat,
                base: nat, i: nat, k: Key)
    requires |f| == |f1| == |g| == 10 && Accounted(t, t1, f, f1, 3 * i) && Accounted(t1, now, f1, g, 3)
    requires Needed(t, t1, root, base, i) && Needed(t1, now, root, base + i, 1)
    ensures Accounted(t, now, f, g, 3 * (i + 1)) && Needed(t, now, root, base, i + 1)
    ensures k in t1 ==> k in now
    ensures Pmm.Pages(g, 10) >= Pmm.Pages(f1, 10) - 3
  {
    hide Accounted, Needed;
    AccountedMore(t, t1, now, f, f1, g, 3 * i, 3);
    AccountedLeaves(t1, now, f1, g, 3, k);
    NeededMore(t, t1, now, root, base, i, 1);
  }

  // The key the walk of one page ends at, and which pages share it.
  lemma LeafReached(pgd: nat, n: nat)
    ensures var k := Child(Child(Child(Key(pgd, 0, 0), Slot3(n)), Slot2(n)), Slot1(n));
            && k == LeafKey(pgd, n % PAGES)
            && forall root: nat, page: nat ::
                 (LeafKey(root, page) == k && page % 512 == Slot0(n)) <==> (root == pgd && page == n % PAGES)
  {
    SlotsWrap(n);
    var m := n % PAGES;
    assert m / 512 / 512 / 512 * 512 + Slot2(m) == m / 512 / 512;
    assert m / 512 / 512 * 512 + Slot1(m) == m / 512;
    forall root: nat, page: nat
      ensures (LeafKey(root, page) == LeafKey(pgd, m) && page % 512 == Slot0(n)) <==> (root == pgd && page == m)
    {
      assert page == page / 512 * 512 + page % 512 && m == m / 512 * 512 + m % 512;
    }
  }

  lemma OnePageLess(was: seq<seq<nat>>, now: seq<seq<nat>>, frame: nat)
    requires |was| == |now| == 10 && Pmm.Added(now, was, frame, 1)
    ensures forall page: nat :: Pmm.CoverAll(was, 10, page) ==
                                Pmm.CoverAll(now, 10, page) + if page == frame then 1 else 0
  {
  }
}
