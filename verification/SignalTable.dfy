// The semaphore table of kernel/task/signal.c in its own form: nodes with child and parent links and
// cached balance factors, rewritten in place, and checked against the tree values of AvlTree.
module SignalTable {
  import opened AvlTree
  import opened Semaphores

  // The semaphore record embedded in a node.
  class Signal {
    const id: nat
    const max: int
    const soft: bool
    var signals: int
    var waiting: seq<Tid>

    constructor (id: nat, max: int, value: int, soft: bool)
      ensures this.id == id && Value() == Fresh(max, value, soft)
    {
      this.id, this.max, this.soft := id, max, soft;
      signals, waiting := value, [];
    }

    function Value(): Semaphore
      reads this
    {
      Semaphore(signals, max, soft, waiting)
    }

    // The body of __up_signal: the thread to be made ready, if any.
    method Raise() returns (woken: Wake)
      requires !Up(Value()).Stuck?
      modifies this
      ensures Value() == Up(old(Value())).s
      ensures woken == if Up(old(Value())).Woke? then Wakes(Up(old(Value())).thread) else Nobody
    {
      woken := Nobody;
      if signals < max {
        signals := signals + 1;
      }
      if !soft && signals <= 0 {
        woken := Wakes(waiting[0]);
        waiting := waiting[1..];
      }
    }

    // The body of __down_signal: whether the caller has to sleep.
    method Lower(caller: Tid) returns (sleeps: bool)
      modifies this
      ensures Value() == Down(old(Value()), caller) && sleeps == Blocks(old(Value()))
    {
      signals := signals - 1;
      sleeps := !soft && signals < 0;
      if sleeps {
        waiting := waiting + [caller];
      }
    }
  }

  class SignalNode {
    const signal: Signal
    var left: SignalNode?
    var right: SignalNode?
    var parent: SignalNode?
    var factor: int

    constructor (signal: Signal)
      ensures this.signal == signal && left == right == parent == null && factor == 0
    {
      this.signal := signal;
      left, right, parent, factor := null, null, null, 0;
    }
  }

  type Shape = Tree<SignalNode>
  type Way = Ctx<SignalNode>

  ghost function Nodes(t: Shape): set<SignalNode> {
    match t
    case Leaf => {}
    case Node(l, p, _, _, r) => Nodes(l) + {p} + Nodes(r)
  }

  // Their semaphore records.
  ghost function Records(t: Shape): set<Signal> { set n <- Nodes(t) :: n.signal }

  ghost function WayNodes(c: Way): set<SignalNode> {
    match c
    case Top => {}
    case DownLeft(up, p, _, _, r) => WayNodes(up) + {p} + Nodes(r)
    case DownRight(l, p, _, _, up) => Nodes(l) + {p} + WayNodes(up)
  }

  ghost function Above(c: Way): (p: SignalNode?)
    ensures if c.Top? then p == null else p != null && p in WayNodes(c)
  {
    match c
    case Top => null
    case DownLeft(_, p, _, _, _) => p
    case DownRight(_, p, _, _, _) => p
  }

  // The links, ids and factors found from "p" on are those of "t", and "up" is the parent link at the top.
  ghost predicate Linked(t: Shape, p: SignalNode?, up: SignalNode?)
    reads Nodes(t)
  {
    match t
    case Leaf => p == null
    case Node(l, q, id, f, r) =>
      && p == q && q.signal.id == id && q.factor == f && q.parent == up
      && q !in Nodes(l) && q !in Nodes(r) && Nodes(l) !! Nodes(r)
      && Linked(l, q.left, q) && Linked(r, q.right, q)
  }

  ghost predicate WayLinked(c: Way, hole: SignalNode?, root: SignalNode?)
    reads WayNodes(c)
  {
    match c
    case Top => root == hole
    case DownLeft(up, q, id, f, r) =>
      && q.left == hole && q.signal.id == id && q.factor == f && q.parent == Above(up)
      && q !in WayNodes(up) && q !in Nodes(r) && WayNodes(up) !! Nodes(r)
      && Linked(r, q.right, q) && WayLinked(up, q, root)
    case DownRight(l, q, id, f, up) =>
      && q.right == hole && q.signal.id == id && q.factor == f && q.parent == Above(up)
      && q !in WayNodes(up) && q !in Nodes(l) && WayNodes(up) !! Nodes(l)
      && Linked(l, q.left, q) && WayLinked(up, q, root)
  }

  // The table's root leads along "c" to the subtree "t" whose top node is "p".
  ghost predicate At(root: SignalNode?, c: Way, t: Shape, p: SignalNode?)
    reads WayNodes(c), Nodes(t)
  {
    WayLinked(c, p, root) && Linked(t, p, Above(c)) && WayNodes(c) !! Nodes(t)
  }

  lemma TopIs(root: SignalNode?, c: Way, t: Shape, p: SignalNode?)
    requires At(root, c, t, p) && t.Node?
    ensures p != null && p == t.p && p.factor == t.f && p.parent == Above(c)
    ensures c.Top? <==> Above(c) == null
    ensures c.Top? ==> Linked(t, root, null) && WayNodes(c) == {}
  {
  }

  lemma RepairedNode(n: Shape)
    requires Repairable(n)
    ensures Repair(n).Node?
  {
  }

  lemma AdjustedNode(c: Way, t: Shape)
    requires !c.Top?
    ensures Adjusted(c, t).Node? && WayNodes(c.up) + Nodes(Adjusted(c, t)) == WayNodes(c) + Nodes(t)
    ensures Above(c) in WayNodes(c)
  {
  }

  lemma LeftOf(root: SignalNode?, c: Way, t: Shape, p: SignalNode)
    requires t.Node? && t.p == p
    ensures At(root, c, t, p) <==> At(root, DownLeft(c, p, t.id, t.f, t.right), t.left, p.left)
  {
  }

  lemma RightOf(root: SignalNode?, c: Way, t: Shape, p: SignalNode)
    requires t.Node? && t.p == p
    ensures At(root, c, t, p) <==> At(root, DownRight(t.left, p, t.id, t.f, c), t.right, p.right)
  {
  }

  lemma {:induction false} Plugged(root: SignalNode?, c: Way, t: Shape, p: SignalNode?)
    requires At(root, c, t, p)
    ensures Linked(Plug(c, t), root, null) && Nodes(Plug(c, t)) == WayNodes(c) + Nodes(t)
    decreases c
  {
    match c
    case Top =>
    case DownLeft(up, q, id, f, r) =>
      LeftOf(root, up, Node(t, q, id, f, r), q);
      Plugged(root, up, Node(t, q, id, f, r), q);
    case DownRight(l, q, id, f, up) =>
      RightOf(root, up, Node(l, q, id, f, t), q);
      Plugged(root, up, Node(l, q, id, f, t), q);
  }

  lemma {:induction false} NodesAllocated(t: Shape)
    ensures forall o <- Nodes(t) :: allocated(o)
  {
    if t.Node? {
      NodesAllocated(t.left);
      NodesAllocated(t.right);
    }
  }

  lemma {:induction false} WayAllocated(c: Way)
    ensures forall o <- WayNodes(c) :: allocated(o)
  {
    match c
    case Top =>
    case DownLeft(up, _, _, _, r) => WayAllocated(up); NodesAllocated(r);
    case DownRight(l, _, _, _, up) => WayAllocated(up); NodesAllocated(l);
  }

  // The semaphore under an id that is in the tree.
  ghost function SemaphoreOf(t: Shape, id: nat): Semaphore
    reads set n <- Nodes(t) :: n.signal
  {
    if Find(t, id) == null then Fresh(1, 0, false) else
      FoundInside(t, id);
      Find(t, id).signal.Value()
  }

  lemma CreatedOrder(n: nat)
    ensures Descending(CountDown(n))
  {
  }

  // What the search down from the root finds.
  ghost function Find(t: Shape, id: nat): SignalNode? {
    match t
    case Leaf => null
    case Node(l, p, i, _, r) => if id == i then p else if id > i then Find(l, id) else Find(r, id)
  }

  // In an ordered tree the search finds every id that is there, and only those.
  lemma {:induction false} FindsExactly(t: Shape, id: nat)
    requires Descending(Ids(t))
    ensures Find(t, id) != null <==> id in Ids(t)
    ensures Find(t, id) != null ==> Find(t, id) in Nodes(t)
  {
    if t.Node? {
      assert Before<SignalNode>(Top) + Ids(t) + After<SignalNode>(Top) == Ids(t);
      MiddleId(Top, t);
      IdsOfNode(t);
      assert forall x <- Ids(t.left) :: x in Before<SignalNode>(Top) + Ids(t.left);
      assert forall x <- Ids(t.right) :: x in Ids(t.right) + After<SignalNode>(Top);
      SubtreesOrdered(t);
      FindsExactly(t.left, id);
      FindsExactly(t.right, id);
    }
  }

  lemma SubtreesOrdered(t: Shape)
    requires t.Node? && Descending(Ids(t))
    ensures Descending(Ids(t.left)) && Descending(Ids(t.right))
  {
    var k := |Ids(t.left)|;
    assert forall i :: 0 <= i < k ==> Ids(t.left)[i] == Ids(t)[i];
    assert forall i :: 0 <= i < |Ids(t.right)| ==> Ids(t.right)[i] == Ids(t)[k + 1 + i];
  }

  lemma {:induction false} FoundInside(t: Shape, id: nat)
    requires Find(t, id) != null
    ensures Find(t, id) in Nodes(t)
  {
    if id > t.id { FoundInside(t.left, id); } else if id < t.id { FoundInside(t.right, id); }
  }

  lemma {:induction false} FoundId(t: Shape, p: SignalNode?, up: SignalNode?, id: nat)
    requires Linked(t, p, up) && Find(t, id) != null
    ensures Find(t, id).signal.id == id
  {
    if id > t.id {
      FoundId(t.left, p.left, p, id);
    } else if id < t.id {
      FoundId(t.right, p.right, p, id);
    }
  }

  lemma {:induction false} NodeIds(t: Shape, p: SignalNode?, up: SignalNode?)
    requires Linked(t, p, up)
    ensures forall q <- Nodes(t) :: q.signal.id in Ids(t)
  {
    if t.Node? {
      NodeIds(t.left, p.left, p);
      NodeIds(t.right, p.right, p);
    }
  }

  // Every node of an ordered tree is the one found under its id.
  lemma {:induction false} NodeIsFound(t: Shape, p: SignalNode?, up: SignalNode?, q: SignalNode)
    requires Linked(t, p, up) && Descending(Ids(t)) && q in Nodes(t)
    ensures Find(t, q.signal.id) == q
  {
    assert Before<SignalNode>(Top) + Ids(t) + After<SignalNode>(Top) == Ids(t);
    MiddleId(Top, t);
    SubtreesOrdered(t);
    if q in Nodes(t.left) {
      NodeIds(t.left, p.left, p);
      assert q.signal.id in Before<SignalNode>(Top) + Ids(t.left);
      NodeIsFound(t.left, p.left, p, q);
    } else if q in Nodes(t.right) {
      NodeIds(t.right, p.right, p);
      assert q.signal.id in Ids(t.right) + After<SignalNode>(Top);
      NodeIsFound(t.right, p.right, p, q);
    }
  }

  // A creation on a table that only real runs have shaped.
  lemma NextCreation(t: Shape, node: SignalNode, id: nat)
    requires Spine(t) && Ids(t) == CountDown(id)
    ensures Find(t, id) == null
    ensures Descend(Top, t, id).Free? && Climbable(Descend(Top, t, id).c, Single(node, id))
    ensures var u := Insert(t, node, id); Spine(u) && Descending(Ids(u)) && Ids(u) == CountDown(id + 1)
  {
    assert forall i <- Ids(t) :: i < id;
    FindsExactly(t, id);
    var c := LargestInserted(t, node, id);
    assert [id] + CountDown(id) == CountDown(id + 1);
  }

  // A subtree changes hands.
  method Adopt(sub: SignalNode?, up: SignalNode, ghost t: Shape, ghost was: SignalNode?)
    requires Linked(t, sub, was)
    modifies (if sub == null then {} else {sub})
    ensures Linked(t, sub, up)
    ensures sub != null ==> sub.left == old(sub.left) && sub.right == old(sub.right) && sub.factor == old(sub.factor)
  {
    if sub != null { sub.parent := up; }
  }

  lemma NodesOf(t: Shape)
    requires t.Node?
    ensures Nodes(t) == Nodes(t.left) + {t.p} + Nodes(t.right)
  {
  }

  // The links of one node and of what is below it.
  lemma Opened(t: Shape, p: SignalNode?, up: SignalNode?)
    requires t.Node? && Linked(t, p, up)
    ensures p == t.p && p.signal.id == t.id && p.factor == t.f && p.parent == up
    ensures p !in Nodes(t.left) && p !in Nodes(t.right) && Nodes(t.left) !! Nodes(t.right)
    ensures Linked(t.left, p.left, p) && Linked(t.right, p.right, p)
            && Nodes(t) == Nodes(t.left) + {t.p} + Nodes(t.right)
  {
  }

  lemma Closed(t: Shape, p: SignalNode, up: SignalNode?)
    requires t.Node? && p == t.p && p.signal.id == t.id && p.factor == t.f && p.parent == up
    requires p !in Nodes(t.left) && p !in Nodes(t.right) && Nodes(t.left) !! Nodes(t.right)
    requires Linked(t.left, p.left, p) && Linked(t.right, p.right, p)
    ensures Linked(t, p, up)
  {
  }

  lemma TopIn(t: Shape, p: SignalNode?, up: SignalNode?)
    requires Linked(t, p, up)
    ensures p != null ==> p in Nodes(t)
  {
  }

  // The links and factors of the two nodes that change places.
  method TurnLeft(node: SignalNode, subl: SignalNode, sublr: SignalNode?, parent: SignalNode?)
    requires node != subl
    modifies node, subl
    ensures node.left == sublr && node.right == old(node.right) && node.parent == subl && node.factor == 0
    ensures subl.right == node && subl.left == old(subl.left) && subl.parent == parent && subl.factor == 0
  {
    node.left := sublr;
    subl.right := node;
    node.parent := subl;
    subl.parent := parent;
    node.factor, subl.factor := 0, 0;
  }

  // The links and factors of the two nodes that change places.
  method TurnRight(node: SignalNode, subr: SignalNode, subrl: SignalNode?, parent: SignalNode?)
    requires node != subr
    modifies node, subr
    ensures node.right == subrl && node.left == old(node.left) && node.parent == subr && node.factor == 0
    ensures subr.left == node && subr.right == old(subr.right) && subr.parent == parent && subr.factor == 0
  {
    node.right := subrl;
    subr.left := node;
    node.parent := subr;
    subr.parent := parent;
    node.factor, subr.factor := 0, 0;
  }

  // The pointer part of an LL repair below the node's own parent.
  method LiftLeft(node: SignalNode, ghost t: Shape, ghost up: SignalNode?)
    requires t.Node? && t.left.Node? && Linked(t, node, up)
    modifies Nodes(t)
    ensures Linked(RotateLL(t), t.left.p, up) && node.parent == t.left.p && Nodes(RotateLL(t)) == Nodes(t)
  {
    hide Linked, Nodes;
    ghost var below, inner := t.left, t.left.right;
    ghost var lowered := t.(left := inner, f := 0);
    Opened(t, node, up);
    Opened(below, node.left, node);
    var subl := node.left;
    var sublr := subl.right;
    var parent := node.parent;
    TopIn(inner, sublr, subl);
    NodesAllocated(t);
    Adopt(sublr, node, inner, subl);
    TurnLeft(node, subl, sublr, parent);
    NodesOf(lowered);
    Closed(lowered, node, subl);
    NodesOf(RotateLL(t));
    Closed(RotateLL(t), subl, up);
  }

  method LiftRight(node: SignalNode, ghost t: Shape, ghost up: SignalNode?)
    requires t.Node? && t.right.Node? && Linked(t, node, up)
    modifies Nodes(t)
    ensures Linked(RotateRR(t), t.right.p, up) && node.parent == t.right.p && Nodes(RotateRR(t)) == Nodes(t)
  {
    hide Linked, Nodes;
    ghost var below, inner := t.right, t.right.left;
    ghost var lowered := t.(right := inner, f := 0);
    Opened(t, node, up);
    Opened(below, node.right, node);
    var subr := node.right;
    var subrl := subr.left;
    var parent := node.parent;
    TopIn(inner, subrl, subr);
    NodesAllocated(t);
    Adopt(subrl, node, inner, subr);
    TurnRight(node, subr, subrl, parent);
    NodesOf(lowered);
    Closed(lowered, node, subr);
    NodesOf(RotateRR(t));
    Closed(RotateRR(t), subr, up);
  }

  class SignalTable {
    var root: SignalNode?
    var nextId: nat
    ghost var shape: Shape

    // The parent's link, or the root, is handed over to the subtree's new top.
    method Relink(node: SignalNode, sub: SignalNode, parent: SignalNode?, ghost c: Way, ghost t: Shape)
      requires WayLinked(c, node, root) && parent == Above(c) && node !in WayNodes(c)
      requires Linked(t, sub, parent) && WayNodes(c) !! Nodes(t)
      modifies this`root, (if parent == null then {} else {parent})
      ensures At(root, c, t, sub)
    {
      if parent == null {
        root := sub;
      } else if node == parent.left {
        parent.left := sub;
      } else {
        parent.right := sub;
      }
    }

    method FixLL(node: SignalNode, ghost c: Way, ghost t: Shape)
      requires t.Node? && t.left.Node? && At(root, c, t, node)
      modifies this`root, Nodes(t), (if c.Top? then {} else {Above(c)})
      ensures At(root, c, RotateLL(t), t.left.p) && Nodes(RotateLL(t)) == Nodes(t)
    {
      var parent := node.parent;
      WayAllocated(c);
      LiftLeft(node, t, Above(c));
      Relink(node, node.parent, parent, c, RotateLL(t));
    }

    method FixRR(node: SignalNode, ghost c: Way, ghost t: Shape)
      requires t.Node? && t.right.Node? && At(root, c, t, node)
      modifies this`root, Nodes(t), (if c.Top? then {} else {Above(c)})
      ensures At(root, c, RotateRR(t), t.right.p) && Nodes(RotateRR(t)) == Nodes(t)
    {
      var parent := node.parent;
      WayAllocated(c);
      LiftRight(node, t, Above(c));
      Relink(node, node.parent, parent, c, RotateRR(t));
    }

    // parent->factor, or any other node's, is overwritten.
    method SetFactor(node: SignalNode, f: int, ghost c: Way, ghost t: Shape)
      requires t.Node? && At(root, c, t, node)
      modifies node
      ensures At(root, c, t.(f := f), node)
      ensures node.parent == old(node.parent)
    {
      node.factor := f;
    }

    method FixLR(node: SignalNode, ghost c: Way, ghost t: Shape)
      requires t.Node? && t.left.Node? && t.left.right.Node? && At(root, c, t, node)
      modifies this`root, Nodes(t), (if c.Top? then {} else {Above(c)})
      ensures At(root, c, RotateLR(t), RotateLR(t).p) && Nodes(RotateLR(t)) == Nodes(t)
    {
      LeftOf(root, c, t, node);
      var subl := node.left;
      RightOf(root, DownLeft(c, node, t.id, t.f, t.right), t.left, subl);
      var inner := subl.right.factor;
      FixRR(subl, DownLeft(c, node, t.id, t.f, t.right), t.left);
      ghost var u := t.(left := RotateRR(t.left));
      LeftOf(root, c, u, node);
      FixLL(node, c, u);
      ghost var v := RotateLL(u);
      if inner == 1 {
        LeftOf(root, c, v, v.p);
        SetFactor(subl, -1, DownLeft(c, v.p, v.id, v.f, v.right), v.left);
        LeftOf(root, c, v.(left := v.left.(f := -1)), v.p);
      } else if inner == -1 {
        RightOf(root, c, v, v.p);
        SetFactor(node, 1, DownRight(v.left, v.p, v.id, v.f, c), v.right);
        RightOf(root, c, v.(right := v.right.(f := 1)), v.p);
      }
    }

    method FixRL(node: SignalNode, ghost c: Way, ghost t: Shape)
      requires t.Node? && t.right.Node? && t.right.left.Node? && At(root, c, t, node)
      modifies this`root, Nodes(t), (if c.Top? then {} else {Above(c)})
      ensures At(root, c, RotateRL(t), RotateRL(t).p) && Nodes(RotateRL(t)) == Nodes(t)
    {
      RightOf(root, c, t, node);
      FixLL(node.right, DownRight(t.left, node, t.id, t.f, c), t.right);
      ghost var u := t.(right := RotateLL(t.right));
      RightOf(root, c, u, node);
      FixRR(node, c, u);
    }

    // The four-way choice at a parent whose factor left the range.
    method RepairAt(parent: SignalNode, ghost c: Way, ghost n: Shape)
      requires Repairable(n) && At(root, c, n, parent)
      modifies this`root, Nodes(n), (if c.Top? then {} else {Above(c)})
      ensures At(root, c, Repair(n), Repair(n).p) && Nodes(Repair(n)) == Nodes(n)
    {
      if parent.factor == -2 {
        LeftOf(root, c, n, parent);
        if parent.left.factor == -1 {
          FixLL(parent, c, n);
        } else {
          FixLR(parent, c, n);
        }
      } else if parent.factor == 2 {
        RightOf(root, c, n, parent);
        if parent.right.factor == 1 {
          FixRR(parent, c, n);
        } else {
          FixRL(parent, c, n);
        }
      }
    }

    // One level of the way back: the parent's factor follows the side that grew.
    method Adjust(node: SignalNode, parent: SignalNode, ghost c: Way, ghost t: Shape)
      requires !c.Top? && t.Node? && At(root, c, t, node) && parent == Above(c)
      modifies parent
      ensures At(root, c.up, Adjusted(c, t), parent) && node.parent == parent
    {
      ghost var n := if c.DownLeft? then Node(t, parent, c.id, c.f, c.right) else Node(c.left, parent, c.id, c.f, t);
      if c.DownLeft? { LeftOf(root, c.up, n, parent); } else { RightOf(root, c.up, n, parent); }
      if node == parent.left {
        SetFactor(parent, parent.factor - 1, c.up, n);
      } else {
        SetFactor(parent, parent.factor + 1, c.up, n);
      }
    }

    method Rebalance(leaf: SignalNode, ghost c0: Way, ghost t0: Shape)
      requires t0.Node? && At(root, c0, t0, leaf) && Climbable(c0, t0)
      modifies this`root, WayNodes(c0), Nodes(t0)
      ensures Linked(Climb(c0, t0), root, null) && Nodes(Climb(c0, t0)) == WayNodes(c0) + Nodes(t0)
    {
      hide Linked, WayLinked, Nodes, WayNodes, At, Adjusted, Plug, Repair, Repairable;
      TopIs(root, c0, t0, leaf);
      var node: SignalNode, parent: SignalNode? := leaf, leaf.parent;
      ghost var c, t := c0, t0;
      while parent != null
        invariant t.Node? && At(root, c, t, node) && parent == Above(c)
        invariant Climbable(c, t) && Climb(c, t) == Climb(c0, t0)
        invariant WayNodes(c) + Nodes(t) == WayNodes(c0) + Nodes(t0)
        decreases c
      {
        Adjust(node, parent, c, t);
        ghost var n := Adjusted(c, t);
        AdjustedNode(c, t);
        TopIs(root, c.up, n, parent);
        if parent.factor == 0 {
          Plugged(root, c.up, n, parent);
          return;
        }
        if node.parent.factor == 1 || node.parent.factor == -1 {
          node := parent;
          parent := node.parent;
          c, t := c.up, n;
        } else {
          RepairedNode(n);
          RepairAt(parent, c.up, n);
          Plugged(root, c.up, Repair(n), Repair(n).p);
          return;
        }
      }
      TopIs(root, c, t, node);
    }

    // A new leaf is hung below "parent" on the side the way "c" leaves free.
    method Hang(node: SignalNode, parent: SignalNode, ghost c: Way)
      requires !c.Top? && parent == Above(c) && WayLinked(c, null, root)
      requires node !in WayNodes(c) && node.left == null && node.right == null && node.factor == 0
      requires c.DownLeft? <==> node.signal.id > parent.signal.id
      modifies node, parent
      ensures At(root, c, Single(node, node.signal.id), node)
    {
      node.parent := parent;
      if node.signal.id > parent.signal.id {
        parent.left := node;
      } else {
        parent.right := node;
      }
    }

    // The walk down of __insert_signal: the parent to hang the id under, or "taken".
    method FindPlace(top: SignalNode, id: nat) returns (taken: bool, parent: SignalNode, ghost c: Way)
      requires root == top && Linked(shape, root, null)
      ensures taken <==> Descend(Top, shape, id).Taken?
      ensures taken <==> Find(shape, id) != null
      ensures !taken ==>
                && Descend(Top, shape, id) == Free(c) && !c.Top? && parent == Above(c) && WayLinked(c, null, root)
                && WayNodes(c) == Nodes(shape) && (c.DownLeft? <==> id > parent.signal.id)
    {
      parent, c := top, Top;
      ghost var t := shape;
      while true
        invariant t.Node? && At(root, c, t, parent) && Descend(Top, shape, id) == Descend(c, t, id)
        invariant Find(t, id) == Find(shape, id)
        invariant WayNodes(c) + Nodes(t) == Nodes(shape)
        decreases t
      {
        if id == parent.signal.id {
          return true, parent, c;
        } else if id > parent.signal.id {
          LeftOf(root, c, t, parent);
          c, t := DownLeft(c, parent, t.id, t.f, t.right), t.left;
          if parent.left == null {
            return false, parent, c;
          }
          parent := parent.left;
        } else {
          RightOf(root, c, t, parent);
          c, t := DownRight(t.left, parent, t.id, t.f, c), t.right;
          if parent.right == null {
            return false, parent, c;
          }
          parent := parent.right;
        }
      }
    }

    // insert_signal: an id already there changes nothing.
    method InsertNode(node: SignalNode)
      requires Linked(shape, root, null)
      requires node !in Nodes(shape) && node.left == node.right == node.parent == null && node.factor == 0
      requires Descend(Top, shape, node.signal.id).Free? ==>
                 Climbable(Descend(Top, shape, node.signal.id).c, Single(node, node.signal.id))
      modifies this`root, node, Nodes(shape)
      ensures Linked(Insert(shape, node, node.signal.id), root, null)
      ensures Nodes(Insert(shape, node, node.signal.id)) ==
              Nodes(shape) + if Find(shape, node.signal.id) == null then {node} else {}
    {
      if root == null {
        root := node;
        return;
      }
      NodesAllocated(shape);
      var taken, parent, c := FindPlace(root, node.signal.id);
      if !taken {
        Hang(node, parent, c);
        Rebalance(node, c, Single(node, node.signal.id));
      }
    }

    // get_signal
    method GetSignal(id: nat) returns (signal: Signal?)
      requires Linked(shape, root, null)
      ensures if Find(shape, id) == null then signal == null else signal == Find(shape, id).signal && signal.id == id
    {
      var node := root;
      ghost var t, up := shape, null;
      while node != null
        invariant Linked(t, node, up) && Find(t, id) == Find(shape, id)
        decreases t
      {
        if node.signal.id == id {
          return node.signal;
        } else if id > node.signal.id {
          t, up := t.left, node;
          node := node.left;
        } else {
          t, up := t.right, node;
          node := node.right;
        }
      }
      signal := null;
    }

    // Every id handed out so far is in the tree, and the tree has the shape only real runs produce.
    ghost predicate Valid()
      reads this, Nodes(shape)
    {
      Linked(shape, root, null) && Spine(shape) && Ids(shape) == CountDown(nextId)
    }

    // No record owes a wake-up it has no thread for.
    ghost predicate AllSettled()
      reads this, Nodes(shape), set n <- Nodes(shape) :: n.signal
    {
      forall n <- Nodes(shape) :: Settled(n.signal.Value())
    }

    // The semaphores handed out so far, by id.
    ghost function View(): (v: map<nat, Semaphore>)
      requires Valid()
      reads this, Nodes(shape), set n <- Nodes(shape) :: n.signal
      ensures forall id: nat :: id in v <==> id < nextId
    {
      map id: nat | id < nextId :: SemaphoreOf(shape, id)
    }

    lemma Found(id: nat)
      requires Valid() && id < nextId
      ensures Find(shape, id) != null && Find(shape, id) in Nodes(shape) && Find(shape, id).signal.id == id
      ensures View()[id] == Find(shape, id).signal.Value()
    {
      assert CountDown(nextId)[nextId - 1 - id] == id;
      CreatedOrder(nextId);
      FindsExactly(shape, id);
      FoundId(shape, root, null, id);
    }

    // The view says what each node's record holds, and every node is under an id below the next one.
    lemma ViewOf()
      requires Valid()
      ensures forall q <- Nodes(shape) :: q.signal.id < nextId && View()[q.signal.id] == q.signal.Value()
    {
      CreatedOrder(nextId);
      NodeIds(shape, root, null);
      forall q | q in Nodes(shape) ensures q.signal.id < nextId && View()[q.signal.id] == q.signal.Value() {
        assert q.signal.id in CountDown(nextId);
        NodeIsFound(shape, root, null, q);
      }
    }

    // Whatever agrees with every node's record is the view.
    lemma ViewIs(view: map<nat, Semaphore>)
      requires Valid() && forall id: nat :: id in view <==> id < nextId
      requires forall q <- Nodes(shape) :: q.signal.id in view && q.signal.Value() == view[q.signal.id]
      ensures View() == view
    {
      hide Spine, Ids, Linked, Nodes, CountDown, SemaphoreOf;
      forall id: nat | id < nextId ensures View()[id] == view[id] { Found(id); }
    }

    lemma FoundHere(id: nat)
      requires Valid() && Find(shape, id) != null
      ensures Linked(shape, root, null) && Find(shape, id) in Nodes(shape) && Find(shape, id).signal.id == id < nextId
      ensures View()[id] == Find(shape, id).signal.Value()
      ensures forall q <- Nodes(shape) :: q.signal.id == id ==> q == Find(shape, id)
    {
      CreatedOrder(nextId);
      forall q | q in Nodes(shape) && q.signal.id == id ensures q == Find(shape, id) {
        NodeIsFound(shape, root, null, q);
      }
      FoundInside(shape, id);
      FoundId(shape, root, null, id);
      ViewOf();
    }

    constructor ()
      ensures Valid() && AllSettled() && nextId == 0 && View() == map[] && Nodes(shape) == {}
    {
      root, nextId, shape := null, 0, Leaf;
    }

    // __create_signal
    method CreateSignal(max: int, value: int, soft: bool) returns (id: nat, ghost node: SignalNode)
      requires Valid()
      modifies this, Nodes(shape)
      ensures Valid() && id == old(nextId) && nextId == id + 1
      ensures fresh(node) && fresh(node.signal) && Nodes(shape) == Nodes(old(shape)) + {node}
      ensures Find(shape, id) == node && node.signal.Value() == Fresh(max, value, soft)
      ensures View() == old(View())[id := Fresh(max, value, soft)]
    {
      hide Spine, Descend, Climbable, Climb, Descending, Ids, Linked, Nodes, View, SemaphoreOf, Find, CountDown;
      NodesAllocated(shape);
      ViewOf();
      ghost var view := View();
      id := nextId;
      nextId := nextId + 1;
      var signal := new Signal(id, max, value, soft);
      var fresh_node := new SignalNode(signal);
      node := fresh_node;
      NextCreation(shape, node, id);
      InsertNode(fresh_node);
      shape := Insert(shape, node, id);
      NodeIsFound(shape, root, null, node);
      ViewIs(view[id := node.signal.Value()]);
    }

    // __up_signal on the record: the thread to be made ready, if any.
    method UpSignal(id: nat) returns (woken: Wake)
      requires Valid() && Find(shape, id) != null && !Up(Find(shape, id).signal.Value()).Stuck?
      modifies Find(shape, id).signal
      ensures Valid() && Find(shape, id).signal.Value() == Up(old(Find(shape, id).signal.Value())).s
      ensures id < nextId && View() == old(View())[id := Find(shape, id).signal.Value()]
      ensures var u := Up(old(Find(shape, id).signal.Value()));
              woken == if u.Woke? then Wakes(u.thread) else Nobody
      ensures old(AllSettled()) ==> AllSettled()
    {
      hide Spine, Ids, Linked, Nodes, CountDown, SemaphoreOf, Find, Settled, Semaphores.Up, Semaphores.Down, Valid,
           View;
      NodesAllocated(shape);
      FoundHere(id);
      ViewOf();
      ghost var view := View();
      var signal := GetSignal(id);
      if AllSettled() { UpSettled(signal.Value()); }
      woken := signal.Raise();
      forall q | q in Nodes(shape)
        ensures q.signal.id in view && q.signal.Value() == view[id := signal.Value()][q.signal.id]
      {
        assert q.signal.id == id <==> q.signal == signal;
      }
      ViewIs(view[id := signal.Value()]);
    }

    // __down_signal on the record: whether the caller has to sleep.
    method DownSignal(id: nat, caller: Tid) returns (sleeps: bool)
      requires Valid() && Find(shape, id) != null
      modifies Find(shape, id).signal
      ensures Valid() && Find(shape, id).signal.Value() == Down(old(Find(shape, id).signal.Value()), caller)
      ensures id < nextId && View() == old(View())[id := Find(shape, id).signal.Value()]
      ensures sleeps == Blocks(old(Find(shape, id).signal.Value()))
      ensures old(AllSettled()) ==> AllSettled()
    {
      hide Spine, Ids, Linked, Nodes, CountDown, SemaphoreOf, Find, Settled, Semaphores.Up, Semaphores.Down, Valid,
           View;
      NodesAllocated(shape);
      FoundHere(id);
      ViewOf();
      ghost var view := View();
      var signal := GetSignal(id);
      if AllSettled() { DownSettled(signal.Value(), caller); }
      sleeps := signal.Lower(caller);
      forall q | q in Nodes(shape)
        ensures q.signal.id in view && q.signal.Value() == view[id := signal.Value()][q.signal.id]
      {
        assert q.signal.id == id <==> q.signal == signal;
      }
      ViewIs(view[id := signal.Value()]);
    }
  }

  datatype Wake = Nobody | Wakes(thread: Tid)
}
