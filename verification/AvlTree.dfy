// The shape of the semaphore tree of kernel/task/signal.c as a value: what one insertion does to it,
// written the way the source does it (walk down, hang a leaf, walk back up along the parent links),
// and what that does to the search order, the heights and the cached balance factors.
module AvlTree {
  import opened Powers

  // "f" is the cached balance factor; it is a stored number and may be wrong.
  // Larger ids hang to the left.
  datatype Tree<P> = Leaf | Node(left: Tree<P>, p: P, id: nat, f: int, right: Tree<P>)

  // The way from a subtree back up to the root.
  datatype Ctx<P> =
    | Top
    | DownLeft(up: Ctx<P>, p: P, id: nat, f: int, right: Tree<P>)
    | DownRight(left: Tree<P>, p: P, id: nat, f: int, up: Ctx<P>)

  function Plug<P>(c: Ctx<P>, t: Tree<P>): Tree<P> {
    match c
    case Top => t
    case DownLeft(up, p, id, f, r) => Plug(up, Node(t, p, id, f, r))
    case DownRight(l, p, id, f, up) => Plug(up, Node(l, p, id, f, t))
  }

  // ---------- the four repairs ----------

  function RotateLL<P>(t: Tree<P>): Tree<P>
    requires t.Node? && t.left.Node?
  {
    var s := t.left;
    Node(s.left, s.p, s.id, 0, Node(s.right, t.p, t.id, 0, t.right))
  }

  function RotateRR<P>(t: Tree<P>): Tree<P>
    requires t.Node? && t.right.Node?
  {
    var s := t.right;
    Node(Node(t.left, t.p, t.id, 0, s.left), s.p, s.id, 0, s.right)
  }

  // Two rotations, then the factors of the two outer nodes are corrected from the inner one's old factor.
  function RotateLR<P>(t: Tree<P>): Tree<P>
    requires t.Node? && t.left.Node? && t.left.right.Node?
  {
    var inner := t.left.right.f;
    var u := RotateLL(t.(left := RotateRR(t.left)));
    if inner == 1 then u.(left := u.left.(f := -1))
    else if inner == -1 then u.(right := u.right.(f := 1))
    else u
  }

  // Two rotations and nothing else.
  function RotateRL<P>(t: Tree<P>): Tree<P>
    requires t.Node? && t.right.Node? && t.right.left.Node?
  {
    RotateRR(t.(right := RotateLL(t.right)))
  }

  // Whether the node above the new subtree "t" has the shape the repair dereferences.
  predicate Repairable<P>(n: Tree<P>) {
    && n.Node?
    && (n.f == -2 ==> n.left.Node? && (n.left.f != -1 ==> n.left.right.Node?))
    && (n.f == 2 ==> n.right.Node? && (n.right.f != 1 ==> n.right.left.Node?))
  }

  function Repair<P>(n: Tree<P>): Tree<P>
    requires Repairable(n)
  {
    if n.f == -2 then
      if n.left.f == -1 then RotateLL(n) else RotateLR(n)
    else if n.f == 2 then
      if n.right.f == 1 then RotateRR(n) else RotateRL(n)
    else n
  }

  // ---------- insertion ----------

  // Where a new id is hung: None when it is already there.
  datatype Spot<P> = Taken | Free(c: Ctx<P>)

  function Descend<P>(c: Ctx<P>, t: Tree<P>, id: nat): Spot<P>
    decreases t
  {
    match t
    case Leaf => Free(c)
    case Node(l, p, i, f, r) =>
      if id == i then Taken
      else if id > i then Descend(DownLeft(c, p, i, f, r), l, id)
      else Descend(DownRight(l, p, i, f, c), r, id)
  }

  // One level of the way back: the parent with its factor adjusted.
  function Adjusted<P>(c: Ctx<P>, t: Tree<P>): (n: Tree<P>)
    requires !c.Top?
    ensures n.Node?
  {
    match c
    case DownLeft(_, p, id, f, r) => Node(t, p, id, f - 1, r)
    case DownRight(l, p, id, f, _) => Node(l, p, id, f + 1, t)
  }

  // Every repair on the way back up finds the nodes it dereferences.
  predicate Climbable<P>(c: Ctx<P>, t: Tree<P>) {
    c.Top? ||
    var n := Adjusted(c, t);
    if n.f == 0 then true
    else if n.f == 1 || n.f == -1 then Climbable(c.up, n)
    else Repairable(n)
  }

  function Climb<P>(c: Ctx<P>, t: Tree<P>): Tree<P>
    requires Climbable(c, t)
  {
    if c.Top? then t
    else
      var n := Adjusted(c, t);
      if n.f == 0 then Plug(c.up, n)
      else if n.f == 1 || n.f == -1 then Climb(c.up, n)
      else Plug(c.up, Repair(n))
  }

  function Single<P>(p: P, id: nat): Tree<P> { Node(Leaf, p, id, 0, Leaf) }

  // ---------- search order ----------

  function Ids<P>(t: Tree<P>): seq<nat> {
    match t
    case Leaf => []
    case Node(l, _, id, _, r) => Ids(l) + [id] + Ids(r)
  }

  predicate Descending(s: seq<nat>) {
    forall i, j :: 0 <= i < j < |s| ==> s[i] > s[j]
  }

  function Before<P>(c: Ctx<P>): seq<nat> {
    match c
    case Top => []
    case DownLeft(up, _, _, _, _) => Before(up)
    case DownRight(l, _, id, _, up) => Before(up) + Ids(l) + [id]
  }

  function After<P>(c: Ctx<P>): seq<nat> {
    match c
    case Top => []
    case DownLeft(up, _, id, _, r) => [id] + Ids(r) + After(up)
    case DownRight(_, _, _, _, up) => After(up)
  }

  lemma {:induction false} PlugIds<P>(c: Ctx<P>, t: Tree<P>)
    ensures Ids(Plug(c, t)) == Before(c) + Ids(t) + After(c)
  {
    match c
    case Top =>
    case DownLeft(up, p, id, f, r) => PlugIds(up, Node(t, p, id, f, r));
    case DownRight(l, p, id, f, up) => PlugIds(up, Node(l, p, id, f, t));
  }

  lemma {:induction false} RotationLeftIds<P>(t: Tree<P>)
    requires t.Node? && t.left.Node?
    ensures Ids(RotateLL(t)) == Ids(t)
  {
    var s := t.left;
    assert Ids(RotateLL(t)) == Ids(s.left) + [s.id] + (Ids(s.right) + [t.id] + Ids(t.right));
    assert Ids(t) == (Ids(s.left) + [s.id] + Ids(s.right)) + [t.id] + Ids(t.right);
  }

  lemma {:induction false} RotationRightIds<P>(t: Tree<P>)
    requires t.Node? && t.right.Node?
    ensures Ids(RotateRR(t)) == Ids(t)
  {
    var s := t.right;
    assert Ids(RotateRR(t)) == (Ids(t.left) + [t.id] + Ids(s.left)) + [s.id] + Ids(s.right);
    assert Ids(t) == Ids(t.left) + [t.id] + (Ids(s.left) + [s.id] + Ids(s.right));
  }

  lemma {:induction false} RepairIds<P>(n: Tree<P>)
    requires Repairable(n)
    ensures Ids(Repair(n)) == Ids(n)
  {
    if n.f == -2 && n.left.f == -1 {
      RotationLeftIds(n);
    } else if n.f == -2 {
      RotationRightIds(n.left);
      RotationLeftIds(n.(left := RotateRR(n.left)));
    } else if n.f == 2 && n.right.f == 1 {
      RotationRightIds(n);
    } else if n.f == 2 {
      RotationLeftIds(n.right);
      RotationRightIds(n.(right := RotateLL(n.right)));
    }
  }

  lemma AdjustedIds<P>(c: Ctx<P>, t: Tree<P>)
    requires !c.Top?
    ensures Before(c.up) + Ids(Adjusted(c, t)) + After(c.up) == Before(c) + Ids(t) + After(c)
  {
    var n := Adjusted(c, t);
    assert Ids(n) == Ids(n.left) + [c.id] + Ids(n.right);
  }

  // Climbing back never reorders anything.
  lemma {:induction false} ClimbIds<P>(c: Ctx<P>, t: Tree<P>)
    requires Climbable(c, t)
    ensures Ids(Climb(c, t)) == Before(c) + Ids(t) + After(c)
    decreases c
  {
    hide Adjusted, Repair, Repairable, Ids, Before, After, Plug;
    if !c.Top? {
      var n := Adjusted(c, t);
      AdjustedIds(c, t);
      if n.f == 0 {
        PlugIds(c.up, n);
      } else if n.f == 1 || n.f == -1 {
        ClimbIds(c.up, n);
      } else {
        PlugIds(c.up, Repair(n));
        RepairIds(n);
      }
    } else {
      EmptyWay(c, t);
    }
  }

  lemma EmptyWay<P>(c: Ctx<P>, t: Tree<P>)
    requires c.Top?
    ensures Before(c) + Ids(t) + After(c) == Ids(t)
  {
  }

  lemma Around(a: seq<nat>, i: nat, b: seq<nat>)
    requires Descending(a + [i] + b)
    ensures (forall x <- a :: x > i) && (forall x <- b :: x < i)
  {
    var s := a + [i] + b;
    forall x <- a ensures x > i { var k :| 0 <= k < |a| && a[k] == x; assert s[k] > s[|a|]; }
    forall x <- b ensures x < i { var k :| 0 <= k < |b| && b[k] == x; assert s[|a|] > s[|a| + 1 + k]; }
  }

  lemma Joined(a: seq<nat>, i: nat, b: seq<nat>)
    requires Descending(a + b) && (forall x <- a :: x > i) && (forall x <- b :: x < i)
    ensures Descending(a + [i] + b)
  {
    var s, u := a + b, a + [i] + b;
    forall j, k | 0 <= j < k < |u| ensures u[j] > u[k] {
      if j == |a| {
        assert u[k] == b[k - 1 - |a|] && u[k] in b;
      } else if k == |a| {
        assert u[j] == a[j] && u[j] in a;
      } else {
        assert u[j] == s[if j < |a| then j else j - 1] && u[k] == s[if k < |a| then k else k - 1];
      }
    }
  }

  // The walk down either meets the id, or stops between the larger and the smaller ids.
  lemma {:induction false} DescendSplits<P>(c: Ctx<P>, t: Tree<P>, id: nat)
    requires Descending(Before(c) + Ids(t) + After(c))
    requires (forall i <- Before(c) :: i > id) && (forall i <- After(c) :: i < id)
    ensures Descend(c, t, id).Taken? <==> id in Ids(t)
    ensures Descend(c, t, id).Free? ==>
              var d := Descend(c, t, id).c;
              && Before(d) + After(d) == Before(c) + Ids(t) + After(c)
              && (forall i <- Before(d) :: i > id) && (forall i <- After(d) :: i < id)
    decreases t
  {
    hide Before, After, Ids, Descending;
    match t
    case Leaf => NothingBetween(c);
    case Node(l, p, i, f, r) =>
      IdsOfNode(t);
      if id > i {
        WayLeft(c, t, id);
        DescendSplits(DownLeft(c, p, i, f, r), l, id);
      } else if id < i {
        WayRight(c, t, id);
        DescendSplits(DownRight(l, p, i, f, c), r, id);
      }
  }

  lemma NothingBetween<P>(c: Ctx<P>)
    ensures Before(c) + Ids<P>(Leaf) + After(c) == Before(c) + After(c) && Ids<P>(Leaf) == []
  {
  }

  // A step to the left leaves the node's own id and those to its right behind, and they are all smaller.
  lemma WayLeft<P>(c: Ctx<P>, t: Tree<P>, id: nat)
    requires t.Node? && id > t.id && Descending(Before(c) + Ids(t) + After(c)) && forall i <- Before(c) :: i > id
    ensures var d := DownLeft(c, t.p, t.id, t.f, t.right);
            && Before(d) + Ids(t.left) + After(d) == Before(c) + Ids(t) + After(c)
            && (forall i <- Before(d) :: i > id) && (forall i <- After(d) :: i < id)
    ensures id in Ids(t) <==> id in Ids(t.left)
  {
    hide Ids, Descending;
    StepLeftIds(c, t);
    MiddleId(c, t);
    IdsOfNode(t);
    assert forall x <- Ids(t.right) :: x in Ids(t.right) + After(c);
  }

  lemma WayRight<P>(c: Ctx<P>, t: Tree<P>, id: nat)
    requires t.Node? && id < t.id && Descending(Before(c) + Ids(t) + After(c)) && forall i <- After(c) :: i < id
    ensures var d := DownRight(t.left, t.p, t.id, t.f, c);
            && Before(d) + Ids(t.right) + After(d) == Before(c) + Ids(t) + After(c)
            && (forall i <- Before(d) :: i > id) && (forall i <- After(d) :: i < id)
    ensures id in Ids(t) <==> id in Ids(t.right)
  {
    hide Ids, Descending;
    StepRightIds(c, t);
    MiddleId(c, t);
    IdsOfNode(t);
    assert forall x <- Ids(t.left) :: x in Before(c) + Ids(t.left);
  }

  // One step of the walk keeps the sequence ...
  lemma StepLeftIds<P>(c: Ctx<P>, t: Tree<P>)
    requires t.Node?
    ensures var d := DownLeft(c, t.p, t.id, t.f, t.right);
            && Before(d) + Ids(t.left) + After(d) == Before(c) + Ids(t) + After(c)
            && After(d) == [t.id] + (Ids(t.right) + After(c))
  {
    var d := DownLeft(c, t.p, t.id, t.f, t.right);
    assert After(d) == [t.id] + (Ids(t.right) + After(c));
  }

  lemma StepRightIds<P>(c: Ctx<P>, t: Tree<P>)
    requires t.Node?
    ensures var d := DownRight(t.left, t.p, t.id, t.f, c);
            && Before(d) + Ids(t.right) + After(d) == Before(c) + Ids(t) + After(c)
            && Before(d) == (Before(c) + Ids(t.left)) + [t.id]
  {
  }

  // ... and separates the ids by the node's own.
  lemma MiddleId<P>(c: Ctx<P>, t: Tree<P>)
    requires t.Node? && Descending(Before(c) + Ids(t) + After(c))
    ensures (forall i <- Before(c) + Ids(t.left) :: i > t.id) && (forall i <- Ids(t.right) + After(c) :: i < t.id)
  {
    hide Before, After, Descending;
    var a, b := Before(c) + Ids(t.left), Ids(t.right) + After(c);
    assert Before(c) + Ids(t) + After(c) == a + [t.id] + b;
    Around(a, t.id, b);
  }

  lemma IdsOfNode<P>(t: Tree<P>)
    requires t.Node?
    ensures Ids(t) == Ids(t.left) + [t.id] + Ids(t.right)
    ensures forall i :: i in Ids(t) <==> i in Ids(t.left) || i == t.id || i in Ids(t.right)
  {
  }

  lemma {:induction false} DescendStays<P>(c: Ctx<P>, t: Tree<P>, id: nat)
    ensures Descend(c, t, id).Free? ==> Plug(Descend(c, t, id).c, Leaf) == Plug(c, t)
    decreases t
  {
    if t.Node? && id > t.id {
      DescendStays(DownLeft(c, t.p, t.id, t.f, t.right), t.left, id);
    } else if t.Node? && id < t.id {
      DescendStays(DownRight(t.left, t.p, t.id, t.f, c), t.right, id);
    }
  }

  // ---------- heights and factors ----------

  function Max(a: nat, b: nat): nat { if a > b then a else b }

  function Height<P>(t: Tree<P>): nat {
    match t
    case Leaf => 0
    case Node(l, _, _, _, r) => 1 + Max(Height(l), Height(r))
  }

  // No node's subtrees differ in height by more than one.
  predicate Balanced<P>(t: Tree<P>) {
    match t
    case Leaf => true
    case Node(l, _, _, _, r) => -1 <= Height(r) - Height(l) <= 1 && Balanced(l) && Balanced(r)
  }

  // Every cached factor is the true height difference.
  predicate Exact<P>(t: Tree<P>) {
    match t
    case Leaf => true
    case Node(l, _, _, f, r) => f == Height(r) - Height(l) && Exact(l) && Exact(r)
  }

  // The way up is balanced and exact for a subtree of height "h" in the hole.
  predicate CtxExact<P>(c: Ctx<P>, h: nat) {
    match c
    case Top => true
    case DownLeft(up, _, _, f, r) =>
      f == Height(r) - h && -1 <= f <= 1 && Balanced(r) && Exact(r) && CtxExact(up, 1 + Max(h, Height(r)))
    case DownRight(l, _, _, f, up) =>
      f == h - Height(l) && -1 <= f <= 1 && Balanced(l) && Exact(l) && CtxExact(up, 1 + Max(Height(l), h))
  }

  // The shape of a subtree that has just grown by one.
  predicate Grown<P>(t: Tree<P>) {
    t.Node? && Balanced(t) && Exact(t) && (t.f != 0 || (t.left.Leaf? && t.right.Leaf?))
  }

  // The branch whose factors are not corrected: right-left with an inner node that leans.
  predicate LeaningRL<P>(n: Tree<P>) {
    n.Node? && n.f == 2 && n.right.Node? && n.right.f != 1 && n.right.left.Node? && n.right.left.f != 0
  }

  // Whether the way back up ends in that branch.
  predicate EndsInLeaningRL<P>(c: Ctx<P>, t: Tree<P>) {
    !c.Top? &&
    var n := Adjusted(c, t);
    if n.f == 1 || n.f == -1 then EndsInLeaningRL(c.up, n) else LeaningRL(n)
  }

  lemma {:induction false} PlugExact<P>(c: Ctx<P>, t: Tree<P>)
    requires CtxExact(c, Height(t)) && Balanced(t)
    ensures Balanced(Plug(c, t)) && (Exact(Plug(c, t)) <==> Exact(t))
  {
    match c
    case Top =>
    case DownLeft(up, p, id, f, r) => PlugExact(up, Node(t, p, id, f, r));
    case DownRight(l, p, id, f, up) => PlugExact(up, Node(l, p, id, f, t));
  }

  // The converse: a balanced, exact tree is so along every way down.
  lemma {:induction false} PlugWasExact<P>(c: Ctx<P>, t: Tree<P>)
    requires Balanced(Plug(c, t)) && Exact(Plug(c, t))
    ensures Balanced(t) && Exact(t) && CtxExact(c, Height(t))
  {
    match c
    case Top =>
    case DownLeft(up, p, id, f, r) => PlugWasExact(up, Node(t, p, id, f, r));
    case DownRight(l, p, id, f, up) => PlugWasExact(up, Node(l, p, id, f, t));
  }

  // What the definitions say of one node.
  lemma Parts<P>(t: Tree<P>)
    ensures match t
            case Leaf => Height(t) == 0 && Balanced(t) && Exact(t)
            case Node(l, _, _, f, r) =>
              && Height(t) == 1 + Max(Height(l), Height(r))
              && (Balanced(t) <==> -1 <= Height(r) - Height(l) <= 1 && Balanced(l) && Balanced(r))
              && (Exact(t) <==> f == Height(r) - Height(l) && Exact(l) && Exact(r))
  {
  }

  lemma RepairLeft<P>(n: Tree<P>)
    requires n.Node? && n.f == -2 && Height(n.right) - Height(n.left) == -2
    requires Grown(n.left) && Balanced(n.right) && Exact(n.right)
    ensures Repairable(n) && Height(Repair(n)) == Height(n) - 1
    ensures Balanced(Repair(n)) && Exact(Repair(n))
  {
    hide Height, Balanced, Exact;
    var s := n.left;
    Parts(n);
    Parts(s);
    Parts(s.left);
    Parts(s.right);
    if s.f == -1 {
      var u := RotateLL(n);
      Parts(u);
      Parts(u.right);
    } else {
      RepairLR(n);
    }
  }

  lemma RepairLR<P>(n: Tree<P>)
    requires n.Node? && n.f == -2 && Height(n.right) - Height(n.left) == -2
    requires Grown(n.left) && Balanced(n.right) && Exact(n.right) && n.left.f != -1
    ensures Repairable(n) && Height(RotateLR(n)) == Height(n) - 1
    ensures Balanced(RotateLR(n)) && Exact(RotateLR(n))
  {
    hide Height, Balanced, Exact, RotateLR;
    var s := n.left;
    Parts(n);
    Parts(s);
    Parts(s.left);
    Parts(s.right);
    assert Height(s.right) == Height(n.right) + 1 && Height(s.left) == Height(n.right);
    ShapeLR(n);
    var u := RotateLR(n);
    Parts(u);
    Parts(u.left);
    Parts(u.right);
  }

  lemma ShapeLR<P>(n: Tree<P>)
    requires n.Node? && n.left.Node? && n.left.right.Node?
    ensures var (s, y) := (n.left, n.left.right);
            && RotateLR(n).left == Node(s.left, s.p, s.id, if y.f == 1 then -1 else 0, y.left)
            && RotateLR(n).right == Node(y.right, n.p, n.id, if y.f == -1 then 1 else 0, n.right)
            && RotateLR(n) == Node(RotateLR(n).left, y.p, y.id, 0, RotateLR(n).right)
  {
  }

  lemma RepairRight<P>(n: Tree<P>)
    requires n.Node? && n.f == 2 && Height(n.right) - Height(n.left) == 2
    requires Grown(n.right) && Balanced(n.left) && Exact(n.left)
    ensures Repairable(n) && Height(Repair(n)) == Height(n) - 1
    ensures Balanced(Repair(n)) && (Exact(Repair(n)) <==> !LeaningRL(n))
  {
    hide Height, Balanced, Exact;
    var s := n.right;
    Parts(n);
    Parts(s);
    Parts(s.left);
    Parts(s.right);
    if s.f == 1 {
      var u := RotateRR(n);
      Parts(u);
      Parts(u.left);
    } else {
      RepairRL(n);
    }
  }

  lemma RepairRL<P>(n: Tree<P>)
    requires n.Node? && n.f == 2 && Height(n.right) - Height(n.left) == 2
    requires Grown(n.right) && Balanced(n.left) && Exact(n.left) && n.right.f != 1
    ensures Repairable(n) && Height(RotateRL(n)) == Height(n) - 1
    ensures Balanced(RotateRL(n)) && (Exact(RotateRL(n)) <==> n.right.left.f == 0)
  {
    hide Height, Balanced, Exact, RotateRL;
    var s := n.right;
    Parts(n);
    Parts(s);
    Parts(s.left);
    Parts(s.right);
    assert Height(s.left) == Height(n.left) + 1 && Height(s.right) == Height(n.left);
    ShapeRL(n);
    var u := RotateRL(n);
    Parts(u);
    Parts(u.left);
    Parts(u.right);
  }

  lemma ShapeRL<P>(n: Tree<P>)
    requires n.Node? && n.right.Node? && n.right.left.Node?
    ensures var (s, y) := (n.right, n.right.left);
            RotateRL(n) == Node(Node(n.left, n.p, n.id, 0, y.left), y.p, y.id, 0, Node(y.right, s.p, s.id, 0, s.right))
  {
  }

  // What adjusting one factor on the way up establishes, with "k" the old height at that level.
  lemma AdjustedShape<P>(c: Ctx<P>, t: Tree<P>, h: nat) returns (k: nat)
    requires !c.Top? && Grown(t) && Height(t) == h + 1 && CtxExact(c, h)
    ensures var n := Adjusted(c, t);
            && CtxExact(c.up, k) && Height(n) == (if n.f == 0 then k else k + 1)
            && -2 <= n.f <= 2 && n.f == Height(n.right) - Height(n.left)
            && Balanced(n.left) && Exact(n.left) && Balanced(n.right) && Exact(n.right)
            && (n.f == -2 ==> Grown(n.left)) && (n.f == 2 ==> Grown(n.right))
  {
    k := 1 + Max(h, if c.DownLeft? then Height(c.right) else Height(c.left));
  }

  // One repair: the old height is restored, and the factors are exact except after a leaning right-left.
  lemma RepairBalances<P>(n: Tree<P>)
    requires n.Node? && (n.f == -2 || n.f == 2) && n.f == Height(n.right) - Height(n.left)
    requires Balanced(n.left) && Exact(n.left) && Balanced(n.right) && Exact(n.right)
    requires (n.f == -2 ==> Grown(n.left)) && (n.f == 2 ==> Grown(n.right))
    ensures Repairable(n) && Height(Repair(n)) == Height(n) - 1
    ensures Balanced(Repair(n)) && (Exact(Repair(n)) <==> !LeaningRL(n))
  {
    if n.f == -2 { RepairLeft(n); } else { RepairRight(n); }
  }

  // Main result on balance: the tree stays height-balanced whatever happens, and its cached factors
  // stay exact precisely when the way back up does not end in the uncorrected right-left branch.
  lemma {:induction false} ClimbBalances<P>(c: Ctx<P>, t: Tree<P>, h: nat)
    requires Grown(t) && Height(t) == h + 1 && CtxExact(c, h)
    ensures Climbable(c, t) && Balanced(Climb(c, t))
    ensures Exact(Climb(c, t)) <==> !EndsInLeaningRL(c, t)
    decreases c
  {
    if !c.Top? {
      var k := AdjustedShape(c, t, h);
      ClimbOneLevel(c, t, Adjusted(c, t), k);
    }
  }

  lemma {:induction false} ClimbOneLevel<P>(c: Ctx<P>, t: Tree<P>, n: Tree<P>, k: nat)
    requires !c.Top? && n == Adjusted(c, t) && CtxExact(c.up, k) && Height(n) == (if n.f == 0 then k else k + 1)
    requires -2 <= n.f <= 2 && n.f == Height(n.right) - Height(n.left)
    requires Balanced(n.left) && Exact(n.left) && Balanced(n.right) && Exact(n.right)
    requires (n.f == -2 ==> Grown(n.left)) && (n.f == 2 ==> Grown(n.right))
    ensures Climbable(c, t) && Balanced(Climb(c, t))
    ensures Exact(Climb(c, t)) <==> !EndsInLeaningRL(c, t)
    decreases c, 0
  {
    hide Height, Balanced, Exact, CtxExact, Plug, Repair, Repairable;
    Parts(n);
    if n.f == 1 || n.f == -1 {
      ClimbBalances(c.up, n, k);
    } else if n.f == 0 {
      PlugExact(c.up, n);
    } else {
      RepairBalances(n);
      PlugExact(c.up, Repair(n));
    }
  }

  // ---------- one insertion as a whole ----------

  function Insert<P>(t: Tree<P>, p: P, id: nat): (r: Tree<P>)
    requires match Descend(Top, t, id) case Taken => true case Free(c) => Climbable(c, Single(p, id))
  {
    match Descend(Top, t, id)
    case Taken => t
    case Free(c) => Climb(c, Single(p, id))
  }

  predicate Avl<P>(t: Tree<P>) { Balanced(t) && Exact(t) && Descending(Ids(t)) }

  lemma WholeIds<P>(t: Tree<P>)
    ensures Before<P>(Top) + Ids(t) + After<P>(Top) == Ids(t) && Plug(Top, t) == t
  {
  }

  lemma FirstLeaf<P>(p: P, id: nat)
    ensures Height<P>(Leaf) == 0 && Ids<P>(Leaf) == [] && Grown(Single(p, id)) && Height(Single(p, id)) == 1
    ensures Ids(Single(p, id)) == [id]
  {
    Parts<P>(Leaf);
    Parts(Single(p, id));
  }

  // Inserting into any well-formed tree: a duplicate changes nothing; otherwise the id appears between
  // the larger and the smaller ids, the tree is still balanced, and it is again well-formed exactly
  // when the insertion does not end in the uncorrected right-left branch.
  lemma InsertKeepsAvl<P>(t: Tree<P>, p: P, id: nat)
    requires Avl(t)
    ensures var spot := Descend(Top, t, id);
            && (spot.Taken? <==> id in Ids(t))
            && (spot.Free? ==>
                && Climbable(spot.c, Single(p, id))
                && var u := Insert(t, p, id);
                && Ids(t) == Before(spot.c) + After(spot.c)
                && Ids(u) == Before(spot.c) + [id] + After(spot.c)
                && Descending(Ids(u)) && Balanced(u)
                && (Avl(u) <==> !EndsInLeaningRL(spot.c, Single(p, id))))
  {
    hide Height, Balanced, Exact, CtxExact, Descend, Climbable, Climb, EndsInLeaningRL, Before, After, Grown, Ids,
         Descending;
    WholeIds(t);
    FirstLeaf(p, id);
    DescendSplits(Top, t, id);
    DescendStays(Top, t, id);
    match Descend(Top, t, id)
    case Taken =>
    case Free(c) =>
      PlugWasExact(c, Leaf);
      ClimbBalances(c, Single(p, id), 0);
      ClimbIds(c, Single(p, id));
      Joined(Before(c), id, After(c));
  }

  // The uncorrected branch is reachable: inserting k + 6 into this tree, for any k, ends in it.
  function LeaningTree(k: nat): Tree<()> {
    Node(Single((), k + 9), (), k + 8, 1, Node(Single((), k + 5), (), k + 3, 0, Single((), k + 1)))
  }

  function LeaningWay(k: nat): Ctx<()> {
    DownLeft(DownLeft(DownRight(Single((), k + 9), (), k + 8, 1, Top), (), k + 3, 0, Single((), k + 1)), (), k + 5, 0,
      Leaf)
  }

  lemma SingleIsAvl(id: nat)
    ensures var t := Single((), id); Height(t) == 1 && Balanced(t) && Exact(t) && Ids(t) == [id]
  {
    assert Height<()>(Leaf) == 0;
  }

  lemma LeaningTreeIsAvl(k: nat)
    ensures Avl(LeaningTree(k))
  {
    SingleIsAvl(k + 9);
    SingleIsAvl(k + 5);
    SingleIsAvl(k + 1);
    var t := LeaningTree(k);
    var r := t.right;
    assert Ids(r) == [k + 5, k + 3, k + 1];
    assert Ids(t) == [k + 9, k + 8, k + 5, k + 3, k + 1];
    assert Height(r) == 2 && Exact(r) && Balanced(r);
  }

  lemma LeaningWayEnds(k: nat)
    ensures Descend(Top, LeaningTree(k), k + 6) == Free(LeaningWay(k))
    ensures EndsInLeaningRL(LeaningWay(k), Single((), k + 6))
  {
    var c, t, s := LeaningWay(k), LeaningTree(k), Single((), k + 6);
    assert Descend(c, Leaf, k + 6) == Free(c);
    assert Descend(c.up, t.right.left, k + 6) == Free(c);
    assert Descend(c.up.up, t.right, k + 6) == Free(c);
    var x := Adjusted(c, s);
    var y := Adjusted(c.up, x);
    assert LeaningRL(Adjusted(c.up.up, y));
    assert EndsInLeaningRL(c.up.up, y);
    assert EndsInLeaningRL(c.up, x);
  }

  lemma LeaningRLBreaksFactors(k: nat)
    ensures Avl(LeaningTree(k)) && Descend(Top, LeaningTree(k), k + 6) == Free(LeaningWay(k))
    ensures Climbable(LeaningWay(k), Single((), k + 6)) && !Exact(Climb(LeaningWay(k), Single((), k + 6)))
  {
    LeaningTreeIsAvl(k);
    LeaningWayEnds(k);
    InsertKeepsAvl(LeaningTree(k), (), k + 6);
  }

  // ---------- real runs: every new id is larger than all the others ----------

  datatype Fix = NoFix | FixLL | FixLR | FixRR | FixRL

  // Which repair the way back up ends in.
  function Fired<P>(c: Ctx<P>, t: Tree<P>): Fix {
    if c.Top? then NoFix
    else
      var n := Adjusted(c, t);
      if n.f == 0 then NoFix
      else if n.f == 1 || n.f == -1 then Fired(c.up, n)
      else if n.f == -2 && n.left.Node? then (if n.left.f == -1 then FixLL else FixLR)
      else if n.f == 2 && n.right.Node? then (if n.right.f == 1 then FixRR else FixRL)
      else NoFix
  }

  predicate Perfect<P>(t: Tree<P>) {
    t.Leaf? || (Height(t.left) == Height(t.right) && t.f == 0 && Perfect(t.left) && Perfect(t.right))
  }

  // The right subtree of every node on the left spine is perfect, and no spine node leans right.
  predicate Spine<P>(t: Tree<P>) {
    t.Leaf? ||
    (t.f == Height(t.right) - Height(t.left) && (t.f == 0 || t.f == -1) && Perfect(t.right) && Spine(t.left))
  }

  predicate CtxSpine<P>(c: Ctx<P>, h: nat) {
    c.Top? ||
    (c.DownLeft? && c.f == Height(c.right) - h && (c.f == 0 || c.f == -1) && Perfect(c.right)
     && CtxSpine(c.up, 1 + Max(h, Height(c.right))))
  }

  lemma {:induction false} PerfectIsExact<P>(t: Tree<P>)
    requires Perfect(t)
    ensures Exact(t) && Balanced(t)
  {
    if t.Node? {
      PerfectIsExact(t.left);
      PerfectIsExact(t.right);
    }
  }

  lemma {:induction false} SpineIsExact<P>(t: Tree<P>)
    requires Spine(t)
    ensures Exact(t) && Balanced(t)
  {
    if t.Node? {
      SpineIsExact(t.left);
      PerfectIsExact(t.right);
    }
  }

  lemma {:induction false} PlugSpine<P>(c: Ctx<P>, t: Tree<P>)
    requires CtxSpine(c, Height(t)) && Spine(t)
    ensures Spine(Plug(c, t))
  {
    if !c.Top? {
      PlugSpine(c.up, Node(t, c.p, c.id, c.f, c.right));
    }
  }

  lemma {:induction false} DescendSpine<P>(c: Ctx<P>, t: Tree<P>, id: nat)
    requires CtxSpine(c, Height(t)) && Spine(t) && forall i <- Ids(t) :: i < id
    ensures Descend(c, t, id).Free? && CtxSpine(Descend(c, t, id).c, 0)
    decreases t
  {
    if t.Node? {
      assert forall i <- Ids(t.left) :: i in Ids(t);
      assert Ids(t)[|Ids(t.left)|] == t.id && t.id in Ids(t);
      DescendSpine(DownLeft(c, t.p, t.id, t.f, t.right), t.left, id);
    }
  }

  lemma {:induction false} NothingBefore<P>(c: Ctx<P>, h: nat)
    requires CtxSpine(c, h)
    ensures Before(c) == []
  {
    if !c.Top? {
      NothingBefore(c.up, 1 + Max(h, Height(c.right)));
    }
  }

  lemma {:induction false} ClimbSpine<P>(c: Ctx<P>, t: Tree<P>, h: nat)
    requires Spine(t) && t.Node? && (t.f == -1 || t.left.Leaf?) && Height(t) == h + 1 && CtxSpine(c, h)
    ensures Climbable(c, t) && Spine(Climb(c, t)) && (Fired(c, t) == NoFix || Fired(c, t) == FixLL)
    decreases c
  {
    if c.DownLeft? {
      var n := Adjusted(c, t);
      if n.f == -1 {
        ClimbSpine(c.up, n, h + 1);
      } else {
        assert n.f == -2 && t.f == -1;
        PlugSpine(c.up, RotateLL(n));
      }
    }
  }

  lemma {:induction false} PerfectSize<P>(t: Tree<P>)
    requires Perfect(t)
    ensures |Ids(t)| == Pow2(Height(t)) - 1
  {
    if t.Node? {
      PerfectSize(t.left);
      PerfectSize(t.right);
    }
  }

  lemma {:induction false} SpineSize<P>(t: Tree<P>)
    requires Spine(t) && t.Node?
    ensures Pow2(Height(t) - 1) <= |Ids(t)|
  {
    PerfectSize(t.right);
    if t.left.Node? {
      SpineSize(t.left);
    }
  }

  lemma {:induction false} SizeBound<P>(t: Tree<P>)
    ensures |Ids(t)| <= Pow2(Height(t)) - 1
  {
    if t.Node? {
      SizeBound(t.left);
      SizeBound(t.right);
      Pow2Monotone(Height(t.left), Height(t) - 1);
      Pow2Monotone(Height(t.right), Height(t) - 1);
    }
  }

  // Lookups are as short as they can be: no binary tree with as many nodes is lower.
  lemma SpineIsLowest<P, Q>(t: Tree<P>, u: Tree<Q>)
    requires Spine(t) && |Ids(t)| == |Ids(u)|
    ensures Height(t) <= Height(u)
  {
    hide Spine, Ids, Pow2;
    if t.Node? {
      SpineSize(t);
      SizeBound(u);
      if Height(u) <= Height(t) - 1 {
        Pow2Monotone(Height(u), Height(t) - 1);
      }
    }
  }

  lemma LargestGoesLeft<P>(t: Tree<P>, p: P, id: nat) returns (c: Ctx<P>)
    requires Spine(t) && forall i <- Ids(t) :: i < id
    ensures Descend(Top, t, id) == Free(c) && Before(c) == [] && Climbable(c, Single(p, id))
    ensures Spine(Climb(c, Single(p, id))) && (Fired(c, Single(p, id)) == NoFix || Fired(c, Single(p, id)) == FixLL)
  {
    DescendSpine(Top, t, id);
    c := Descend(Top, t, id).c;
    NothingBefore(c, 0);
    ClimbSpine(c, Single(p, id), 0);
  }

  // One creation: the new id is the largest, the spine shape survives and only LL can have fired.
  lemma LargestInserted<P>(t: Tree<P>, p: P, id: nat) returns (c: Ctx<P>)
    requires Spine(t) && Descending(Ids(t)) && forall i <- Ids(t) :: i < id
    ensures Descend(Top, t, id) == Free(c) && Climbable(c, Single(p, id))
    ensures Fired(c, Single(p, id)) == NoFix || Fired(c, Single(p, id)) == FixLL
    ensures Spine(Climb(c, Single(p, id))) && Avl(Climb(c, Single(p, id)))
    ensures Ids(Climb(c, Single(p, id))) == [id] + Ids(t)
  {
    hide Spine, Descend, Climb, Climbable, Fired, Ids, Before, After, EndsInLeaningRL, Balanced, Exact, Descending;
    SpineIsExact(t);
    c := LargestGoesLeft(t, p, id);
    SpineIsExact(Climb(c, Single(p, id)));
    InsertKeepsAvl(t, p, id);
    assert [] + [id] + After(c) == [id] + ([] + After(c));
  }

  function CreateNext(t: Tree<()>, id: nat): Tree<()> {
    match Descend(Top, t, id)
    case Taken => t
    case Free(c) => if Climbable(c, Single((), id)) then Climb(c, Single((), id)) else t
  }

  // The tree after "n" creations: the ids handed out are 0, 1, 2, ...
  function Created(n: nat): Tree<()> {
    if n == 0 then Leaf else CreateNext(Created(n - 1), n - 1)
  }

  function CountDown(n: nat): seq<nat> { seq(n, i requires 0 <= i < n => n - 1 - i) }

  lemma CreateNextShape(t: Tree<()>, id: nat)
    requires Spine(t) && Descending(Ids(t)) && forall i <- Ids(t) :: i < id
    ensures var u := CreateNext(t, id); Spine(u) && Avl(u) && Ids(u) == [id] + Ids(t)
  {
    var c := LargestInserted(t, (), id);
  }

  lemma CreatedStep(n: nat, t: Tree<()>, u: Tree<()>)
    requires n > 0 && Spine(t) && Ids(t) == CountDown(n - 1) && u == CreateNext(t, n - 1)
    ensures Spine(u) && Ids(u) == CountDown(n)
  {
    hide Spine, Avl, Ids, CreateNext;
    assert forall i <- Ids(t) :: i < n - 1;
    CreateNextShape(t, n - 1);
    assert [n - 1] + CountDown(n - 1) == CountDown(n);
  }

  // After any number of creations: every right subtree along the left spine is perfect, and exactly the
  // handed-out ids are present, in order.
  lemma {:induction false} CreatedShape(n: nat)
    ensures Spine(Created(n)) && Ids(Created(n)) == CountDown(n)
  {
    if n > 0 {
      CreatedShape(n - 1);
      CreatedStep(n, Created(n - 1), Created(n));
    }
  }

  // Its cached factors are all exact.
  lemma CreatedIsAvl(n: nat)
    ensures Avl(Created(n))
  {
    CreatedShape(n);
    SpineIsExact(Created(n));
  }

  lemma CreatedHeight(n: nat)
    requires n >= 1
    ensures Height(Created(n)) >= 1 && Pow2(Height(Created(n)) - 1) <= n < Pow2(Height(Created(n)))
  {
    CreatedShape(n);
    SpineSize(Created(n));
    SizeBound(Created(n));
  }

  lemma CreatedIsLowest<Q>(n: nat, u: Tree<Q>)
    requires |Ids(u)| == n
    ensures Height(Created(n)) <= Height(u)
  {
    CreatedShape(n);
    SpineIsLowest(Created(n), u);
  }
}
