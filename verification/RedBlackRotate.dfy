/**
 * The two ways in which rebalancing relinks nodes: a node rises above its parent, or above its
 * parent and its grandparent.
 */
module RedBlackRotate {
  import opened RedBlackSpec
  import opened RedBlackHeap

  lemma PlaceInPath(base: Head, p: Path<Head>)
    ensures PlaceHead(base, p) in PathHeads(p) + {base}
  {
  }

  lemma RootInHeads(t: Tree<Head>)
    ensures Roots(t) <= Heads(t) && Some(Root(t)) == Roots(t)
  {
  }

  function Some(h: Head?): set<Head> {
    if h == null then {} else {h}
  }

  // A node rises above its parent and its grandparent.

  /**
   * The nodes around a double rotation: `t` hangs on side `d` of `pnt`, and `pnt` on the other
   * side of `gpnt`. `lower` and `upper` are the colours the nodes below and on top get.
   */
  datatype Corner = Corner(
    base: Head, path: Path<Head>, d: Dir,
    t: Tree<Head>, sib: Tree<Head>, uncle: Tree<Head>, pnt: Head, redP: bool, gpnt: Head, redG: bool,
    lower: bool, upper: bool)
  {
    ghost function A(): Tree<Head>
      requires t.Node?
    {
      Side(t, d)
    }

    ghost function B(): Tree<Head>
      requires t.Node?
    {
      Side(t, Opp(d))
    }

    ghost function Before(): Tree<Head> {
      Join(Opp(d), Join(d, t, pnt, redP, sib), gpnt, redG, uncle)
    }

    ghost function After(): Tree<Head>
      requires t.Node?
    {
      Join(d, Join(d, uncle, gpnt, lower, A()), t.head, upper, Join(d, B(), pnt, lower, sib))
    }

    ghost predicate Apart()
      requires t.Node?
    {
      var inner := Heads(A()) + Heads(B()) + Heads(sib) + Heads(uncle);
      && Distinct(A()) && Distinct(B()) && Distinct(sib) && Distinct(uncle)
      && Heads(A()) !! Heads(B()) && Heads(A()) + Heads(B()) !! Heads(sib)
      && Heads(A()) + Heads(B()) + Heads(sib) !! Heads(uncle)
      && t.head != pnt && t.head != gpnt && pnt != gpnt
      && inner !! {t.head, pnt, gpnt}
      && (inner + {t.head, pnt, gpnt}) !! PathHeads(path) + {base}
    }
  }

  method RaiseTwice(head: Head, pnt: Head, gpnt: Head, ggpnt: Head, lower: bool, upper: bool)
    requires head != pnt && head != gpnt && head != ggpnt && pnt != gpnt && pnt != ggpnt && gpnt != ggpnt
    requires head.parent.head == pnt && gpnt.parent.head == ggpnt
    requires Some(head.left.head) !! Some(head.right.head)
    requires Some(head.left.head) + Some(head.right.head) !! {head, pnt, gpnt, ggpnt}
    modifies head, pnt, gpnt, ggpnt`left, ggpnt`right, (Some(head.left.head) + Some(head.right.head))`parent
    ensures var left := old(head.parent.dir); var right := Opp(left);
            && head.Child(left) == Link(gpnt, lower) && head.Child(right) == Link(pnt, lower)
            && gpnt.Child(right) == Link(old(head.Child(left).head), false)
            && gpnt.Child(left) == old(gpnt.Child(left))
            && pnt.Child(left) == Link(old(head.Child(right).head), false)
            && pnt.Child(right) == old(pnt.Child(right))
            && ggpnt.Child(old(gpnt.parent.dir)) == Link(head, upper)
            && ggpnt.Child(Opp(old(gpnt.parent.dir))) == old(ggpnt.Child(Opp(gpnt.parent.dir)))
            && head.parent == old(gpnt.parent) && gpnt.parent == ParentLink(head, left)
                && pnt.parent == ParentLink(head, right)
            && (forall h | h in Some(old(head.Child(left).head)) :: h.parent == ParentLink(gpnt, right))
            && (forall h | h in Some(old(head.Child(right).head)) :: h.parent == ParentLink(pnt, left))
  {
    var left, right := head.parent.dir, Opp(head.parent.dir);
    var ggdir := gpnt.parent.dir;
    ConnectNull(pnt, left, head.Child(right).head, false);
    ConnectNull(gpnt, right, head.Child(left).head, false);
    Connect(head, left, gpnt, lower);
    Connect(head, right, pnt, lower);
    Connect(ggpnt, ggdir, head, upper);
  }

  /** The nodes of the corner are all different. */
  lemma CornerSets(c: Corner)
    requires c.t.Node? && Apart(c.base, c.path, c.Before())
    ensures c.Apart()
    ensures Heads(c.Before()) ==
            Heads(c.A()) + Heads(c.B()) + Heads(c.sib) + Heads(c.uncle) + {c.t.head, c.pnt, c.gpnt}
  {
    hide Heads, Linked, Distinct, PathHeads, PathLinked, DistinctPath, Join, Slot;
    var low := Join(c.d, c.t, c.pnt, c.redP, c.sib);
    JoinSets(Opp(c.d), low, c.gpnt, c.redG, c.uncle);
    assert Distinct(low);
    LowCornerSets(c);
  }

  lemma LowCornerSets(c: Corner)
    requires c.t.Node? && Distinct(Join(c.d, c.t, c.pnt, c.redP, c.sib))
    ensures Heads(Join(c.d, c.t, c.pnt, c.redP, c.sib)) ==
            Heads(c.A()) + Heads(c.B()) + Heads(c.sib) + {c.t.head, c.pnt}
    ensures Distinct(c.A()) && Distinct(c.B()) && Distinct(c.sib)
    ensures Heads(c.A()) !! Heads(c.B()) && Heads(c.A()) + Heads(c.B()) !! Heads(c.sib) && c.t.head != c.pnt
    ensures (Heads(c.A()) + Heads(c.B()) + Heads(c.sib)) !! {c.t.head, c.pnt}
  {
    hide Heads, Linked, Distinct, Join, Slot;
    assert c.t == Join(c.d, c.A(), c.t.head, c.t.red, c.B()) by { JoinSides(c.d, c.t); }
    JoinSets(c.d, c.A(), c.t.head, c.t.red, c.B());
    JoinSets(c.d, c.t, c.pnt, c.redP, c.sib);
  }

  lemma JoinSides(d: Dir, t: Tree<Head>)
    requires t.Node?
    ensures t == Join(d, Side(t, d), t.head, t.red, Side(t, Opp(d)))
  {
  }

  /** What the links say about the corner. */
  lemma CornerFacts(c: Corner)
    requires c.t.Node? && Models(c.base, c.path, c.Before())
    ensures var h, top := c.t.head, PlaceHead(c.base, c.path);
            && h.parent == ParentLink(c.pnt, c.d) && c.gpnt.parent == ParentLink(top, PlaceDir(c.path))
            && h.Child(c.d) == LinkTo(c.A()) && h.Child(Opp(c.d)) == LinkTo(c.B())
            && c.pnt.parent == ParentLink(c.gpnt, Opp(c.d))
            && Slot(c.pnt, Opp(c.d), c.sib) && Slot(c.gpnt, c.d, c.uncle)
            && Linked(c.A()) && Linked(c.B()) && Linked(c.sib) && Linked(c.uncle)
    ensures c.Apart()
    ensures Heads(c.Before()) ==
            Heads(c.A()) + Heads(c.B()) + Heads(c.sib) + Heads(c.uncle) + {c.t.head, c.pnt, c.gpnt}
  {
    hide Heads, Linked, Distinct, PathHeads, PathLinked, DistinctPath, Join;
    CornerSets(c);
    assert c.t == Join(c.d, c.A(), c.t.head, c.t.red, c.B());
    JoinFacts(c.d, c.A(), c.t.head, c.t.red, c.B());
    JoinFacts(c.d, c.t, c.pnt, c.redP, c.sib);
    JoinFacts(Opp(c.d), Join(c.d, c.t, c.pnt, c.redP, c.sib), c.gpnt, c.redG, c.uncle);
    PlaceInPath(c.base, c.path);
  }

  lemma CornerAfter(c: Corner)
    requires c.t.Node? && c.Apart()
    ensures Distinct(c.After())
    ensures Heads(c.After()) ==
            Heads(c.A()) + Heads(c.B()) + Heads(c.sib) + Heads(c.uncle) + {c.t.head, c.pnt, c.gpnt}
    ensures Linked(c.After()) <==>
              && Slot(c.t.head, c.d, Join(c.d, c.uncle, c.gpnt, c.lower, c.A()))
              && Slot(c.t.head, Opp(c.d), Join(c.d, c.B(), c.pnt, c.lower, c.sib))
              && Slot(c.gpnt, c.d, c.uncle) && Slot(c.gpnt, Opp(c.d), c.A())
              && Slot(c.pnt, c.d, c.B()) && Slot(c.pnt, Opp(c.d), c.sib)
              && Linked(c.A()) && Linked(c.B()) && Linked(c.sib) && Linked(c.uncle)
  {
    hide Heads, Linked, Distinct, PathHeads, PathLinked, DistinctPath, Join;
    JoinFacts(c.d, c.uncle, c.gpnt, c.lower, c.A());
    JoinFacts(c.d, c.B(), c.pnt, c.lower, c.sib);
    JoinFacts(c.d, Join(c.d, c.uncle, c.gpnt, c.lower, c.A()), c.t.head, c.upper,
              Join(c.d, c.B(), c.pnt, c.lower, c.sib));
  }

  /** The subtrees around the corner stay as they are, but for the parents of their roots. */
  twostate lemma CornerKept(c: Corner)
    requires c.t.Node? && c.Apart()
    requires old(Linked(c.A())) && old(Linked(c.B())) && old(Linked(c.sib)) && old(Linked(c.uncle))
    requires forall h :: h in Heads(c.A()) + Heads(c.B()) + Heads(c.sib) + Heads(c.uncle) && old(allocated(h)) ==>
                           h.left == old(h.left) && h.right == old(h.right)
                           && (h !in Roots(c.A()) + Roots(c.B()) ==> h.parent == old(h.parent))
    ensures Linked(c.A()) && Linked(c.B()) && Linked(c.sib) && Linked(c.uncle)
  {
    hide Heads, Linked, Distinct, PathHeads;
    RootInHeads(c.A());
    RootInHeads(c.B());
    LinkedKept(c.A());
    LinkedKept(c.B());
    LinkedKept(c.sib);
    LinkedKept(c.uncle);
  }

  method RotateTwice(ghost c: Corner, head: Head, pnt: Head, gpnt: Head, lower: bool, upper: bool)
    requires c.t.Node? && c.t.head == head && c.pnt == pnt && c.gpnt == gpnt && c.lower == lower && c.upper == upper
    requires Models(c.base, c.path, c.Before())
    requires !IsRed(c.A()) && !IsRed(c.B())
    modifies {c.base} + PathHeads(c.path) + Heads(c.Before())
    ensures Models(c.base, c.path, c.After())
  {
    hide Heads, Linked, Distinct, PathHeads, PathLinked, DistinctPath, Join, Models, PlaceHead, PlaceDir;
    CornerFacts(c);
    PlaceInPath(c.base, c.path);
    RootInHeads(c.A());
    RootInHeads(c.B());
    RaiseTwice(head, pnt, gpnt, gpnt.parent.head, lower, upper);
    assert Distinct(c.After()) && Heads(c.After()) == Heads(c.Before()) && Linked(c.After()) by {
      CornerAfter(c);
      CornerKept(c);
    }
    Replanted(Change(c.base, c.path, c.Before(), c.After()));
  }

  // A node rises above its parent.

  /**
   * The nodes around a single rotation: `low` hangs on side `d` of `high`. The colours given
   * are those that the two nodes and the inner subtree get.
   */
  datatype Edge = Edge(
    base: Head, path: Path<Head>, d: Dir,
    outer: Tree<Head>, inner: Tree<Head>, other: Tree<Head>, low: Head, redL: bool, high: Head, redH: bool,
    newInner: bool, newHigh: bool, newLow: bool)
  {
    ghost function Before(): Tree<Head> {
      Join(d, Join(d, outer, low, redL, inner), high, redH, other)
    }

    ghost function After(): Tree<Head> {
      Join(d, outer, low, newLow, Join(d, Paint(inner, newInner), high, newHigh, other))
    }

    ghost predicate Apart() {
      var all := Heads(outer) + Heads(inner) + Heads(other);
      && Distinct(outer) && Distinct(inner) && Distinct(other)
      && Heads(outer) !! Heads(inner) && Heads(outer) + Heads(inner) !! Heads(other)
      && low != high && all !! {low, high}
      && (all + {low, high}) !! PathHeads(path) + {base}
    }
  }

  method RaiseOnce(low: Head, high: Head, top: Head, d: Dir, newInner: bool, newHigh: bool, newLow: bool)
    requires low != high && low != top && high != top
    requires high.parent.head == top
    requires Some(low.Child(Opp(d)).head) !! {low, high, top}
    modifies low, high, top`left, top`right, Some(low.Child(Opp(d)).head)`parent
    ensures && high.Child(d) == Link(old(low.Child(Opp(d)).head), newInner)
            && high.Child(Opp(d)) == old(high.Child(Opp(d)))
            && low.Child(Opp(d)) == Link(high, newHigh) && low.Child(d) == old(low.Child(d))
            && top.Child(old(high.parent.dir)) == Link(low, newLow)
            && top.Child(Opp(old(high.parent.dir))) == old(top.Child(Opp(high.parent.dir)))
            && high.parent == ParentLink(low, Opp(d)) && low.parent == old(high.parent)
            && (forall h | h in Some(old(low.Child(Opp(d)).head)) :: h.parent == ParentLink(high, d))
  {
    var dir := high.parent.dir;
    ConnectNull(high, d, low.Child(Opp(d)).head, newInner);
    Connect(low, Opp(d), high, newHigh);
    Connect(top, dir, low, newLow);
  }

  lemma EdgeFacts(c: Edge)
    requires Models(c.base, c.path, c.Before())
    ensures && c.low.parent == ParentLink(c.high, c.d)
            && c.high.parent == ParentLink(PlaceHead(c.base, c.path), PlaceDir(c.path))
            && Slot(c.low, c.d, c.outer) && Slot(c.low, Opp(c.d), c.inner) && Slot(c.high, Opp(c.d), c.other)
            && Linked(c.outer) && Linked(c.inner) && Linked(c.other)
    ensures c.Apart()
    ensures Heads(c.Before()) == Heads(c.outer) + Heads(c.inner) + Heads(c.other) + {c.low, c.high}
  {
    hide Heads, Linked, Distinct, PathHeads, PathLinked, DistinctPath, Join;
    JoinFacts(c.d, c.outer, c.low, c.redL, c.inner);
    JoinFacts(c.d, Join(c.d, c.outer, c.low, c.redL, c.inner), c.high, c.redH, c.other);
  }

  lemma PaintFacts(t: Tree<Head>, red: bool)
    ensures Heads(Paint(t, red)) == Heads(t) && (Distinct(Paint(t, red)) <==> Distinct(t))
    ensures (Linked(Paint(t, red)) <==> Linked(t)) && Root(Paint(t, red)) == Root(t)
  {
  }

  lemma EdgeAfter(c: Edge)
    requires c.Apart()
    ensures Distinct(c.After())
    ensures Heads(c.After()) == Heads(c.outer) + Heads(c.inner) + Heads(c.other) + {c.low, c.high}
    ensures Linked(c.After()) <==>
              && Slot(c.low, c.d, c.outer)
              && Slot(c.low, Opp(c.d), Join(c.d, Paint(c.inner, c.newInner), c.high, c.newHigh, c.other))
              && Slot(c.high, c.d, Paint(c.inner, c.newInner)) && Slot(c.high, Opp(c.d), c.other)
              && Linked(c.outer) && Linked(c.inner) && Linked(c.other)
  {
    hide Heads, Linked, Distinct, PathHeads, PathLinked, DistinctPath, Join, Paint;
    var inner := Paint(c.inner, c.newInner);
    PaintFacts(c.inner, c.newInner);
    JoinFacts(c.d, inner, c.high, c.newHigh, c.other);
    JoinFacts(c.d, c.outer, c.low, c.newLow, Join(c.d, inner, c.high, c.newHigh, c.other));
  }

  /** The subtrees around the edge stay as they are, but for the parent of the inner one's root. */
  twostate lemma EdgeKept(c: Edge)
    requires c.Apart()
    requires old(Linked(c.outer)) && old(Linked(c.inner)) && old(Linked(c.other))
    requires forall h :: h in Heads(c.outer) + Heads(c.inner) + Heads(c.other) && old(allocated(h)) ==>
                           h.left == old(h.left) && h.right == old(h.right)
                           && (h !in Roots(c.inner) ==> h.parent == old(h.parent))
    ensures Linked(c.outer) && Linked(c.inner) && Linked(c.other)
  {
    hide Heads, Linked, Distinct, PathHeads;
    RootInHeads(c.inner);
    LinkedKept(c.outer);
    LinkedKept(c.inner);
    LinkedKept(c.other);
  }

  method RotateOnce(ghost c: Edge, low: Head, high: Head, d: Dir, newInner: bool, newHigh: bool, newLow: bool)
    requires c.low == low && c.high == high && c.d == d
    requires c.newInner == newInner && c.newHigh == newHigh && c.newLow == newLow
    requires Models(c.base, c.path, c.Before())
    requires c.inner.Leaf? ==> !newInner
    modifies {c.base} + PathHeads(c.path) + Heads(c.Before())
    ensures Models(c.base, c.path, c.After())
  {
    hide Heads, Linked, Distinct, PathHeads, PathLinked, DistinctPath, Join, Models;
    EdgeFacts(c);
    PlaceInPath(c.base, c.path);
    RootInHeads(c.outer);
    RootInHeads(c.inner);
    RootInHeads(c.other);
    RaiseOnce(low, high, high.parent.head, d, newInner, newHigh, newLow);
    EdgeKept(c);
    EdgeAfter(c);
    Replanted(Change(c.base, c.path, c.Before(), c.After()));
  }
}
