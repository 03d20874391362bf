/** Rebalancing after linking and unlinking, in place and along the parent links. */
module RedBlackTree {
  import opened RedBlackSpec
  import opened RedBlackHeap
  import opened RedBlackRotate

  /** A node at a place whose link, and whose child links, are to be given other colours. */
  datatype Coloring = Coloring(
    base: Head, path: Path<Head>, d: Dir, a: Tree<Head>, h: Head, red: bool, b: Tree<Head>,
    redA: bool, redH: bool, redB: bool)
  {
    ghost function Before(): Tree<Head> {
      Join(d, a, h, red, b)
    }

    ghost function After(): Tree<Head> {
      Join(d, Paint(a, redA), h, redH, Paint(b, redB))
    }
  }

  twostate lemma Recolored(c: Coloring)
    requires old(Models(c.base, c.path, c.Before()))
    requires old(Linked(c.a)) && old(Linked(c.b)) && old(Slot(c.h, c.d, c.a)) && old(Slot(c.h, Opp(c.d), c.b))
    requires c.h.Child(c.d) == LinkTo(Paint(c.a, c.redA)) && c.h.Child(Opp(c.d)) == LinkTo(Paint(c.b, c.redB))
    requires c.h.parent == old(c.h.parent)
    requires var top := PlaceHead(c.base, c.path);
             top.Child(PlaceDir(c.path)) == Link(c.h, c.redH)
             && if PlaceDir(c.path) == L then top.right == old(top.right) else top.left == old(top.left)
    requires forall h :: h in PathHeads(c.path) + {c.base} + Heads(c.Before()) && old(allocated(h)) ==>
                           h.parent == old(h.parent)
    requires forall h :: h in PathHeads(c.path) + {c.base} + Heads(c.Before()) && old(allocated(h))
                         && h != PlaceHead(c.base, c.path) && h != c.h ==>
                           h.left == old(h.left) && h.right == old(h.right)
    ensures Models(c.base, c.path, c.After())
  {
    hide Heads, Linked, Distinct, PathHeads, PathLinked, DistinctPath, Join, Paint;
    JoinFacts(c.d, c.a, c.h, c.red, c.b);
    PlaceInPath(c.base, c.path);
    RootInHeads(c.a);
    RootInHeads(c.b);
    LinkedKept(c.a);
    LinkedKept(c.b);
    ColoredTree(c);
    Replanted(Change(c.base, c.path, c.Before(), c.After()));
  }

  lemma ColoredTree(c: Coloring)
    requires Distinct(c.Before()) && Linked(c.a) && Linked(c.b)
    requires c.h.Child(c.d) == LinkTo(Paint(c.a, c.redA)) && c.h.Child(Opp(c.d)) == LinkTo(Paint(c.b, c.redB))
    requires c.a.Node? ==> c.a.head.parent == ParentLink(c.h, c.d)
    requires c.b.Node? ==> c.b.head.parent == ParentLink(c.h, Opp(c.d))
    ensures Linked(c.After()) && Distinct(c.After()) && Heads(c.After()) == Heads(c.Before())
  {
    hide Heads, Linked, Distinct, Join, Paint;
    JoinFacts(c.d, c.a, c.h, c.red, c.b);
    PaintFacts(c.a, c.redA);
    PaintFacts(c.b, c.redB);
    PaintSlot(c.a, c.redA);
    PaintSlot(c.b, c.redB);
    JoinFacts(c.d, Paint(c.a, c.redA), c.h, c.redH, Paint(c.b, c.redB));
  }

  lemma PaintSlot(t: Tree<Head>, red: bool)
    ensures Roots(Paint(t, red)) == Roots(t)
    ensures t.Node? ==> Paint(t, red).Node? && Paint(t, red).head == t.head && Paint(t, red).red == red
    ensures t.Leaf? ==> Paint(t, red).Leaf?
  {
  }

  /** The two innermost steps of a path that has them. */
  lemma PathFacts(base: Head, p: Path<Head>, t: Tree<Head>)
    requires Models(base, p, t) && t.Node?
    ensures t.head.parent == ParentLink(PlaceHead(base, p), PlaceDir(p))
    ensures PlaceHead(base, p).Child(PlaceDir(p)) == LinkTo(t)
    ensures (PlaceHead(base, p).parent.head == null) == p.Top?
    ensures p.Up? ==>
              && Models(base, p.path, Join(p.dir, t, p.head, p.red, p.other))
              && p.head.parent == ParentLink(PlaceHead(base, p.path), PlaceDir(p.path))
              && PlaceHead(base, p.path).Child(PlaceDir(p.path)) == Link(p.head, p.red)
              && p.head.Child(Opp(p.dir)) == LinkTo(p.other)
              && PathHeads(p.path) <= PathHeads(p)
              && Heads(Join(p.dir, t, p.head, p.red, p.other)) <= Heads(t) + PathHeads(p)
  {
    if p.Up? {
      ModelsUp(base, p, t);
      JoinFacts(p.dir, t, p.head, p.red, p.other);
    }
  }

  method RebalanceAfterLink(head: Head, ghost base: Head, ghost p: Path<Head>, ghost t: Tree<Head>, ghost n: nat)
    requires Models(base, p, t) && t.Node? && t.head == head && t.red
    requires RB(t, n) && RBPath(p, n)
    modifies {base} + PathHeads(p) + Heads(t)
    ensures Models(base, Top, FixLink(p, t))
    decreases p
  {
    hide Heads, Linked, Distinct, PathHeads, PathLinked, DistinctPath, Models, RBPath, RB, Join;
    PathFacts(base, p, t);
    var pnt := head.parent.head;
    if pnt.parent.head == null {
      ColorRoot(base, t, head, pnt);
      return;
    }
    var left := head.parent.dir;
    PathFacts(base, p.path, Join(p.dir, t, p.head, p.red, p.other));
    var gpnt, gdir := pnt.parent.head, pnt.parent.dir;
    if !gpnt.Child(gdir).red {
      ModelsPlug(base, p, t);
      return;
    }
    assert p.path.Up? && !p.path.red by { RedBelowBlack(p, n); }
    LinkCase(head, pnt, gpnt, base, p, t, n);
  }

  lemma RedBelowBlack(p: Path<Head>, n: nat)
    requires p.Up? && p.red && RBPath(p, n)
    ensures p.path.Up? && !p.path.red
  {
  }

  lemma PaintSame<H>(t: Tree<H>)
    ensures Paint(t, IsRed(t)) == t
  {
  }

  method ColorRoot(ghost base: Head, ghost t: Tree<Head>, head: Head, root: Head)
    requires Models(base, Top, t) && t.Node? && t.head == head && root == base
    modifies base`left, base`right
    ensures Models(base, Top, Paint(t, false))
  {
    hide Heads, Linked, Distinct, Paint, Join;
    ghost var c := Coloring(base, Top, L, t.left, head, t.red, t.right, IsRed(t.left), false, IsRed(t.right));
    PaintSame(t.left);
    PaintSame(t.right);
    RootParts(t);
    assert c.Before() == t && c.After() == Paint(t, false) by { RootPaint(t); }
    JoinFacts(L, t.left, head, t.red, t.right);
    root.SetColor(L, false);
    Recolored(c);
  }

  lemma RootParts(t: Tree<Head>)
    requires t.Node?
    ensures Join(L, t.left, t.head, t.red, t.right) == t
  {
  }

  lemma RootPaint(t: Tree<Head>)
    requires t.Node?
    ensures Join(L, t.left, t.head, t.red, t.right) == t
    ensures Join(L, t.left, t.head, false, t.right) == Paint(t, false)
  {
  }

  /** Parent and uncle are red: both become black, and the grandparent red. */
  method Recolor(ghost base: Head, ghost p: Path<Head>, ghost t: Tree<Head>, pnt: Head, gpnt: Head)
    requires Models(base, p, t)
    requires p.Up? && p.red && p.path.Up? && !p.path.red && p.head == pnt && p.path.head == gpnt
    requires IsRed(p.path.other)
    modifies {base} + PathHeads(p) + Heads(t)
    ensures var Up(pp, d, _, _, sib) := p;
            Models(base, pp.path, Join(pp.dir, Join(d, t, pnt, false, sib), gpnt, true, Paint(pp.other, false)))
  {
    hide Heads, Linked, Distinct, PathHeads, PathLinked, DistinctPath, Models, Join;
    ghost var Up(pp, d, _, _, sib) := p;
    ghost var low := Join(d, t, pnt, true, sib);
    ghost var c := Coloring(base, pp.path, pp.dir, low, gpnt, false, pp.other, false, true, false);
    ModelsUp(base, p, t);
    ModelsUp(base, pp, low);
    ColoringFacts(c);
    PathSets(p, t);
    assert Paint(low, false) == Join(d, t, pnt, false, sib) by { PaintJoin(d, t, pnt, true, sib); }
    var ggpnt, ggdir := gpnt.parent.head, gpnt.parent.dir;
    ggpnt.SetColor(ggdir, true);
    gpnt.SetColor(L, false);
    gpnt.SetColor(R, false);
    Recolored(c);
  }

  lemma PaintJoin<H>(d: Dir, a: Tree<H>, h: H, red: bool, b: Tree<H>)
    ensures Paint(Join(d, a, h, red, b), !red) == Join(d, a, h, !red, b)
  {
  }

  /** The nodes along the two innermost steps of a path. */
  lemma PathSets(p: Path<Head>, t: Tree<Head>)
    requires p.Up? && p.path.Up?
    ensures var low := Join(p.dir, t, p.head, p.red, p.other);
            var high := Join(p.path.dir, low, p.path.head, p.path.red, p.path.other);
            Heads(high) + PathHeads(p.path.path) == Heads(t) + PathHeads(p)
  {
    hide Heads, Join;
    var low := Join(p.dir, t, p.head, p.red, p.other);
    JoinFacts(p.dir, t, p.head, p.red, p.other);
    JoinFacts(p.path.dir, low, p.path.head, p.path.red, p.path.other);
  }

  lemma ColoringFacts(c: Coloring)
    requires Models(c.base, c.path, c.Before())
    ensures Linked(c.a) && Linked(c.b) && Slot(c.h, c.d, c.a) && Slot(c.h, Opp(c.d), c.b)
    ensures c.h.parent == ParentLink(PlaceHead(c.base, c.path), PlaceDir(c.path))
    ensures PlaceHead(c.base, c.path).Child(PlaceDir(c.path)) == Link(c.h, c.red)
    ensures c.h != PlaceHead(c.base, c.path) && c.h in Heads(c.Before())
    ensures PlaceHead(c.base, c.path) in PathHeads(c.path) + {c.base}
  {
    hide Heads, Linked, Distinct, PathHeads, PathLinked, DistinctPath, Join;
    JoinFacts(c.d, c.a, c.h, c.red, c.b);
    PlaceInPath(c.base, c.path);
  }

  method LinkCase(head: Head, pnt: Head, gpnt: Head, ghost base: Head, ghost p: Path<Head>, ghost t: Tree<Head>,
      ghost n: nat)
    requires Models(base, p, t) && t.Node? && t.head == head && t.red
    requires RB(t, n) && RBPath(p, n)
    requires p.Up? && p.red && p.path.Up? && !p.path.red && p.head == pnt && p.path.head == gpnt
    modifies {base} + PathHeads(p) + Heads(t)
    ensures Models(base, Top, FixLink(p, t))
    decreases p, 0
  {
    hide Heads, Linked, Distinct, PathHeads, PathLinked, DistinctPath, Models, Join, RB, RBPath;
    ghost var Up(pp, d, _, _, sib) := p;
    ghost var Up(gp, gd, _, _, uncle) := pp;
    ghost var low := Join(d, t, pnt, true, sib);
    PathSets(p, t);
    PathFacts(base, p, t);
    PathFacts(base, pp, low);
    ModelsUp(base, pp, low);
    ghost var k := LinkInvariant(p, t, n);
    var left, right := head.parent.dir, Opp(head.parent.dir);
    var gdir := pnt.parent.dir;
    if gpnt.Child(Opp(gdir)).red {
      assert IsRed(uncle) by { RedLink(uncle); }
      Recolor(base, p, t, pnt, gpnt);
      ghost var u := Join(gd, Join(d, t, pnt, false, sib), gpnt, true, Paint(uncle, false));
      RecolorSets(p, t);
      RebalanceAfterLink(gpnt, base, gp, u, k);
    } else if gdir == right {
      assert !IsRed(uncle) by { RedLink(uncle); }
      ghost var c := Corner(base, gp, d, t, sib, uncle, pnt, true, gpnt, false, true, false);
      RotateTwice(c, head, pnt, gpnt, true, false);
      ModelsPlug(base, gp, RotateInner(d, t, pnt, sib, gpnt, uncle));
    } else {
      assert !IsRed(uncle) by { RedLink(uncle); }
      ghost var c := Edge(base, gp, d, t, sib, uncle, pnt, true, gpnt, false, false, true, false);
      RotateOnce(c, pnt, gpnt, left, false, true, false);
      assert c.After() == RotateOuter(d, t, pnt, sib, gpnt, uncle) by { PaintSame(sib); }
      ModelsPlug(base, gp, RotateOuter(d, t, pnt, sib, gpnt, uncle));
    }
  }

  lemma RedLink(t: Tree<Head>)
    ensures LinkTo(t).red == IsRed(t)
  {
  }

  /** The colours around a red node below a red one, and the invariant after recolouring. */
  lemma LinkInvariant(p: Path<Head>, t: Tree<Head>, n: nat) returns (k: nat)
    requires t.Node? && t.red && RB(t, n) && RBPath(p, n)
    requires p.Up? && p.red && p.path.Up? && !p.path.red
    ensures !IsRed(p.other) && !IsRed(t.left) && !IsRed(t.right)
    ensures var Up(pp, d, pnt, _, sib) := p;
            var u := Join(pp.dir, Join(d, t, pnt, false, sib), pp.head, true, Paint(pp.other, false));
            IsRed(pp.other) ==> RB(u, k) && RBPath(pp.path, k)
  {
    k := n + 1;
    if IsRed(p.path.other) {
      PaintBlack(p.path.other, n);
    }
  }

  lemma RecolorSets(p: Path<Head>, t: Tree<Head>)
    requires p.Up? && p.path.Up?
    ensures var Up(pp, d, pnt, _, sib) := p;
            var u := Join(pp.dir, Join(d, t, pnt, false, sib), pp.head, true, Paint(pp.other, false));
            Heads(u) + PathHeads(pp.path) == Heads(t) + PathHeads(p)
  {
    hide Heads, Join;
    var Up(pp, d, pnt, _, sib) := p;
    JoinFacts(d, t, pnt, false, sib);
    PaintFacts(pp.other, false);
    JoinFacts(pp.dir, Join(d, t, pnt, false, sib), pp.head, true, Paint(pp.other, false));
  }
}
