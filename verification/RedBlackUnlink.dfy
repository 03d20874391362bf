/** Rebalancing after unlinking, and unlinking of any node. */
module RedBlackUnlink {
  import opened RedBlackSpec
  import opened RedBlackHeap
  import opened RedBlackRotate
  import opened RedBlackTree

  method RebalanceAfterUnlink(pnt: Head, pdir: Dir, ghost base: Head, ghost p: Path<Head>, ghost t: Tree<Head>,
      ghost n: nat)
    requires Models(base, p, t) && pnt == PlaceHead(base, p) && pdir == PlaceDir(p)
    requires RB(t, n) && !IsRed(t) && RBPath(p, n + 1)
    modifies {base} + PathHeads(p) + Heads(t)
    ensures Models(base, Top, FixUnlink(p, t))
    decreases BlackNodes(p), p.Up? && IsRed(p.other), 1
  {
    hide Heads, Linked, Distinct, PathHeads, PathLinked, DistinctPath, Models, Join, RB, RBPath;
    PlaceFacts(base, p, t);
    if pnt.parent.head == null {
      return;
    }
    UnlinkCase(pnt, pdir, base, p, t, n);
  }

  /** What a place's own links say. */
  lemma PlaceFacts(base: Head, p: Path<Head>, t: Tree<Head>)
    requires Models(base, p, t)
    ensures (PlaceHead(base, p).parent.head == null) == p.Top?
    ensures PlaceHead(base, p).Child(PlaceDir(p)) == LinkTo(t)
    ensures p.Up? ==>
              && Models(base, p.path, Join(p.dir, t, p.head, p.red, p.other))
              && p.head.parent == ParentLink(PlaceHead(base, p.path), PlaceDir(p.path))
              && PlaceHead(base, p.path).Child(PlaceDir(p.path)) == Link(p.head, p.red)
              && Slot(p.head, Opp(p.dir), p.other) && Linked(p.other)
              && Heads(Join(p.dir, t, p.head, p.red, p.other)) + PathHeads(p.path) == Heads(t) + PathHeads(p)
  {
    if p.Up? {
      ModelsUp(base, p, t);
      JoinFacts(p.dir, t, p.head, p.red, p.other);
    }
  }

  /** The shape around a place that lacks a black node. */
  lemma UnlinkShape(p: Path<Head>, t: Tree<Head>, n: nat)
    requires p.Up? && RB(t, n) && !IsRed(t) && RBPath(p, n + 1)
    ensures p.other.Node? && !(p.other.red && p.red)
    ensures var near, far := Side(p.other, p.dir), Side(p.other, Opp(p.dir));
            && (p.other.red ==> !IsRed(near) && !IsRed(far) && near.Node?)
            && (p.other.red ==> RBPath(Lower(p.path, p.dir, p.head, p.other), n + 1))
            && (IsRed(near) ==> !IsRed(near.left) && !IsRed(near.right))
            && (!p.other.red && !IsRed(near) && !IsRed(far) && !p.red ==>
                  RB(Join(p.dir, t, p.head, false, Paint(p.other, true)), n + 1) && RBPath(p.path, n + 2))
  {
    var sib := p.other;
    if sib.red {
      var near, far := Side(sib, p.dir), Side(sib, Opp(p.dir));
      assert RB(near, n + 1) && RB(far, n + 1);
      assert RBPath(Up(p.path, p.dir, sib.head, false, far), n + 1);
    } else {
      assert RB(Side(sib, p.dir), n) && RB(Side(sib, Opp(p.dir)), n);
      if !IsRed(Side(sib, p.dir)) && !IsRed(Side(sib, Opp(p.dir))) {
        PaintRed(sib, n + 1);
      }
    }
  }

  lemma JoinOpp<H>(d: Dir, a: Tree<H>, h: H, red: bool, b: Tree<H>)
    ensures Join(d, a, h, red, b) == Join(Opp(d), b, h, red, a)
  {
  }

  /** The links of the sibling. */
  lemma SiblingFacts(p: Path<Head>)
    requires p.Up? && p.other.Node? && Linked(p.other)
    ensures var s := p.other;
            && s.head.Child(p.dir) == LinkTo(Side(s, p.dir))
            && s.head.Child(Opp(p.dir)) == LinkTo(Side(s, Opp(p.dir)))
            && (Side(s, p.dir).Node? ==> Side(s, p.dir).head.parent == ParentLink(s.head, p.dir))
  {
  }

  /** The tree above the place, seen from the sibling's side. */
  lemma FromSibling<H>(p: Path<H>, t: Tree<H>)
    requires p.Up? && p.other.Node?
    ensures var d, r, s := p.dir, Opp(p.dir), p.other;
            && Join(d, t, p.head, p.red, s) == Join(r, s, p.head, p.red, t)
            && s == Join(r, Side(s, r), s.head, s.red, Side(s, d))
            && s == Join(d, Side(s, d), s.head, s.red, Side(s, r))
  {
  }

  method UnlinkCase(pnt: Head, pdir: Dir, ghost base: Head, ghost p: Path<Head>, ghost t: Tree<Head>, ghost n: nat)
    requires Models(base, p, t) && p.Up? && pnt == p.head && pdir == p.dir
    requires RB(t, n) && !IsRed(t) && RBPath(p, n + 1)
    modifies {base} + PathHeads(p) + Heads(t)
    ensures Models(base, Top, FixUnlink(p, t))
    decreases BlackNodes(p), IsRed(p.other), 0
  {
    hide Heads, Linked, Distinct, PathHeads, PathLinked, DistinctPath, Models, Join, RB, RBPath, Paint, FixUnlink,
         BlackNodes;
    UnlinkShape(p, t, n);
    PlaceFacts(base, p, t);
    SiblingFacts(p);
    ghost var near, far := Side(p.other, p.dir), Side(p.other, Opp(p.dir));
    RedLink(near);
    RedLink(far);
    RedLink(p.other);
    var left, right := pdir, Opp(pdir);
    var gpnt, gdir := pnt.parent.head, pnt.parent.dir;
    var sibling := pnt.Child(right).head;
    if pnt.Child(right).red {
      LowerBlacks(p.path, pdir, pnt, p.other);
      BlackNodesUp(p);
      LowerSibling(pnt, sibling, right, base, p, t);
      ghost var q := Lower(p.path, pdir, pnt, p.other);
      assert FixUnlink(p, t) == FixUnlink(q, t) by { FixUnlinkLower(p, t); }
      LowerSets(p, t);
      RebalanceAfterUnlink(pnt, pdir, base, q, t, n);
    } else if sibling.Child(right).red {
      RaiseSibling(pnt, sibling, right, base, p, t);
    } else if sibling.Child(left).red {
      RaiseInner(pnt, sibling, left, base, p, t);
    } else {
      var red := gpnt.Child(gdir).red;
      RedSibling(pnt, gpnt, right, gdir, base, p, t);
      ghost var u := Join(pdir, t, pnt, false, Paint(p.other, true));
      FixUnlinkBlack(p, t);
      if red {
        ModelsPlug(base, p.path, u);
      } else {
        BlackNodesUp(p);
        UnlinkSets(p, t);
        assert !IsRed(u);
        RebalanceAfterUnlink(gpnt, gdir, base, p.path, u, n + 1);
      }
    }
  }

  lemma BlackNodesUp<H>(p: Path<H>)
    requires p.Up?
    ensures BlackNodes(p) == BlackNodes(p.path) + if p.red then 0 else 1
  {
  }

  lemma FixUnlinkLower<H>(p: Path<H>, t: Tree<H>)
    requires p.Up? && p.other.Node? && p.other.red && !p.red
    ensures FixUnlink(p, t) == FixUnlink(Lower(p.path, p.dir, p.head, p.other), t)
  {
  }

  lemma FixUnlinkBlack<H>(p: Path<H>, t: Tree<H>)
    requires p.Up? && p.other.Node? && !p.other.red && !IsRed(Side(p.other, L)) && !IsRed(Side(p.other, R))
    ensures var u := Join(p.dir, t, p.head, false, Paint(p.other, true));
            FixUnlink(p, t) == if p.red then Plug(p.path, u) else FixUnlink(p.path, u)
  {
  }

  lemma LowerSets(p: Path<Head>, t: Tree<Head>)
    requires p.Up? && p.other.Node?
    ensures PathHeads(Lower(p.path, p.dir, p.head, p.other)) == PathHeads(p)
  {
    PaintFacts(Side(p.other, p.dir), false);
  }

  lemma UnlinkSets(p: Path<Head>, t: Tree<Head>)
    requires p.Up?
    ensures var u := Join(p.dir, t, p.head, false, Paint(p.other, true));
            Heads(u) + PathHeads(p.path) == Heads(t) + PathHeads(p)
  {
    hide Heads, Join, Paint;
    PaintFacts(p.other, true);
    JoinFacts(p.dir, t, p.head, false, Paint(p.other, true));
  }

  /** A red sibling becomes the parent of both. */
  method LowerSibling(pnt: Head, sibling: Head, right: Dir, ghost base: Head, ghost p: Path<Head>, ghost t: Tree<Head>)
    requires Models(base, p, t) && p.Up? && pnt == p.head && right == Opp(p.dir)
    requires p.other.Node? && p.other.head == sibling && p.other.red && !IsRed(Side(p.other, p.dir))
    modifies {base} + PathHeads(p) + Heads(t)
    ensures Models(base, Lower(p.path, p.dir, pnt, p.other), t)
  {
    hide Heads, Linked, Distinct, PathHeads, PathLinked, DistinctPath, Models, Join, Paint;
    ghost var near, far := Side(p.other, p.dir), Side(p.other, right);
    PlaceFacts(base, p, t);
    FromSibling(p, t);
    ghost var c := Edge(base, p.path, right, far, near, t, sibling, true, pnt, p.red, false, true, false);
    RotateOnce(c, sibling, pnt, right, false, true, false);
    ghost var q := Lower(p.path, p.dir, pnt, p.other);
    JoinOpp(p.dir, t, pnt, true, Paint(near, false));
    JoinOpp(p.dir, Join(p.dir, t, pnt, true, Paint(near, false)), sibling, false, far);
    ModelsUp(base, q, t);
    ModelsUp(base, q.path, Join(p.dir, t, pnt, true, Paint(near, false)));
  }

  /** The sibling becomes the parent of both, and its outer child black. */
  method RaiseSibling(pnt: Head, sibling: Head, right: Dir, ghost base: Head, ghost p: Path<Head>, ghost t: Tree<Head>)
    requires Models(base, p, t) && p.Up? && pnt == p.head && right == Opp(p.dir)
    requires p.other.Node? && p.other.head == sibling && !p.other.red && IsRed(Side(p.other, right))
    modifies {base} + PathHeads(p) + Heads(t)
    ensures Models(base, Top, FixUnlink(p, t))
  {
    hide Heads, Linked, Distinct, PathHeads, PathLinked, DistinctPath, Models, Join, Paint;
    ghost var near, far := Side(p.other, p.dir), Side(p.other, right);
    PlaceFacts(base, p, t);
    SiblingFacts(p);
    RedLink(near);
    FromSibling(p, t);
    PaintSame(near);
    var innerRed := sibling.Child(Opp(right)).red;
    var red := pnt.parent.head.Child(pnt.parent.dir).red;
    ghost var c := Edge(base, p.path, right, far, near, t, sibling, false, pnt, p.red, innerRed, false, red);
    RotateOnce(c, sibling, pnt, right, innerRed, false, red);
    ghost var low := Join(right, near, pnt, false, t);
    SameNodes(right, far, sibling, false, near, pnt, p.red, t, red, low);
    PaintChild(sibling, right, base, p.path, far, red, low);
    JoinOpp(p.dir, t, pnt, false, near);
    JoinOpp(p.dir, low, sibling, red, Paint(far, false));
    ModelsPlug(base, p.path, Join(right, Paint(far, false), sibling, red, low));
  }

  lemma SameNodes(d: Dir, a: Tree<Head>, h: Head, r1: bool, b: Tree<Head>, g: Head, r2: bool, c: Tree<Head>,
      r3: bool, low: Tree<Head>)
    requires low == Join(d, b, g, false, c)
    ensures Heads(Join(d, a, h, r3, low)) == Heads(Join(d, Join(d, a, h, r1, b), g, r2, c))
  {
  }

  method PaintChild(h: Head, d: Dir, ghost base: Head, ghost p: Path<Head>, ghost a: Tree<Head>, ghost red: bool,
      ghost b: Tree<Head>)
    requires Models(base, p, Join(d, a, h, red, b))
    modifies {base} + PathHeads(p) + Heads(Join(d, a, h, red, b))
    ensures Models(base, p, Join(d, Paint(a, false), h, red, b))
  {
    hide Heads, Linked, Distinct, PathHeads, PathLinked, DistinctPath, Models, Join;
    ghost var c := Coloring(base, p, d, a, h, red, b, false, red, IsRed(b));
    ColoringFacts(c);
    PaintSame(b);
    h.SetColor(d, false);
    Recolored(c);
  }

  /** The inner child of the sibling becomes the parent of both. */
  method RaiseInner(pnt: Head, sibling: Head, left: Dir, ghost base: Head, ghost p: Path<Head>, ghost t: Tree<Head>)
    requires Models(base, p, t) && p.Up? && pnt == p.head && left == p.dir
    requires p.other.Node? && p.other.head == sibling && !p.other.red
    requires IsRed(Side(p.other, left)) && !IsRed(Side(p.other, Opp(left)))
    requires var near := Side(p.other, left); !IsRed(near.left) && !IsRed(near.right)
    modifies {base} + PathHeads(p) + Heads(t)
    ensures Models(base, Top, FixUnlink(p, t))
  {
    hide Heads, Linked, Distinct, PathHeads, PathLinked, DistinctPath, Models, Join, Paint;
    ghost var near, far := Side(p.other, left), Side(p.other, Opp(left));
    PlaceFacts(base, p, t);
    SiblingFacts(p);
    FromSibling(p, t);
    var red := pnt.parent.head.Child(pnt.parent.dir).red;
    var sleft := sibling.Child(left).head;
    ghost var c := Corner(base, p.path, left, near, far, t, sibling, false, pnt, p.red, false, red);
    RotateTwice(c, sleft, sibling, pnt, false, red);
    ModelsPlug(base, p.path, RaiseNear(left, t, pnt, red, p.other));
  }

  /** The sibling becomes red, and the parent black. */
  method RedSibling(pnt: Head, gpnt: Head, right: Dir, gdir: Dir, ghost base: Head, ghost p: Path<Head>,
      ghost t: Tree<Head>)
    requires Models(base, p, t) && p.Up? && pnt == p.head && right == Opp(p.dir)
    requires gpnt == PlaceHead(base, p.path) && gdir == PlaceDir(p.path)
    requires p.other.Node?
    modifies {base} + PathHeads(p) + Heads(t)
    ensures Models(base, p.path, Join(p.dir, t, pnt, false, Paint(p.other, true)))
  {
    hide Heads, Linked, Distinct, PathHeads, PathLinked, DistinctPath, Models, Join;
    PlaceFacts(base, p, t);
    ghost var c := Coloring(base, p.path, p.dir, t, pnt, p.red, p.other, IsRed(t), false, true);
    ColoringFacts(c);
    PaintSame(t);
    pnt.SetColor(right, true);
    if gpnt.Child(gdir).red {
      gpnt.SetColor(gdir, false);
    }
    Recolored(c);
  }
}
