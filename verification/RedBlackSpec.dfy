/**
 * Red-black trees as values: what linking and unlinking a node and the following rebalancing
 * make of a tree. The colour of a node is the colour of the link that leads to it.
 */
module RedBlackSpec {
  import opened Sequences
  import opened Words

  datatype Dir = L | R

  function Opp(d: Dir): Dir {
    if d == L then R else L
  }

  datatype Tree<H> = Leaf | Node(left: Tree<H>, head: H, red: bool, right: Tree<H>)

  /**
   * The way from the base to a place in the tree, from the inside out: the place is on side
   * `dir` of `head`, whose own link is coloured `red`, and `other` hangs on its other side.
   */
  datatype Path<H> = Top | Up(path: Path<H>, dir: Dir, head: H, red: bool, other: Tree<H>)

  function Side<H>(t: Tree<H>, d: Dir): Tree<H>
    requires t.Node?
  {
    if d == L then t.left else t.right
  }

  /** The node with `a` on side `d` and `b` on the other side. */
  function Join<H>(d: Dir, a: Tree<H>, h: H, red: bool, b: Tree<H>): (t: Tree<H>)
    ensures t.Node? && Side(t, d) == a && Side(t, Opp(d)) == b && t.head == h && t.red == red
  {
    if d == L then Node(a, h, red, b) else Node(b, h, red, a)
  }

  predicate IsRed<H>(t: Tree<H>) {
    t.Node? && t.red
  }

  function Paint<H>(t: Tree<H>, red: bool): Tree<H> {
    if t.Node? then t.(red := red) else t
  }

  function Plug<H>(p: Path<H>, t: Tree<H>): Tree<H> {
    match p
    case Top => t
    case Up(pp, d, h, red, other) => Plug(pp, Join(d, t, h, red, other))
  }

  function InOrder<H>(t: Tree<H>): seq<H> {
    match t
    case Leaf => []
    case Node(l, h, _, r) => InOrder(l) + [h] + InOrder(r)
  }

  /** The nodes before and after the place at the end of a path. */
  function Before<H>(p: Path<H>): seq<H> {
    match p
    case Top => []
    case Up(pp, d, h, _, other) => if d == L then Before(pp) else Before(pp) + (InOrder(other) + [h])
  }

  function After<H>(p: Path<H>): seq<H> {
    match p
    case Top => []
    case Up(pp, d, h, _, other) => if d == L then ([h] + InOrder(other)) + After(pp) else After(pp)
  }

  lemma {:induction false} InOrderPlug<H>(p: Path<H>, t: Tree<H>)
    ensures InOrder(Plug(p, t)) == Before(p) + InOrder(t) + After(p)
  {
    match p
    case Top => assert [] + InOrder(t) + [] == InOrder(t);
    case Up(pp, d, h, red, other) =>
      InOrderPlug(pp, Join(d, t, h, red, other));
      AppendRight(Before(pp), InOrder(t), h, InOrder(other), After(pp));
      AppendLeft(Before(pp), InOrder(other), h, InOrder(t), After(pp));
  }

  lemma AppendRight<H>(a: seq<H>, t: seq<H>, h: H, o: seq<H>, b: seq<H>)
    ensures a + (t + [h] + o) + b == a + t + ([h] + o + b)
  {
  }

  lemma AppendLeft<H>(a: seq<H>, o: seq<H>, h: H, t: seq<H>, b: seq<H>)
    ensures a + (o + [h] + t) + b == a + (o + [h]) + t + b
  {
  }

  lemma RegroupRight<H>(a: seq<H>, x: H, b: seq<H>, y: H, c: seq<H>, z: H, d: seq<H>)
    ensures a + [x] + ((b + [y] + c) + [z] + d) == (a + [x] + b) + [y] + (c + [z] + d)
  {
  }

  lemma RegroupLeft<H>(a: seq<H>, x: H, b: seq<H>, y: H, c: seq<H>, z: H, d: seq<H>)
    ensures (a + [x] + (b + [y] + c)) + [z] + d == (a + [x] + b) + [y] + (c + [z] + d)
  {
  }

  /** Trees with the same nodes in order are interchangeable in a path. */
  lemma SameInOrder<H>(p: Path<H>, t: Tree<H>, u: Tree<H>)
    requires InOrder(t) == InOrder(u)
    ensures InOrder(Plug(p, t)) == InOrder(Plug(p, u))
  {
    InOrderPlug(p, t);
    InOrderPlug(p, u);
  }

  // The red-black invariant.

  /** `n` black nodes on every way down, and no red node below a red one. */
  predicate RB<H>(t: Tree<H>, n: nat) {
    match t
    case Leaf => n == 0
    case Node(l, _, red, r) =>
      if red then !IsRed(l) && !IsRed(r) && RB(l, n) && RB(r, n)
      else n > 0 && RB(l, n - 1) && RB(r, n - 1)
  }

  /** A place for a tree with `n` black nodes on every way down. */
  predicate RBPath<H>(p: Path<H>, n: nat) {
    match p
    case Top => true
    case Up(pp, _, _, red, other) =>
      && RB(other, n)
      && (red ==> !IsRed(other) && MayBeRed(pp))
      && RBPath(pp, if red then n else n + 1)
  }

  /** A red tree fits here: the place is not the root's and not below a red node. */
  predicate MayBeRed<H>(p: Path<H>) {
    p.Up? && !p.red
  }

  /** A red-black tree: the root is black and all ways down have equally many black nodes. */
  ghost predicate Valid<H>(t: Tree<H>) {
    !IsRed(t) && exists n: nat :: RB(t, n)
  }

  lemma {:induction false} PlugValid<H>(p: Path<H>, t: Tree<H>, n: nat)
    requires RB(t, n) && RBPath(p, n) && (IsRed(t) ==> MayBeRed(p))
    ensures Valid(Plug(p, t))
  {
    match p
    case Top =>
    case Up(pp, d, h, red, other) =>
      PlugValid(pp, Join(d, t, h, red, other), if red then n else n + 1);
  }

  lemma PaintBlack<H>(t: Tree<H>, n: nat)
    requires RB(t, n) && IsRed(t)
    ensures RB(Paint(t, false), n + 1)
  {
  }

  lemma PaintRed<H>(t: Tree<H>, n: nat)
    requires RB(t, n) && t.Node? && !t.red && !IsRed(t.left) && !IsRed(t.right)
    ensures n > 0 && RB(Paint(t, true), n - 1)
  {
  }

  // Linking.

  /** The tree after a red node `t` was put at the end of `p` and the tree was rebalanced. */
  function FixLink<H>(p: Path<H>, t: Tree<H>): Tree<H>
    requires t.Node?
    decreases p
  {
    match p
    case Top => Paint(t, false)
    case Up(pp, d, pnt, red, sib) =>
      if !red || pp.Top? then Plug(p, t)
      else
        var Up(gp, gd, gpnt, _, uncle) := pp;
        if IsRed(uncle) then
          FixLink(gp, Join(gd, Join(d, t, pnt, false, sib), gpnt, true, Paint(uncle, false)))
        else if gd != d then Plug(gp, RotateInner(d, t, pnt, sib, gpnt, uncle))
        else Plug(gp, RotateOuter(d, t, pnt, sib, gpnt, uncle))
  }

  function RotateInner<H>(d: Dir, t: Tree<H>, pnt: H, sib: Tree<H>, gpnt: H, uncle: Tree<H>): (r: Tree<H>)
    requires t.Node?
    ensures r.Node?
  {
    Join(d, Join(d, uncle, gpnt, true, Side(t, d)), t.head, false, Join(d, Side(t, Opp(d)), pnt, true, sib))
  }

  function RotateOuter<H>(d: Dir, t: Tree<H>, pnt: H, sib: Tree<H>, gpnt: H, uncle: Tree<H>): (r: Tree<H>)
    ensures r.Node?
  {
    Join(d, t, pnt, false, Join(d, sib, gpnt, true, uncle))
  }

  lemma RotateInnerOrder<H>(d: Dir, t: Tree<H>, pnt: H, sib: Tree<H>, gpnt: H, uncle: Tree<H>, redG: bool)
    requires t.Node?
    ensures InOrder(RotateInner(d, t, pnt, sib, gpnt, uncle))
         == InOrder(Join(Opp(d), Join(d, t, pnt, true, sib), gpnt, redG, uncle))
  {
    var a, b, u, s := InOrder(t.left), InOrder(t.right), InOrder(uncle), InOrder(sib);
    var whole := Join(Opp(d), Join(d, t, pnt, true, sib), gpnt, redG, uncle);
    var rotated := RotateInner(d, t, pnt, sib, gpnt, uncle);
    if d == L {
      RegroupRight(u, gpnt, a, t.head, b, pnt, s);
      assert InOrder(whole.right) == (a + [t.head] + b) + [pnt] + s;
      assert InOrder(rotated.left) == u + [gpnt] + a && InOrder(rotated.right) == b + [pnt] + s;
    } else {
      RegroupLeft(s, pnt, a, t.head, b, gpnt, u);
      assert InOrder(whole.left) == s + [pnt] + (a + [t.head] + b);
      assert InOrder(rotated.left) == s + [pnt] + a && InOrder(rotated.right) == b + [gpnt] + u;
    }
  }

  lemma RotateOuterOrder<H>(d: Dir, t: Tree<H>, pnt: H, sib: Tree<H>, gpnt: H, uncle: Tree<H>, redG: bool)
    ensures InOrder(RotateOuter(d, t, pnt, sib, gpnt, uncle))
         == InOrder(Join(d, Join(d, t, pnt, true, sib), gpnt, redG, uncle))
  {
  }

  lemma {:induction false} FixLinkOrder<H>(p: Path<H>, t: Tree<H>)
    requires t.Node?
    ensures InOrder(FixLink(p, t)) == InOrder(Plug(p, t))
    decreases p
  {
    if p.Up? && p.red && p.path.Up? {
      var Up(pp, d, pnt, red, sib) := p;
      var Up(gp, gd, gpnt, redG, uncle) := pp;
      var whole := Join(gd, Join(d, t, pnt, red, sib), gpnt, redG, uncle);
      assert Plug(p, t) == Plug(gp, whole);
      if IsRed(uncle) {
        var u := Join(gd, Join(d, t, pnt, false, sib), gpnt, true, Paint(uncle, false));
        FixLinkOrder(gp, u);
        SameInOrder(gp, u, whole);
      } else if gd != d {
        RotateInnerOrder(d, t, pnt, sib, gpnt, uncle, redG);
        SameInOrder(gp, RotateInner(d, t, pnt, sib, gpnt, uncle), whole);
      } else {
        RotateOuterOrder(d, t, pnt, sib, gpnt, uncle, redG);
        SameInOrder(gp, RotateOuter(d, t, pnt, sib, gpnt, uncle), whole);
      }
    }
  }

  /** Rebalancing after linking repairs the only possible defect, a red node below a red one. */
  lemma {:induction false} FixLinkValid<H>(p: Path<H>, t: Tree<H>, n: nat)
    requires RB(t, n) && IsRed(t) && RBPath(p, n)
    ensures Valid(FixLink(p, t))
    decreases p
  {
    match p
    case Top => PaintBlack(t, n);
    case Up(pp, d, pnt, red, sib) =>
      if !red {
        PlugValid(p, t, n);
      } else {
        var Up(gp, gd, gpnt, _, uncle) := pp;
        if IsRed(uncle) {
          PaintBlack(uncle, n);
          FixLinkValid(gp, Join(gd, Join(d, t, pnt, false, sib), gpnt, true, Paint(uncle, false)), n + 1);
        } else if gd != d {
          PlugValid(gp, RotateInner(d, t, pnt, sib, gpnt, uncle), n + 1);
        } else {
          PlugValid(gp, RotateOuter(d, t, pnt, sib, gpnt, uncle), n + 1);
        }
      }
  }

  // Unlinking.

  function BlackNodes<H>(p: Path<H>): nat {
    match p
    case Top => 0
    case Up(pp, _, _, red, _) => BlackNodes(pp) + if red then 0 else 1
  }

  /**
   * The tree after rebalancing, when the tree `t` at the end of `p` has one black node too
   * few on every way down.
   */
  function FixUnlink<H>(p: Path<H>, t: Tree<H>): Tree<H>
    decreases BlackNodes(p), p.Up? && IsRed(p.other)
  {
    match p
    case Top => t
    case Up(pp, d, pnt, red, sib) =>
      if sib.Leaf? || (sib.red && red) then Plug(p, t)
      else
        var near, far := Side(sib, d), Side(sib, Opp(d));
        if sib.red then
          LowerBlacks(pp, d, pnt, sib);
          FixUnlink(Lower(pp, d, pnt, sib), t)
        else if IsRed(far) then
          Plug(pp, Join(d, Join(d, t, pnt, false, near), sib.head, red, Paint(far, false)))
        else if IsRed(near) then
          Plug(pp, RaiseNear(d, t, pnt, red, sib))
        else if red then
          Plug(pp, Join(d, t, pnt, false, Paint(sib, true)))
        else
          FixUnlink(pp, Join(d, t, pnt, false, Paint(sib, true)))
  }

  /** The place after a red sibling became the parent of `pnt`. */
  function Lower<H>(pp: Path<H>, d: Dir, pnt: H, sib: Tree<H>): Path<H>
    requires sib.Node?
  {
    Up(Up(pp, d, sib.head, false, Side(sib, Opp(d))), d, pnt, true, Paint(Side(sib, d), false))
  }

  lemma LowerBlacks<H>(pp: Path<H>, d: Dir, pnt: H, sib: Tree<H>)
    requires sib.Node?
    ensures var q := Lower(pp, d, pnt, sib);
            BlackNodes(q) == BlackNodes(pp) + 1 && q.Up? && !IsRed(q.other)
  {
    var q := Lower(pp, d, pnt, sib);
    assert BlackNodes(q) == BlackNodes(q.path);
  }

  /** The near child of the sibling becomes the parent of both. */
  function RaiseNear<H>(d: Dir, t: Tree<H>, pnt: H, red: bool, sib: Tree<H>): (r: Tree<H>)
    requires sib.Node? && Side(sib, d).Node?
    ensures r.Node?
  {
    var near, far := Side(sib, d), Side(sib, Opp(d));
    Join(d, Join(d, t, pnt, false, Side(near, d)), near.head, red, Join(d, Side(near, Opp(d)), sib.head, false, far))
  }

  lemma RaiseNearOrder<H>(d: Dir, t: Tree<H>, pnt: H, red: bool, sib: Tree<H>)
    requires sib.Node? && Side(sib, d).Node?
    ensures InOrder(RaiseNear(d, t, pnt, red, sib)) == InOrder(Join(d, t, pnt, red, sib))
  {
    var near, far := Side(sib, d), Side(sib, Opp(d));
    var a, b, f, s := InOrder(near.left), InOrder(near.right), InOrder(far), InOrder(t);
    var raised := RaiseNear(d, t, pnt, red, sib);
    if d == L {
      RegroupRight(s, pnt, a, near.head, b, sib.head, f);
      assert InOrder(sib) == (a + [near.head] + b) + [sib.head] + f;
      assert InOrder(raised.left) == s + [pnt] + a && InOrder(raised.right) == b + [sib.head] + f;
    } else {
      RegroupLeft(f, sib.head, a, near.head, b, pnt, s);
      assert InOrder(sib) == f + [sib.head] + (a + [near.head] + b);
      assert InOrder(raised.left) == f + [sib.head] + a && InOrder(raised.right) == b + [pnt] + s;
    }
  }

  lemma RaiseSiblingOrder<H>(d: Dir, t: Tree<H>, pnt: H, r1: bool, r2: bool, r3: bool, sib: Tree<H>, near: Tree<H>,
      far: Tree<H>)
    requires sib.Node? && InOrder(near) == InOrder(Side(sib, d)) && InOrder(far) == InOrder(Side(sib, Opp(d)))
    ensures InOrder(Join(d, Join(d, t, pnt, r1, near), sib.head, r2, far)) == InOrder(Join(d, t, pnt, r3, sib))
  {
    var u := Join(d, t, pnt, r1, near);
    var s, a, f := InOrder(t), InOrder(near), InOrder(far);
    if d == L {
      assert InOrder(u) == s + [pnt] + a && InOrder(sib) == a + [sib.head] + f;
      Reassoc(s, pnt, a, sib.head, f);
    } else {
      assert InOrder(u) == a + [pnt] + s && InOrder(sib) == f + [sib.head] + a;
      Reassoc(f, sib.head, a, pnt, s);
    }
  }

  lemma Reassoc<H>(a: seq<H>, x: H, b: seq<H>, y: H, c: seq<H>)
    ensures (a + [x] + b) + [y] + c == a + [x] + (b + [y] + c)
  {
  }

  lemma JoinOrder<H>(d: Dir, t: Tree<H>, h: H, r1: bool, r2: bool, a: Tree<H>, b: Tree<H>)
    requires InOrder(a) == InOrder(b)
    ensures InOrder(Join(d, t, h, r1, a)) == InOrder(Join(d, t, h, r2, b))
  {
  }

  lemma {:induction false} FixUnlinkOrder<H>(p: Path<H>, t: Tree<H>)
    ensures InOrder(FixUnlink(p, t)) == InOrder(Plug(p, t))
    decreases BlackNodes(p), p.Up? && IsRed(p.other)
  {
    hide InOrder;
    if p.Up? && p.other.Node? && !(p.other.red && p.red) {
      var Up(pp, d, pnt, red, sib) := p;
      var near, far := Side(sib, d), Side(sib, Opp(d));
      var whole := Join(d, t, pnt, red, sib);
      assert Plug(p, t) == Plug(pp, whole);
      PaintOrder(near, false);
      PaintOrder(far, false);
      PaintOrder(sib, true);
      if sib.red {
        var q := Lower(pp, d, pnt, sib);
        LowerBlacks(pp, d, pnt, sib);
        FixUnlinkOrder(q, t);
        RaiseSiblingOrder(d, t, pnt, true, false, red, sib, Paint(near, false), far);
        SameInOrder(pp, Join(d, Join(d, t, pnt, true, Paint(near, false)), sib.head, false, far), whole);
      } else if IsRed(far) {
        RaiseSiblingOrder(d, t, pnt, false, red, red, sib, near, Paint(far, false));
        SameInOrder(pp, Join(d, Join(d, t, pnt, false, near), sib.head, red, Paint(far, false)), whole);
      } else if IsRed(near) {
        RaiseNearOrder(d, t, pnt, red, sib);
        SameInOrder(pp, RaiseNear(d, t, pnt, red, sib), whole);
      } else {
        var u := Join(d, t, pnt, false, Paint(sib, true));
        JoinOrder(d, t, pnt, false, red, Paint(sib, true), sib);
        SameInOrder(pp, u, whole);
        if !red {
          FixUnlinkOrder(pp, u);
        }
      }
    }
  }

  lemma PaintOrder<H>(t: Tree<H>, red: bool)
    ensures InOrder(Paint(t, red)) == InOrder(t)
  {
  }

  /** Rebalancing after unlinking makes up for the missing black node. */
  lemma {:induction false} FixUnlinkValid<H>(p: Path<H>, t: Tree<H>, n: nat)
    requires RB(t, n) && !IsRed(t) && RBPath(p, n + 1)
    ensures Valid(FixUnlink(p, t))
    decreases BlackNodes(p), p.Up? && IsRed(p.other)
  {
    if p.Up? {
      var Up(pp, d, pnt, red, sib) := p;
      assert sib.Node?;
      var near, far := Side(sib, d), Side(sib, Opp(d));
      if sib.red {
        LowerBlacks(pp, d, pnt, sib);
        assert RB(near, n + 1) && !IsRed(near);
        assert RBPath(Up(pp, d, sib.head, false, far), n + 1);
        FixUnlinkValid(Lower(pp, d, pnt, sib), t, n);
      } else {
        var m := if red then n + 1 else n + 2;
        if IsRed(far) {
          PaintBlack(far, n);
          PlugValid(pp, Join(d, Join(d, t, pnt, false, near), sib.head, red, Paint(far, false)), m);
        } else if IsRed(near) {
          assert RB(near, n) && RB(far, n);
          assert RB(near.left, n) && RB(near.right, n);
          assert RB(Join(d, t, pnt, false, Side(near, d)), n + 1);
          assert RB(Join(d, Side(near, Opp(d)), sib.head, false, far), n + 1);
          PlugValid(pp, RaiseNear(d, t, pnt, red, sib), m);
        } else {
          PaintRed(sib, n + 1);
          var u := Join(d, t, pnt, false, Paint(sib, true));
          if red {
            PlugValid(pp, u, n + 1);
          } else {
            FixUnlinkValid(pp, u, n + 1);
          }
        }
      }
    }
  }

  /** Unlinking a node with at most one child: the child takes its place. */
  function UnlinkOuter<H>(p: Path<H>, t: Tree<H>): Tree<H>
    requires t.Node? && (t.left.Leaf? || t.right.Leaf?)
  {
    var c := OnlyChild(t);
    if !t.red && !IsRed(c) then FixUnlink(p, Paint(c, false)) else Plug(p, Paint(c, false))
  }

  function OnlyChild<H>(t: Tree<H>): Tree<H>
    requires t.Node?
  {
    if t.right.Node? then t.right else t.left
  }

  lemma UnlinkOuterOrder<H>(p: Path<H>, t: Tree<H>)
    requires t.Node? && (t.left.Leaf? || t.right.Leaf?)
    ensures InOrder(UnlinkOuter(p, t)) == Before(p) + (InOrder(t.left) + InOrder(t.right)) + After(p)
  {
    var c := Paint(OnlyChild(t), false);
    PaintOrder(OnlyChild(t), false);
    FixUnlinkOrder(p, c);
    InOrderPlug(p, c);
    assert InOrder(t.left) + InOrder(t.right) == InOrder(c);
  }

  lemma UnlinkOuterValid<H>(p: Path<H>, t: Tree<H>, n: nat)
    requires t.Node? && (t.left.Leaf? || t.right.Leaf?)
    requires RB(t, n) && RBPath(p, n)
    ensures Valid(UnlinkOuter(p, t))
  {
    var c := OnlyChild(t);
    assert RB(c, 0);
    if t.red {
      assert c.Leaf?;
      PlugValid(p, Paint(c, false), 0);
    } else if IsRed(c) {
      PaintBlack(c, 0);
      PlugValid(p, Paint(c, false), 1);
    } else {
      FixUnlinkValid(p, Paint(c, false), 0);
    }
  }

  /** The place of the leftmost node of `t`. */
  function MinPath<H>(p: Path<H>, t: Tree<H>): Path<H>
    requires t.Node?
    decreases t
  {
    if t.left.Leaf? then p else MinPath(Up(p, L, t.head, t.red, t.right), t.left)
  }

  function MinTree<H>(t: Tree<H>): (m: Tree<H>)
    requires t.Node?
    ensures m.Node? && m.left.Leaf?
  {
    if t.left.Leaf? then t else MinTree(t.left)
  }

  lemma JoinLeft<H>(t: Tree<H>)
    requires t.Node?
    ensures Join(L, t.left, t.head, t.red, t.right) == t
  {
  }

  lemma Regroup<H>(a: seq<H>, h: H, b: seq<H>, c: seq<H>)
    ensures a + (([h] + b) + c) == (a + [h] + b) + c
  {
  }

  lemma {:induction false} MinPlug<H>(p: Path<H>, t: Tree<H>)
    requires t.Node?
    ensures Plug(MinPath(p, t), MinTree(t)) == Plug(p, t)
    ensures Before(MinPath(p, t)) == Before(p)
    ensures [MinTree(t).head] + InOrder(MinTree(t).right) + After(MinPath(p, t)) == InOrder(t) + After(p)
    decreases t
  {
    hide InOrder, Join;
    InOrderNode(t);
    if t.left.Leaf? {
      InOrderLeaf(t.left);
      assert [] + [t.head] + InOrder(t.right) == [t.head] + InOrder(t.right);
    } else {
      var q := Up(p, L, t.head, t.red, t.right);
      MinPlug(q, t.left);
      assert Join(L, t.left, t.head, t.red, t.right) == t by { JoinLeft(t); }
      Regroup(InOrder(t.left), t.head, InOrder(t.right), After(p));
    }
  }

  lemma {:induction false} MinRB<H>(p: Path<H>, t: Tree<H>, n: nat) returns (m: nat)
    requires t.Node? && RB(t, n) && RBPath(p, n) && (t.red ==> MayBeRed(p))
    ensures RB(MinTree(t), m) && RBPath(MinPath(p, t), m)
    decreases t
  {
    if t.left.Leaf? {
      m := n;
    } else {
      m := MinRB(Up(p, L, t.head, t.red, t.right), t.left, if t.red then n else n - 1);
    }
  }

  /** The tree with the node `b` in the place of `a`. */
  function Replace<H(==)>(t: Tree<H>, a: H, b: H): (r: Tree<H>)
    ensures r.Node? == t.Node? && IsRed(r) == IsRed(t)
  {
    match t
    case Leaf => Leaf
    case Node(l, h, red, r) => Node(Replace(l, a, b), if h == a then b else h, red, Replace(r, a, b))
  }

  function ReplaceIn<H(==)>(s: seq<H>, a: H, b: H): seq<H> {
    seq(|s|, i requires 0 <= i < |s| => if s[i] == a then b else s[i])
  }

  lemma ReplaceConcat<H>(s: seq<H>, t: seq<H>, a: H, b: H)
    ensures ReplaceIn(s + t, a, b) == ReplaceIn(s, a, b) + ReplaceIn(t, a, b)
  {
  }

  lemma {:induction false} ReplaceOrder<H>(t: Tree<H>, a: H, b: H)
    ensures InOrder(Replace(t, a, b)) == ReplaceIn(InOrder(t), a, b)
  {
    if t.Node? {
      ReplaceOrder(t.left, a, b);
      ReplaceOrder(t.right, a, b);
      ReplaceConcat(InOrder(t.left), [t.head], a, b);
      ReplaceConcat(InOrder(t.left) + [t.head], InOrder(t.right), a, b);
    }
  }

  lemma {:induction false} ReplaceRB<H>(t: Tree<H>, a: H, b: H, n: nat)
    requires RB(t, n)
    ensures RB(Replace(t, a, b), n)
  {
    if t.Node? {
      ReplaceRB(t.left, a, b, if t.red then n else n - 1);
      ReplaceRB(t.right, a, b, if t.red then n else n - 1);
    }
  }

  /** Unlinking any node: with two children, its successor is unlinked and put in its place. */
  function Unlink<H(==)>(p: Path<H>, t: Tree<H>): Tree<H>
    requires t.Node?
  {
    if t.left.Node? && t.right.Node? then
      var q := Up(p, R, t.head, t.red, t.left);
      Replace(UnlinkOuter(MinPath(q, t.right), MinTree(t.right)), t.head, MinTree(t.right).head)
    else UnlinkOuter(p, t)
  }

  lemma InOrderNode<H>(t: Tree<H>)
    requires t.Node?
    ensures InOrder(t) == InOrder(t.left) + [t.head] + InOrder(t.right)
  {
  }

  lemma InOrderLeaf<H>(t: Tree<H>)
    requires t.Leaf?
    ensures InOrder(t) == []
  {
  }

  /** Unlinking removes exactly the one node from the order. */
  lemma UnlinkOrder<H>(p: Path<H>, t: Tree<H>)
    requires t.Node? && NoDup(InOrder(Plug(p, t)))
    ensures InOrder(Unlink(p, t)) == Before(p) + (InOrder(t.left) + InOrder(t.right)) + After(p)
  {
    hide InOrder, NoDup, UnlinkOuter;
    assert InOrder(t) == InOrder(t.left) + [t.head] + InOrder(t.right) by { InOrderNode(t); }
    if t.left.Node? && t.right.Node? {
      var q := Up(p, R, t.head, t.red, t.left);
      var m := MinTree(t.right);
      var mp := MinPath(q, t.right);
      assert InOrder(m.left) == [] by { InOrderLeaf(m.left); }
      MinPlug(q, t.right);
      UnlinkOuterOrder(mp, m);
      InOrderPlug(p, t);
      SuccessorTakesPlace(Before(p), InOrder(t.left), t.head, InOrder(t.right), After(p),
                          m.head, InOrder(m.right), After(mp));
      ReplaceOrder(UnlinkOuter(mp, m), t.head, m.head);
    } else {
      UnlinkOuterOrder(p, t);
    }
  }

  lemma SuccessorTakesPlace<H>(b: seq<H>, l: seq<H>, h: H, r: seq<H>, a: seq<H>, m: H, mr: seq<H>, ma: seq<H>)
    requires [m] + mr + ma == r + a && NoDup(b + (l + [h] + r) + a)
    ensures ReplaceIn(b + (l + [h]) + ([] + mr) + ma, h, m) == b + (l + r) + a
  {
    var x, y := b + l, mr + ma;
    assert b + (l + [h]) + ([] + mr) + ma == x + [h] + y;
    assert r + a == [m] + y;
    assert b + (l + [h] + r) + a == x + [h] + (r + a);
    ReplaceMiddle(x, h, y, m);
    assert b + (l + r) + a == x + (r + a);
    assert x + [m] + y == x + ([m] + y);
  }

  lemma ReplaceMiddle<H>(x: seq<H>, a: H, y: seq<H>, b: H)
    requires NoDup(x + [a] + ([b] + y))
    ensures ReplaceIn(x + [a] + y, a, b) == x + [b] + y
  {
    var s := x + [a] + ([b] + y);
    assert s[|x|] == a;
    forall i | 0 <= i < |x|
      ensures x[i] != a
    {
      assert s[i] == x[i];
    }
    forall i | 0 <= i < |y|
      ensures y[i] != a
    {
      assert s[|x| + 2 + i] == y[i];
    }
  }

  lemma UnlinkValid<H>(p: Path<H>, t: Tree<H>, n: nat)
    requires t.Node? && RB(t, n) && RBPath(p, n) && (t.red ==> MayBeRed(p))
    ensures Valid(Unlink(p, t))
  {
    if t.left.Node? && t.right.Node? {
      var q := Up(p, R, t.head, t.red, t.left);
      var m := MinRB(q, t.right, if t.red then n else n - 1);
      var u := UnlinkOuter(MinPath(q, t.right), MinTree(t.right));
      UnlinkOuterValid(MinPath(q, t.right), MinTree(t.right), m);
      var k: nat :| RB(u, k);
      ReplaceRB(u, t.head, MinTree(t.right).head, k);
    } else {
      UnlinkOuterValid(p, t, n);
    }
  }

  /** The place of every node of a red-black tree satisfies the invariant from both sides. */
  lemma {:induction false} PlugRB<H>(p: Path<H>, t: Tree<H>, k: nat) returns (n: nat)
    requires RB(Plug(p, t), k) && !IsRed(Plug(p, t))
    ensures RB(t, n) && RBPath(p, n) && (IsRed(t) ==> MayBeRed(p))
    decreases p
  {
    match p
    case Top => n := k;
    case Up(pp, d, h, red, other) =>
      var m := PlugRB(pp, Join(d, t, h, red, other), k);
      n := if red then m else m - 1;
  }

  function Depth<H>(t: Tree<H>): nat {
    match t
    case Leaf => 0
    case Node(l, _, _, r) => 1 + if Depth(l) > Depth(r) then Depth(l) else Depth(r)
  }

  lemma {:induction false} RBSize<H>(t: Tree<H>, n: nat)
    requires RB(t, n)
    ensures Depth(t) <= 2 * n + if IsRed(t) then 1 else 0
    ensures Pow2(n) <= |InOrder(t)| + 1
  {
    if t.Node? {
      RBSize(t.left, if t.red then n else n - 1);
      RBSize(t.right, if t.red then n else n - 1);
    }
  }

  /** The height is at most 2 log2(n + 1) for n nodes. */
  lemma HeightBound<H>(t: Tree<H>)
    requires Valid(t)
    ensures Pow2(Depth(t)) <= (|InOrder(t)| + 1) * (|InOrder(t)| + 1)
  {
    var n: nat :| RB(t, n);
    RBSize(t, n);
    Pow2Mono(Depth(t), n + n);
    Pow2Add(n, n);
    MulMono(Pow2(n), |InOrder(t)| + 1);
  }

  lemma MulMono(a: nat, b: nat)
    requires a <= b
    ensures a * a <= b * b
  {
  }
}
