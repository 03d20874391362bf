/** Linking a new node, and unlinking any node with the substitution of its successor. */
module RedBlackRemove {
  import opened Sequences
  import opened RedBlackSpec
  import opened RedBlackHeap
  import opened RedBlackRotate
  import opened RedBlackTree
  import opened RedBlackUnlink

  // The nodes of a tree, as a set and in order.

  lemma {:induction false} HeadsInOrder(t: Tree<Head>, h: Head)
    ensures h in Heads(t) <==> h in InOrder(t)
  {
    if t.Node? {
      HeadsInOrder(t.left, h);
      HeadsInOrder(t.right, h);
    }
  }

  lemma {:induction false} DistinctNoDup(t: Tree<Head>)
    requires Distinct(t)
    ensures NoDup(InOrder(t))
  {
    if t.Node? {
      DistinctNoDup(t.left);
      DistinctNoDup(t.right);
      HeadsInOrder(t.left, t.head);
      HeadsInOrder(t.right, t.head);
      forall h | h in InOrder(t.left)
        ensures h !in InOrder(t.right)
      {
        HeadsInOrder(t.left, h);
        HeadsInOrder(t.right, h);
      }
      NoDupNode(InOrder(t.left), t.head, InOrder(t.right));
    }
  }

  lemma NoDupNode<H>(a: seq<H>, h: H, b: seq<H>)
    requires NoDup(a) && NoDup(b) && h !in a && h !in b
    requires forall x :: x in a ==> x !in b
    ensures NoDup(a + [h] + b)
  {
    var s := a + [h] + b;
    forall i, j | 0 <= i < j < |s|
      ensures s[i] != s[j]
    {
      if i < |a| {
        assert s[i] == a[i] && s[i] in a;
        if j > |a| {
          assert s[j] == b[j - |a| - 1] && s[j] in b;
        }
      } else {
        assert s[j] == b[j - |a| - 1] && s[j] in b;
      }
    }
  }

  /** Every node of a tree has a place in it. */
  lemma {:induction false} Locate(p: Path<Head>, t: Tree<Head>, h: Head) returns (q: Path<Head>, u: Tree<Head>)
    requires h in Heads(t)
    ensures u.Node? && u.head == h && Plug(q, u) == Plug(p, t)
    decreases t
  {
    if h == t.head {
      q, u := p, t;
    } else if h in Heads(t.left) {
      q, u := Locate(Up(p, L, t.head, t.red, t.right), t.left, h);
    } else {
      q, u := Locate(Up(p, R, t.head, t.red, t.left), t.right, h);
    }
  }

  lemma {:induction false} ReplaceAbsent(t: Tree<Head>, a: Head, b: Head)
    requires a !in Heads(t)
    ensures Replace(t, a, b) == t
  {
    if t.Node? {
      ReplaceAbsent(t.left, a, b);
      ReplaceAbsent(t.right, a, b);
    }
  }

  /** Replacing a node that occurs once changes its place only. */
  lemma {:induction false} ReplacePlug(p: Path<Head>, t: Tree<Head>, u: Tree<Head>, a: Head, b: Head)
    requires Distinct(Plug(p, t)) && a in Heads(t) && Replace(t, a, b) == u
    ensures Replace(Plug(p, t), a, b) == Plug(p, u)
    decreases p
  {
    hide Distinct, Heads;
    if p.Up? {
      var up := Join(p.dir, t, p.head, p.red, p.other);
      JoinFacts(p.dir, t, p.head, p.red, p.other);
      assert Distinct(up) by { DistinctPart(p.path, up); }
      ReplaceAbsent(p.other, a, b);
      ReplacePlug(p.path, up, Join(p.dir, u, p.head, p.red, p.other), a, b);
    }
  }

  lemma {:induction false} DistinctPart(p: Path<Head>, t: Tree<Head>)
    requires Distinct(Plug(p, t))
    ensures Distinct(t)
    decreases p
  {
    hide Distinct, Heads;
    if p.Up? {
      DistinctPart(p.path, Join(p.dir, t, p.head, p.red, p.other));
      JoinFacts(p.dir, t, p.head, p.red, p.other);
    }
  }

  // Linking.

  method LinkAndRebalance(head: Head, parent: Head, dir: Dir, ghost base: Head, ghost p: Path<Head>)
    requires Models(base, p, Leaf) && parent == PlaceHead(base, p) && dir == PlaceDir(p)
    requires RBPath(p, 0)
    requires head != base && head !in PathHeads(p)
    modifies {base, head} + PathHeads(p)
    ensures Models(base, Top, FixLink(p, Node(Leaf, head, true, Leaf)))
  {
    hide PathLinked, DistinctPath, Models, RBPath, FixLink;
    ghost var t := Node(Leaf, head, true, Leaf);
    assert Heads(t) == {head};
    PlaceInPath(base, p);
    parent.SetChild(dir, Link(head, true));
    head.parent := ParentLink(parent, dir);
    head.left := Link(null, false);
    head.right := Link(null, false);
    Grafted(Change(base, p, Leaf, t));
    RebalanceAfterLink(head, base, p, t, 0);
  }

  /** A new node below the end of a path. */
  twostate lemma Grafted(c: Change)
    requires old(Models(c.base, c.path, c.before)) && c.before.Leaf?
    requires c.after.Node? && c.after.left.Leaf? && c.after.right.Leaf?
    requires c.after.head !in PathHeads(c.path) + {c.base}
    requires var h := PlaceHead(c.base, c.path); Slot(h, PlaceDir(c.path), c.after)
    requires c.after.head.left == Link(null, false) && c.after.head.right == Link(null, false)
    requires forall h :: h in PathHeads(c.path) + {c.base} && old(allocated(h)) ==> h.parent == old(h.parent)
    requires forall h :: h in PathHeads(c.path) + {c.base} && h != PlaceHead(c.base, c.path) && old(allocated(h)) ==>
                           h.left == old(h.left) && h.right == old(h.right)
    requires var h := PlaceHead(c.base, c.path);
             if PlaceDir(c.path) == L then h.right == old(h.right) else h.left == old(h.left)
    ensures Models(c.base, c.path, c.after)
  {
    hide PathLinked, PathHeads, DistinctPath, Models;
    Regrafted(c);
  }

  // Unlinking a node with at most one child.

  method UnlinkNoninternal(head: Head, ghost base: Head, ghost p: Path<Head>, ghost t: Tree<Head>, ghost n: nat)
    requires Models(base, p, t) && t.Node? && t.head == head && (t.left.Leaf? || t.right.Leaf?)
    requires RB(t, n) && RBPath(p, n)
    modifies {base} + PathHeads(p) + Heads(t)
    ensures Models(base, Top, UnlinkOuter(p, t))
  {
    hide Heads, Linked, Distinct, PathHeads, PathLinked, DistinctPath, Models, RB, RBPath, Paint, FixUnlink;
    NodeFacts(base, p, t);
    PlaceInPath(base, p);
    var dir := if head.right.head != null then R else L;
    var pnt := head.parent.head;
    var cld := head.Child(dir).head;
    var pdir := head.parent.dir;
    var mustRebalance := !pnt.Child(pdir).red && !head.Child(dir).red;
    ghost var c := OnlyChild(t);
    ghost var u := Paint(c, false);
    assert LinkTo(c) == head.Child(dir);
    RedLink(c);
    RootInHeads(c);
    ConnectNull(pnt, pdir, cld, false);
    LinkedKept(c);
    PaintFacts(c, false);
    PaintSlot(c, false);
    Replanted(Change(base, p, t, u));
    if mustRebalance {
      ghost var m := OuterBlack(p, t, n);
      RebalanceAfterUnlink(pnt, pdir, base, p, u, m);
    } else {
      ModelsPlug(base, p, u);
    }
  }

  lemma NodeFacts(base: Head, p: Path<Head>, t: Tree<Head>)
    requires Models(base, p, t) && t.Node?
    ensures t.head.parent == ParentLink(PlaceHead(base, p), PlaceDir(p))
    ensures PlaceHead(base, p).Child(PlaceDir(p)) == LinkTo(t)
    ensures Slot(t.head, L, t.left) && Slot(t.head, R, t.right) && Linked(t.left) && Linked(t.right)
    ensures Heads(t) == Heads(t.left) + {t.head} + Heads(t.right) && Distinct(t.left) && Distinct(t.right)
    ensures t.head !in Heads(t.left) + Heads(t.right) && Heads(t.left) !! Heads(t.right)
    ensures base !in Heads(t) && base !in PathHeads(p) && Heads(t) !! PathHeads(p)
  {
    hide PathHeads, PathLinked, DistinctPath;
  }

  lemma OuterBlack(p: Path<Head>, t: Tree<Head>, n: nat) returns (m: nat)
    requires t.Node? && (t.left.Leaf? || t.right.Leaf?) && RB(t, n) && RBPath(p, n)
    requires !t.red && !IsRed(OnlyChild(t))
    ensures RB(Paint(OnlyChild(t), false), m) && !IsRed(Paint(OnlyChild(t), false)) && RBPath(p, m + 1)
  {
    m := n - 1;
    assert RB(OnlyChild(t), m);
  }

  // Unlinking a node with two children.

  function Outermost(t: Tree<Head>, d: Dir): Head?
    decreases t
  {
    if t.Leaf? then null else if Side(t, d).Leaf? then t.head else Outermost(Side(t, d), d)
  }

  method GetMinmaxInSubtree(start: Head?, dir: Dir, ghost t: Tree<Head>) returns (head: Head?)
    requires Linked(t) && start == Root(t)
    ensures head == Outermost(t, dir)
  {
    head := start;
    if head == null {
      return;
    }
    ghost var u := t;
    while head.HasChild(dir)
      invariant u.Node? && head == u.head && Linked(u) && Outermost(u, dir) == Outermost(t, dir)
      decreases u
    {
      u := Side(u, dir);
      head := head.Child(dir).head;
    }
  }

  lemma {:induction false} OutermostLeft(t: Tree<Head>)
    requires t.Node?
    ensures Outermost(t, L) == MinTree(t).head
  {
    if t.left.Node? {
      OutermostLeft(t.left);
    }
  }

  /** The first and the last node in order. */
  lemma {:induction false} OutermostOrder(t: Tree<Head>, d: Dir)
    requires t.Node?
    ensures var s := InOrder(t); |s| > 0 && Outermost(t, d) == if d == L then s[0] else s[|s| - 1]
    decreases t
  {
    if Side(t, d).Node? {
      OutermostOrder(Side(t, d), d);
    }
  }

  method Relink(head: Head, newhead: Head, parent: Head)
    requires parent == head.parent.head && newhead != parent && parent != head && newhead != head
    requires Some(head.left.head) !! Some(head.right.head)
    requires Some(head.left.head) + Some(head.right.head) !! {head, newhead, parent}
    requires parent.Child(head.parent.dir).head == head
    modifies newhead, parent`left, parent`right, (Some(head.left.head) + Some(head.right.head))`parent
    ensures newhead.left == old(head.left) && newhead.right == old(head.right) && newhead.parent == old(head.parent)
    ensures forall h | h in Some(old(head.left.head)) :: h.parent == ParentLink(newhead, L)
    ensures forall h | h in Some(old(head.right.head)) :: h.parent == ParentLink(newhead, R)
    ensures var d := old(head.parent.dir);
            parent.Child(d) == old(parent.Child(d)).(head := newhead)
                && parent.Child(Opp(d)) == old(parent.Child(Opp(d)))
  {
    newhead.left, newhead.right, newhead.parent := head.left, head.right, head.parent;
    var left, right := head.left.head, head.right.head;
    var pdir := head.parent.dir;
    var pcol := parent.Child(pdir).red;
    if left != null {
      left.parent := ParentLink(newhead, L);
    }
    if right != null {
      right.parent := ParentLink(newhead, R);
    }
    parent.SetChild(pdir, Link(newhead, pcol));
  }

  /** Puts `newhead` in the place of `head`. */
  method ReplaceHead(head: Head, newhead: Head, ghost base: Head, ghost p: Path<Head>, ghost t: Tree<Head>)
    requires Models(base, p, t) && t.Node? && t.head == head
    requires newhead !in {base} + PathHeads(p) + Heads(t)
    modifies {base, newhead} + PathHeads(p) + Heads(t)
    ensures Models(base, p, t.(head := newhead))
  {
    hide Heads, Linked, Distinct, PathHeads, PathLinked, DistinctPath, Models;
    NodeFacts(base, p, t);
    PlaceInPath(base, p);
    RootInHeads(t.left);
    RootInHeads(t.right);
    Relink(head, newhead, head.parent.head);
    LinkedKept(t.left);
    LinkedKept(t.right);
    NodeParts(t.(head := newhead));
    Regrafted(Change(base, p, t, t.(head := newhead)));
  }

  lemma NodeParts(t: Tree<Head>)
    requires t.Node?
    ensures Heads(t) == Heads(t.left) + {t.head} + Heads(t.right)
    ensures Linked(t) <==> Slot(t.head, L, t.left) && Slot(t.head, R, t.right) && Linked(t.left) && Linked(t.right)
    ensures Distinct(t) <==> (Distinct(t.left) && Distinct(t.right) && t.head !in Heads(t.left)
                              && t.head !in Heads(t.right) && Heads(t.left) !! Heads(t.right))
  {
  }

  method ReplaceInTree(head: Head, newhead: Head, ghost base: Head, ghost t: Tree<Head>)
    requires Models(base, Top, t) && head in Heads(t) && newhead !in {base} + Heads(t)
    modifies {base, newhead} + Heads(t)
    ensures Models(base, Top, Replace(t, head, newhead))
  {
    hide Linked, PathLinked, Models, Replace;
    ghost var p, u := Locate(Top, t, head);
    ModelsPlug(base, p, u);
    HeadsPlug(p, u);
    ModelsDistinct(base, t);
    ReplaceHead(head, newhead, base, p, u);
    ModelsPlug(base, p, u.(head := newhead));
    DistinctPart(p, u);
    ReplaceRoot(u, newhead);
    ReplacePlug(p, u, u.(head := newhead), head, newhead);
  }

  lemma ModelsDistinct(base: Head, t: Tree<Head>)
    requires Models(base, Top, t)
    ensures Distinct(t) && base !in Heads(t)
  {
  }

  lemma ReplaceRoot(t: Tree<Head>, b: Head)
    requires t.Node? && Distinct(t)
    ensures Replace(t, t.head, b) == t.(head := b)
  {
    ReplaceAbsent(t.left, t.head, b);
    ReplaceAbsent(t.right, t.head, b);
  }

  /** The tree without the successor of the root of `t` still has that root, and all other nodes. */
  lemma SubstituteUnlinked(p: Path<Head>, t: Tree<Head>)
    requires t.Node? && t.right.Node? && Distinct(Plug(p, t))
    ensures var q := Up(p, R, t.head, t.red, t.left);
            var u := UnlinkOuter(MinPath(q, t.right), MinTree(t.right));
            t.head in Heads(u) && MinTree(t.right).head !in Heads(u) && Heads(u) <= Heads(Plug(p, t))
  {
    hide Distinct, Heads, InOrder, UnlinkOuter, NoDup;
    var q := Up(p, R, t.head, t.red, t.left);
    var mp, m := MinPath(q, t.right), MinTree(t.right);
    var u := UnlinkOuter(mp, m);
    MinPlug(q, t.right);
    UnlinkOuterOrder(mp, m);
    DistinctNoDup(Plug(p, t));
    InOrderPlug(mp, m);
    InOrderLeaf(m.left);
    InOrderNode(m);
    assert InOrder(Plug(p, t)) == InOrder(Plug(mp, m));
    Removed(Before(mp), m.head, InOrder(m.right), After(mp));
    assert Before(mp) == Before(p) + (InOrder(t.left) + [t.head]);
    assert InOrder(t.left) + [t.head] <= InOrder(t.left) + [t.head];
    LastIn(Before(p), InOrder(t.left), t.head);
    HeadsInOrder(u, t.head);
    HeadsInOrder(u, m.head);
    forall h | h in Heads(u)
      ensures h in Heads(Plug(p, t))
    {
      HeadsInOrder(u, h);
      HeadsInOrder(Plug(p, t), h);
    }
  }

  lemma LastIn<H>(a: seq<H>, b: seq<H>, h: H)
    ensures h in a + (b + [h])
  {
    var s := a + (b + [h]);
    assert s[|a| + |b|] == h;
  }

  lemma Removed<H>(a: seq<H>, h: H, b: seq<H>, c: seq<H>)
    requires NoDup(a + ([] + [h] + b) + c)
    ensures h !in a + ([] + b) + c
    ensures forall x :: x in a + ([] + b) + c <==> x in a + ([] + [h] + b) + c && x != h
    ensures forall x :: x in a ==> x in a + ([] + b) + c
  {
    var s := a + ([] + [h] + b) + c;
    var r := a + ([] + b) + c;
    assert s[|a|] == h;
    forall i | 0 <= i < |r|
      ensures r[i] == s[if i < |a| then i else i + 1]
    {
    }
    forall i | 0 <= i < |s| && i != |a|
      ensures s[i] == r[if i < |a| then i else i - 1]
    {
    }
  }

  method UnlinkInternal(head: Head, ghost base: Head, ghost p: Path<Head>, ghost t: Tree<Head>, ghost n: nat)
    requires Models(base, p, t) && t.Node? && t.head == head && t.left.Node? && t.right.Node?
    requires RB(t, n) && RBPath(p, n) && (t.red ==> MayBeRed(p))
    modifies {base} + PathHeads(p) + Heads(t)
    ensures Models(base, Top, Unlink(p, t))
  {
    hide Heads, Linked, Distinct, PathHeads, PathLinked, DistinctPath, Models, RB, RBPath, UnlinkOuter, Replace,
         MinPath, MinTree;
    ghost var q := Up(p, R, head, t.red, t.left);
    NodeFacts(base, p, t);
    var subst := GetMinmaxInSubtree(head.right.head, L, t.right);
    Unmoved(Change(base, p, t, t));
    ghost var mp, m := MinPath(q, t.right), MinTree(t.right);
    MinPlug(q, t.right);
    OutermostLeft(t.right);
    RootInHeads(m);
    ModelsPlug(base, p, t);
    ModelsPlug(base, mp, m);
    HeadsPlug(p, t);
    HeadsPlug(mp, m);
    ModelsDistinct(base, Plug(p, t));
    SubstituteUnlinked(p, t);
    ghost var k := InternalRB(p, t, n);
    UnlinkNoninternal(subst, base, mp, m, k);
    ReplaceInTree(head, subst, base, UnlinkOuter(mp, m));
  }

  lemma InternalRB(p: Path<Head>, t: Tree<Head>, n: nat) returns (m: nat)
    requires t.Node? && t.right.Node? && RB(t, n) && RBPath(p, n) && (t.red ==> MayBeRed(p))
    ensures var q := Up(p, R, t.head, t.red, t.left);
            RB(MinTree(t.right), m) && RBPath(MinPath(q, t.right), m)
  {
    var q := Up(p, R, t.head, t.red, t.left);
    m := MinRB(q, t.right, if t.red then n else n - 1);
  }

  /** Unlinks any node: memory then holds the tree without it, rebalanced. */
  method UnlinkAndRebalance(head: Head, ghost base: Head, ghost p: Path<Head>, ghost t: Tree<Head>, ghost n: nat)
    requires Models(base, p, t) && t.Node? && t.head == head
    requires RB(t, n) && RBPath(p, n) && (t.red ==> MayBeRed(p))
    modifies {base} + PathHeads(p) + Heads(t)
    ensures Models(base, Top, Unlink(p, t))
  {
    hide Heads, Linked, Distinct, PathHeads, PathLinked, DistinctPath, Models, RB, RBPath, UnlinkOuter;
    NodeFacts(base, p, t);
    if head.HasChild(L) && head.HasChild(R) {
      UnlinkInternal(head, base, p, t, n);
    } else {
      UnlinkNoninternal(head, base, p, t, n);
    }
  }
}
