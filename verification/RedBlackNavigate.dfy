/** Finding keys, and walking to the neighbours of a node along its parent links. */
module RedBlackNavigate {
  import opened RedBlackSpec
  import opened RedBlackHeap
  import opened RedBlackRemove
  import opened Strings

  // Neighbours.

  /** The nodes on side `d` of a place. */
  function Beyond(p: Path<Head>, d: Dir): seq<Head> {
    if d == L then Before(p) else After(p)
  }

  /** The element of `s` that is nearest to what follows it (`d == L`) or precedes it (`d == R`). */
  function Nearest(s: seq<Head>, d: Dir): Head? {
    if s == [] then null else if d == L then s[|s| - 1] else s[0]
  }

  lemma NodeNotBase(base: Head, p: Path<Head>, t: Tree<Head>)
    requires Models(base, p, t) && t.Node?
    ensures !IsBase(t.head) && t.head != base && IsBase(base) && base.parent.head == null
  {
    NodeFacts(base, p, t);
  }

  /** One step up from the root of `t`. */
  lemma StepUp(base: Head, p: Path<Head>, t: Tree<Head>)
    requires Models(base, p, t) && t.Node?
    ensures t.head.parent == ParentLink(PlaceHead(base, p), PlaceDir(p))
    ensures p.Up? ==> Models(base, p.path, Join(p.dir, t, p.head, p.red, p.other))
    ensures p.Up? ==> !IsBase(p.head) && p.head != base
  {
    hide Models;
    NodeFacts(base, p, t);
    if p.Up? {
      ModelsUp(base, p, t);
      NodeNotBase(base, p.path, Join(p.dir, t, p.head, p.red, p.other));
    }
  }

  lemma BeyondUp(p: Path<Head>, d: Dir)
    requires p.Up?
    ensures p.dir == d ==> Beyond(p, d) == Beyond(p.path, d)
    ensures p.dir != d ==> Nearest(Beyond(p, d), d) == p.head
  {
  }

  method GetPrevnextAncestor(start: Head, dir: Dir, ghost base: Head, ghost p: Path<Head>, ghost t: Tree<Head>)
    returns (head: Head?)
    requires Models(base, p, t) && t.Node? && t.head == start
    ensures head == Nearest(Beyond(p, dir), dir)
  {
    hide Models, PathLinked, Linked, Distinct, DistinctPath, Heads, PathHeads, Beyond, Nearest;
    head := start;
    ghost var q, u := p, t;
    NodeNotBase(base, q, u);
    assert Nearest([], dir) == null by { NearestNone(dir); }
    while head != null && head.parent.dir == dir
      invariant head != null && head != base ==>
                  u.Node? && head == u.head && Models(base, q, u) && Beyond(q, dir) == Beyond(p, dir)
      invariant head == null || head == base ==> Nearest(Beyond(p, dir), dir) == null
      decreases if head == null then 0 else if head == base then 1 else 2, q
    {
      if head != base {
        StepUp(base, q, u);
        if q.Up? {
          BeyondUp(q, dir);
          q, u := q.path, Join(q.dir, u, q.head, q.red, q.other);
        } else {
          BeyondTop(dir);
        }
      }
      head := head.parent.head;
    }
    if head != null {
      if head != base {
        StepUp(base, q, u);
        if q.Up? {
          BeyondUp(q, dir);
        } else {
          BeyondTop(dir);
        }
      }
      head := head.parent.head;
      if head == null || IsBase(head) {
        head := null;
      }
    }
  }

  lemma NearestNone(d: Dir)
    ensures Nearest([], d) == null
  {
  }

  lemma BeyondTop(d: Dir)
    ensures Beyond(Top, d) == []
  {
  }

  method GetPrevnext(start: Head, dir: Dir, ghost base: Head, ghost p: Path<Head>, ghost t: Tree<Head>)
    returns (head: Head?)
    requires Models(base, p, t) && t.Node? && t.head == start
    ensures head == Nearest(if dir == L then Before(p) + InOrder(t.left) else InOrder(t.right) + After(p), dir)
  {
    hide Models, PathLinked, Linked, Distinct, DistinctPath, Heads, PathHeads, InOrder, Before, After;
    NodeFacts(base, p, t);
    ghost var side := Side(t, dir);
    if start.HasChild(dir) {
      head := GetMinmaxInSubtree(start.Child(dir).head, Opp(dir), side);
      OutermostOrder(side, Opp(dir));
    } else {
      InOrderLeaf(side);
      head := GetPrevnextAncestor(start, dir, base, p, t);
    }
  }

  // Searching.

  ghost predicate Sorted(s: seq<Head>) {
    forall i, j :: 0 <= i < j < |s| ==> Less(s[i].key, s[j].key)
  }

  ghost predicate AllBelow(s: seq<Head>, key: Key) {
    forall h :: h in s ==> Less(h.key, key)
  }

  ghost predicate AllAbove(s: seq<Head>, key: Key) {
    forall h :: h in s ==> Less(key, h.key)
  }

  /** Going down on the side where the key belongs keeps all nodes passed on the right side of it. */
  lemma Descend(p: Path<Head>, t: Tree<Head>, key: Key)
    requires t.Node? && Sorted(Before(p) + InOrder(t) + After(p))
    requires AllBelow(Before(p), key) && AllAbove(After(p), key)
    ensures Less(t.head.key, key) ==> AllBelow(Before(p) + (InOrder(t.left) + [t.head]), key)
    ensures Less(key, t.head.key) ==> AllAbove(([t.head] + InOrder(t.right)) + After(p), key)
  {
    hide InOrder, Before, After, Sorted, AllBelow, AllAbove, Less;
    InOrderNode(t);
    Divide(Before(p), InOrder(t.left), t.head, InOrder(t.right), After(p), key);
  }

  lemma Divide(b: seq<Head>, l: seq<Head>, h: Head, r: seq<Head>, a: seq<Head>, key: Key)
    requires Sorted(b + (l + [h] + r) + a) && AllBelow(b, key) && AllAbove(a, key)
    ensures Less(h.key, key) ==> AllBelow(b + (l + [h]), key)
    ensures Less(key, h.key) ==> AllAbove(([h] + r) + a, key)
  {
    hide Less;
    var s := b + (l + [h] + r) + a;
    assert s[|b| + |l|] == h;
    if Less(h.key, key) {
      forall i | 0 <= i < |l|
        ensures Less(l[i].key, key)
      {
        assert s[|b| + i] == l[i];
        LessTransitive(l[i].key, h.key, key);
      }
    }
    if Less(key, h.key) {
      forall i | 0 <= i < |r|
        ensures Less(key, r[i].key)
      {
        assert s[|b| + |l| + 1 + i] == r[i];
        LessTransitive(key, h.key, r[i].key);
      }
    }
  }

  /** The root of `t` is on the way down, one step below the place. */
  lemma StepDown(base: Head, p: Path<Head>, t: Tree<Head>, d: Dir)
    requires Models(base, p, t) && t.Node?
    ensures Models(base, Up(p, d, t.head, t.red, Side(t, Opp(d))), Side(t, d))
    ensures Plug(Up(p, d, t.head, t.red, Side(t, Opp(d))), Side(t, d)) == Plug(p, t)
    ensures PlaceHead(base, p).Child(PlaceDir(p)) == LinkTo(t) && t.head.Child(d) == LinkTo(Side(t, d))
  {
    ModelsUp(base, Up(p, d, t.head, t.red, Side(t, Opp(d))), Side(t, d));
  }

  method FindParent(base: Head, key: Key, ghost tree: Tree<Head>)
    returns (found: Head?, parent: Head, dir: Dir, ghost p: Path<Head>, ghost t: Tree<Head>)
    requires Models(base, Top, tree) && Sorted(InOrder(tree))
    ensures Models(base, p, t) && Plug(p, t) == tree
    ensures if found != null then t.Node? && t.head == found && found.key == key
            else t.Leaf? && parent == PlaceHead(base, p) && dir == PlaceDir(p)
                 && AllBelow(Before(p), key) && AllAbove(After(p), key)
    ensures found != null ==> found in InOrder(tree) && found.key == key
    ensures found == null ==> forall h :: h in InOrder(tree) ==> h.key != key
  {
    hide Models, PathLinked, Linked, Distinct, DistinctPath, Heads, PathHeads, InOrder, Sorted, AllBelow, AllAbove,
         Less;
    parent, dir := base, L;
    p, t := Top, tree;
    NoneBeyond(key);
    while parent.HasChild(dir)
      invariant Models(base, p, t) && Plug(p, t) == tree
      invariant parent == PlaceHead(base, p) && dir == PlaceDir(p)
      invariant AllBelow(Before(p), key) && AllAbove(After(p), key)
      decreases t
    {
      assert t.Node? by { PlaceLeaf(base, p, t); }
      StepDown(base, p, t, L);
      InOrderPlug(p, t);
      Descend(p, t, key);
      parent := parent.Child(dir).head;
      label Compared:
      var r := StringCmp(parent.key, key);
      Unmoved@Compared(Change(base, p, t, t));
      StepDown(base, p, t, L);
      StepDown(base, p, t, R);
      if r == 0 {
        found := parent;
        InOrderPlug(p, t);
        InOrderNode(t);
        return;
      }
      dir := if r < 0 then R else L;
      p, t := Up(p, dir, t.head, t.red, Side(t, Opp(dir))), Side(t, dir);
    }
    assert t.Leaf? by { PlaceLeaf(base, p, t); }
    found := null;
    InOrderPlug(p, t);
    InOrderLeaf(t);
    NoneEqual(Before(p), After(p), key);
    assert Before(p) + [] + After(p) == Before(p) + After(p);
  }

  lemma NoneEqual(b: seq<Head>, a: seq<Head>, key: Key)
    requires AllBelow(b, key) && AllAbove(a, key)
    ensures forall h :: h in b + a ==> h.key != key
  {
    hide Less;
    LessTotal(key, key);
  }

  lemma NoneBeyond(key: Key)
    ensures AllBelow(Before(Top), key) && AllAbove(After(Top), key)
  {
  }

  lemma PlaceLeaf(base: Head, p: Path<Head>, t: Tree<Head>)
    requires Models(base, p, t)
    ensures PlaceHead(base, p).HasChild(PlaceDir(p)) == t.Node?
    ensures PlaceHead(base, p).Child(PlaceDir(p)) == LinkTo(t)
  {
  }
}
