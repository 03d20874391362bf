/**
 * The nodes of a red-black tree in memory: two child links that carry the colour of the child,
 * and a parent link that carries the direction from the parent.
 */
module RedBlackHeap {
  import opened RedBlackSpec
  import opened Strings

  /** A child pointer with its colour bit. */
  datatype Link = Link(head: Head?, red: bool)

  /** A parent pointer with the direction bit. */
  datatype ParentLink = ParentLink(head: Head?, dir: Dir)

  class Head {
    const key: Key
    var left: Link
    var right: Link
    var parent: ParentLink

    constructor (key: Key)
      ensures this.key == key
      ensures left == right == Link(null, false) && parent == ParentLink(null, L)
    {
      this.key := key;
      left, right, parent := Link(null, false), Link(null, false), ParentLink(null, L);
    }

    function Child(d: Dir): Link
      reads this
    {
      if d == L then left else right
    }

    predicate HasChild(d: Dir)
      reads this
    {
      Child(d) != Link(null, false)
    }

    method SetChild(d: Dir, l: Link)
      modifies this`left, this`right
      ensures Child(d) == l && Child(Opp(d)) == old(Child(Opp(d)))
    {
      if d == L {
        left := l;
      } else {
        right := l;
      }
    }

    method SetColor(d: Dir, red: bool)
      modifies this`left, this`right
      ensures Child(d) == old(Child(d)).(red := red) && Child(Opp(d)) == old(Child(Opp(d)))
    {
      SetChild(d, Child(d).(red := red));
    }
  }

  method Connect(h: Head, d: Dir, child: Head, red: bool)
    modifies h`left, h`right, child`parent
    ensures h.Child(d) == Link(child, red) && h.Child(Opp(d)) == old(h.Child(Opp(d)))
    ensures child.parent == ParentLink(h, d)
  {
    h.SetChild(d, Link(child, red));
    child.parent := ParentLink(h, d);
  }

  method ConnectNull(h: Head, d: Dir, child: Head?, red: bool)
    modifies h`left, h`right, (if child == null then {} else {child})`parent
    ensures h.Child(d) == Link(child, red) && h.Child(Opp(d)) == old(h.Child(Opp(d)))
    ensures child != null ==> child.parent == ParentLink(h, d)
  {
    h.SetChild(d, Link(child, red));
    if child != null {
      child.parent := ParentLink(h, d);
    }
  }

  /** The base is no node: it has no parent and carries a mark in place of its right child. */
  predicate IsBase(h: Head)
    reads h
  {
    h.right == Link(null, true)
  }

  function LinkTo(t: Tree<Head>): Link {
    match t
    case Leaf => Link(null, false)
    case Node(_, h, red, _) => Link(h, red)
  }

  function Root(t: Tree<Head>): Head? {
    LinkTo(t).head
  }

  ghost function Roots(t: Tree<Head>): set<Head> {
    if t.Node? then {t.head} else {}
  }

  ghost function Heads(t: Tree<Head>): (s: set<Head>)
    ensures Roots(t) <= s
  {
    match t
    case Leaf => {}
    case Node(l, h, _, r) => Heads(l) + {h} + Heads(r)
  }

  ghost function PathHeads(p: Path<Head>): (s: set<Head>)
    ensures p.Up? ==> p.head in s
  {
    match p
    case Top => {}
    case Up(pp, _, h, _, other) => PathHeads(pp) + {h} + Heads(other)
  }

  /** No node occurs twice. */
  ghost predicate Distinct(t: Tree<Head>) {
    match t
    case Leaf => true
    case Node(l, h, _, r) =>
      Distinct(l) && Distinct(r) && h !in Heads(l) && h !in Heads(r) && Heads(l) !! Heads(r)
  }

  ghost predicate DistinctPath(p: Path<Head>) {
    match p
    case Top => true
    case Up(pp, _, h, _, other) =>
      && DistinctPath(pp) && Distinct(other)
      && h !in PathHeads(pp) && h !in Heads(other) && PathHeads(pp) !! Heads(other)
  }

  /** The tree `t` hangs on side `d` of `h`. */
  ghost predicate Slot(h: Head, d: Dir, t: Tree<Head>)
    reads h, Roots(t)
  {
    h.Child(d) == LinkTo(t) && (t.Node? ==> t.head.parent == ParentLink(h, d))
  }

  /** The links inside `t` are those of the tree. */
  ghost predicate Linked(t: Tree<Head>)
    reads Heads(t)
  {
    match t
    case Leaf => true
    case Node(l, h, _, r) => Slot(h, L, l) && Slot(h, R, r) && Linked(l) && Linked(r)
  }

  function PlaceHead(base: Head, p: Path<Head>): Head {
    if p.Top? then base else p.head
  }

  function PlaceDir(p: Path<Head>): Dir {
    if p.Top? then L else p.dir
  }

  ghost predicate PathLinked(base: Head, p: Path<Head>)
    reads {base} + PathHeads(p)
  {
    match p
    case Top => true
    case Up(pp, d, h, red, other) =>
      && PlaceHead(base, pp).Child(PlaceDir(pp)) == Link(h, red)
      && h.parent == ParentLink(PlaceHead(base, pp), PlaceDir(pp))
      && Slot(h, Opp(d), other) && Linked(other)
      && PathLinked(base, pp)
  }

  ghost predicate Apart(base: Head, p: Path<Head>, t: Tree<Head>) {
    && Distinct(t) && DistinctPath(p) && Heads(t) !! PathHeads(p)
    && base !in Heads(t) && base !in PathHeads(p)
  }

  /** Memory holds the tree `t` at the end of the path `p` below `base`. */
  ghost predicate Models(base: Head, p: Path<Head>, t: Tree<Head>)
    reads {base} + PathHeads(p) + Heads(t)
  {
    && Apart(base, p, t)
    && IsBase(base) && base.parent.head == null
    && PathLinked(base, p)
    && Slot(PlaceHead(base, p), PlaceDir(p), t) && Linked(t)
  }

  /** A node with its subtrees named by direction. */
  lemma JoinSets(d: Dir, a: Tree<Head>, h: Head, red: bool, b: Tree<Head>)
    ensures var t := Join(d, a, h, red, b);
            && Heads(t) == Heads(a) + {h} + Heads(b)
            && (Distinct(t) <==>
                  Distinct(a) && Distinct(b) && h !in Heads(a) && h !in Heads(b) && Heads(a) !! Heads(b))
  {
  }

  lemma JoinFacts(d: Dir, a: Tree<Head>, h: Head, red: bool, b: Tree<Head>)
    ensures var t := Join(d, a, h, red, b);
            && Heads(t) == Heads(a) + {h} + Heads(b)
            && (Linked(t) <==> Slot(h, d, a) && Slot(h, Opp(d), b) && Linked(a) && Linked(b))
            && (Distinct(t) <==>
                  Distinct(a) && Distinct(b) && h !in Heads(a) && h !in Heads(b) && Heads(a) !! Heads(b))
  {
  }

  lemma {:induction false} HeadsPlug(p: Path<Head>, t: Tree<Head>)
    ensures Heads(Plug(p, t)) == Heads(t) + PathHeads(p)
    decreases p
  {
    if p.Up? {
      HeadsPlug(p.path, Join(p.dir, t, p.head, p.red, p.other));
    }
  }

  /** Moving the focus one step up. */
  lemma ModelsUp(base: Head, p: Path<Head>, t: Tree<Head>)
    requires p.Up?
    ensures Models(base, p, t) <==> Models(base, p.path, Join(p.dir, t, p.head, p.red, p.other))
  {
  }

  /** Memory that holds a tree holds each of its parts in its place, and conversely. */
  lemma {:induction false} ModelsPlug(base: Head, p: Path<Head>, t: Tree<Head>)
    ensures Models(base, p, t) <==> Models(base, Top, Plug(p, t))
    decreases p
  {
    hide Models;
    if p.Up? {
      ModelsUp(base, p, t);
      ModelsPlug(base, p.path, Join(p.dir, t, p.head, p.red, p.other));
    }
  }

  /** A tree stays linked when only its root is moved elsewhere. */
  twostate lemma {:induction false} LinkedKept(t: Tree<Head>)
    requires old(Linked(t)) && Distinct(t)
    requires forall h :: h in Heads(t) && old(allocated(h)) ==> h.left == old(h.left) && h.right == old(h.right)
    requires forall h :: h in Heads(t) - Roots(t) && old(allocated(h)) ==> h.parent == old(h.parent)
    ensures Linked(t)
  {
    if t.Node? {
      LinkedKept(t.left);
      LinkedKept(t.right);
    }
  }

  /** A path stays linked when only what hangs at its end changes. */
  twostate lemma {:induction false} PathKept(place: (Head, Path<Head>))
    requires var (base, p) := place; old(PathLinked(base, p)) && DistinctPath(p) && base !in PathHeads(p)
    requires forall h :: h in PathHeads(place.1) && old(allocated(h)) ==> h.parent == old(h.parent)
    requires forall h :: h in PathHeads(place.1) + {place.0} && h != PlaceHead(place.0, place.1) &&
                           old(allocated(h)) ==>
                           h.left == old(h.left) && h.right == old(h.right)
    requires var h := PlaceHead(place.0, place.1);
             if PlaceDir(place.1) == L then h.right == old(h.right) else h.left == old(h.left)
    ensures PathLinked(place.0, place.1)
    decreases place.1
  {
    var (base, p) := place;
    if p.Up? {
      LinkedKept(p.other);
      PathKept((base, p.path));
    }
  }

  /** A place with the tree that hangs there and the tree that is to hang there. */
  datatype Change = Change(base: Head, path: Path<Head>, before: Tree<Head>, after: Tree<Head>)

  /** Replacing what hangs at a place by another tree. */
  twostate lemma Regrafted(c: Change)
    requires old(Models(c.base, c.path, c.before))
    requires Distinct(c.after) && Heads(c.after) !! PathHeads(c.path) + {c.base}
    requires var h := PlaceHead(c.base, c.path); Slot(h, PlaceDir(c.path), c.after) && Linked(c.after)
    requires forall h :: h in PathHeads(c.path) + {c.base} && old(allocated(h)) ==> h.parent == old(h.parent)
    requires forall h :: h in PathHeads(c.path) + {c.base} && h != PlaceHead(c.base, c.path) && old(allocated(h)) ==>
                           h.left == old(h.left) && h.right == old(h.right)
    requires var h := PlaceHead(c.base, c.path);
             if PlaceDir(c.path) == L then h.right == old(h.right) else h.left == old(h.left)
    ensures Models(c.base, c.path, c.after)
  {
    PathKept((c.base, c.path));
  }

  /** Replacing what hangs at a place by another arrangement of the same nodes. */
  twostate lemma Replanted(c: Change)
    requires old(Models(c.base, c.path, c.before))
    requires Distinct(c.after) && Heads(c.after) <= Heads(c.before)
    requires var h := PlaceHead(c.base, c.path); Slot(h, PlaceDir(c.path), c.after) && Linked(c.after)
    requires forall h :: h in PathHeads(c.path) + {c.base} && old(allocated(h)) ==> h.parent == old(h.parent)
    requires forall h :: h in PathHeads(c.path) + {c.base} && h != PlaceHead(c.base, c.path) && old(allocated(h)) ==>
                           h.left == old(h.left) && h.right == old(h.right)
    requires var h := PlaceHead(c.base, c.path);
             if PlaceDir(c.path) == L then h.right == old(h.right) else h.left == old(h.left)
    ensures Models(c.base, c.path, c.after)
  {
    hide Linked, PathLinked, Distinct, DistinctPath, Heads, PathHeads;
    Regrafted(c);
  }

  /** What memory holds does not depend on nodes elsewhere. */
  twostate lemma Unmoved(c: Change)
    requires old(Models(c.base, c.path, c.before)) && c.after == c.before
    requires forall h :: h in PathHeads(c.path) + {c.base} + Heads(c.before) && old(allocated(h)) ==>
                           h.left == old(h.left) && h.right == old(h.right) && h.parent == old(h.parent)
    ensures Models(c.base, c.path, c.after)
  {
    LinkedKept(c.before);
    PathKept((c.base, c.path));
  }
}
