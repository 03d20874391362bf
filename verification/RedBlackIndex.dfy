/** An index of nodes by their keys: a red-black tree below a base. */
module RedBlackIndex {
  import opened Sequences
  import opened RedBlackSpec
  import opened RedBlackHeap
  import opened RedBlackRotate
  import opened RedBlackRemove
  import opened RedBlackNavigate
  import opened Strings
  import opened Words

  datatype Op = Add(key: Key) | Drop(key: Key)

  /** The keys after a sequence of insertions and deletions. */
  ghost function Folded(ops: seq<Op>, keys: set<Key>): set<Key> {
    if ops == [] then keys
    else
      var rest := Folded(ops[..|ops| - 1], keys);
      match ops[|ops| - 1]
      case Add(k) => rest + {k}
      case Drop(k) => rest - {k}
  }

  ghost function KeySet(s: seq<Head>): set<Key> {
    set i | 0 <= i < |s| :: s[i].key
  }

  function KeysOf(s: seq<Head>): (r: seq<Key>)
    ensures |r| == |s|
  {
    if s == [] then [] else [s[0].key] + KeysOf(s[1..])
  }

  lemma {:induction false} KeysAt(s: seq<Head>, i: nat)
    requires i < |s|
    ensures KeysOf(s)[i] == s[i].key
  {
    if i > 0 {
      KeysAt(s[1..], i - 1);
    }
  }

  lemma KeysAppend(s: seq<Head>, i: nat)
    requires i < |s|
    ensures KeysOf(s[..i + 1]) == KeysOf(s[..i]) + [s[i].key]
  {
    forall j | 0 <= j < i + 1
      ensures KeysOf(s[..i + 1])[j] == (KeysOf(s[..i]) + [s[i].key])[j]
    {
      KeysAt(s[..i + 1], j);
      if j < i {
        KeysAt(s[..i], j);
      }
    }
  }

  lemma NoKeys()
    ensures KeysOf([]) == []
  {
  }

  lemma KeysIncrease(s: seq<Head>)
    requires Sorted(s)
    ensures forall i, j :: 0 <= i < j < |s| ==> Less(KeysOf(s)[i], KeysOf(s)[j])
  {
    hide Less, KeysOf;
    forall i, j | 0 <= i < j < |s|
      ensures Less(KeysOf(s)[i], KeysOf(s)[j])
    {
      KeysAt(s, i);
      KeysAt(s, j);
    }
  }

  lemma FoldedNone(keys: set<Key>)
    ensures Folded([], keys) == keys
  {
  }

  lemma FoldedStep(ops: seq<Op>, i: nat, keys: set<Key>)
    requires i < |ops|
    ensures Folded(ops[..i + 1], keys) ==
            match ops[i] { case Add(k) => Folded(ops[..i], keys) + {k} case Drop(k) => Folded(ops[..i], keys) - {k} }
  {
    assert ops[..i + 1][..i] == ops[..i];
  }

  // What insertion and deletion do to the order.

  /** `t` is `s` with `h` inserted somewhere. */
  ghost predicate Adds(s: seq<Head>, h: Head, t: seq<Head>) {
    exists i :: 0 <= i <= |s| && t == s[..i] + [h] + s[i..]
  }

  lemma Added(b: seq<Head>, h: Head, a: seq<Head>)
    ensures Adds(b + a, h, b + [h] + a)
  {
    assert (b + a)[..|b|] == b && (b + a)[|b|..] == a;
  }

  lemma LinkedOrder(p: Path<Head>, head: Head)
    requires AllBelow(Before(p), head.key) && AllAbove(After(p), head.key) && Sorted(Before(p) + After(p))
    ensures InOrder(FixLink(p, Node(Leaf, head, true, Leaf))) == Before(p) + [head] + After(p)
    ensures Sorted(Before(p) + [head] + After(p))
  {
    hide FixLink, Sorted, Less;
    var n := Node(Leaf, head, true, Leaf);
    FixLinkOrder(p, n);
    InOrderPlug(p, n);
    assert InOrder(n) == [head];
    SortedInsert(Before(p), head, After(p));
  }

  lemma SortedInsert(b: seq<Head>, h: Head, a: seq<Head>)
    requires AllBelow(b, h.key) && AllAbove(a, h.key) && Sorted(b + a)
    ensures Sorted(b + [h] + a)
  {
    hide Less;
    var s, t := b + [h] + a, b + a;
    forall i, j | 0 <= i < j < |s|
      ensures Less(s[i].key, s[j].key)
    {
      if i == |b| {
        assert s[j] == a[j - |b| - 1];
      } else if j == |b| {
        assert s[i] == b[i];
      } else {
        assert s[i] == t[if i < |b| then i else i - 1] && s[j] == t[if j < |b| then j else j - 1];
      }
    }
  }

  lemma SortedRemove(b: seq<Head>, h: Head, a: seq<Head>)
    requires Sorted(b + [h] + a)
    ensures Sorted(b + a)
  {
    hide Less;
    var s, t := b + [h] + a, b + a;
    forall i, j | 0 <= i < j < |t|
      ensures Less(t[i].key, t[j].key)
    {
      assert t[i] == s[if i < |b| then i else i + 1] && t[j] == s[if j < |b| then j else j + 1];
    }
  }

  /** Adding a node to an order that stays sorted adds its key, which was not there. */
  lemma AddsKey(s: seq<Head>, h: Head, t: seq<Head>)
    requires Adds(s, h, t) && Sorted(t)
    ensures KeySet(t) == KeySet(s) + {h.key} && h.key !in KeySet(s)
  {
    hide KeySet, Sorted;
    var i :| 0 <= i <= |s| && t == s[..i] + [h] + s[i..];
    assert s[..i] + s[i..] == s;
    KeySetInsert(s[..i], h, s[i..]);
    SortedUnique(s[..i], h, s[i..]);
  }

  /** The order around the root of a subtree. */
  lemma OrderAround(p: Path<Head>, t: Tree<Head>)
    requires t.Node?
    ensures InOrder(Plug(p, t)) == (Before(p) + InOrder(t.left)) + [t.head] + (InOrder(t.right) + After(p))
  {
    hide InOrder, Before, After;
    InOrderPlug(p, t);
    InOrderNode(t);
    AppendRight(Before(p), InOrder(t.left), t.head, InOrder(t.right), After(p));
    assert [t.head] + InOrder(t.right) + After(p) == [t.head] + (InOrder(t.right) + After(p));
  }

  lemma UnlinkedOrder(p: Path<Head>, t: Tree<Head>)
    requires t.Node? && NoDup(InOrder(Plug(p, t)))
    ensures InOrder(Unlink(p, t)) == (Before(p) + InOrder(t.left)) + (InOrder(t.right) + After(p))
  {
    hide InOrder, Before, After, NoDup, Unlink;
    UnlinkOrder(p, t);
    assert Before(p) + (InOrder(t.left) + InOrder(t.right)) + After(p)
        == (Before(p) + InOrder(t.left)) + (InOrder(t.right) + After(p));
  }

  /** The places of a valid tree satisfy the invariant. */
  lemma PlaceRB(p: Path<Head>, t: Tree<Head>) returns (n: nat)
    requires RedBlackSpec.Valid(Plug(p, t))
    ensures RB(t, n) && RBPath(p, n) && (IsRed(t) ==> MayBeRed(p))
  {
    var k: nat :| RB(Plug(p, t), k);
    n := PlugRB(p, t, k);
  }

  lemma LinkedValid(p: Path<Head>, head: Head)
    requires RedBlackSpec.Valid(Plug(p, Leaf))
    ensures RBPath(p, 0) && RedBlackSpec.Valid(FixLink(p, Node(Leaf, head, true, Leaf)))
  {
    var n := PlaceRB(p, Leaf);
    FixLinkValid(p, Node(Leaf, head, true, Leaf), 0);
  }

  lemma KeyAbsent(b: seq<Head>, a: seq<Head>, key: Key)
    requires AllBelow(b, key) && AllAbove(a, key)
    ensures key !in KeySet(b + a)
  {
    hide Less;
    var s := b + a;
    LessTotal(key, key);
    forall i | 0 <= i < |s|
      ensures s[i].key != key
    {
      if i < |b| {
        assert s[i] == b[i] && b[i] in b;
      } else {
        assert s[i] == a[i - |b|] && a[i - |b|] in a;
      }
    }
  }

  lemma KeySetInsert(b: seq<Head>, h: Head, a: seq<Head>)
    ensures KeySet(b + [h] + a) == KeySet(b + a) + {h.key}
  {
    var s, t := b + [h] + a, b + a;
    assert s[|b|] == h;
    forall i | 0 <= i < |t|
      ensures t[i].key in KeySet(s)
    {
      assert t[i] == s[if i < |b| then i else i + 1];
    }
    forall i | 0 <= i < |s| && i != |b|
      ensures s[i].key in KeySet(t)
    {
      assert s[i] == t[if i < |b| then i else i - 1];
    }
  }

  lemma SortedUnique(b: seq<Head>, h: Head, a: seq<Head>)
    requires Sorted(b + [h] + a)
    ensures h.key !in KeySet(b + a)
  {
    hide Less;
    var s, t := b + [h] + a, b + a;
    assert s[|b|] == h;
    LessTotal(h.key, h.key);
    forall i | 0 <= i < |t|
      ensures t[i].key != h.key
    {
      assert t[i] == s[if i < |b| then i else i + 1];
    }
  }

  class Index {
    const base: Head
    ghost var tree: Tree<Head>
    ghost var repr: set<Head>

    ghost predicate Valid()
      reads this, base, repr
    {
      && repr == Heads(tree) && Models(base, Top, tree)
      && RedBlackSpec.Valid(tree) && Sorted(InOrder(tree))
    }

    /** The nodes in order. */
    ghost function Nodes(): seq<Head>
      reads this
    {
      InOrder(tree)
    }

    constructor ()
      ensures Valid() && fresh(base) && repr == {} && Nodes() == []
    {
      base := new Head([]);
      tree, repr := Leaf, {};
      new;
      base.right := Link(null, true);
      assert RB<Head>(Leaf, 0);
    }

    method Insert(head: Head) returns (found: Head?)
      requires Valid() && head !in repr && head != base
      modifies this, base, head, repr
      ensures Valid()
      ensures found != null ==> found in repr && found.key == head.key && repr == old(repr) && Nodes() == old(Nodes())
      ensures found != null ==> head.key in KeySet(Nodes())
      ensures found == null ==> repr == old(repr) + {head} && head.key !in KeySet(old(Nodes()))
      ensures found == null ==> Adds(old(Nodes()), head, Nodes())
    {
      hide Models, Heads, FixLink, Sorted, AllBelow, AllAbove, InOrder, RB, RBPath;
      label Start:
      var parent, dir; ghost var p, t;
      found, parent, dir, p, t := FindParent(base, head.key, tree);
      HeadsPlug(p, t);
      if found != null {
        RootInHeads(t);
        ModelsPlug(base, p, t);
        OrderAround(p, t);
        KeySetInsert(Before(p) + InOrder(t.left), t.head, InOrder(t.right) + After(p));
        return;
      }
      LinkedValid(p, head);
      InOrderPlug(p, t);
      assert InOrder(t) == [] by { InOrderLeaf(t); }
      assert Before(p) + [] + After(p) == Before(p) + After(p);
      LinkedOrder(p, head);
      KeyAbsent(Before(p), After(p), head.key);
      Added(Before(p), head, After(p));
      LinkAndRebalance(head, parent, dir, base, p);
      label Linked:
      tree := FixLink(p, Node(Leaf, head, true, Leaf));
      Unmoved@Linked(Change(base, Top, tree, tree));
      repr := repr + {head};
      assert repr == Heads(tree) by { OrderHeads(tree, old(tree), Before(p), head, After(p)); }
    }

    method Delete(key: Key) returns (found: Head?)
      requires Valid()
      modifies this, base, repr
      ensures Valid()
      ensures found == null ==> key !in KeySet(old(Nodes())) && repr == old(repr) && Nodes() == old(Nodes())
      ensures found != null ==> found.key == key && repr == old(repr) - {found}
      ensures found != null ==> Adds(Nodes(), found, old(Nodes()))
    {
      hide Models, Heads, Unlink, Sorted, AllBelow, AllAbove, InOrder, RB, RBPath, NoDup;
      var parent, dir; ghost var p, t;
      found, parent, dir, p, t := FindParent(base, key, tree);
      HeadsPlug(p, t);
      if found == null {
        ModelsPlug(base, p, t);
        InOrderPlug(p, t);
        assert InOrder(t) == [] by { InOrderLeaf(t); }
        assert Before(p) + [] + After(p) == Before(p) + After(p);
        KeyAbsent(Before(p), After(p), key);
        return;
      }
      ghost var n := PlaceRB(p, t);
      ghost var b, a := Before(p) + InOrder(t.left), InOrder(t.right) + After(p);
      OrderAround(p, t);
      assert NoDup(InOrder(tree)) by {
        ModelsPlug(base, p, t);
        ModelsDistinct(base, tree);
        DistinctNoDup(tree);
      }
      UnlinkedOrder(p, t);
      UnlinkValid(p, t, n);
      SortedRemove(b, found, a);
      Added(b, found, a);
      UnlinkAndRebalance(found, base, p, t, n);
      label Unlinked:
      tree := Unlink(p, t);
      Unmoved@Unlinked(Change(base, Top, tree, tree));
      repr := repr - {found};
      assert repr == Heads(tree) by { OrderRest(old(tree), tree, b, found, a); }
    }

    /** The first (`dir == L`) or last node. */
    method GetMinmax(dir: Dir) returns (head: Head?)
      requires Valid()
      ensures Valid()
      ensures head == if Nodes() == [] then null else if dir == L then Nodes()[0] else Nodes()[|Nodes()| - 1]
    {
      hide Models, Heads, PathHeads, Sorted, RB;
      RootFacts(base, tree);
      head := GetMinmaxInSubtree(base.left.head, dir, tree);
      if tree.Node? {
        OutermostOrder(tree, dir);
      }
    }

    /** The neighbour of the i-th node in order. */
    method GetNeighbour(head: Head, dir: Dir, ghost i: nat) returns (next: Head?)
      requires Valid() && i < |Nodes()| && Nodes()[i] == head
      ensures Valid()
      ensures next == if dir == R then if i + 1 < |Nodes()| then Nodes()[i + 1] else null
                      else if i > 0 then Nodes()[i - 1] else null
    {
      hide Models, Heads, PathHeads, Sorted, InOrder, RB, NoDup;
      HeadsInOrder(tree, head);
      ghost var p, t := Locate(Top, tree, head);
      ModelsPlug(base, p, t);
      OrderAround(p, t);
      ModelsDistinct(base, tree);
      DistinctNoDup(tree);
      OnlyAt(Before(p) + InOrder(t.left), head, InOrder(t.right) + After(p), i);
      next := GetPrevnext(head, dir, base, p, t);
    }

    /** The keys in the order in which walking from the minimum meets them. */
    method List() returns (keys: seq<Key>)
      requires Valid()
      ensures Valid()
      ensures keys == KeysOf(Nodes()) && forall i, j :: 0 <= i < j < |keys| ==> Less(keys[i], keys[j])
    {
      hide Valid, KeysOf, Less, Sorted;
      keys := [];
      var head := GetMinmax(L);
      ghost var i := 0;
      assert KeysOf([]) == [] by { NoKeys(); }
      while head != null
        invariant Valid() && i <= |Nodes()| && keys == KeysOf(Nodes()[..i])
        invariant head == if i < |Nodes()| then Nodes()[i] else null
        decreases |Nodes()| - i
      {
        keys := keys + [head.key];
        KeysAppend(Nodes(), i);
        head := GetNeighbour(head, R, i);
        i := i + 1;
      }
      assert Nodes()[..i] == Nodes();
      ValidSorted();
      KeysIncrease(Nodes());
    }

    lemma ValidSorted()
      requires Valid()
      ensures Sorted(Nodes()) && Pow2(Depth(tree)) <= (|Nodes()| + 1) * (|Nodes()| + 1)
    {
      hide Models, Sorted, InOrder, Depth, Pow2;
      HeightBound(tree);
    }

    /**
     * After any run of insertions and deletions the index holds exactly the keys inserted and
     * not deleted since, in increasing order, and its height is at most twice the logarithm of
     * its size.
     */
    method Run(ops: seq<Op>)
      requires Valid()
      modifies this, base, repr
      ensures Valid() && fresh(repr - old(repr))
      ensures KeySet(Nodes()) == Folded(ops, old(KeySet(Nodes()))) && Sorted(Nodes())
      ensures Pow2(Depth(tree)) <= (|Nodes()| + 1) * (|Nodes()| + 1)
    {
      hide Valid, Sorted, Adds, Folded, KeySet, InOrder, Less, Nodes, Pow2, Depth;
      ghost var keys := KeySet(Nodes());
      FoldedNone(keys);
      for i := 0 to |ops|
        invariant Valid() && fresh(repr - old(repr))
        invariant KeySet(Nodes()) == Folded(ops[..i], keys)
      {
        ghost var before := Nodes();
        ValidSorted();
        FoldedStep(ops, i, keys);
        match ops[i] {
          case Add(key) =>
            var head := new Head(key);
            var found := Insert(head);
            ValidSorted();
            if found == null {
              AddsKey(before, head, Nodes());
            }
          case Drop(key) =>
            var found := Delete(key);
            if found != null {
              AddsKey(Nodes(), found, before);
            }
        }
      }
      assert ops[..|ops|] == ops;
      ValidSorted();
    }
  }

  lemma RootFacts(base: Head, t: Tree<Head>)
    requires Models(base, Top, t)
    ensures Linked(t) && base.left.head == Root(t)
  {
  }

  /** Where a node that occurs once occurs, and what is next to it. */
  lemma OnlyAt(b: seq<Head>, h: Head, a: seq<Head>, i: nat)
    requires NoDup(b + [h] + a) && i < |b + [h] + a| && (b + [h] + a)[i] == h
    ensures i == |b|
  {
    assert (b + [h] + a)[|b|] == h;
  }

  lemma OrderRest(t: Tree<Head>, u: Tree<Head>, b: seq<Head>, h: Head, a: seq<Head>)
    requires InOrder(t) == b + [h] + a && InOrder(u) == b + a && Sorted(InOrder(t))
    ensures Heads(u) == Heads(t) - {h}
  {
    hide InOrder, Heads, Sorted;
    OrderHeads(t, u, b, h, a);
    HeadsInOrder(u, h);
    SortedUnique(b, h, a);
    KeysOutside(b + a, h);
  }

  lemma KeysOutside(s: seq<Head>, h: Head)
    requires h.key !in KeySet(s)
    ensures h !in s
  {
  }

  lemma OrderHeads(t: Tree<Head>, u: Tree<Head>, b: seq<Head>, h: Head, a: seq<Head>)
    requires InOrder(t) == b + [h] + a && InOrder(u) == b + a
    ensures Heads(t) == Heads(u) + {h}
  {
    hide InOrder, Heads;
    InsertedIn(b, h, a);
    forall x | x in Heads(t)
      ensures x in Heads(u) + {h}
    {
      HeadsInOrder(t, x);
      HeadsInOrder(u, x);
    }
    forall x | x in Heads(u) + {h}
      ensures x in Heads(t)
    {
      HeadsInOrder(t, x);
      HeadsInOrder(u, x);
    }
  }

  lemma InsertedIn<H>(b: seq<H>, h: H, a: seq<H>)
    ensures forall x :: x in b + [h] + a <==> x in b + a || x == h
  {
    var s := b + [h] + a;
    assert s[|b|] == h;
  }
}
