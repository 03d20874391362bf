/** Queries on an index of string keys: the lower bound of a string, and auto-completion. */
module KeyIndex {
  import opened RedBlackSpec
  import opened RedBlackHeap
  import opened RedBlackNavigate
  import opened RedBlackIndex
  import opened Strings

  /** The first `k` nodes sort before `str`, and no other node does. */
  ghost predicate LowerBound(s: seq<Head>, str: Key, k: nat) {
    && k <= |s|
    && (forall i :: 0 <= i < k ==> Less(s[i].key, str))
    && (forall i :: k <= i < |s| ==> !Less(s[i].key, str))
  }

  lemma BoundBetween(b: seq<Head>, a: seq<Head>, str: Key)
    requires AllBelow(b, str) && AllAbove(a, str)
    ensures LowerBound(b + a, str, |b|)
  {
    hide Less;
    var s := b + a;
    forall i | |b| <= i < |s|
      ensures !Less(s[i].key, str)
    {
      assert s[i] == a[i - |b|];
      LessTotal(s[i].key, str);
    }
  }

  lemma BoundAt(b: seq<Head>, h: Head, a: seq<Head>)
    requires Sorted(b + [h] + a)
    ensures LowerBound(b + [h] + a, h.key, |b|)
  {
    hide Less;
    var s := b + [h] + a;
    assert s[|b|] == h;
    LessTotal(h.key, h.key);
    forall i | |b| < i < |s|
      ensures !Less(s[i].key, h.key)
    {
      LessTotal(s[i].key, h.key);
    }
  }

  lemma BoundIsFirst(s: seq<Head>, str: Key, k: nat)
    requires Sorted(s) && LowerBound(s, str, k)
    ensures k < |s| ==> s[k] in s && !Less(s[k].key, str)
    ensures forall h :: h in s && !Less(h.key, str) ==> k < |s| && (h == s[k] || Less(s[k].key, h.key))
  {
    hide Less;
  }

  lemma AfterRight(p: Path<Head>, t: Tree<Head>)
    requires t.Node?
    ensures After(Up(p, R, t.head, t.red, t.left)) == After(p)
    ensures Nearest(After(Up(p, L, t.head, t.red, t.right)), R) == t.head
  {
  }

  /** The first node that does not sort before `str`. */
  method Nfind(index: Index, str: Key) returns (res: Head?, ghost k: nat)
    requires index.Valid()
    ensures index.Valid() && LowerBound(index.Nodes(), str, k)
    ensures res == if k < |index.Nodes()| then index.Nodes()[k] else null
    ensures res != null ==> res in index.Nodes() && !Less(res.key, str)
    ensures forall h :: h in index.Nodes() && !Less(h.key, str) ==> res != null && (h == res || Less(res.key, h.key))
  {
    hide Models, PathLinked, Linked, Distinct, DistinctPath, Heads, PathHeads, InOrder, Sorted,
         AllBelow, AllAbove, Less, Nearest, LowerBound, RB;
    var parent, dir := index.base, L;
    res := null;
    ghost var p, t := Top, index.tree;
    NoneBeyond(str);
    NearestNone(R);
    assert Nearest(After(Top), R) == null by { BeyondTop(R); }
    while parent.HasChild(dir)
      invariant Models(index.base, p, t) && Plug(p, t) == index.tree
      invariant parent == PlaceHead(index.base, p) && dir == PlaceDir(p)
      invariant AllBelow(Before(p), str) && AllAbove(After(p), str)
      invariant res == Nearest(After(p), R)
      invariant index.Valid()
      decreases t
    {
      assert t.Node? by { PlaceLeaf(index.base, p, t); }
      StepDown(index.base, p, t, L);
      InOrderPlug(p, t);
      Descend(p, t, str);
      AfterRight(p, t);
      parent := parent.Child(dir).head;
      label Compared:
      var r := StringCmp(parent.key, str);
      Unmoved@Compared(Change(index.base, p, t, t));
      StepDown(index.base, p, t, L);
      StepDown(index.base, p, t, R);
      if r == 0 {
        OrderAround(p, t);
        k := |Before(p) + InOrder(t.left)|;
        BoundAt(Before(p) + InOrder(t.left), parent, InOrder(t.right) + After(p));
        assert LowerBound(index.Nodes(), str, k);
        assert (Before(p) + InOrder(t.left) + [parent])[k] == parent;
        BoundIsFirst(index.Nodes(), str, k);
        return parent, k;
      }
      dir := if r < 0 then R else L;
      if dir == L {
        res := parent;
      }
      p, t := Up(p, dir, t.head, t.red, Side(t, Opp(dir))), Side(t, dir);
    }
    assert t.Leaf? by { PlaceLeaf(index.base, p, t); }
    InOrderPlug(p, t);
    assert InOrder(t) == [] by { InOrderLeaf(t); }
    assert Before(p) + [] + After(p) == Before(p) + After(p);
    k := |Before(p)|;
    BoundBetween(Before(p), After(p), str);
    NearestAt(Before(p), After(p));
    BoundIsFirst(index.Nodes(), str, k);
  }

  lemma NearestAt(b: seq<Head>, a: seq<Head>)
    ensures Nearest(a, R) == if |b| < |b + a| then (b + a)[|b|] else null
  {
  }

  // Completion.

  /**
   * Whether a key is a completion of `str`. `restrictLen` is the number of characters a
   * completion must have, or 0, and `chars` counts the characters of a key.
   */
  predicate Completes(key: Key, str: Key, restrictLen: nat, chars: Key -> nat) {
    str <= key && (restrictLen == 0 || chars(key) == restrictLen)
  }

  function Completions(s: seq<Head>, str: Key, restrictLen: nat, chars: Key -> nat): seq<Head> {
    if s == [] then []
    else
      var rest, h := s[..|s| - 1], s[|s| - 1];
      Completions(rest, str, restrictLen, chars) + if Completes(h.key, str, restrictLen, chars) then [h] else []
  }

  lemma {:induction false} CompletionsIn(s: seq<Head>, str: Key, restrictLen: nat, chars: Key -> nat, h: Head)
    ensures h in Completions(s, str, restrictLen, chars) <==>
            h in s && str <= h.key && (restrictLen == 0 || chars(h.key) == restrictLen)
  {
    if s != [] {
      CompletionsIn(s[..|s| - 1], str, restrictLen, chars, h);
      assert s == s[..|s| - 1] + [s[|s| - 1]];
    }
  }

  lemma CompletionsNext(s: seq<Head>, i: nat, str: Key, restrictLen: nat, chars: Key -> nat)
    requires i < |s|
    ensures Completions(s[..i + 1], str, restrictLen, chars)
         == Completions(s[..i], str, restrictLen, chars)
            + if Completes(s[i].key, str, restrictLen, chars) then [s[i]] else []
  {
    assert s[..i + 1][..i] == s[..i];
  }

  /** Nodes without the prefix add no completions. */
  lemma {:induction false} CompletionsSkip(s: seq<Head>, i: nat, j: nat, str: Key, restrictLen: nat, chars: Key -> nat)
    requires i <= j <= |s| && forall m :: i <= m < j ==> !(str <= s[m].key)
    ensures Completions(s[..j], str, restrictLen, chars) == Completions(s[..i], str, restrictLen, chars)
    decreases j
  {
    if i < j {
      CompletionsSkip(s, i, j - 1, str, restrictLen, chars);
      CompletionsNext(s, j - 1, str, restrictLen, chars);
    }
  }

  /** No node before the lower bound of a string has it as a prefix. */
  lemma NoPrefixBelow(s: seq<Head>, str: Key, k: nat, i: nat)
    requires LowerBound(s, str, k) && i < k
    ensures !(str <= s[i].key)
  {
    assert Less(s[i].key, str);
    PrefixDiff(s[i].key, str);
  }

  /** Where the prefix ends, no later node has it. */
  lemma NoPrefixBeyond(s: seq<Head>, str: Key, k: nat, i: nat, j: nat)
    requires LowerBound(s, str, k) && Sorted(s) && k <= i <= j < |s| && !(str <= s[i].key)
    ensures !(str <= s[j].key)
  {
    hide Less;
    if i < j {
      PrefixConvex(str, s[i].key, s[j].key);
    }
  }

  /** `n` is the least length of a common prefix of `first` and one of the keys. */
  ghost predicate Shared(ks: seq<Head>, first: Key, n: nat) {
    && (forall i :: 0 <= i < |ks| ==> n <= Diff(ks[i].key, first))
    && (exists i :: 0 <= i < |ks| && n == Diff(ks[i].key, first))
  }

  lemma SharedOne(h: Head)
    ensures Shared([h], h.key, |h.key|)
  {
    DiffUnique(h.key, h.key, |h.key|);
    assert [h][0] == h;
  }

  lemma SharedNext(ks: seq<Head>, first: Key, n: nat, h: Head)
    requires Shared(ks, first, n)
    ensures Shared(ks + [h], first, if Diff(h.key, first) < n then Diff(h.key, first) else n)
  {
    hide Diff;
    var s := ks + [h];
    assert s[|ks|] == h;
    var i :| 0 <= i < |ks| && n == Diff(ks[i].key, first);
    assert s[i] == ks[i];
  }

  /** Every key has the prefix `w`. */
  ghost predicate CommonPrefix(ks: seq<Head>, w: Key) {
    forall i :: 0 <= i < |ks| ==> w <= ks[i].key
  }

  /** The shared prefix is common to all keys, and no longer string is. */
  lemma {:induction false} SharedLongest(ks: seq<Head>, n: nat, str: Key)
    requires ks != [] && Shared(ks, ks[0].key, n)
    requires CommonPrefix(ks, str)
    ensures |str| <= n <= |ks[0].key| && CommonPrefix(ks, ks[0].key[..n])
    ensures forall w: Key :: CommonPrefix(ks, w) ==> w <= ks[0].key[..n]
  {
    hide Diff;
    var first := ks[0].key;
    forall i | 0 <= i < |ks|
      ensures first[..n] <= ks[i].key
    {
      var m := Diff(ks[i].key, first);
      assert n <= m && ks[i].key[..m] == first[..m];
      assert first[..m][..n] == first[..n] && ks[i].key[..m][..n] == ks[i].key[..n];
    }
    var i :| 0 <= i < |ks| && n == Diff(ks[i].key, first);
    forall w: Key | CommonPrefix(ks, w)
      ensures w <= first[..n]
    {
      CommonPrefixBound(ks[i].key, first, w);
    }
    CommonPrefixBound(ks[i].key, first, str);
  }

  lemma CommonPrefixBound(a: Key, b: Key, w: Key)
    requires w <= a && w <= b
    ensures |w| <= Diff(a, b) && w <= b[..Diff(a, b)]
  {
  }

  method HasPrefix(cur: Head?, str: Key) returns (has: bool)
    ensures has <==> cur != null && str <= cur.key
  {
    if cur == null || |cur.key| < |str| {
      return false;
    }
    var len := StringDiff(cur.key, str);
    PrefixDiff(cur.key, str);
    has := len == |str|;
  }

  /**
   * What completing `str` means: the inserted string is what all completions share after `str`,
   * and if that is nothing and there are several, all are offered.
   */
  ghost predicate Completed(m: seq<Head>, str: Key, insert: Key, popup: seq<Key>, unambiguous: bool) {
    && (unambiguous <==> |m| == 1)
    && (m == [] ==> insert == [])
    && (m != [] ==> CommonPrefix(m, str + insert))
    && (m != [] ==> forall w: Key :: CommonPrefix(m, w) ==> w <= str + insert)
    && popup == if |m| > 1 && insert == [] then KeysOf(m) else []
  }

  lemma CompletesIff(key: Key, str: Key, restrictLen: nat, chars: Key -> nat)
    requires str <= key
    ensures Completes(key, str, restrictLen, chars) <==> restrictLen == 0 || chars(key) == restrictLen
  {
  }

  lemma CompletionsPrefixed(s: seq<Head>, str: Key, restrictLen: nat, chars: Key -> nat)
    ensures CommonPrefix(Completions(s, str, restrictLen, chars), str)
  {
    hide Completions;
    var m := Completions(s, str, restrictLen, chars);
    forall i | 0 <= i < |m|
      ensures str <= m[i].key
    {
      CompletionsIn(s, str, restrictLen, chars, m[i]);
    }
  }

  /** There are no completions below the lower bound. */
  lemma CompletionsNone(s: seq<Head>, str: Key, restrictLen: nat, chars: Key -> nat, k: nat)
    requires LowerBound(s, str, k)
    ensures k <= |s| && Completions(s[..k], str, restrictLen, chars) == []
  {
    hide LowerBound, Completes;
    BoundIn(s, str, k);
    forall m | 0 <= m < k
      ensures !(str <= s[m].key)
    {
      NoPrefixBelow(s, str, k, m);
    }
    CompletionsSkip(s, 0, k, str, restrictLen, chars);
  }

  /** There are no completions from a later node without the prefix on. */
  lemma CompletionsEnd(s: seq<Head>, str: Key, restrictLen: nat, chars: Key -> nat, k: nat, i: nat)
    requires LowerBound(s, str, k) && Sorted(s) && k <= i <= |s| && (i < |s| ==> !(str <= s[i].key))
    ensures Completions(s[..i], str, restrictLen, chars) == Completions(s, str, restrictLen, chars)
  {
    hide LowerBound, Sorted, Completes;
    forall m | i <= m < |s|
      ensures !(str <= s[m].key)
    {
      NoPrefixBeyond(s, str, k, i, m);
    }
    CompletionsSkip(s, i, |s|, str, restrictLen, chars);
    assert s[..|s|] == s;
  }

  lemma BoundIn(s: seq<Head>, str: Key, k: nat)
    requires LowerBound(s, str, k)
    ensures k <= |s|
  {
  }

  /** The completions counted so far: the first of them and the length of what they share after `str`. */
  ghost predicate Counted(m: seq<Head>, str: Key, first: Head?, prefixLen: nat, entries: nat) {
    && entries == |m|
    && (m == [] ==> first == null && prefixLen == 0)
    && (m != [] ==> first == m[0] && Shared(m, first.key, |str| + prefixLen))
  }

  method CountNext(cur: Head, str: Key, first: Head?, prefixLen: nat, entries: nat, ghost m: seq<Head>)
    returns (first': Head, prefixLen': nat, entries': nat)
    requires Counted(m, str, first, prefixLen, entries) && CommonPrefix(m, str) && str <= cur.key
    ensures first' == if first == null then cur else first
    ensures Counted(m + [cur], str, first', prefixLen', entries')
  {
    hide Shared;
    entries' := entries + 1;
    first', prefixLen' := cur, |cur.key| - |str|;
    if first == null {
      SharedOne(cur);
      assert m + [cur] == [cur];
    } else {
      first', prefixLen' := first, prefixLen;
      var len := StringDiff(cur.key, first.key);
      SharedNext(m, first.key, |str| + prefixLen, cur);
      CommonPrefixBound(cur.key, first.key, str);
      len := len - |str|;
      if len < prefixLen' {
        prefixLen' := len;
      }
    }
  }

  method CountCompletions(index: Index, str: Key, restrictLen: nat, chars: Key -> nat)
    returns (first: Head?, prefixLen: nat, entries: nat, ghost k: nat, ghost f: nat)
    requires index.Valid()
    ensures index.Valid()
    ensures Counted(Completions(index.Nodes(), str, restrictLen, chars), str, first, prefixLen, entries)
    ensures first != null ==> f < |index.Nodes()| && index.Nodes()[f] == first
                              && Completions(index.Nodes()[..f], str, restrictLen, chars) == []
    ensures LowerBound(index.Nodes(), str, k) && (first != null ==> k <= f)
  {
    hide index.Valid, index.Nodes, Completions, Completes, LowerBound, CommonPrefix, Sorted, Shared;
    first, prefixLen, entries, f := null, 0, 0, 0;
    var cur;
    cur, k := Nfind(index, str);
    ghost var s, i := index.Nodes(), k;
    index.ValidSorted();
    CompletionsNone(s, str, restrictLen, chars, k);
    var more := HasPrefix(cur, str);
    while more
      invariant index.Valid() && index.Nodes() == s && k <= i <= |s|
      invariant cur == if i < |s| then s[i] else null
      invariant more <==> cur != null && str <= cur.key
      invariant Counted(Completions(s[..i], str, restrictLen, chars), str, first, prefixLen, entries)
      invariant first != null ==> k <= f < i && s[f] == first && Completions(s[..f], str, restrictLen, chars) == []
      decreases |s| - i
    {
      CompletionsNext(s, i, str, restrictLen, chars);
      ghost var m := Completions(s[..i], str, restrictLen, chars);
      if restrictLen == 0 || chars(cur.key) == restrictLen {
        assert Completes(cur.key, str, restrictLen, chars) by { CompletesIff(cur.key, str, restrictLen, chars); }
        CompletionsPrefixed(s[..i], str, restrictLen, chars);
        if first == null {
          f := i;
          assert m == [];
        }
        first, prefixLen, entries := CountNext(cur, str, first, prefixLen, entries, m);
      } else {
        assert !Completes(cur.key, str, restrictLen, chars) by { CompletesIff(cur.key, str, restrictLen, chars); }
        assert m + [] == m;
      }
      cur := index.GetNeighbour(cur, R, i);
      i := i + 1;
      more := HasPrefix(cur, str);
    }
    CompletionsEnd(s, str, restrictLen, chars, k, i);
  }

  method AutoComplete(index: Index, str: Key, restrictLen: nat, chars: Key -> nat)
    returns (unambiguous: bool, insert: Key, popup: seq<Key>)
    requires index.Valid()
    ensures index.Valid()
    ensures Completed(Completions(index.Nodes(), str, restrictLen, chars), str, insert, popup, unambiguous)
  {
    hide index.Valid, index.Nodes, Completions, Completes, LowerBound, CommonPrefix, Sorted, Shared, KeysOf;
    var first, prefixLen, entries; ghost var k, f;
    first, prefixLen, entries, k, f := CountCompletions(index, str, restrictLen, chars);
    ghost var s := index.Nodes();
    ghost var m := Completions(s, str, restrictLen, chars);
    insert, popup, unambiguous := [], [], entries == 1;
    if first != null {
      CompletionsPrefixed(s, str, restrictLen, chars);
      SharedLongest(m, |str| + prefixLen, str);
      InsertedPart(first.key, str, prefixLen, m);
    }
    if prefixLen > 0 {
      insert := first.key[|str|..|str| + prefixLen];
    } else if entries > 1 {
      popup := Offer(index, str, restrictLen, chars, first, k, f);
    }
  }

  /** The inserted part completes `str` to the shared prefix. */
  lemma InsertedPart(key: Key, str: Key, n: nat, m: seq<Head>)
    requires |str| + n <= |key| && CommonPrefix(m, str) && m != [] && m[0].key == key
    ensures str + key[|str|..|str| + n] == key[..|str| + n]
  {
    assert str <= m[0].key;
  }

  /** Offers all completions, from the first on. */
  method Offer(index: Index, str: Key, restrictLen: nat, chars: Key -> nat, first: Head?, ghost k: nat, ghost f: nat)
    returns (popup: seq<Key>)
    requires index.Valid() && first != null && f < |index.Nodes()| && index.Nodes()[f] == first
    requires Completions(index.Nodes()[..f], str, restrictLen, chars) == []
    requires k <= f && LowerBound(index.Nodes(), str, k)
    ensures index.Valid()
    ensures popup == KeysOf(Completions(index.Nodes(), str, restrictLen, chars))
  {
    hide index.Valid, index.Nodes, Completions, Completes, LowerBound, Sorted, KeysOf;
    popup := [];
    var cur := first;
    ghost var s, i := index.Nodes(), f;
    index.ValidSorted();
    NoKeys();
    var more := HasPrefix(cur, str);
    while more
      invariant index.Valid() && index.Nodes() == s && f <= i <= |s|
      invariant cur == if i < |s| then s[i] else null
      invariant more <==> cur != null && str <= cur.key
      invariant popup == KeysOf(Completions(s[..i], str, restrictLen, chars))
      decreases |s| - i
    {
      CompletionsNext(s, i, str, restrictLen, chars);
      CompletesIff(cur.key, str, restrictLen, chars);
      ghost var m := Completions(s[..i], str, restrictLen, chars);
      if restrictLen == 0 || chars(cur.key) == restrictLen {
        KeysOfAppend(m, cur);
        popup := popup + [cur.key];
      } else {
        assert m + [] == m;
      }
      cur := index.GetNeighbour(cur, R, i);
      i := i + 1;
      more := HasPrefix(cur, str);
    }
    CompletionsEnd(s, str, restrictLen, chars, k, i);
  }

  lemma KeysOfAppend(m: seq<Head>, h: Head)
    ensures KeysOf(m + [h]) == KeysOf(m) + [h.key]
  {
    var s := m + [h];
    assert s[..|m|] == m && s[..|m| + 1] == s;
    KeysAppend(s, |m|);
  }
}
