/** Tail queues: doubly linked lists whose head is an entry before the first and after the last. */
module TailQueue {
  import opened Sequences
  import opened Options

  class Entry {
    const name: Option<string>
    var next: Entry?
    var prev: Entry?

    constructor (name: Option<string>)
      ensures this.name == name && next == null && prev == null
    {
      this.name, next, prev := name, null, null;
    }
  }

  /** The entry before the `i`-th one. */
  function Before(head: Entry, es: seq<Entry>, i: nat): Entry
    requires i <= |es|
  {
    if i == 0 then head else es[i - 1]
  }

  /** The entry after the `i`-th one. */
  function After(es: seq<Entry>, i: nat): Entry?
    requires i <= |es|
  {
    if i < |es| then es[i] else null
  }

  /** The links of the queue with these entries. */
  ghost predicate Linked(head: Entry, es: seq<Entry>)
    reads head, es
  {
    && head !in es && NoDup(es)
    && head.next == After(es, 0) && head.prev == Before(head, es, |es|)
    && forall i :: 0 <= i < |es| ==> es[i].prev == Before(head, es, i) && es[i].next == After(es, i + 1)
  }

  function Inserted(es: seq<Entry>, i: nat, b: Entry): seq<Entry>
    requires i <= |es|
  {
    es[..i] + [b] + es[i..]
  }

  function Removed(es: seq<Entry>, i: nat): seq<Entry>
    requires i < |es|
  {
    es[..i] + es[i + 1..]
  }

  /** A queue with an entry more, by position. */
  lemma InsertedAt(head: Entry, es: seq<Entry>, i: nat, b: Entry)
    requires i <= |es| && b !in es && NoDup(es)
    ensures var s := Inserted(es, i, b);
            && |s| == |es| + 1 && NoDup(s)
            && (forall j :: 0 <= j < i ==> s[j] == es[j]) && s[i] == b
            && (forall j :: i < j < |s| ==> s[j] == es[j - 1])
  {
  }

  lemma RemovedAt(es: seq<Entry>, i: nat)
    requires i < |es| && NoDup(es)
    ensures var s := Removed(es, i);
            && |s| == |es| - 1 && NoDup(s) && es[i] !in s
            && (forall j :: 0 <= j < i ==> s[j] == es[j])
            && (forall j :: i <= j < |s| ==> s[j] == es[j + 1])
            && Inserted(s, i, es[i]) == es
  {
  }

  lemma Different(es: seq<Entry>)
    requires NoDup(es)
    ensures forall i, j :: 0 <= i < |es| && 0 <= j < |es| && i != j ==> es[i] != es[j]
  {
  }

  lemma Ends(head: Entry, es: seq<Entry>)
    ensures Before(head, es, 0) == head && After(es, |es|) == null
    ensures es != [] ==> Before(head, es, |es|) == es[|es| - 1] && After(es, 0) == es[0]
    ensures |es| > 1 ==> After(es, 1) == es[1]
  {
  }

  lemma InsertedDistinct(head: Entry, es: seq<Entry>, i: nat, b: Entry)
    requires i <= |es| && b !in es && NoDup(es) && head !in es && head != b
    ensures NoDup(Inserted(es, i, b)) && head !in Inserted(es, i, b) && |Inserted(es, i, b)| == |es| + 1
  {
    InsertedAt(head, es, i, b);
  }

  lemma RemovedDistinct(head: Entry, es: seq<Entry>, i: nat)
    requires i < |es| && NoDup(es) && head !in es
    ensures NoDup(Removed(es, i)) && head !in Removed(es, i) && |Removed(es, i)| == |es| - 1
  {
    RemovedAt(es, i);
  }

  lemma InsertedNext(head: Entry, es: seq<Entry>, i: nat, b: Entry, j: nat)
    requires i <= |es| && j <= |es| + 1
    ensures var s := Inserted(es, i, b);
            && |s| == |es| + 1
            && Before(head, s, j) == (if j <= i then Before(head, es, j) else if j == i + 1 then b
                else Before(head, es, j - 1))
            && After(s, j) == (if j < i then After(es, j) else if j == i then b else After(es, j - 1))
            && (j < |s| ==> s[j] == if j < i then es[j] else if j == i then b else es[j - 1])
            && (i < |es| ==> After(es, i) == es[i])
  {
  }

  lemma RemovedNext(head: Entry, es: seq<Entry>, i: nat, j: nat)
    requires i < |es| && j < |es|
    ensures var s := Removed(es, i);
            && |s| == |es| - 1
            && Before(head, s, j) == (if j <= i then Before(head, es, j) else Before(head, es, j + 1))
            && After(s, j) == (if j < i then After(es, j) else After(es, j + 1))
            && (j < |s| ==> s[j] == es[if j < i then j else j + 1])
  {
  }

  /** What the links must be for an entry to stand before the `i`-th one. */
  lemma InsertedLinked(head: Entry, es: seq<Entry>, i: nat, b: Entry)
    requires i < |es| && b !in es && b != head && head !in es && NoDup(es)
    requires b.prev == Before(head, es, i) && b.next == es[i]
    requires forall j :: 0 <= j < |es| ==> es[j].prev == (if j == i then b else Before(head, es, j))
    requires forall j :: 0 <= j < |es| ==> es[j].next == (if j + 1 == i then b else After(es, j + 1))
    requires head.next == (if i == 0 then b else es[0]) && head.prev == es[|es| - 1]
    ensures Linked(head, Inserted(es, i, b))
  {
    hide Before, After, Inserted, NoDup;
    var s := Inserted(es, i, b);
    InsertedDistinct(head, es, i, b);
    InsertedNext(head, es, i, b, 0);
    InsertedNext(head, es, i, b, |s|);
    Ends(head, es);
    forall j | 0 <= j < |s|
      ensures s[j].prev == Before(head, s, j) && s[j].next == After(s, j + 1)
    {
      InsertedNext(head, es, i, b, j);
      InsertedNext(head, es, i, b, j + 1);
    }
  }

  method LinkBefore(a: Entry, b: Entry)
    requires a.prev != null && a != b && a.prev != b
    modifies b, a`prev, a.prev`next
    ensures b.prev == old(a.prev) && b.next == a && old(a.prev).next == b && a.prev == b
  {
    b.prev := a.prev;
    b.next := a;
    a.prev.next := b;
    a.prev := b;
  }

  method InsertBefore(a: Entry, b: Entry, ghost head: Entry, ghost es: seq<Entry>, ghost i: nat)
    requires Linked(head, es) && i < |es| && es[i] == a && b !in es && b != head
    modifies head, es, b
    ensures Linked(head, Inserted(es, i, b))
  {
    hide Inserted;
    Different(es);
    hide NoDup;
    LinkBefore(a, b);
    InsertedLinked(head, es, i, b);
  }

  method InsertTail(head: Entry, b: Entry, ghost es: seq<Entry>)
    requires Linked(head, es) && b !in es && b != head
    modifies head, es, b
    ensures Linked(head, Inserted(es, |es|, b))
  {
    InsertedAt(head, es, |es|, b);
    b.next := null;
    b.prev := head.prev;
    head.prev.next := b;
    head.prev := b;
  }

  /** What the links must be for the `i`-th entry to be gone. */
  lemma RemovedLinked(head: Entry, es: seq<Entry>, i: nat)
    requires i < |es| && head !in es && NoDup(es)
    requires forall j :: 0 <= j < |es| && j != i ==>
                           es[j].prev == (if j == i + 1 then Before(head, es, i) else Before(head, es, j))
    requires forall j :: 0 <= j < |es| && j != i ==>
                           es[j].next == (if j + 1 == i then After(es, i + 1) else After(es, j + 1))
    requires head.next == (if i == 0 then After(es, 1) else es[0])
    requires head.prev == (if i == |es| - 1 then Before(head, es, i) else es[|es| - 1])
    ensures Linked(head, Removed(es, i))
  {
    hide Before, After, Removed, NoDup;
    var s := Removed(es, i);
    RemovedDistinct(head, es, i);
    RemovedNext(head, es, i, 0);
    RemovedNext(head, es, i, |s|);
    Ends(head, es);
    forall j | 0 <= j < |s|
      ensures s[j].prev == Before(head, s, j) && s[j].next == After(s, j + 1)
    {
      RemovedNext(head, es, i, j);
      RemovedNext(head, es, i, j + 1);
    }
  }

  /** The removed entry keeps its own links. */
  method Remove(head: Entry, b: Entry, ghost es: seq<Entry>, ghost i: nat)
    requires Linked(head, es) && i < |es| && es[i] == b
    modifies head, es
    ensures Linked(head, Removed(es, i))
    ensures b.next == old(b.next) && b.prev == old(b.prev)
  {
    hide Removed;
    Different(es);
    hide NoDup;
    if b.next != null {
      b.next.prev := b.prev;
    } else {
      head.prev := b.prev;
    }
    b.prev.next := b.next;
    RemovedLinked(head, es, i);
  }

  /** The last entry, found through the entry before it. */
  method Last(head: Entry, ghost es: seq<Entry>) returns (last: Entry?)
    requires Linked(head, es)
    ensures last == if es == [] then null else es[|es| - 1]
  {
    last := head.prev.prev.next;
  }

  /** The entry before one that may just have been removed. */
  method Previous(b: Entry, ghost head: Entry, ghost es: seq<Entry>, ghost i: nat) returns (prev: Entry?)
    requires Linked(head, es) && i <= |es| && b !in es && b.prev == Before(head, es, i) && i == |es|
    ensures prev == if i == 0 then null else es[i - 1]
  {
    prev := b.prev.prev.next;
  }
}
