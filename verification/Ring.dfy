/** The ring of buffers: opening and closing buffers, and undoing it. */
module Ring {
  import opened Sequences
  import opened Options
  import opened TailQueue

  /** An undo token. */
  datatype Token =
    | SetCurrent(buffer: Entry?)
    | Free(b: Entry)
    | RemoveBuffer(b: Entry)
    | Reinsert(b: Entry)

  /** A token with the entry that followed a closed buffer. */
  datatype Record = Record(token: Token, next: Entry?)

  datatype State = State(es: seq<Entry>, current: Entry?)

  function Position(es: seq<Entry>, b: Entry): (i: nat)
    requires b in es
    ensures i < |es| && es[i] == b
  {
    if es[0] == b then 0 else 1 + Position(es[1..], b)
  }

  lemma OnlyPosition(es: seq<Entry>, i: nat)
    requires i < |es| && NoDup(es)
    ensures Position(es, es[i]) == i
  {
  }

  /** What users do: edit a buffer by name or number, or close one by its number. */
  datatype Op = Open(name: Option<string>) | Switch(id: int) | Shut(id: int)

  /** The ring as its users see it: the names in order, and the place of the current buffer. */
  datatype View = View(names: seq<Option<string>>, current: Option<nat>)

  function Names(es: seq<Entry>): (names: seq<Option<string>>)
    ensures |names| == |es|
  {
    seq(|es|, i requires 0 <= i < |es| => es[i].name)
  }

  function Viewed(es: seq<Entry>, current: Entry?): View {
    View(Names(es), if current != null && current in es then Some(Position(es, current)) else None)
  }

  /** The place of the first buffer of that name, or the number of buffers. */
  function Named(names: seq<Option<string>>, name: Option<string>): (i: nat)
    ensures i <= |names| && (i < |names| ==> names[i] == name)
    ensures forall j :: 0 <= j < i ==> names[j] != name
  {
    if names == [] || names[0] == name then 0 else 1 + Named(names[1..], name)
  }

  /** What an operation makes of the ring. */
  function Done(op: Op, v: View): View {
    var n := |v.names|;
    match op
    case Open(name) =>
      var i := Named(v.names, name);
      View(if i < n then v.names else v.names + [name], Some(i))
    case Switch(id) =>
      if 1 <= id <= n then v.(current := Some(id - 1)) else v
    case Shut(id) =>
      if 1 <= id <= n then Without(v, id - 1) else v
  }

  /** The ring without its `i`-th buffer. The current buffer is the same, or a neighbour, or a new unnamed one. */
  function Without(v: View, i: nat): View
    requires i < |v.names|
  {
    var rest := v.names[..i] + v.names[i + 1..];
    if v.current == Some(i) then
      if rest == [] then View([None], Some(0)) else View(rest, Some(if i < |rest| then i else i - 1))
    else
      View(rest, if v.current.Some? && v.current.value > i then Some(v.current.value - 1) else v.current)
  }

  function AllDone(ops: seq<Op>, v: View): View {
    if ops == [] then v else Done(ops[|ops| - 1], AllDone(ops[..|ops| - 1], v))
  }

  /** The first buffer of the name is current, or a new one at the end; the others stay where they are. */
  lemma OpenIs(v: View, name: Option<string>)
    ensures var w := Done(Open(name), v);
            && w.current.Some? && w.current.value < |w.names| && w.names[w.current.value] == name
            && name !in w.names[..w.current.value]
            && (name in v.names ==> w.names == v.names)
            && (name !in v.names ==> w.names == v.names + [name] && w.current.value == |v.names|)
  {
    var i := Named(v.names, name);
    if i < |v.names| {
      assert v.names[i] in v.names;
    }
  }

  /** Buffers are numbered from 1 in ring order; other numbers change nothing. */
  lemma SwitchIs(v: View, id: int)
    ensures forall i: nat :: i < |v.names| && id == i + 1 ==> Done(Switch(id), v) == View(v.names, Some(i))
    ensures id <= 0 || id > |v.names| ==> Done(Switch(id), v) == v
  {
  }

  /** Where the buffer at `j` is after the one at `i` was closed. */
  function Place(j: nat, i: nat): nat
    requires j != i
  {
    if j < i then j else j - 1
  }

  /**
   * Closing a buffer keeps all others in order. If it was current, the one behind it becomes
   * current, or the one before it if it was the last, or a new one without a name if it was
   * the only one; otherwise the same buffer stays current.
   */
  lemma ShutIs(v: View, i: nat)
    requires i < |v.names| && (v.current.Some? ==> v.current.value < |v.names|)
    ensures var n := |v.names|;
            var w := Done(Shut(i + 1), v);
            if v == View([v.names[0]], Some(0)) then w == View([None], Some(0))
            else
              && |w.names| == n - 1
              && (forall j :: 0 <= j < n && j != i ==> w.names[Place(j, i)] == v.names[j])
              && (v.current.None? ==> w.current.None?)
              && (v.current.Some? ==>
                    var c := v.current.value;
                    w.current == Some(Place(if c != i then c else if i + 1 < n then i + 1 else i - 1, i)))
  {
    if |v.names| == 1 {
      assert v.names == [v.names[0]];
    }
  }

  lemma OnlyNamed(names: seq<Option<string>>, name: Option<string>, i: nat)
    requires i <= |names| && (i < |names| ==> names[i] == name)
    requires forall j :: 0 <= j < i ==> names[j] != name
    ensures Named(names, name) == i
  {
  }

  lemma ViewedAt(es: seq<Entry>, i: nat)
    requires i < |es| && NoDup(es)
    ensures Viewed(es, es[i]) == View(Names(es), Some(i))
  {
    OnlyPosition(es, i);
  }

  lemma OpenViewed(es: seq<Entry>, current: Entry?, name: Option<string>, es': seq<Entry>, current': Entry)
    requires NoDup(es')
    requires var i := Named(Names(es), name);
             if i < |es| then es' == es && current' == es[i] else es' == es + [current'] && current'.name == name
    ensures Viewed(es', current') == Done(Open(name), Viewed(es, current))
  {
    var i := Named(Names(es), name);
    ViewedAt(es', i);
    assert i == |es| ==> Names(es') == Names(es) + [name];
  }

  lemma SwitchViewed(es: seq<Entry>, current: Entry?, id: int)
    requires NoDup(es)
    ensures Viewed(es, if 1 <= id <= |es| then es[id - 1] else current) == Done(Switch(id), Viewed(es, current))
  {
    if 1 <= id <= |es| {
      ViewedAt(es, id - 1);
    }
  }

  lemma NamesRemoved(es: seq<Entry>, i: nat)
    requires i < |es| && NoDup(es)
    ensures Names(Removed(es, i)) == Names(es)[..i] + Names(es)[i + 1..]
  {
    RemovedAt(es, i);
  }

  lemma ShutDone(id: int, es: seq<Entry>, current: Entry?)
    ensures var v := Viewed(es, current);
            Done(Shut(id), v) == if 1 <= id <= |es| then Without(v, id - 1) else v
  {
  }

  lemma OtherViewed(es: seq<Entry>, current: Entry?, i: nat)
    requires NoDup(es) && i < |es| && current != es[i]
    ensures Viewed(Removed(es, i), current) == Without(Viewed(es, current), i)
  {
    hide Removed, NoDup, Names, Position;
    NamesRemoved(es, i);
    if current != null && current in es {
      PositionRemoved(es, i, current);
    } else {
      RemovedIn(es, i);
    }
  }

  /** The place of another buffer after the removal. */
  lemma PositionRemoved(es: seq<Entry>, i: nat, b: Entry)
    requires NoDup(es) && i < |es| && b in es && b != es[i]
    ensures b in Removed(es, i)
    ensures var j := Position(es, b); j != i && Position(Removed(es, i), b) == if j > i then j - 1 else j
  {
    hide Removed, NoDup;
    var rest, j := Removed(es, i), Position(es, b);
    RemovedAt(es, i);
    assert rest[if j > i then j - 1 else j] == b;
    OnlyPosition(rest, if j > i then j - 1 else j);
  }

  lemma ShutViewed(es: seq<Entry>, current: Entry?, i: nat, es': seq<Entry>, current': Entry?)
    requires NoDup(es) && i < |es|
    requires var rest := Removed(es, i);
             if current != es[i] then es' == rest && current' == current
             else if rest == [] then current' != null && es' == [current'] && current'.name == None
             else es' == rest && current' == rest[if i < |rest| then i else i - 1]
    ensures Viewed(es', current') == Without(Viewed(es, current), i)
  {
    hide Removed, Names;
    var rest := Removed(es, i);
    RemovedAt(es, i);
    NamesRemoved(es, i);
    if current != es[i] {
      OtherViewed(es, current, i);
    } else {
      ViewedAt(es, i);
      if rest == [] {
        assert Names(es') == [None] by { OneName(es'); }
        ViewedAt(es', 0);
      } else {
        ViewedAt(rest, if i < |rest| then i else i - 1);
      }
    }
  }

  lemma OneName(es: seq<Entry>)
    requires |es| == 1
    ensures Names(es) == [es[0].name]
  {
  }

  /** What undoing a token makes of the ring. */
  ghost function Apply(s: State, r: Record): State {
    match r.token
    case SetCurrent(b) => s.(current := b)
    case Free(_) => s
    case RemoveBuffer(b) => if b in s.es then s.(es := Removed(s.es, Position(s.es, b))) else s
    case Reinsert(b) =>
      var i := if r.next != null && r.next in s.es then Position(s.es, r.next) else |s.es|;
      s.(es := Inserted(s.es, i, b))
  }

  /** A token can be undone: what it removes or stands before is there, what it adds or frees is not. */
  ghost predicate Allows(s: State, r: Record) {
    match r.token
    case SetCurrent(_) => true
    case Free(b) => b !in s.es
    case RemoveBuffer(b) => b in s.es
    case Reinsert(b) => b !in s.es && (r.next != null ==> r.next in s.es)
  }

  ghost predicate Undoable(s: State, trace: seq<Record>)
    decreases |trace|
  {
    trace == [] ||
    var r := trace[|trace| - 1];
    Allows(s, r) && Undoable(Apply(s, r), trace[..|trace| - 1])
  }

  /** The ring after undoing all but the first `n` tokens. */
  ghost function Undone(s: State, trace: seq<Record>, n: nat): State
    decreases |trace|
  {
    if |trace| <= n then s else Undone(Apply(s, trace[|trace| - 1]), trace[..|trace| - 1], n)
  }

  /** A token that undoes to a state from which the rest can be undone. */
  lemma PushOne(s: State, trace: seq<Record>, r: Record, s0: State)
    requires Allows(s, r) && Apply(s, r) == s0 && Undoable(s0, trace)
    ensures Undoable(s, trace + [r])
    ensures forall n: nat :: n <= |trace| ==> Undone(s, trace + [r], n) == Undone(s0, trace, n)
  {
    assert (trace + [r])[..|trace|] == trace;
  }

  /** Undoing takes the ring from one state, and log, back to another. */
  ghost predicate Restores(s': State, trace': seq<Record>, s: State, trace: seq<Record>) {
    trace <= trace' && Undoable(s', trace') && Undone(s', trace', |trace|) == s
  }

  lemma RestoresNothing(s: State, trace: seq<Record>)
    requires Undoable(s, trace)
    ensures Restores(s, trace, s, trace)
  {
  }

  lemma RestoresMore(s': State, trace': seq<Record>, r: Record, s1: State, s: State, trace: seq<Record>)
    requires Allows(s', r) && Apply(s', r) == s1 && Restores(s1, trace', s, trace)
    ensures Restores(s', trace' + [r], s, trace)
  {
    hide Allows, Apply;
    PushOne(s', trace', r, s1);
  }

  lemma {:induction false} UndoneSplit(s: State, trace: seq<Record>, m: nat, n: nat)
    requires n <= m <= |trace|
    ensures Undone(s, trace, n) == Undone(Undone(s, trace, m), trace[..m], n)
    decreases |trace|
  {
    hide Apply;
    if m == |trace| {
      assert trace[..m] == trace;
    } else {
      var front := trace[..|trace| - 1];
      UndoneSplit(Apply(s, trace[|trace| - 1]), front, m, n);
      assert front[..m] == trace[..m];
    }
  }

  lemma RestoresAll(s2: State, t2: seq<Record>, s1: State, t1: seq<Record>, s0: State, t0: seq<Record>)
    requires Restores(s2, t2, s1, t1) && Restores(s1, t1, s0, t0)
    ensures Restores(s2, t2, s0, t0)
  {
    UndoneSplit(s2, t2, |t1|, |t0|);
    assert t2[..|t1|] == t1;
  }

  /** The tokens of a new buffer at the end of the ring. */
  lemma RestoresNew(es: seq<Entry>, n: Entry, trace': seq<Record>, s: State, trace: seq<Record>)
    requires n !in es && NoDup(es) && Restores(State(es, n), trace', s, trace)
    ensures Restores(State(es + [n], n), trace' + [Record(Free(n), null)] + [Record(RemoveBuffer(n), null)], s, trace)
  {
    hide Undoable, Undone, Restores;
    var f, m := Record(Free(n), null), Record(RemoveBuffer(n), null);
    RestoresMore(State(es, n), trace', f, State(es, n), s, trace);
    AppendedAt(es, n);
    RestoresMore(State(es + [n], n), trace' + [f], m, State(es, n), s, trace);
  }

  lemma AppendedAt(es: seq<Entry>, n: Entry)
    requires n !in es && NoDup(es)
    ensures NoDup(es + [n]) && Position(es + [n], n) == |es| && Removed(es + [n], |es|) == es
    ensures Inserted(es, |es|, n) == es + [n]
  {
    assert (es + [n])[|es|] == n;
    OnlyPosition(es + [n], |es|);
  }

  /**
   * The tokens of a new buffer and of the only one, which was closed: the closed buffer comes
   * back before the new one is removed.
   */
  lemma RestoresLast(b: Entry, n: Entry, trace': seq<Record>, s: State, trace: seq<Record>)
    requires n != b && Restores(State([b], n), trace', s, trace)
    ensures var t := trace' + [Record(Free(n), null)] + [Record(RemoveBuffer(n), null)];
            Restores(State([n], n), t + [Record(Reinsert(b), null)], s, trace)
  {
    hide Undoable, Undone, Restores;
    var f, m, r := Record(Free(n), null), Record(RemoveBuffer(n), null), Record(Reinsert(b), null);
    RestoresMore(State([b], n), trace', f, State([b], n), s, trace);
    assert Removed([n, b], 0) == [b] && Position([n, b], n) == 0;
    RestoresMore(State([n, b], n), trace' + [f], m, State([b], n), s, trace);
    assert Inserted([n], 1, b) == [n, b];
    RestoresMore(State([n], n), trace' + [f] + [m], r, State([n, b], n), s, trace);
  }

  lemma OnlyOne(es: seq<Entry>, i: nat)
    requires i < |es| && Removed(es, i) == []
    ensures es == [es[i]] && i == 0 && After(es, 1) == null
  {
    assert |Removed(es, i)| == |es| - 1;
  }

  /** The token of a closed buffer. */
  lemma RestoresClosed(es: seq<Entry>, i: nat, c: Entry?, trace': seq<Record>, s: State, trace: seq<Record>)
    requires i < |es| && NoDup(es) && Restores(State(es, c), trace', s, trace)
    ensures Restores(State(Removed(es, i), c), trace' + [Record(Reinsert(es[i]), After(es, i + 1))], s, trace)
  {
    hide Undoable, Undone, Restores;
    RemovedAt(es, i);
    var rest := Removed(es, i);
    if i + 1 < |es| {
      assert rest[i] == es[i + 1];
      OnlyPosition(rest, i);
    }
    RestoresMore(State(rest, c), trace', Record(Reinsert(es[i]), After(es, i + 1)), State(es, c), s, trace);
  }

  /** The buffers that a trace can bring back. */
  ghost predicate Closed(trace: seq<Record>, closed: seq<Entry>) {
    if trace == [] then closed == []
    else
      var r, front := trace[|trace| - 1], trace[..|trace| - 1];
      if r.token.Reinsert? then
        closed != [] && closed[|closed| - 1] == r.token.b && Closed(front, closed[..|closed| - 1])
      else Closed(front, closed)
  }

  class Ring {
    const head: Entry
    var current: Entry?
    var log: seq<Token>
    ghost var es: seq<Entry>        // the ring
    ghost var trace: seq<Record>    // the undo log
    ghost var closed: seq<Entry>    // the closed buffers, last closed last
    ghost var repr: set<Entry>

    ghost function Now(): State
      reads this
    {
      State(es, current)
    }

    ghost predicate Owned()
      reads this
    {
      && head in repr && (forall e :: e in es ==> e in repr) && (forall e :: e in closed ==> e in repr)
      && head !in closed && NoDup(closed) && (forall e :: e in closed ==> e !in es)
    }

    /** The log is the trace, and closed buffers keep the links they had. */
    ghost predicate Recorded()
      reads this, closed
    {
      && |log| == |trace| && (forall i :: 0 <= i < |log| ==> log[i] == trace[i].token)
      && Closed(trace, closed)
      && (forall i :: 0 <= i < |trace| && trace[i].token.Reinsert? ==>
                        trace[i].token.b in closed && trace[i].token.b.next == trace[i].next)
    }

    ghost predicate Valid()
      reads this, repr
    {
      Owned() && Linked(head, es) && Recorded() && Undoable(Now(), trace)
    }

    constructor ()
      ensures Valid() && es == [] && log == [] && current == null && fresh(repr)
    {
      head := new Entry(None);
      current, log, es, trace, closed := null, [], [], [], [];
      new;
      head.prev := head;
      repr := {head};
    }

    method Push(t: Token, ghost next: Entry?)
      modifies this`log, this`trace
      ensures log == old(log) + [t] && trace == old(trace) + [Record(t, next)]
    {
      log := log + [t];
      trace := trace + [Record(t, next)];
    }

    method FindByName(name: Option<string>) returns (b: Entry?)
      requires Linked(head, es)
      ensures b == After(es, Named(Names(es), name))
    {
      b := head.next;
      ghost var i := 0;
      while b != null
        invariant i <= |es| && b == After(es, i)
        invariant forall j :: 0 <= j < i ==> es[j].name != name
        decreases |es| - i
      {
        if b.name == name {
          OnlyNamed(Names(es), name, i);
          return;
        }
        b := b.next;
        i := i + 1;
      }
      OnlyNamed(Names(es), name, i);
    }

    method FindById(id: int) returns (b: Entry?)
      requires Linked(head, es)
      ensures b == if 1 <= id <= |es| then es[id - 1] else null
    {
      b := head.next;
      var left := id;
      ghost var i := 0;
      while b != null
        invariant i <= |es| && b == After(es, i) && left == id - i
        invariant !(1 <= id <= i)
        decreases |es| - i
      {
        left := left - 1;
        if left == 0 {
          return;
        }
        b := b.next;
        i := i + 1;
      }
    }
  
    /** Edits the buffer of that name, or a new one at the end of the ring. */
    method EditByName(name: Option<string>)
      requires Owned() && Linked(head, es) && Recorded()
      modifies this`current, this`log, this`trace, this`es, this`repr, repr
      ensures Owned() && Linked(head, es) && Recorded() && fresh(repr - old(repr)) && old(repr) <= repr
      ensures closed == old(closed)
      ensures forall e :: e in old(repr) && e !in old(es) && e != head ==> e.next == old(e.next)
      ensures var i := Named(Names(old(es)), name);
              if i < |old(es)| then es == old(es) && trace == old(trace) && current == es[i]
              else
                && current != null && fresh(current) && current.name == name && es == old(es) + [current]
                && trace == old(trace) + [Record(Free(current), null)] + [Record(RemoveBuffer(current), null)]
    {
      hide Linked, Closed;
      var buffer := FindByName(name);
      if buffer != null {
        current := buffer;
        return;
      }
      buffer := new Entry(name);
      repr := repr + {buffer};
      InsertTail(head, buffer, es);
      AppendedEntries(es, buffer);
      es := es + [buffer];
      current := buffer;
      UndoClose(buffer);
    }

    /** The tokens that undo opening the current buffer. */
    method UndoClose(buffer: Entry)
      requires current == buffer && Recorded()
      modifies this`log, this`trace
      ensures Recorded() && trace == old(trace) + [Record(Free(buffer), null)] + [Record(RemoveBuffer(buffer), null)]
    {
      ghost var t := trace;
      Push(Free(buffer), null);
      Push(RemoveBuffer(buffer), null);
      ClosedOther(t, Record(Free(buffer), null), closed);
      ClosedOther(t + [Record(Free(buffer), null)], Record(RemoveBuffer(buffer), null), closed);
    }

    /** The token that undoes a change of the current buffer. */
    method UndoEdit()
      requires Recorded()
      modifies this`log, this`trace
      ensures Recorded() && trace == old(trace) + [Record(SetCurrent(current), null)]
    {
      ClosedOther(trace, Record(SetCurrent(current), null), closed);
      Push(SetCurrent(current), null);
    }

    /** Edits a buffer by its name. */
    method Edit(name: Option<string>)
      requires Valid()
      modifies this, repr
      ensures Valid() && fresh(repr - old(repr)) && Restores(Now(), trace, old(Now()), old(trace))
      ensures var i := Named(Names(old(es)), name);
              if i < |old(es)| then es == old(es) && current == es[i]
              else current != null && current !in old(es) && current.name == name && es == old(es) + [current]
    {
      hide Linked, Closed, Undoable, Undone, Restores;
      ghost var s, t, r := Now(), trace, Record(SetCurrent(current), null);
      RestoresNothing(s, t);
      UndoEdit();
      EditByName(name);
      RestoresMore(State(s.es, current), t, r, s, s, t);
      if Named(Names(s.es), name) == |s.es| {
        LinkedDistinct(head, s.es + [current]);
        NotIn(s.es, current);
        RestoresNew(s.es, current, t + [r], s, t);
      }
      RestoresUndoable(Now(), trace, s, t);
    }

    /** Edits a buffer by its number in the ring. */
    method EditById(id: int) returns (found: bool)
      requires Valid()
      modifies this, repr
      ensures Valid() && repr == old(repr) && Restores(Now(), trace, old(Now()), old(trace)) && es == old(es)
      ensures found <==> 1 <= id <= |es|
      ensures current == if found then es[id - 1] else old(current)
    {
      hide Linked, Closed, Undoable, Undone, Restores;
      ghost var s, t, r := Now(), trace, Record(SetCurrent(current), null);
      RestoresNothing(s, t);
      UndoEdit();
      var buffer := FindById(id);
      found := buffer != null;
      if found {
        current := buffer;
      }
      RestoresMore(Now(), t, r, s, s, t);
      RestoresUndoable(Now(), trace, s, t);
    }

    /** Hands a closed buffer over to the undo log. */
    method PushReinsert(b: Entry)
      requires Owned() && Recorded() && b in repr && b !in es && b !in closed && b != head
      modifies this`log, this`trace, this`closed
      ensures Owned() && Recorded() && trace == old(trace) + [Record(Reinsert(b), b.next)]
    {
      ghost var t := trace;
      Push(Reinsert(b), b.next);
      closed := closed + [b];
      assert (t + [Record(Reinsert(b), b.next)])[..|t|] == t && closed[..|closed| - 1] == old(closed);
      ClosedAll(t, old(closed));
    }

    /** Takes a buffer out of the ring. */
    method RemoveFromRing(b: Entry) returns (ghost i: nat)
      requires Owned() && Linked(head, es) && Recorded() && b in es
      modifies this`es, head, es
      ensures i == Position(old(es), b) && es == Removed(old(es), i) && forall e :: e in es ==> e in old(es)
      ensures Owned() && Linked(head, es) && Recorded() && b !in es && b != head && b !in closed && b in repr
      ensures b.next == old(b.next) == After(old(es), i + 1) && b.prev == old(b.prev) == Before(head, old(es), i)
    {
      hide Closed, NoDup, Removed, Linked;
      i := Position(es, b);
      LinksAt(head, es, i);
      RemovedAt(es, i);
      RemovedIn(es, i);
      TailQueue.Remove(head, b, es, i);
      es := Removed(es, i);
    }

    /**
     * Closes a buffer. If it was the current one, the next one is edited, or the one before, or
     * a new unnamed one.
     */
    method Close(b: Entry)
      requires Valid() && b in es
      modifies this, repr
      ensures Valid() && fresh(repr - old(repr)) && Restores(Now(), trace, old(Now()), old(trace))
      ensures var i := Position(old(es), b); var rest := Removed(old(es), i);
              if old(current) != b then es == rest && current == old(current)
              else if rest == [] then current != null && es == [current] && current.name == None
              else es == rest && current == rest[if i < |rest| then i else i - 1]
    {
      hide Linked, Closed, Undoable, Undone, Restores, Removed, NoDup;
      ghost var s, t := Now(), trace;
      RestoresNothing(s, t);
      LinkedDistinct(head, es);
      if b == current {
        CloseCurrent(b);
      } else {
        ghost var i := RemoveFromRing(b);
        RestoresClosed(s.es, i, current, t, s, t);
      }
      PushReinsert(b);
      RestoresUndoable(Now(), trace, s, t);
    }

    /** Closes the current buffer, but for the token that brings it back. */
    method CloseCurrent(b: Entry)
      requires Owned() && Linked(head, es) && Recorded() && b in es && b == current && Undoable(Now(), trace)
      modifies this`current, this`log, this`trace, this`es, this`repr, repr
      ensures Owned() && Linked(head, es) && Recorded() && fresh(repr - old(repr)) && old(repr) <= repr
      ensures closed == old(closed) && b in repr && b !in es && b !in closed && b != head && b.next == old(b.next)
      ensures Restores(Now(), trace + [Record(Reinsert(b), b.next)], old(Now()), old(trace))
      ensures var i := Position(old(es), b); var rest := Removed(old(es), i);
              if rest == [] then current != null && es == [current] && current.name == None
              else es == rest && current == rest[if i < |rest| then i else i - 1]
    {
      hide Linked, Closed, Undoable, Undone, Restores, Removed, NoDup;
      ghost var s, t := Now(), trace;
      RestoresNothing(s, t);
      LinkedDistinct(head, es);
      UndoEdit();
      ghost var i := RemoveFromRing(b);
      ghost var t1, rest := trace, es;
      EditNeighbour(b, s.es, i);
      RestoresMore(State(s.es, current), t, Record(SetCurrent(b), null), s, s, t);
      if rest == [] {
        OnlyOne(s.es, i);
        RestoresLast(b, current, t1, s, t);
      } else {
        RestoresClosed(s.es, i, current, t1, s, t);
      }
    }

    /** Edits a neighbour of the buffer that was just taken out, or a new unnamed one. */
    method EditNeighbour(b: Entry, ghost before: seq<Entry>, ghost i: nat)
      requires Owned() && Linked(head, es) && Recorded() && b !in es && b != head && b in repr
      requires i < |before| && es == Removed(before, i)
      requires b.next == After(before, i + 1) && b.prev == Before(head, before, i)
      modifies this`current, this`log, this`trace, this`es, this`repr, repr
      ensures Owned() && Linked(head, es) && Recorded() && fresh(repr - old(repr)) && old(repr) <= repr
      ensures closed == old(closed) && b.next == old(b.next)
      ensures if old(es) == [] then
                && current != null && fresh(current) && current.name == None && es == [current]
                && trace == old(trace) + [Record(Free(current), null)] + [Record(RemoveBuffer(current), null)]
              else es == old(es) && trace == old(trace) && current == es[if i < |es| then i else i - 1]
    {
      hide Linked, Closed;
      if b.next != null {
        current := b.next;
      } else {
        current := Previous(b, head, es, i);
      }
      if current == null {
        EditByName(None);
      }
    }

    /** Undoes all tokens but the first `n`. */
    method UndoTo(n: nat)
      requires Valid() && n <= |log|
      modifies this, repr
      ensures Valid() && repr == old(repr) && |log| == n && trace == old(trace)[..n]
      ensures Now() == Undone(old(Now()), old(trace), n)
    {
      hide Linked, Undoable, Apply, Closed;
      RecordedSize();
      while |log| > n
        invariant Valid() && repr == old(repr) && n <= |log| == |trace| && trace == old(trace)[..|log|]
        invariant Undone(Now(), trace, n) == Undone(old(Now()), old(trace), n)
        decreases |log|
      {
        Pop();
        RecordedSize();
      }
    }

    lemma RecordedSize()
      requires Valid()
      ensures |log| == |trace|
    {
    }

    /** Does the operations one after the other; a number that is not in the ring closes nothing. */
    method Run(ops: seq<Op>)
      requires Valid()
      modifies this, repr
      ensures Valid() && fresh(repr - old(repr)) && Restores(Now(), trace, old(Now()), old(trace))
      ensures Viewed(es, current) == AllDone(ops, Viewed(old(es), old(current)))
    {
      hide Linked, Undoable, Undone, Apply, Restores, Owned, Recorded, Valid, Done, Viewed, NoDup, Removed;
      ghost var s, t := Now(), trace;
      assert Undoable(s, t) by { ValidUndoable(); }
      RestoresNothing(s, t);
      for i := 0 to |ops|
        invariant Valid() && fresh(repr - old(repr)) && Restores(Now(), trace, s, t)
        invariant Viewed(es, current) == AllDone(ops[..i], Viewed(s.es, s.current))
      {
        ghost var s1, t1 := Now(), trace;
        ValidUndoable();
        match ops[i] {
          case Open(name) =>
            Edit(name);
            ValidUndoable();
            OpenViewed(s1.es, s1.current, name, es, current);
          case Switch(id) =>
            var found := EditById(id);
            SwitchViewed(s1.es, s1.current, id);
          case Shut(id) =>
            var b := FindById(id);
            if b != null {
              assert b == s1.es[id - 1] && Position(s1.es, b) == id - 1 by { OnlyPosition(s1.es, id - 1); }
              Close(b);
              ShutViewed(s1.es, s1.current, id - 1, es, current);
            } else {
              RestoresNothing(s1, t1);
            }
            ShutDone(id, s1.es, s1.current);
        }
        RestoresAll(Now(), trace, s1, t1, s, t);
        assert ops[..i + 1][..i] == ops[..i];
      }
      assert ops[..|ops|] == ops;
    }

    lemma ValidUndoable()
      requires Valid()
      ensures Undoable(Now(), trace) && Linked(head, es) && NoDup(es)
    {
    }

    /**
     * Any sequence of opening, switching and closing buffers, undone token by token, leaves the
     * same buffers in the same order, linked in both directions, and the same current buffer.
     */
    method RunAndUndo(ops: seq<Op>)
      requires Valid()
      modifies this, repr
      ensures Valid() && Linked(head, es) && es == old(es) && current == old(current) && log == old(log)
    {
      hide Linked, Undoable, Undone, Apply, Restores, Owned;
      var n := |log|;
      ghost var s, t := Now(), trace;
      RecordedSize();
      Run(ops);
      RestoresUndoable(Now(), trace, s, t);
      RecordedSize();
      assert Undone(Now(), trace, |t|) == s by { RestoresUndone(Now(), trace, s, t); }
      UndoTo(n);
      ValidUndoable();
      assert trace == t;
    }

    /** Puts a closed buffer back to where its own links say. */
    method ReinsertAction(b: Entry) returns (ghost i: nat)
      requires Linked(head, es) && b !in es && b != head && (b.next != null ==> b.next in es)
      modifies this`es, head, es, b
      ensures i == (if old(b.next) != null then Position(old(es), old(b.next)) else |old(es)|) <= |old(es)|
      ensures es == Inserted(old(es), i, b) && Linked(head, es)
    {
      hide Linked, Inserted;
      i := if b.next != null then Position(es, b.next) else |es|;
      if b.next != null {
        InsertBefore(b.next, b, head, es, i);
      } else {
        InsertTail(head, b, es);
      }
      es := Inserted(es, i, b);
    }

    /** Takes the last token off the log. */
    method Drop() returns (t: Token, ghost r: Record)
      requires Valid() && log != []
      modifies this`log, this`trace, this`closed
      ensures r == old(trace)[|old(trace)| - 1] && t == r.token
      ensures log == old(log)[..|old(log)| - 1] && trace == old(trace)[..|old(trace)| - 1]
      ensures Recorded() && Owned() && Allows(Now(), r) && Undoable(Apply(Now(), r), trace)
      ensures t.Reinsert? ==> t.b !in closed && t.b in repr && t.b.next == r.next && t.b != head
    {
      hide Linked, NoDup, Apply, Allows;
      r := trace[|trace| - 1];
      t := log[|log| - 1];
      log := log[..|log| - 1];
      trace := trace[..|trace| - 1];
      if t.Reinsert? {
        LastOut(closed);
        closed := closed[..|closed| - 1];
        ClosedAll(trace, closed);
      }
    }

    /** Undoes the last token. */
    method Pop()
      requires Valid() && log != []
      modifies this, repr
      ensures Valid() && repr == old(repr) && log == old(log)[..|old(log)| - 1]
      ensures trace == old(trace)[..|old(trace)| - 1] && Now() == Apply(old(Now()), old(trace)[|old(trace)| - 1])
    {
      hide Linked, NoDup, Undoable, Closed, Removed, Inserted;
      var t; ghost var r;
      t, r := Drop();
      match t {
        case SetCurrent(b) =>
          current := b;
        case Free(_) =>
        case RemoveBuffer(b) =>
          RemoveAction(b);
        case Reinsert(b) =>
          ghost var i := ReinsertAction(b);
          InsertedIn(old(es), i, b);
      }
    }

    /** Takes the buffer that was opened off the ring again. */
    method RemoveAction(b: Entry)
      requires Linked(head, es) && b in es
      modifies this`es, head, es
      ensures Linked(head, es) && es == Removed(old(es), Position(old(es), b)) && forall e :: e in es ==> e in old(es)
      ensures forall e :: e !in old(es) && e != head && old(allocated(e)) ==> e.next == old(e.next)
    {
      hide Linked, Removed;
      ghost var i := Position(es, b);
      Remove(head, b, es, i);
      RemovedIn(es, i);
      es := Removed(es, i);
    }
  }

  lemma RestoresUndone(s': State, trace': seq<Record>, s: State, trace: seq<Record>)
    requires Restores(s', trace', s, trace)
    ensures Undone(s', trace', |trace|) == s && trace <= trace'
  {
  }

  lemma LinkedDistinct(head: Entry, es: seq<Entry>)
    requires Linked(head, es)
    ensures NoDup(es)
  {
  }

  lemma LinksAt(head: Entry, es: seq<Entry>, i: nat)
    requires Linked(head, es) && i < |es|
    ensures NoDup(es) && es[i] != head && es[i].next == After(es, i + 1) && es[i].prev == Before(head, es, i)
  {
  }

  lemma NotIn(es: seq<Entry>, n: Entry)
    requires NoDup(es + [n])
    ensures NoDup(es) && n !in es
  {
    assert (es + [n])[|es|] == n;
    forall i | 0 <= i < |es|
      ensures (es + [n])[i] == es[i]
    {
    }
  }

  lemma RestoresUndoable(s': State, trace': seq<Record>, s: State, trace: seq<Record>)
    requires Restores(s', trace', s, trace)
    ensures Undoable(s', trace') && trace <= trace'
  {
  }

  lemma ClosedOther(trace: seq<Record>, r: Record, closed: seq<Entry>)
    requires Closed(trace, closed) && !r.token.Reinsert?
    ensures Closed(trace + [r], closed)
  {
    assert (trace + [r])[..|trace|] == trace;
  }

  lemma AppendedEntries(es: seq<Entry>, n: Entry)
    ensures Inserted(es, |es|, n) == es + [n]
  {
  }

  lemma RemovedIn(es: seq<Entry>, i: nat)
    requires i < |es|
    ensures forall e :: e in Removed(es, i) ==> e in es
  {
  }

  lemma {:induction false} ClosedAll(trace: seq<Record>, closed: seq<Entry>)
    requires Closed(trace, closed)
    ensures forall i :: 0 <= i < |trace| && trace[i].token.Reinsert? ==> trace[i].token.b in closed
    decreases |trace|
  {
    if trace != [] {
      var r, front := trace[|trace| - 1], trace[..|trace| - 1];
      if r.token.Reinsert? {
        ClosedAll(front, closed[..|closed| - 1]);
      } else {
        ClosedAll(front, closed);
      }
    }
  }

  lemma LastOut(closed: seq<Entry>)
    requires closed != [] && NoDup(closed)
    ensures closed[|closed| - 1] !in closed[..|closed| - 1] && NoDup(closed[..|closed| - 1])
  {
  }

  lemma InsertedIn(es: seq<Entry>, i: nat, b: Entry)
    requires i <= |es|
    ensures forall e :: e in Inserted(es, i, b) <==> e in es || e == b
  {
    var s := Inserted(es, i, b);
    assert s[i] == b;
    assert es == es[..i] + es[i..];
  }
}
