/**
 * The undo stack: one list of tokens for every command line character. Every change of the
 * editor state pushes the token that reverts it.
 */
module Undo {
  import opened Sequences

  /** The editor state: scalar variables and growing arrays, each under a name. */
  datatype Editor = Editor(vars: map<nat, int>, arrays: map<nat, seq<int>>)

  datatype Mutation =
    | Assign(name: nat, value: int)
    | Insert(name: nat, index: nat, value: int)
    | Remove(name: nat, index: nat)

  /** A variable to overwrite with a saved value, or a call with saved arguments. */
  datatype Token =
    | RestoreVar(name: nat, value: int)
    | InsertIndex(name: nat, index: nat, value: int)
    | RemoveIndex(name: nat, index: nat)

  /** The tokens of one character, newest first. */
  type Chain = seq<Token>

  /** The mutation names something that exists. */
  predicate Applies(m: Mutation, e: Editor) {
    match m
    case Assign(n, _) => n in e.vars
    case Insert(n, i, _) => n in e.arrays && i <= |e.arrays[n]|
    case Remove(n, i) => n in e.arrays && i < |e.arrays[n]|
  }

  function Mutate(m: Mutation, e: Editor): Editor {
    if !Applies(m, e) then e
    else
      match m
      case Assign(n, v) => e.(vars := e.vars[n := v])
      case Insert(n, i, v) => e.(arrays := e.arrays[n := InsertAt(e.arrays[n], i, v)])
      case Remove(n, i) => e.(arrays := e.arrays[n := RemoveAt(e.arrays[n], i)])
  }

  /** The token that a mutation of `e` pushes, with the values it captures. */
  function Inverse(m: Mutation, e: Editor): Token
    requires Applies(m, e)
  {
    match m
    case Assign(n, _) => RestoreVar(n, e.vars[n])
    case Insert(n, i, _) => RemoveIndex(n, i)
    case Remove(n, i) => InsertIndex(n, i, e.arrays[n][i])
  }

  function RunToken(t: Token, e: Editor): Editor {
    match t
    case RestoreVar(n, v) => Mutate(Assign(n, v), e)
    case InsertIndex(n, i, v) => Mutate(Insert(n, i, v), e)
    case RemoveIndex(n, i) => Mutate(Remove(n, i), e)
  }

  lemma InverseReverts(m: Mutation, e: Editor)
    requires Applies(m, e)
    ensures RunToken(Inverse(m, e), Mutate(m, e)) == e
  {
    match m
    case Assign(n, v) =>
      assert e.vars[n := v][n := e.vars[n]] == e.vars;
    case Insert(n, i, v) =>
      var xs := e.arrays[n];
      assert RemoveAt(InsertAt(xs, i, v), i) == xs;
      assert e.arrays[n := InsertAt(xs, i, v)][n := xs] == e.arrays;
    case Remove(n, i) =>
      var xs := e.arrays[n];
      assert InsertAt(RemoveAt(xs, i), i, xs[i]) == xs;
      assert e.arrays[n := RemoveAt(xs, i)][n := xs] == e.arrays;
  }

  function RunChain(c: Chain, e: Editor): Editor {
    if c == [] then e else RunChain(c[1..], RunToken(c[0], e))
  }

  /** The state and the undo stack while characters are executed. */
  datatype Snapshot = Snapshot(ed: Editor, heads: seq<Chain>)

  function Pad(heads: seq<Chain>, len: nat): (r: seq<Chain>)
    ensures |r| == if |heads| < len then len else |heads|
    decreases len - |heads|
  {
    if |heads| >= len then heads else Pad(heads + [[]], len)
  }

  /** Pushes a token for the character at `pc`. */
  function PushToken(t: Token, pc: nat, heads: seq<Chain>): seq<Chain>
    requires |heads| <= pc + 1
  {
    var h := Pad(heads, pc + 1);
    h[pc := [t] + h[pc]]
  }

  function Change(m: Mutation, pc: nat, s: Snapshot): (r: Snapshot)
    requires |s.heads| <= pc + 1
    ensures |r.heads| <= pc + 1
  {
    if !Applies(m, s.ed) then s
    else Snapshot(Mutate(m, s.ed), PushToken(Inverse(m, s.ed), pc, s.heads))
  }

  function ChangeAll(ms: seq<Mutation>, pc: nat, s: Snapshot): (r: Snapshot)
    requires |s.heads| <= pc + 1
    ensures |r.heads| <= pc + 1
  {
    if ms == [] then s else ChangeAll(ms[1..], pc, Change(ms[0], pc, s))
  }

  /** Reverts all characters from `pc` on, the last one first. */
  function PopTo(pc: nat, s: Snapshot): (r: Snapshot)
    ensures |s.heads| <= pc ==> r == s
    ensures |r.heads| <= |s.heads|
    ensures |s.heads| > pc ==> |r.heads| == pc
    decreases |s.heads|
  {
    if |s.heads| <= pc then s
    else PopTo(pc, Snapshot(RunChain(s.heads[|s.heads| - 1], s.ed), s.heads[..|s.heads| - 1]))
  }

  /** The same state with an (empty) token list for each of the first `k` characters. */
  function Norm(k: nat, s: Snapshot): Snapshot {
    s.(heads := Pad(s.heads, k))
  }

  lemma {:induction false} PadPad(heads: seq<Chain>, a: nat, b: nat)
    requires a <= b
    ensures Pad(Pad(heads, a), b) == Pad(heads, b)
    decreases a - |heads|
  {
    if |heads| < a {
      PadPad(heads + [[]], a, b);
    }
  }

  lemma {:induction false} PadPrefix(heads: seq<Chain>, k: nat)
    requires |heads| <= k
    ensures Pad(heads, k + 1) == Pad(heads, k) + [[]]
    ensures Pad(heads, k + 1)[..k] == Pad(heads, k)
    decreases k - |heads|
  {
    if |heads| < k {
      PadPrefix(heads + [[]], k);
    } else {
      assert Pad(heads + [[]], k + 1) == heads + [[]];
    }
  }

  /** The tokens that the character at `pc` has pushed so far. */
  function ChainAt(pc: nat, s: Snapshot): Chain {
    if |s.heads| == pc + 1 then s.heads[pc] else []
  }

  /** The state and undo stack that undoing the character at `pc` leads to. */
  function Under(pc: nat, s: Snapshot): Snapshot {
    Norm(pc, Snapshot(RunChain(ChainAt(pc, s), s.ed), if |s.heads| > pc then s.heads[..pc] else s.heads))
  }

  lemma ChangeUnder(m: Mutation, pc: nat, s: Snapshot)
    requires |s.heads| <= pc + 1
    ensures Under(pc, Change(m, pc, s)) == Under(pc, s)
  {
    if Applies(m, s.ed) {
      var t := Inverse(m, s.ed);
      var h := Pad(s.heads, pc + 1);
      var h' := h[pc := [t] + h[pc]];
      InverseReverts(m, s.ed);
      assert ([t] + h[pc])[1..] == h[pc];
      assert h'[..pc] == h[..pc];
      if |s.heads| <= pc {
        PadPrefix(s.heads, pc);
        assert RunChain([], s.ed) == s.ed;
        PadPad(s.heads, pc, pc);
      }
    }
  }

  lemma {:induction false} ChangeAllUnder(ms: seq<Mutation>, pc: nat, s: Snapshot)
    requires |s.heads| <= pc + 1
    ensures Under(pc, ChangeAll(ms, pc, s)) == Under(pc, s)
  {
    hide Under, Change;
    if ms != [] {
      ChangeUnder(ms[0], pc, s);
      ChangeAllUnder(ms[1..], pc, Change(ms[0], pc, s));
    }
  }

  lemma PopUnder(pc: nat, s: Snapshot)
    requires |s.heads| <= pc + 1
    ensures Norm(pc, PopTo(pc, s)) == Under(pc, s)
  {
    if |s.heads| == pc + 1 {
      var t := Snapshot(RunChain(s.heads[pc], s.ed), s.heads[..pc]);
      assert PopTo(pc, s) == PopTo(pc, t) == t;
    }
  }

  /** Mutations do the same to the editor and the undo stack whether or not it is padded. */
  lemma {:induction false} ChangeAllNorm(ms: seq<Mutation>, pc: nat, s: Snapshot)
    requires |s.heads| <= pc + 1
    ensures Norm(pc + 1, ChangeAll(ms, pc, Norm(pc, s))) == Norm(pc + 1, ChangeAll(ms, pc, s))
  {
    if ms == [] {
      PadPad(s.heads, pc, pc + 1);
    } else if Applies(ms[0], s.ed) {
      PadPad(s.heads, pc, pc + 1);
      assert Change(ms[0], pc, Norm(pc, s)) == Change(ms[0], pc, s);
    } else {
      ChangeAllNorm(ms[1..], pc, s);
    }
  }

  lemma {:induction false} PopPop(k: nat, j: nat, s: Snapshot)
    requires k <= j
    ensures PopTo(k, PopTo(j, s)) == PopTo(k, s)
    decreases |s.heads|
  {
    if |s.heads| > j {
      PopPop(k, j, Snapshot(RunChain(s.heads[|s.heads| - 1], s.ed), s.heads[..|s.heads| - 1]));
    }
  }

  /** Undoing does the same whether or not the undo stack is padded. */
  lemma {:induction false} PopNorm(k: nat, j: nat, s: Snapshot)
    requires k <= j && |s.heads| <= j
    ensures PopTo(k, Norm(j, s)) == Norm(k, PopTo(k, s))
    decreases j
  {
    if j > k && |s.heads| < j {
      PadPrefix(s.heads, j - 1);
      var p := Norm(j, s);
      assert p.heads[j - 1] == [];
      assert RunChain([], s.ed) == s.ed;
      assert PopTo(k, p) == PopTo(k, Norm(j - 1, s));
      PopNorm(k, j - 1, s);
    }
  }

  /** Undoing a character leaves behind the empty lists that were pushed for those before it. */
  lemma PaddingRemains(m: Mutation, pc: nat, e: Editor)
    requires Applies(m, e)
    ensures PopTo(pc, Change(m, pc, Snapshot(e, []))) == Snapshot(e, Empties(pc))
  {
    var s := Change(m, pc, Snapshot(e, []));
    ChangeUnder(m, pc, Snapshot(e, []));
    PopUnder(pc, s);
    PadAll([], pc);
    assert [] + Empties(pc) == Empties(pc);
  }

  function Empties(n: nat): seq<Chain> {
    seq(n, _ => [])
  }

  lemma {:induction false} PadAll(heads: seq<Chain>, len: nat)
    requires |heads| <= len
    ensures Pad(heads, len) == heads + Empties(len - |heads|)
    decreases len - |heads|
  {
    if |heads| < len {
      PadAll(heads + [[]], len);
      assert heads + [[]] + Empties(len - |heads| - 1) == heads + Empties(len - |heads|);
    } else {
      assert heads + Empties(0) == heads;
    }
  }

  /** The undo stack of the whole editor. */
  class UndoStack {
    var heads: seq<Chain>
    var ed: Editor

    function Now(): Snapshot
      reads this
    {
      Snapshot(ed, heads)
    }

    constructor (ed: Editor)
      ensures Now() == Snapshot(ed, [])
    {
      this.ed, heads := ed, [];
    }

    /** Pushes a token for the character at `pc`; earlier characters without tokens get empty lists. */
    method PushFor(t: Token, pc: nat)
      requires |heads| <= pc + 1
      modifies this`heads
      ensures heads == PushToken(t, pc, old(heads))
    {
      while |heads| <= pc
        invariant |heads| <= pc + 1
        invariant Pad(heads, pc + 1) == Pad(old(heads), pc + 1)
      {
        heads := heads + [[]];
      }
      assert |heads| == pc + 1;
      heads := heads[|heads| - 1 := [t] + heads[|heads| - 1]];
    }

    /** Performs a mutation after pushing the token that reverts it. */
    method Perform(m: Mutation, pc: nat)
      requires |heads| <= pc + 1
      modifies this
      ensures Now() == Change(m, pc, old(Now()))
    {
      if Applies(m, ed) {
        PushFor(Inverse(m, ed), pc);
        ed := Mutate(m, ed);
      }
    }

    method PerformAll(ms: seq<Mutation>, pc: nat)
      requires |heads| <= pc + 1
      modifies this
      ensures Now() == ChangeAll(ms, pc, old(Now()))
    {
      var i := 0;
      while i < |ms|
        invariant 0 <= i <= |ms| && |heads| <= pc + 1
        invariant ChangeAll(ms[i..], pc, Now()) == ChangeAll(ms, pc, old(Now()))
      {
        assert ms[i..][0] == ms[i] && ms[i..][1..] == ms[i + 1..];
        Perform(ms[i], pc);
        i := i + 1;
      }
    }

    /** Runs and removes the tokens of all characters from `pc` on. */
    method Pop(pc: nat)
      modifies this
      ensures Now() == PopTo(pc, old(Now()))
    {
      while |heads| > pc
        invariant PopTo(pc, Now()) == PopTo(pc, old(Now()))
        decreases |heads|
      {
        ghost var before := Now();
        var top := heads[|heads| - 1];
        heads := heads[..|heads| - 1];
        while top != []
          invariant heads == before.heads[..|before.heads| - 1]
          invariant RunChain(top, ed) == RunChain(before.heads[|before.heads| - 1], before.ed)
          decreases |top|
        {
          ed := RunToken(top[0], ed);
          top := top[1..];
        }
      }
    }

    /** Drops all tokens without running them. */
    method Clear()
      modifies this`heads
      ensures heads == []
    {
      while |heads| > 0
        decreases |heads|
      {
        heads := heads[..|heads| - 1];
      }
    }
  }
}
