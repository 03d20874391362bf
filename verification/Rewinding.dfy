/** Logs of undo tokens: running the tokens last-in-first-out reverts what was done since. */
module Rewinding {
  import opened Sequences

  /** Runs the tokens of a log, the last one first. */
  function Rewind<T, S>(run: (T, S) -> S, ts: seq<T>, s: S): S {
    if ts == [] then s else Rewind(run, Front(ts), run(Last(ts), s))
  }

  /** From state `s1` with log `l1`, running the tokens emitted since `l0` restores `s0`. */
  ghost predicate Undoes<T, S>(run: (T, S) -> S, l0: seq<T>, s0: S, l1: seq<T>, s1: S) {
    && |l0| <= |l1|
    && l1[..|l0|] == l0
    && Rewind(run, l1[|l0|..], s1) == s0
  }

  lemma {:induction false} RewindConcat<T, S>(run: (T, S) -> S, a: seq<T>, b: seq<T>, s: S)
    ensures Rewind(run, a + b, s) == Rewind(run, a, Rewind(run, b, s))
  {
    if b == [] {
      assert a + b == a;
    } else {
      assert Front(a + b) == a + Front(b) && Last(a + b) == Last(b);
      RewindConcat(run, a, Front(b), run(Last(b), s));
    }
  }

  lemma UndoesNothing<T, S>(run: (T, S) -> S, l: seq<T>, s: S)
    ensures Undoes(run, l, s, l, s)
  {
    assert l[|l|..] == [];
  }

  lemma UndoesTrans<T, S>(run: (T, S) -> S, l0: seq<T>, s0: S, l1: seq<T>, s1: S, l2: seq<T>, s2: S)
    requires Undoes(run, l0, s0, l1, s1) && Undoes(run, l1, s1, l2, s2)
    ensures Undoes(run, l0, s0, l2, s2)
  {
    assert l2[|l0|..] == l1[|l0|..] + l2[|l1|..];
    assert l2[..|l0|] == l1[..|l0|];
    RewindConcat(run, l1[|l0|..], l2[|l1|..], s2);
  }

  lemma UndoesOne<T, S>(run: (T, S) -> S, l: seq<T>, s: S, t: T, s': S)
    requires run(t, s') == s
    ensures Undoes(run, l, s, l + [t], s')
  {
    assert (l + [t])[|l|..] == [t];
    assert Front([t]) == [];
    assert Rewind(run, [t], s') == Rewind(run, [], run(t, s'));
  }
}
