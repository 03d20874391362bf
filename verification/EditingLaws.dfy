/**
 * What becomes of rubbed-out characters: they stay behind the end of the line until something
 * else is typed, rubbing in brings them back, and words end where the parser is between commands.
 */
module EditingLaws {
  import opened Sequences
  import opened Undo
  import opened CommandLineSpec
  import opened CommandLine

  // Rubbing in.

  /** The line up to `effectiveLen` has been executed. */
  predicate Executed(exec: Exec, base: Editor, e: Edit) {
    e.effectiveLen <= |e.str| && Agrees(exec, base, e.str[..e.effectiveLen], e.s)
  }

  /** Rubbing in a character that is accepted moves over it. */
  lemma RubbedInStep(exec: Exec, base: Editor, e: Edit, budget: nat) returns (s: Snapshot)
    requires Executed(exec, base, e) && e.effectiveLen < |e.str| && budget > 0
    requires Replay(exec, base, e.str[..e.effectiveLen + 1]).Complete?
    ensures var k := e.effectiveLen + 1;
            && RubbedIn(exec, e, budget) == Pressed(Edit(e.str, k, s), Success, k)
            && Executed(exec, base, Edit(e.str, k, s))
  {
    hide Loop, Agrees, Replay, Inserted;
    var k := e.effectiveLen + 1;
    var data := NextChar(e);
    assert data == e.str[e.effectiveLen..k] && data <= e.str[e.effectiveLen..];
    InsertedIs(e.str, e.effectiveLen, data, e.s);
    var l := Inserted(e.str, e.effectiveLen, data, e.s);
    s := RunAccepted(exec, base, l, k, budget - 1);
    LoopDone(exec, l.(pc := k, s := s), budget - 1);
  }

  function Keys(key: Key, n: nat): (keys: seq<Key>)
    ensures |keys| == n
  {
    if n == 0 then [] else [key] + Keys(key, n - 1)
  }

  lemma KeysMore(key: Key, n: nat, rest: seq<Key>)
    requires n > 0
    ensures var keys := Keys(key, n) + rest;
            keys != [] && keys[0] == key && keys[1..] == Keys(key, n - 1) + rest
  {
    assert [key] + Keys(key, n - 1) + rest == [key] + (Keys(key, n - 1) + rest);
  }

  lemma {:induction false} RuboutsPress(exec: Exec, isStart: Editor -> bool, reset: Editor -> Editor, e: Edit, n: nat,
                                        rest: seq<Key>, start: nat, budget: nat)
    requires n <= e.effectiveLen <= |e.str| && |e.s.heads| <= e.effectiveLen
    ensures var k := e.effectiveLen - n;
            PressAll(exec, isStart, reset, e, Keys(Rubout, n) + rest, start, budget) ==
            PressAll(exec, isStart, reset, Edit(e.str, k, PopTo(k, e.s)), rest, start, budget)
    decreases n
  {
    hide PopTo, RubbedOutWord, RubbedInWord, TypedIn;
    if n == 0 {
      assert Keys(Rubout, 0) + rest == rest;
      PopNothing(e.effectiveLen, e.s);
    } else {
      KeysMore(Rubout, n, rest);
      var r := RubbedOut(e);
      PopShortens(e.effectiveLen - 1, e.s);
      RuboutsPress(exec, isStart, reset, r, n - 1, rest, start, budget);
      PopPop(e.effectiveLen - n, e.effectiveLen - 1, e.s);
    }
  }

  lemma PopShortens(k: nat, s: Snapshot)
    ensures |PopTo(k, s).heads| <= k
  {
  }

  lemma {:induction false} RubinsPress(exec: Exec, base: Editor, isStart: Editor -> bool, reset: Editor -> Editor,
                                       e: Edit, n: nat, start: nat, budget: nat) returns (s: Snapshot)
    requires Executed(exec, base, e) && e.effectiveLen + n <= |e.str| && budget > 0
    requires Replay(exec, base, e.str[..e.effectiveLen + n]).Complete?
    ensures var e' := Edit(e.str, e.effectiveLen + n, s);
            && Executed(exec, base, e')
            && PressAll(exec, isStart, reset, e, Keys(Rubin, n), start, budget) == (e', Handled)
    decreases n
  {
    hide Agrees, Replay, RubbedIn, RubbedInWord;
    if n == 0 {
      s := e.s;
    } else {
      KeysMore(Rubin, n, []);
      assert Keys(Rubin, n) + [] == Keys(Rubin, n) && Keys(Rubin, n - 1) + [] == Keys(Rubin, n - 1);
      var k := e.effectiveLen + 1;
      assert e.str[..e.effectiveLen + n][..k] == e.str[..k];
      ReplayPrefix(exec, base, e.str[..e.effectiveLen + n], k);
      s := RubbedInStep(exec, base, e, budget);
      s := RubinsPress(exec, base, isStart, reset, Edit(e.str, k, s), n - 1, start, budget);
    }
  }

  /**
   * Rubbing out any number of characters and rubbing in as many restores the line, the editor
   * state, and the undo stack up to empty lists at its end.
   */
  lemma RubOutThenIn(exec: Exec, base: Editor, isStart: Editor -> bool, reset: Editor -> Editor, e: Edit, n: nat,
                     start: nat, budget: nat) returns (s: Snapshot)
    requires Executed(exec, base, e) && n <= e.effectiveLen && budget > 0
    ensures PressAll(exec, isStart, reset, e, Keys(Rubout, n) + Keys(Rubin, n), start, budget)
         == (Edit(e.str, e.effectiveLen, s), Handled)
    ensures s.ed == e.s.ed && Norm(e.effectiveLen, s) == Norm(e.effectiveLen, e.s)
  {
    hide Replay, PopTo, PressAll;
    var k, line := e.effectiveLen - n, e.str[..e.effectiveLen];
    RuboutsPress(exec, isStart, reset, e, n, Keys(Rubin, n), start, budget);
    AgreesPop(exec, base, line, k, e.s);
    assert line[..k] == e.str[..k];
    s := RubinsPress(exec, base, isStart, reset, Edit(e.str, k, PopTo(k, e.s)), n, start, budget);
  }

  // Words.

  lemma {:induction false} WordRubbedOut(isStart: Editor -> bool, e: Edit)
    requires e.effectiveLen > 0
    ensures var r := RubbedOutWord(isStart, e);
            && r == Edit(e.str, r.effectiveLen, PopTo(r.effectiveLen, e.s)) && r.effectiveLen < e.effectiveLen
            && (r.effectiveLen == 0 || isStart(r.s.ed))
            && forall k :: r.effectiveLen < k < e.effectiveLen ==> !isStart(PopTo(k, e.s).ed)
    decreases e.effectiveLen
  {
    hide PopTo;
    var r := RubbedOut(e);
    if !isStart(r.s.ed) && r.effectiveLen > 0 {
      WordRubbedOut(isStart, r);
      var w := RubbedOutWord(isStart, r);
      PopPop(w.effectiveLen, r.effectiveLen, e.s);
      forall k | w.effectiveLen < k < e.effectiveLen
        ensures !isStart(PopTo(k, e.s).ed)
      {
        if k < r.effectiveLen {
          PopPop(k, r.effectiveLen, e.s);
        }
      }
    }
  }

  /** The key for rubbing out a word goes back to the nearest place where the parser is between commands. */
  lemma RuboutWordIs(exec: Exec, isStart: Editor -> bool, e: Edit, budget: nat)
    requires 0 < e.effectiveLen <= |e.str|
    ensures var p := Press(exec, isStart, e, RuboutWord, budget);
            var r := p.e;
            && p.status == Success
            && r == Edit(e.str, r.effectiveLen, PopTo(r.effectiveLen, e.s)) && r.effectiveLen < e.effectiveLen
            && (r.effectiveLen == 0 || isStart(r.s.ed))
            && forall k :: r.effectiveLen < k < e.effectiveLen ==> !isStart(PopTo(k, e.s).ed)
  {
    hide RubbedOutWord, PopTo;
    WordRubbedOut(isStart, e);
  }

  /** The editor state after replaying the first `k` characters. */
  function StateAt(exec: Exec, base: Editor, str: seq<char>, k: nat): Editor
    requires k <= |str|
  {
    Replay(exec, base, str[..k]).s.ed
  }

  lemma ExecutedState(exec: Exec, base: Editor, e: Edit)
    requires Executed(exec, base, e)
    ensures StateAt(exec, base, e.str, e.effectiveLen) == e.s.ed
  {
  }

  lemma {:induction false} WordRubbedIn(exec: Exec, base: Editor, isStart: Editor -> bool, e: Edit, left: nat)
    requires Executed(exec, base, e) && Replay(exec, base, e.str).Complete?
    requires e.effectiveLen < |e.str| && left >= |e.str| - e.effectiveLen
    ensures var r := RubbedInWord(exec, isStart, e, left);
            var k := r.e.effectiveLen;
            && r.status == Success && r.e.str == e.str && e.effectiveLen < k <= |e.str|
            && Executed(exec, base, r.e)
            && (k == |e.str| || isStart(StateAt(exec, base, e.str, k)))
            && forall j :: e.effectiveLen < j < k ==> !isStart(StateAt(exec, base, e.str, j))
    decreases |e.str| - e.effectiveLen
  {
    hide Replay, Agrees, RubbedIn, StateAt;
    ReplayPrefix(exec, base, e.str, e.effectiveLen + 1);
    var s := RubbedInStep(exec, base, e, left);
    var e' := Edit(e.str, e.effectiveLen + 1, s);
    ExecutedState(exec, base, e');
    if !isStart(s.ed) && e'.effectiveLen < |e.str| {
      WordRubbedIn(exec, base, isStart, e', left - 1);
    }
  }

  /**
   * The key for rubbing in a word, where all that was rubbed out replays, goes on to the nearest place where
   * the parser is between commands, or to the end.
   */
  lemma RubinWordIs(exec: Exec, base: Editor, isStart: Editor -> bool, e: Edit, budget: nat)
    requires Executed(exec, base, e) && Replay(exec, base, e.str).Complete?
    requires e.effectiveLen < |e.str| && budget >= |e.str| - e.effectiveLen
    ensures var r := Press(exec, isStart, e, RubinWord, budget);
            var k := r.e.effectiveLen;
            && r.status == Success && r.e.str == e.str && e.effectiveLen < k <= |e.str|
            && Executed(exec, base, r.e)
            && (k == |e.str| || isStart(StateAt(exec, base, e.str, k)))
            && forall j :: e.effectiveLen < j < k ==> !isStart(StateAt(exec, base, e.str, j))
  {
    hide RubbedInWord, Replay, Agrees, StateAt;
    WordRubbedIn(exec, base, isStart, e, budget);
  }
}
