/**
 * Replaying a command line from scratch, and the execution loop of the command line with its
 * replacement by `}` and the recovery from a failed replacement.
 */
module CommandLineSpec {
  import opened Sequences
  import opened Strings
  import opened Undo

  datatype Verdict =
    | Accepted
    | Rejected                       // any ordinary error
    | Returned                       // $$ on the command line
    | Replaced(line: seq<char>)      // the replacement command with the new line

  datatype Effect = Effect(changes: seq<Mutation>, verdict: Verdict)

  /**
   * Executing the last character of a line prefix: the mutations it performs and how it ends.
   * The prefix is given, as a loop end executes earlier characters again. Every mutation
   * pushes the token that reverts it, whether or not the character fails. This is assumed of
   * the commands; among those of the interpreter in `MacroInterpreter`, exactly the breaks
   * that lose their loop do not meet it.
   */
  type Exec = (Editor, seq<char>) -> Effect

  /** A replay is complete, or it is stopped by the character at `pc`. */
  datatype Replayed = Complete(s: Snapshot) | Stopped(pc: nat, s: Snapshot, verdict: Verdict)

  /** Executes a whole line in the state `base` with an empty undo stack. */
  function Replay(exec: Exec, base: Editor, line: seq<char>): (r: Replayed)
    ensures r.Complete? ==> |r.s.heads| == |line|
    ensures r.Stopped? ==> r.pc < |line| && r.verdict != Accepted
    decreases |line|
  {
    if line == [] then Complete(Snapshot(base, []))
    else
      var r := Replay(exec, base, Front(line));
      if r.Stopped? then r
      else
        var x := exec(r.s.ed, line);
        var s := Norm(|line|, ChangeAll(x.changes, |line| - 1, r.s));
        if x.verdict == Accepted then Complete(s) else Stopped(|line| - 1, s, x.verdict)
  }

  lemma {:induction false} ReplayPrefix(exec: Exec, base: Editor, line: seq<char>, k: nat)
    requires k <= |line| && Replay(exec, base, line).Complete?
    ensures Replay(exec, base, line[..k]).Complete?
    ensures PopTo(k, Replay(exec, base, line).s) == Replay(exec, base, line[..k]).s
    decreases |line|
  {
    hide ChangeAll, PopTo, Norm;
    if k == |line| {
      assert line[..k] == line;
      PopNothing(k, Replay(exec, base, line).s);
    } else {
      var n := |line| - 1;
      var t := Replay(exec, base, Front(line)).s;
      ReplayPrefix(exec, base, Front(line), k);
      assert Front(line)[..k] == line[..k];
      PopLast(exec(t.ed, line).changes, n, t);
      PopPop(k, n, Replay(exec, base, line).s);
    }
  }

  lemma PopNothing(k: nat, s: Snapshot)
    requires |s.heads| <= k
    ensures PopTo(k, s) == s
  {
  }

  /** Popping the tokens of the last character. */
  lemma PopLast(ms: seq<Mutation>, n: nat, s: Snapshot)
    requires |s.heads| == n
    ensures PopTo(n, Norm(n + 1, ChangeAll(ms, n, s))) == s
  {
    var u := ChangeAll(ms, n, s);
    ChangeAllUnder(ms, n, s);
    PopUnder(n, u);
    assert Under(n, s) == s;
    PopNorm(n, n + 1, u);
  }

  lemma {:induction false} ReplayStops(exec: Exec, base: Editor, line: seq<char>, k: nat)
    requires k <= |line| && Replay(exec, base, line[..k]).Stopped?
    ensures Replay(exec, base, line) == Replay(exec, base, line[..k])
    decreases |line|
  {
    if k == |line| {
      assert line[..k] == line;
    } else {
      assert Front(line)[..k] == line[..k];
      ReplayStops(exec, base, Front(line), k);
    }
  }

  /** The editor state and undo stack are those of a fresh replay of `line`. */
  predicate Agrees(exec: Exec, base: Editor, line: seq<char>, s: Snapshot) {
    |s.heads| <= |line| && Replay(exec, base, line) == Complete(Norm(|line|, s))
  }

  /** Undoing back to an earlier character gives what replaying up to it gives. */
  lemma AgreesPop(exec: Exec, base: Editor, line: seq<char>, k: nat, s: Snapshot)
    requires k <= |line| && Agrees(exec, base, line, s)
    ensures Agrees(exec, base, line[..k], PopTo(k, s))
  {
    ReplayPrefix(exec, base, line, k);
    PopNorm(k, |line|, s);
  }

  /** What executing the character at `pc` gives in a state reached by replaying up to it. */
  lemma AgreesStep(exec: Exec, base: Editor, line: seq<char>, pc: nat, s: Snapshot)
    requires pc < |line| && Agrees(exec, base, line[..pc], s)
    ensures var x := exec(s.ed, line[..pc + 1]);
            var s' := ChangeAll(x.changes, pc, s);
            if x.verdict == Accepted then Agrees(exec, base, line[..pc + 1], s')
            else Replay(exec, base, line[..pc + 1]) == Stopped(pc, Norm(pc + 1, s'), x.verdict)
                 && |s'.heads| <= pc + 1
  {
    var p := line[..pc + 1];
    assert Front(p) == line[..pc];
    var x := exec(s.ed, p);
    ChangeAllNorm(x.changes, pc, s);
  }

  /** A character that did not finish is undone together with everything after `k`. */
  lemma UndoPartial(exec: Exec, base: Editor, line: seq<char>, pc: nat, k: nat, s: Snapshot, ms: seq<Mutation>)
    requires k <= pc <= |line| && Agrees(exec, base, line[..pc], s)
    ensures Agrees(exec, base, line[..k], PopTo(k, ChangeAll(ms, pc, s)))
  {
    var s' := ChangeAll(ms, pc, s);
    var t := PopTo(pc, s');
    ChangeAllUnder(ms, pc, s);
    PopUnder(pc, s');
    PopUnder(pc, s);
    PadPad(s.heads, pc, pc);
    assert Norm(pc, t) == Norm(pc, s);
    assert |t.heads| <= pc;
    assert line[..pc][..k] == line[..k];
    AgreesPop(exec, base, line[..pc], k, t);
    PopPop(k, pc, s');
  }

  /** The variables of the execution loop. `saved` is the replaced line while a new one replays. */
  datatype Line = Line(
    str: seq<char>,
    effectiveLen: nat,
    pc: nat,
    s: Snapshot,
    saved: seq<char>,
    replPc: nat)

  datatype Status =
    | Running                  // the iteration budget is used up
    | Success
    | Error
    | Return
    | NestedReplacement        // the assertion that no other replacement is under way

  datatype Outcome = Outcome(l: Line, status: Status)

  /** One character: either the loop goes on with another line state, or it stops. */
  function Iteration(exec: Exec, l: Line): (o: Outcome)
    requires l.pc < |l.str| && |l.s.heads| <= l.pc + 1
    ensures o.status != Success
  {
    var x := exec(l.s.ed, l.str[..l.pc + 1]);
    var l1 := l.(s := ChangeAll(x.changes, l.pc, l.s));
    match x.verdict
    case Accepted => Outcome(l1.(pc := l.pc + 1), Running)
    case Replaced(line) =>
      var pc := Diff(l.str, line);
      if l.saved != [] then Outcome(l1.(pc := pc, s := PopTo(pc, l1.s)), NestedReplacement)
      else Outcome(Line(line, |line|, pc, PopTo(pc, l1.s), l.str, pc), Running)
    case Rejected =>
      if l.saved != [] then
        var len := if l.effectiveLen > 0 then l.effectiveLen - 1 else 0;
        Outcome(Line(l.saved, len, l.replPc, PopTo(l.replPc, l1.s), [], l.replPc), Running)
      else Outcome(l1, Error)
    case Returned => Outcome(l1, Return)
  }

  /** The execution loop, for at most `budget` characters. */
  function Loop(exec: Exec, l: Line, budget: nat): Outcome
    decreases budget
  {
    if l.pc >= l.effectiveLen then Outcome(l, Success)
    else if budget == 0 || l.pc >= |l.str| || |l.s.heads| > l.pc + 1 then Outcome(l, Running)
    else
      var o := Iteration(exec, l);
      if o.status != Running then o else Loop(exec, o.l, budget - 1)
  }

  /** A replacement never begins with the characters executed so far, the `}` included. */
  ghost predicate ReplacesProperly(exec: Exec) {
    forall e, p :: exec(e, p).verdict.Replaced? ==> !(p <= exec(e, p).verdict.line)
  }

  /** The line cannot be replayed to its end. */
  predicate Doomed(exec: Exec, base: Editor, line: seq<char>) {
    Replay(exec, base, line).Stopped?
  }

  /** What holds whenever the execution loop is about to execute a character. */
  predicate Good(exec: Exec, base: Editor, l: Line) {
    && l.pc <= |l.str| && l.pc <= l.effectiveLen
    && Agrees(exec, base, l.str[..l.pc], l.s)
    && (l.effectiveLen <= |l.str| || Doomed(exec, base, l.str))
    && (l.saved != [] ==>
          && l.effectiveLen == |l.str|
          && l.replPc <= l.pc && l.replPc <= |l.saved| && l.saved[..l.replPc] == l.str[..l.replPc]
          && Doomed(exec, base, l.saved))
  }

  /** The loop never runs past the end of the command line. */
  lemma GoodInRange(exec: Exec, base: Editor, l: Line)
    requires Good(exec, base, l) && l.pc < l.effectiveLen
    ensures l.pc < |l.str| && |l.s.heads| <= l.pc
  {
    WholePrefix(l.str);
  }

  lemma WholePrefix<T>(a: seq<T>)
    ensures a[..|a|] == a
  {
  }

  lemma ShorterPrefix<T>(a: seq<T>, b: seq<T>, n: nat, m: nat)
    requires m <= n <= |a| && n <= |b| && a[..n] == b[..n]
    ensures a[..m] == b[..m]
  {
    assert a[..n][..m] == a[..m] && b[..n][..m] == b[..m];
  }

  lemma DiffBeforeEnd(a: seq<char>, b: seq<char>, pc: nat)
    requires pc < |a| && !(a[..pc + 1] <= b)
    ensures Diff(a, b) <= pc
  {
    var n := Diff(a, b);
    ShorterPrefix(a, b, n, if n < pc + 1 then n else pc + 1);
  }

  lemma GoodKept(exec: Exec, base: Editor, l: Line)
    requires ReplacesProperly(exec) && Good(exec, base, l) && l.pc < l.effectiveLen
    requires l.pc < |l.str| && |l.s.heads| <= l.pc + 1
    ensures var o := Iteration(exec, l);
            o.status == Running ==> Good(exec, base, o.l)
  {
    hide Replay, ChangeAll, PopTo, Agrees, Diff;
    var p := l.str[..l.pc + 1];
    var x := exec(l.s.ed, p);
    AgreesStep(exec, base, l.str, l.pc, l.s);
    match x.verdict
    case Accepted =>
    case Replaced(line) =>
      if l.saved == [] {
        DiffBeforeEnd(l.str, line, l.pc);
        UndoPartial(exec, base, l.str, l.pc, Diff(l.str, line), l.s, x.changes);
        ReplayStops(exec, base, l.str, l.pc + 1);
      }
    case Rejected =>
      if l.saved != [] {
        UndoPartial(exec, base, l.str, l.pc, l.replPc, l.s, x.changes);
      }
    case Returned =>
  }

  /**
   * Whatever the loop executes, if it ends the state is that of replaying the effective line,
   * provided that all changes push their tokens, as `Exec` assumes.
   */
  lemma {:induction false} LoopAgrees(exec: Exec, base: Editor, l: Line, budget: nat)
    requires ReplacesProperly(exec) && Good(exec, base, l)
    ensures var o := Loop(exec, l, budget);
            && (o.status == Success ==>
                  && o.l.effectiveLen == o.l.pc <= |o.l.str|
                  && Agrees(exec, base, o.l.str[..o.l.effectiveLen], o.l.s))
            && (o.status == Running ==> Good(exec, base, o.l))
            && (o.status == Error ==> Failing(exec, base, o.l))
    decreases budget
  {
    hide Iteration, Agrees, ReplacesProperly;
    if l.pc < l.effectiveLen {
      GoodInRange(exec, base, l);
      if budget > 0 {
        var o := Iteration(exec, l);
        GoodKept(exec, base, l);
        if o.status == Running {
          LoopAgrees(exec, base, o.l, budget - 1);
        } else if o.status == Error {
          ErrorFails(exec, base, l);
        }
      }
    }
  }

  /** The character at `pc` failed after some of its mutations. */
  predicate Failing(exec: Exec, base: Editor, l: Line) {
    && l.pc < |l.str| && l.pc < l.effectiveLen
    && |l.s.heads| <= l.pc + 1
    && Replay(exec, base, l.str[..l.pc + 1]).Stopped?
    && Replay(exec, base, l.str[..l.pc]).Complete?
    && Norm(l.pc, PopTo(l.pc, l.s)) == Replay(exec, base, l.str[..l.pc]).s
    && (l.effectiveLen <= |l.str| || Doomed(exec, base, l.str))
  }

  lemma ErrorFails(exec: Exec, base: Editor, l: Line)
    requires Good(exec, base, l) && l.pc < l.effectiveLen
    requires l.pc < |l.str| && |l.s.heads| <= l.pc + 1
    requires Iteration(exec, l).status == Error
    ensures Failing(exec, base, Iteration(exec, l).l)
  {
    hide Replay, ChangeAll, PopTo;
    var x := exec(l.s.ed, l.str[..l.pc + 1]);
    AgreesStep(exec, base, l.str, l.pc, l.s);
    UndoPartial(exec, base, l.str, l.pc, l.pc, l.s, x.changes);
  }

  /**
   * Undoing to `k` after a failure gives the replay of the first `k` characters exactly if
   * the failing character is among those undone.
   */
  lemma FailureUndoneExact(exec: Exec, base: Editor, l: Line, k: nat)
    requires Failing(exec, base, l)
    ensures k <= l.pc <==> k <= |l.str| && Agrees(exec, base, l.str[..k], PopTo(k, l.s))
  {
    hide PopTo;
    if k <= l.pc {
      var t := PopTo(l.pc, l.s);
      assert |t.heads| <= l.pc;
      assert Agrees(exec, base, l.str[..l.pc], t);
      assert l.str[..l.pc][..k] == l.str[..k];
      AgreesPop(exec, base, l.str[..l.pc], k, t);
      PopPop(k, l.pc, l.s);
    } else if k <= |l.str| {
      assert l.str[..k][..l.pc + 1] == l.str[..l.pc + 1];
      ReplayStops(exec, base, l.str[..k], l.pc + 1);
    }
  }

  lemma LoopStep(exec: Exec, l: Line, budget: nat)
    requires l.pc < l.effectiveLen && l.pc < |l.str| && |l.s.heads| <= l.pc + 1
    requires Iteration(exec, l).status == Running
    ensures Loop(exec, l, 1 + budget) == Loop(exec, Iteration(exec, l).l, budget)
  {
  }

  /** The next character of a line that replays beyond it. */
  lemma AcceptedStep(exec: Exec, base: Editor, l: Line, k: nat)
    requires l.pc < k <= |l.str|
    requires Agrees(exec, base, l.str[..l.pc], l.s) && Replay(exec, base, l.str[..k]).Complete?
    ensures |l.s.heads| <= l.pc
    ensures var o := Iteration(exec, l);
            && o == Outcome(l.(pc := l.pc + 1, s := o.l.s), Running)
            && Agrees(exec, base, l.str[..l.pc + 1], o.l.s)
  {
    hide Replay, Agrees, ChangeAll;
    AgreesHeads(exec, base, l.str[..l.pc], l.s);
    AgreesStep(exec, base, l.str, l.pc, l.s);
    assert l.str[..k][..l.pc + 1] == l.str[..l.pc + 1];
    ReplayPrefix(exec, base, l.str[..k], l.pc + 1);
  }

  /** Characters that replay without error are executed one after the other. */
  lemma {:induction false} RunAccepted(exec: Exec, base: Editor, l: Line, k: nat, budget: nat) returns (s: Snapshot)
    requires l.pc <= k <= |l.str| && k <= l.effectiveLen
    requires Agrees(exec, base, l.str[..l.pc], l.s) && Replay(exec, base, l.str[..k]).Complete?
    ensures Loop(exec, l, k - l.pc + budget) == Loop(exec, l.(pc := k, s := s), budget)
    ensures Agrees(exec, base, l.str[..k], s)
    decreases k - l.pc
  {
    hide Replay, Agrees, Iteration, Loop;
    if l.pc == k {
      s := l.s;
      assert l.(pc := k, s := s) == l;
    } else {
      AcceptedStep(exec, base, l, k);
      LoopStep(exec, l, k - l.pc - 1 + budget);
      s := RunAccepted(exec, base, Iteration(exec, l).l, k, budget);
    }
  }

  lemma AgreesHeads(exec: Exec, base: Editor, line: seq<char>, s: Snapshot)
    requires Agrees(exec, base, line, s)
    ensures |s.heads| <= |line|
  {
  }

  /**
   * A replacement by a line that replays without error leaves the state and undo stack of
   * running the new line from scratch, although only the part that differs is executed.
   */
  lemma ReplacementIsReplay(exec: Exec, base: Editor, l: Line, line: seq<char>) returns (budget: nat)
    requires ReplacesProperly(exec) && Good(exec, base, l) && l.saved == [] && l.pc < l.effectiveLen
    requires l.pc < |l.str| && exec(l.s.ed, l.str[..l.pc + 1]).verdict == Replaced(line)
    requires Replay(exec, base, line).Complete?
    ensures var o := Loop(exec, l, budget);
            && o.status == Success && o.l.str == line && o.l.effectiveLen == |line|
            && Agrees(exec, base, line, o.l.s)
  {
    hide Replay, Agrees, Loop, Iteration, ReplacesProperly, Good;
    GoodInRange(exec, base, l);
    ReplacedStep(exec, base, l, line);
    var l1 := Iteration(exec, l).l;
    assert line[..|line|] == line;
    var s := RunAccepted(exec, base, l1, |line|, 0);
    budget := 1 + (|line| - l1.pc);
    LoopStep(exec, l, |line| - l1.pc);
    LoopDone(exec, l1.(pc := |line|, s := s), 0);
  }

  lemma LoopDone(exec: Exec, l: Line, budget: nat)
    requires l.pc >= l.effectiveLen
    ensures Loop(exec, l, budget) == Outcome(l, Success)
  {
  }

  /** The failing character of a replacing line leads back into the old line. */
  lemma RejectedStep(exec: Exec, base: Editor, l: Line)
    requires l.saved != [] && l.effectiveLen == |l.str| && Replay(exec, base, l.str).Stopped?
    requires l.pc == Replay(exec, base, l.str).pc && Replay(exec, base, l.str).verdict == Rejected
    requires Agrees(exec, base, l.str[..l.pc], l.s)
    requires l.replPc <= l.pc && l.replPc <= |l.saved| && l.saved[..l.replPc] == l.str[..l.replPc]
    ensures |l.s.heads| <= l.pc
    ensures var o := Iteration(exec, l);
            && o == Outcome(Line(l.saved, |l.str| - 1, l.replPc, o.l.s, [], l.replPc), Running)
            && Agrees(exec, base, l.saved[..l.replPc], o.l.s)
  {
    hide Replay, Agrees, ChangeAll, PopTo;
    AgreesHeads(exec, base, l.str[..l.pc], l.s);
    NextVerdict(exec, base, l.str, l.pc, l.s);
    var x := exec(l.s.ed, l.str[..l.pc + 1]);
    UndoPartial(exec, base, l.str, l.pc, l.replPc, l.s, x.changes);
  }

  lemma ReplacedStep(exec: Exec, base: Editor, l: Line, line: seq<char>)
    requires ReplacesProperly(exec) && Good(exec, base, l) && l.saved == [] && l.pc < l.effectiveLen
    requires l.pc < |l.str| && exec(l.s.ed, l.str[..l.pc + 1]).verdict == Replaced(line)
    ensures |l.s.heads| <= l.pc
    ensures var k := Diff(l.str, line);
            var o := Iteration(exec, l);
            && k <= l.pc
            && o == Outcome(Line(line, |line|, k, o.l.s, l.str, k), Running)
            && Agrees(exec, base, line[..k], o.l.s)
  {
    hide Replay, Agrees, ChangeAll, PopTo, ReplacesProperly;
    GoodInRange(exec, base, l);
    GoodKept(exec, base, l);
    ReplacedBefore(exec, l, line);
  }

  /** Undoing a failed replacement leads back into the old line, one character shorter than the new one. */
  lemma FailedReplacementReturns(exec: Exec, base: Editor, l: Line, line: seq<char>, budget: nat)
      returns (n: nat, s: Snapshot)
    requires ReplacesProperly(exec) && Good(exec, base, l) && l.saved == [] && l.pc < l.effectiveLen
    requires l.pc < |l.str| && exec(l.s.ed, l.str[..l.pc + 1]).verdict == Replaced(line)
    requires Replay(exec, base, line).Stopped? && Replay(exec, base, line).verdict == Rejected
    ensures var k := Diff(l.str, line);
            var l2 := Line(l.str, |line| - 1, k, s, [], k);
            && k <= l.pc && k <= |line| - 1
            && Agrees(exec, base, l.str[..k], s)
            && Loop(exec, l, n + budget) == Loop(exec, l2, budget)
  {
    hide Replay, Agrees, Iteration, ReplacesProperly, Loop, Good;
    ReplacedStep(exec, base, l, line);
    var k := Diff(l.str, line);
    var l1 := Iteration(exec, l).l;
    var q := Replay(exec, base, line).pc;
    NotPastStop(exec, base, line, k, l1.s);
    StoppedAt(exec, base, line);
    var s1 := RunAccepted(exec, base, l1, q, 1 + budget);
    var l3 := l1.(pc := q, s := s1);
    RejectedStep(exec, base, l3);
    s := Iteration(exec, l3).l.s;
    n := 1 + (q - k) + 1;
    LoopStep(exec, l, q - k + (1 + budget));
    LoopStep(exec, l3, budget);
  }

  lemma ReplacedBefore(exec: Exec, l: Line, line: seq<char>)
    requires ReplacesProperly(exec) && l.pc < |l.str|
    requires exec(l.s.ed, l.str[..l.pc + 1]).verdict == Replaced(line)
    ensures Diff(l.str, line) <= l.pc
  {
    DiffBeforeEnd(l.str, line, l.pc);
  }

  /** The replay of a stopped line is complete up to the character that stops it. */
  lemma {:induction false} StoppedAt(exec: Exec, base: Editor, line: seq<char>)
    requires Replay(exec, base, line).Stopped?
    ensures var q := Replay(exec, base, line).pc;
            && Replay(exec, base, line[..q]).Complete?
            && Replay(exec, base, line[..q + 1]) == Replay(exec, base, line)
    decreases |line|
  {
    hide ChangeAll, Norm;
    var n := |line| - 1;
    if Replay(exec, base, Front(line)).Stopped? {
      StoppedAt(exec, base, Front(line));
      var q := Replay(exec, base, line).pc;
      assert Front(line)[..q] == line[..q] && Front(line)[..q + 1] == line[..q + 1];
    } else {
      assert line[..n] == Front(line) && line[..n + 1] == line;
    }
  }

  lemma AgreesNotStopped(exec: Exec, base: Editor, line: seq<char>, k: nat, s: Snapshot)
    requires k <= |line| && Agrees(exec, base, line, s)
    ensures Replay(exec, base, line[..k]).Complete?
  {
    ReplayPrefix(exec, base, line, k);
  }

  /** The verdict on the next character of a line whose replay is known. */
  lemma NextVerdict(exec: Exec, base: Editor, line: seq<char>, pc: nat, s: Snapshot)
    requires pc < |line| && Agrees(exec, base, line[..pc], s)
    ensures var r := Replay(exec, base, line);
            var v := exec(s.ed, line[..pc + 1]).verdict;
            && (r.Complete? || pc < r.pc ==> v == Accepted)
            && (r.Stopped? ==> pc <= r.pc && (pc == r.pc ==> v == r.verdict))
  {
    hide Replay, Agrees, ChangeAll;
    AgreesHeads(exec, base, line[..pc], s);
    AgreesStep(exec, base, line, pc, s);
    var r := Replay(exec, base, line);
    if Replay(exec, base, line[..pc + 1]).Stopped? {
      ReplayStops(exec, base, line, pc + 1);
    }
    if r.Stopped? {
      StoppedAt(exec, base, line);
      if pc > r.pc {
        assert line[..pc][..r.pc + 1] == line[..r.pc + 1];
        AgreesNotStopped(exec, base, line[..pc], r.pc + 1, s);
      }
    }
  }

  /**
   * Between the old line, which asks for the new one, and the new line, which fails and is
   * longer than what the old line replays to.
   */
  predicate Cycling(exec: Exec, base: Editor, before: seq<char>, line: seq<char>, l: Line) {
    var r0, r := Replay(exec, base, before), Replay(exec, base, line);
    && r0.Stopped? && r0.verdict == Replaced(line)
    && r.Stopped? && r.verdict == Rejected
    && |line| > r0.pc + 1
    && l.pc <= |l.str| && Agrees(exec, base, l.str[..l.pc], l.s)
    && if l.saved == [] then l.str == before && l.pc <= r0.pc < l.effectiveLen
       else l.str == line && l.saved == before && l.effectiveLen == |line| && l.pc <= r.pc
            && l.replPc == Diff(before, line) && l.replPc <= l.pc
  }

  lemma CyclingKept(exec: Exec, base: Editor, before: seq<char>, line: seq<char>, l: Line)
    requires ReplacesProperly(exec) && Cycling(exec, base, before, line, l)
    ensures l.pc < l.effectiveLen && l.pc < |l.str| && |l.s.heads| <= l.pc + 1
    ensures Iteration(exec, l).status == Running && Cycling(exec, base, before, line, Iteration(exec, l).l)
  {
    hide Replay, Agrees, ChangeAll, PopTo, ReplacesProperly, Diff;
    AgreesHeads(exec, base, l.str[..l.pc], l.s);
    NextVerdict(exec, base, l.str, l.pc, l.s);
    AgreesStep(exec, base, l.str, l.pc, l.s);
    var x := exec(l.s.ed, l.str[..l.pc + 1]);
    var k := Diff(before, line);
    ReplacedAt(exec, base, before, line);
    if x.verdict != Accepted {
      UndoPartial(exec, base, l.str, l.pc, k, l.s, x.changes);
      assert before[..k] == line[..k];
      if l.saved == [] {
        NotPastStop(exec, base, line, k, PopTo(k, ChangeAll(x.changes, l.pc, l.s)));
      }
    }
  }

  lemma ReplacedAt(exec: Exec, base: Editor, before: seq<char>, line: seq<char>)
    requires ReplacesProperly(exec)
    requires var r := Replay(exec, base, before);
             r.Stopped? && r.verdict == Replaced(line)
    ensures Diff(before, line) <= Replay(exec, base, before).pc
  {
    StoppedAt(exec, base, before);
    var q := Replay(exec, base, before).pc;
    assert Front(before[..q + 1]) == before[..q];
    assert exec(Replay(exec, base, before[..q]).s.ed, before[..q + 1]).verdict == Replaced(line);
    DiffBeforeEnd(before, line, q);
  }

  lemma NotPastStop(exec: Exec, base: Editor, line: seq<char>, k: nat, s: Snapshot)
    requires k <= |line| && Agrees(exec, base, line[..k], s) && Replay(exec, base, line).Stopped?
    ensures k <= Replay(exec, base, line).pc
  {
    hide Replay, Agrees;
    StoppedAt(exec, base, line);
    var q := Replay(exec, base, line).pc;
    if k > q {
      assert line[..k][..q + 1] == line[..q + 1];
      AgreesNotStopped(exec, base, line[..k], q + 1, s);
    }
  }

  lemma {:induction false} Cycles(exec: Exec, base: Editor, before: seq<char>, line: seq<char>, l: Line, budget: nat)
    requires ReplacesProperly(exec) && Cycling(exec, base, before, line, l)
    ensures Loop(exec, l, budget).status == Running
    decreases budget
  {
    hide Iteration, Cycling, ReplacesProperly;
    CyclingKept(exec, base, before, line, l);
    if budget > 0 {
      Cycles(exec, base, before, line, Iteration(exec, l).l, budget - 1);
    }
  }

  lemma DiffInFailing(exec: Exec, base: Editor, l: Line, line: seq<char>)
    requires ReplacesProperly(exec) && Good(exec, base, l) && l.saved == [] && l.pc < l.effectiveLen
    requires l.pc < |l.str| && exec(l.s.ed, l.str[..l.pc + 1]).verdict == Replaced(line)
    requires Replay(exec, base, line).Stopped? && Replay(exec, base, line).verdict == Rejected
    ensures Diff(l.str, line) <= |line| - 1
  {
    var _, _ := FailedReplacementReturns(exec, base, l, line, 0);
  }

  lemma RecoveryEnds(exec: Exec, base: Editor, l: Line, line: seq<char>) returns (n: nat)
    requires ReplacesProperly(exec) && Good(exec, base, l) && l.saved == []
    requires l.pc < l.effectiveLen && l.pc < |l.str|
    requires exec(l.s.ed, l.str[..l.pc + 1]).verdict == Replaced(line)
    requires Replay(exec, base, line).Stopped? && Replay(exec, base, line).verdict == Rejected
    requires |line| <= l.pc + 1
    ensures var o := Loop(exec, l, n);
            && o.status == Success && o.l.str == l.str && o.l.effectiveLen == |line| - 1
            && Agrees(exec, base, l.str[..|line| - 1], o.l.s)
  {
    hide Replay, Agrees, Iteration, ReplacesProperly;
    var e := |line| - 1;
    var k := Diff(l.str, line);
    DiffInFailing(exec, base, l, line);
    var m, s := FailedReplacementReturns(exec, base, l, line, e - k);
    var l2 := Line(l.str, e, k, s, [], k);
    assert Replay(exec, base, l.str[..e]).Complete? by {
      assert l.str[..l.pc][..e] == l.str[..e];
      AgreesNotStopped(exec, base, l.str[..l.pc], e, l.s);
    }
    var t := RunAccepted(exec, base, l2, e, 0);
    n := m + (e - k);
    assert Loop(exec, l2.(pc := e, s := t), 0) == Outcome(l2.(pc := e, s := t), Success);
  }

  lemma CyclesFrom(exec: Exec, base: Editor, l: Line, line: seq<char>, budget: nat)
    requires ReplacesProperly(exec) && Good(exec, base, l) && l.saved == []
    requires l.pc < l.effectiveLen && l.pc < |l.str|
    requires exec(l.s.ed, l.str[..l.pc + 1]).verdict == Replaced(line)
    requires Replay(exec, base, line).Stopped? && Replay(exec, base, line).verdict == Rejected
    requires |line| > l.pc + 1
    ensures Loop(exec, l, budget).status == Running
  {
    hide Replay, Agrees, Iteration, ReplacesProperly, Loop, ChangeAll;
    AgreesStep(exec, base, l.str, l.pc, l.s);
    ReplayStops(exec, base, l.str, l.pc + 1);
    Cycles(exec, base, l.str, line, l, budget);
  }

  /**
   * Recovery from a failed replacement. It ends exactly if the new line is not longer than
   * the old one up to and including the `}`, and then leaves the old line with as many
   * characters as the new line has, less one: just the `}` and what follows is rubbed out
   * exactly if both have the same length.
   */
  lemma RecoveryExact(exec: Exec, base: Editor, l: Line, line: seq<char>) returns (n: nat)
    requires ReplacesProperly(exec) && Good(exec, base, l) && l.saved == []
    requires l.pc < l.effectiveLen && l.pc < |l.str|
    requires exec(l.s.ed, l.str[..l.pc + 1]).verdict == Replaced(line)
    requires Replay(exec, base, line).Stopped? && Replay(exec, base, line).verdict == Rejected
    ensures |line| <= l.pc + 1 ==>
              var o := Loop(exec, l, n);
              && o.status == Success && o.l.str == l.str && o.l.effectiveLen == |line| - 1
              && Agrees(exec, base, l.str[..|line| - 1], o.l.s)
    ensures |line| > l.pc + 1 ==> forall budget :: Loop(exec, l, budget).status == Running
  {
    hide Replay, Agrees, Iteration, ReplacesProperly, Loop, Good;
    n := 0;
    if |line| <= l.pc + 1 {
      n := RecoveryEnds(exec, base, l, line);
    } else {
      forall budget
        ensures Loop(exec, l, budget).status == Running
      {
        CyclesFrom(exec, base, l, line, budget);
      }
    }
  }

  /** A command line where `}` asks for the line `bcd`, which fails at its first character. */
  function Example(): Exec {
    (e, p) => Effect([], if p == [] then Accepted else Judged(Last(p)))
  }

  function Judged(c: char): Verdict {
    if c == '}' then Replaced("bcd") else if c == 'b' then Rejected else Accepted
  }

  /** Replacing `a}` by `bcd` never ends: both lines are replayed in turn. */
  lemma RecoveryCycles(base: Editor, budget: nat)
    ensures var l := Line("a}", 2, 1, Snapshot(base, []), [], 0);
            Good(Example(), base, l) && Loop(Example(), l, budget).status == Running
  {
    var exec, s, l := Example(), Snapshot(base, []), Line("a}", 2, 1, Snapshot(base, []), [], 0);
    var a, b, line := "a", "b", "bcd";
    assert Replay(exec, base, []) == Complete(s);
    assert Front(a) == [] && Front(b) == [] && Norm(1, s).heads == [[]];
    assert Replay(exec, base, a) == Complete(Norm(1, s));
    assert l.str[..1] == a && l.str[..2] == l.str && Last(l.str) == '}';
    assert Replay(exec, base, b) == Stopped(0, Norm(1, s), Rejected);
    assert line[..1] == b;
    ReplayStops(exec, base, line, 1);
    assert ReplacesProperly(exec) by { ExampleReplaces(); }
    var _ := RecoveryExact(exec, base, l, line);
  }

  lemma ExampleReplaces()
    ensures ReplacesProperly(Example())
  {
    forall e: Editor, p: seq<char> | Example()(e, p).verdict.Replaced?
      ensures !(p <= "bcd")
    {
      assert p[|p| - 1] == '}';
    }
  }
}
