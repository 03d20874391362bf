/**
 * The interpreter as it updates its state in place, character by character, emitting the undo
 * tokens of the command line's own interpreter.
 */
module MacroInterpreter {
  import opened Sequences
  import opened Rewinding
  import opened Words
  import opened ExpressionSpec
  import opened ExpressionStack
  import opened Frames
  import M = MacroMachine
  import S = StructuredMacros

  /** What the tokens of the interpreter revert; those of the expression stacks are kept there. */
  datatype Control<D> = Control(
    mode: M.Mode,
    nestLevel: nat,
    conditional: bool,
    loopStack: seq<M.LoopContext>,
    data: D)

  datatype Token<D> =
    | RestoreMode(mode: M.Mode)
    | RestoreNestLevel(nestLevel: nat)
    | RestoreState(conditional: bool)
    | InsertLoop(index: nat, l: M.LoopContext)
    | RemoveLoop(index: nat)
    | RestoreCounter(index: nat, counter: Word)
    | RestoreData(data: D)  // stands for the tokens of an ordinary command

  /** Runs one token. Removing or inserting beyond the end has no effect. */
  function Revert<D>(t: Token<D>, c: Control<D>): Control<D> {
    match t
    case RestoreMode(m) => c.(mode := m)
    case RestoreNestLevel(n) => c.(nestLevel := n)
    case RestoreState(b) => c.(conditional := b)
    case InsertLoop(i, l) => if i <= |c.loopStack| then c.(loopStack := InsertAt(c.loopStack, i, l)) else c
    case RemoveLoop(i) => if i < |c.loopStack| then c.(loopStack := RemoveAt(c.loopStack, i)) else c
    case RestoreCounter(i, n) =>
      if i < |c.loopStack| then c.(loopStack := c.loopStack[i := c.loopStack[i].(counter := n)]) else c
    case RestoreData(d) => c.(data := d)
  }

  lemma LoopTokens(ls: seq<M.LoopContext>, l: M.LoopContext)
    ensures RemoveAt(ls + [l], |ls|) == ls
    ensures ls != [] ==> InsertAt(Front(ls), |ls| - 1, Last(ls)) == ls
    ensures ls != [] ==> ls[|ls| - 1 := l] == Front(ls) + [l]
  {
  }

  lemma LoopIsLost<D>(l: seq<Token<D>>, c0: Control<D>, c1: Control<D>)
    requires |c1.loopStack| < |c0.loopStack|
    ensures !Undoes(Revert, l, c0, l, c1)
  {
    assert l[|l|..] == [];
  }

  datatype Status = Success | Failure(fault: M.Fault)

  class Interpreter<D(!new)> {
    const env: M.Env<D>
    const expr: Expressions
    var macroPc: nat
    var mode: M.Mode
    var nestLevel: nat
    var conditional: bool
    var loopStack: seq<M.LoopContext>
    var data: D
    var log: seq<Token<D>>

    constructor (env: M.Env<D>, expr: Expressions, loops: seq<M.LoopContext>, data: D)
      ensures this.env == env && this.expr == expr
      ensures Now() == M.Machine(0, M.Normal, 0, false, loops, expr.Now(), data) && log == []
    {
      this.env, this.expr, this.data := env, expr, data;
      macroPc, mode, nestLevel, conditional, loopStack, log := 0, M.Normal, 0, false, loops, [];
    }

    function Controls(): Control<D>
      reads this
    {
      Control(mode, nestLevel, conditional, loopStack, data)
    }

    /** The tokens emitted since the earlier state revert everything but the program counter. */
    twostate predicate Undone()
      reads this, expr
    {
      && Undoes(Revert, old(log), old(Controls()), log, Controls())
      && Undoes(RunToken, old(expr.log), old(expr.Now()), expr.log, expr.Now())
    }

    /** What was emitted since the earlier state reverts everything but the loss of the innermost loop. */
    twostate predicate LoopLost()
      reads this, expr
    {
      && old(loopStack) != []
      && log == old(log) && Controls() == old(Controls()).(loopStack := Front(old(loopStack)))
      && Undoes(RunToken, old(expr.log), old(expr.Now()), expr.log, expr.Now())
    }

    /** Emits a token. */
    method Push(t: Token<D>)
      modifies this`log
      ensures log == old(log) + [t]
    {
      log := log + [t];
    }

    function Now(): M.Machine<D>
      reads this, expr
    {
      M.Machine(macroPc, mode, nestLevel, conditional, loopStack, expr.Now(), data)
    }

    /** The method took the step `r`: it reports the fault, or is in the state that `r` gives. */
    ghost predicate Took(r: M.Step<D>, status: Status)
      reads this, expr
    {
      r == if status.Success? then M.Go(Now()) else M.Fail(status.fault)
    }

    /** Starts a loop, or skips it. */
    method OpenLoop() returns (status: Status)
      modifies this, expr
      ensures Took(M.LoopOpen(old(Now())), status) && Undone()
    {
      hide PopNumCalc, PopNumCalcValue, BraceOpen, Undoes, Quiet;
      UndoesNothing(Revert, log, Controls());
      var counter, err := expr.PopArgument(-1);
      QuietUndoes(old(expr.log), old(expr.Now()), expr.log, expr.Now());
      if err != NoError {
        return Failure(M.CalculationFailed(err));
      }
      if counter != 0 {
        ghost var l1, s1 := expr.log, expr.Now();
        var level := expr.braceLevel;
        expr.OpenBrace();
        UndoesTrans(RunToken, old(expr.log), old(expr.Now()), l1, s1, expr.log, expr.Now());
        var l := M.LoopContext(counter, level, macroPc);
        LoopTokens(loopStack, l);
        loopStack := loopStack + [l];
        Push(RemoveLoop(|loopStack| - 1));
        UndoesOne(Revert, old(log), old(Controls()), RemoveLoop(|loopStack| - 1), Controls());
      } else {
        Push(RestoreMode(mode));
        mode := M.SkipLoop;
        UndoesOne(Revert, old(log), old(Controls()), RestoreMode(old(mode)), Controls());
      }
      status := Success;
    }

    /** Repeats or ends a loop. */
    method CloseLoop() returns (status: Status)
      modifies this, expr
      ensures Took(M.LoopClose(env, old(Now())), status) && Undone()
    {
      hide DiscardArgs, BraceClose, Undoes, Quiet;
      UndoesNothing(Revert, log, Controls());
      UndoesNothing(RunToken, expr.log, expr.Now());
      if |loopStack| <= env.fp {
        return Failure(M.LoopEndWithoutStart);
      }
      var l := loopStack[|loopStack| - 1];
      if expr.braceLevel != l.braceLevel + 1 {
        return Failure(M.BraceLeftOpen);
      }
      var err := expr.DiscardArguments();
      QuietUndoes(old(expr.log), old(expr.Now()), expr.log, expr.Now());
      if err != NoError {
        return Failure(M.CalculationFailed(err));
      }
      var top := |loopStack| - 1;
      if l.counter == 1 {
        ghost var l1, s1 := expr.log, expr.Now();
        err := expr.CloseBrace();
        UndoesTrans(RunToken, old(expr.log), old(expr.Now()), l1, s1, expr.log, expr.Now());
        if err != NoError {
          return Failure(M.CalculationFailed(err));
        }
        LoopTokens(loopStack, l);
        Push(InsertLoop(top, l));
        loopStack := loopStack[..top];
        UndoesOne(Revert, old(log), old(Controls()), InsertLoop(top, l), Controls());
      } else {
        macroPc := l.pc;
        CountDown();
      }
      status := Success;
    }

    /** Counts the iterations of the innermost loop, unless it is infinite. */
    method CountDown()
      requires loopStack != []
      modifies this`loopStack, this`log
      ensures var l := Last(old(loopStack));
              loopStack == Front(old(loopStack)) + [l.(counter := if l.counter >= 0 then l.counter - 1 else l.counter)]
      ensures Undoes(Revert, old(log), old(Controls()), log, Controls())
    {
      hide Undoes;
      UndoesNothing(Revert, log, Controls());
      var top := |loopStack| - 1;
      var l := loopStack[top];
      if l.counter >= 0 {
        LoopTokens(loopStack, l.(counter := l.counter - 1));
        Push(RestoreCounter(top, l.counter));
        loopStack := loopStack[top := l.(counter := l.counter - 1)];
        assert loopStack[top := l] == old(loopStack);
        UndoesOne(Revert, old(log), old(Controls()), RestoreCounter(top, l.counter), Controls());
      } else {
        assert loopStack == Front(loopStack) + [l.(counter := l.counter)];
      }
    }

    /**
     * Breaks from a loop. The loop is taken off the loop stack before its braces are left,
     * but the token for it is emitted only afterwards: a break that fails in between cannot
     * be undone.
     */
    method BreakLoop() returns (status: Status)
      modifies this, expr
      ensures Took(M.BreakLoop(env, old(Now())), status)
      ensures Undone() <==> !M.LosesLoop(env, old(Now()))
      ensures M.LosesLoop(env, old(Now())) ==> LoopLost()
    {
      hide PopNumCalc, PopNumCalcValue, DiscardArgs, BraceReturn, Undoes, Quiet;
      UndoesNothing(Revert, log, Controls());
      UndoesNothing(RunToken, expr.log, expr.Now());
      if |loopStack| <= env.fp {
        return Failure(M.BreakOutsideLoop);
      }
      var v := env.search(data);
      var rc, err := expr.PopArgument(v);
      QuietUndoes(old(expr.log), old(expr.Now()), expr.log, expr.Now());
      if err != NoError {
        return Failure(M.CalculationFailed(err));
      }
      if rc < 0 {
        return Success;
      }
      var l := loopStack[|loopStack| - 1];
      LoopTokens(loopStack, l);
      loopStack := loopStack[..|loopStack| - 1];
      LoopIsLost(log, old(Controls()), Controls());
      ghost var l1, s1 := expr.log, expr.Now();
      err := Abandon(l.braceLevel);
      UndoesTrans(RunToken, old(expr.log), old(expr.Now()), l1, s1, expr.log, expr.Now());
      if err != NoError {
        return Failure(M.CalculationFailed(err));
      }
      Push(InsertLoop(|loopStack|, l));
      UndoesOne(Revert, old(log), old(Controls()), InsertLoop(|loopStack|, l), Controls());
      ghost var l3, c3 := log, Controls();
      Push(RestoreMode(mode));
      mode := M.SkipLoop;
      UndoesOne(Revert, l3, c3, RestoreMode(old(mode)), Controls());
      UndoesTrans(Revert, old(log), old(Controls()), l3, c3, log, Controls());
      status := Success;
    }

    /** Discards all arguments and leaves the braces above a level. */
    method Abandon(level: nat) returns (err: Error)
      modifies expr
      ensures var o := DiscardArgs(old(expr.Now()));
              Outcome(expr.Now(), err) == if o.err != NoError then o else BraceReturn(level, 0, o.s)
      ensures Undoes(RunToken, old(expr.log), old(expr.Now()), expr.log, expr.Now())
    {
      hide DiscardArgs, BraceReturn, Undoes, Quiet;
      err := expr.DiscardArguments();
      QuietUndoes(old(expr.log), old(expr.Now()), expr.log, expr.Now());
      if err != NoError {
        return;
      }
      ghost var l1, s1 := expr.log, expr.Now();
      err := expr.ReturnFromBraces(level, 0);
      UndoesTrans(RunToken, old(expr.log), old(expr.Now()), l1, s1, expr.log, expr.Now());
    }

    /** An opening brace; a pending sign is turned into a multiplication. */
    method OpenParen() returns (status: Status)
      modifies this, expr
      ensures Took(M.ParenOpen(old(Now())), status) && Undone()
    {
      hide Eval, PushCalc, PushInt, BraceOpen, Undoes;
      UndoesNothing(Revert, log, Controls());
      QuietRefl(expr.log, expr.Now());
      if expr.numSign < 0 {
        var err := SignBrace();
        if err != NoError {
          QuietUndoes(old(expr.log), old(expr.Now()), expr.log, expr.Now());
          return Failure(M.CalculationFailed(err));
        }
      }
      QuietUndoes(old(expr.log), old(expr.Now()), expr.log, expr.Now());
      ghost var l1, s1 := expr.log, expr.Now();
      expr.OpenBrace();
      UndoesTrans(RunToken, old(expr.log), old(expr.Now()), l1, s1, expr.log, expr.Now());
      status := Success;
    }

    /** Puts `-1*` before a brace. */
    method SignBrace() returns (err: Error)
      requires expr.numSign < 0
      modifies expr
      ensures Outcome(expr.Now(), err) == M.SignedBrace(old(expr.Now()))
      ensures Quiet(old(expr.log), old(expr.Now()), expr.log, expr.Now())
    {
      hide Eval, PushCalc, PushInt, Quiet;
      expr.SetNumSign(1);
      ghost var l1, s1 := expr.log, expr.Now();
      err := expr.Evaluate(false);
      QuietTrans(old(expr.log), old(expr.Now()), l1, s1, expr.log, expr.Now());
      if err != NoError {
        return;
      }
      ghost var l2, s2 := expr.log, expr.Now();
      expr.PushNumber(-1);
      QuietTrans(old(expr.log), old(expr.Now()), l2, s2, expr.log, expr.Now());
      ghost var l3, s3 := expr.log, expr.Now();
      err := expr.PushOperator(Mul);
      QuietTrans(old(expr.log), old(expr.Now()), l3, s3, expr.log, expr.Now());
    }

    method CloseParen() returns (status: Status)
      modifies this, expr
      ensures Took(M.ParenClose(old(Now())), status) && Undone()
    {
      hide BraceClose, Undoes;
      UndoesNothing(Revert, log, Controls());
      var err := expr.CloseBrace();
      status := if err != NoError then Failure(M.CalculationFailed(err)) else Success;
    }

    /** An ordinary command; it emits the tokens that revert it. */
    method Command(c: char) returns (status: Status)
      modifies this, expr
      ensures Took(M.Command(env, c, old(Now())), status) && Undone()
    {
      hide Undoes;
      UndoesNothing(Revert, log, Controls());
      UndoesNothing(RunToken, expr.log, expr.Now());
      var frame, below := M.TopFrame(expr.Now()), M.BelowFrame(expr.Now());
      match env.command(c, frame, data) {
        case Rejected => return Failure(M.CommandFailed);
        case Executed(f, d) =>
          if !Proper(f) {
            return Failure(M.CommandFailed);
          }
          expr.Replace(below.numbers + f.numbers, below.operators + f.operators, f.numSign);
          Push(RestoreData(data));
          data := d;
          UndoesOne(Revert, old(log), old(Controls()), RestoreData(old(data)), Controls());
      }
      status := Success;
    }

    /** The character after a double quote. */
    method Condition(c: char) returns (status: Status)
      requires conditional
      modifies this, expr
      ensures Took(M.Conditional(env, c, old(Now())), status) && Undone()
    {
      hide S.Decide, M.IsConditionType, Undoes;
      UndoesNothing(Revert, log, Controls());
      UndoesNothing(RunToken, expr.log, expr.Now());
      var holds := true;
      if mode == M.SkipCond || mode == M.SkipCondForce {
        Push(RestoreNestLevel(nestLevel));
        nestLevel := nestLevel + 1;
        UndoesOne(Revert, old(log), old(Controls()), RestoreNestLevel(old(nestLevel)), Controls());
      } else if mode == M.Normal {
        S.ConditionalDecides(env, c, Now());
        status, holds := Evaluate(c);
        if status.Failure? {
          return;
        }
      }
      if mode != M.Normal && !M.IsConditionType(c) {
        return Failure(M.InvalidConditional);
      }
      ghost var l1, c1 := log, Controls();
      if !holds {
        Push(RestoreMode(mode));
        mode := M.SkipCond;
        UndoesOne(Revert, l1, c1, RestoreMode(old(mode)), Controls());
        UndoesTrans(Revert, old(log), old(Controls()), l1, c1, log, Controls());
      }
      ghost var l2, c2 := log, Controls();
      Push(RestoreState(true));
      conditional := false;
      UndoesOne(Revert, l2, c2, RestoreState(true), Controls());
      UndoesTrans(Revert, old(log), old(Controls()), l2, c2, log, Controls());
      status := Success;
    }

    /** Whether the condition of type `c` holds for the topmost argument. */
    method Evaluate(c: char) returns (status: Status, holds: bool)
      requires mode == M.Normal
      modifies expr
      ensures Undoes(RunToken, old(expr.log), old(expr.Now()), expr.log, expr.Now())
      ensures match S.Decide(env, c, old(expr.Now()))
              case Undecided(fault) => status == Failure(fault)
              case Decided(s, h) => status == Success && expr.Now() == s && holds == h
    {
      hide Eval, PopNum, M.Test, Quiet;
      holds := true;
      var err := expr.Evaluate(false);
      QuietUndoes(old(expr.log), old(expr.Now()), expr.log, expr.Now());
      if err != NoError {
        return Failure(M.CalculationFailed(err)), holds;
      }
      var args := expr.ArgumentCount();
      if c == '~' {
        return Success, args == 0;
      }
      if args == 0 {
        return Failure(M.ArgumentExpected), holds;
      }
      ghost var l1, s1 := expr.log, expr.Now();
      var value := expr.PopNumber();
      QuietTrans(old(expr.log), old(expr.Now()), l1, s1, expr.log, expr.Now());
      QuietUndoes(old(expr.log), old(expr.Now()), expr.log, expr.Now());
      var r := M.Test(env, c, value);
      if r.Err? {
        return Failure(M.InvalidConditional), holds;
      }
      return Success, r.value;
    }

    method SetMode(m: M.Mode)
      modifies this`mode, this`log
      ensures mode == m && Undoes(Revert, old(log), old(Controls()), log, Controls())
    {
      Push(RestoreMode(mode));
      mode := m;
      UndoesOne(Revert, old(log), old(Controls()), RestoreMode(old(mode)), Controls());
    }

    method SetNestLevel(n: nat)
      modifies this`nestLevel, this`log
      ensures nestLevel == n && Undoes(Revert, old(log), old(Controls()), log, Controls())
    {
      Push(RestoreNestLevel(nestLevel));
      nestLevel := n;
      UndoesOne(Revert, old(log), old(Controls()), RestoreNestLevel(old(nestLevel)), Controls());
    }

    method SetConditional(b: bool)
      modifies this`conditional, this`log
      ensures conditional == b && Undoes(Revert, old(log), old(Controls()), log, Controls())
    {
      Push(RestoreState(conditional));
      conditional := b;
      UndoesOne(Revert, old(log), old(Controls()), RestoreState(old(conditional)), Controls());
    }

    /** Executes one character that the program counter has just passed. */
    method Input(c: char) returns (status: Status)
      modifies this, expr
      ensures Took(M.Input(env, c, old(Now())), status)
      ensures Undone() <==> !M.Loses(env, c, old(Now()))
      ensures M.Loses(env, c, old(Now())) ==> LoopLost()
    {
      hide M.Conditional, M.LoopOpen, M.LoopClose, M.BreakLoop, M.ParenOpen, M.ParenClose, M.Command, M.LosesLoop,
           Undoes,
           Revert;
      UndoesNothing(Revert, log, Controls());
      UndoesNothing(RunToken, expr.log, expr.Now());
      status := Success;
      if conditional {
        status := Condition(c);
      } else {
        match c {
          case '<' =>
            if mode == M.SkipLoop {
              SetNestLevel(nestLevel + 1);
            } else if mode == M.Normal {
              status := OpenLoop();
            }
          case '>' =>
            if mode == M.SkipLoop {
              if nestLevel == 0 {
                SetMode(M.Normal);
              } else {
                SetNestLevel(nestLevel - 1);
              }
            } else if mode == M.Normal {
              status := CloseLoop();
            }
          case '|' =>
            if mode == M.SkipCond && nestLevel == 0 {
              SetMode(M.Normal);
            } else if mode == M.Normal {
              SetMode(M.SkipCond);
            } else {
              SetMode(mode);
            }
          case '\'' =>
            if mode == M.SkipCond || mode == M.SkipCondForce {
              if nestLevel == 0 {
                SetMode(M.Normal);
              } else {
                SetNestLevel(nestLevel - 1);
              }
            }
          case '"' => SetConditional(true);
          case ';' => if mode == M.Normal { status := BreakLoop(); }
          case '(' => if mode == M.Normal { status := OpenParen(); }
          case ')' => if mode == M.Normal { status := CloseParen(); }
          case _ => if mode == M.Normal { status := Command(c); }
        }
      }
    }

    /** Executes the text from the program counter to its end, for at most `budget` characters. */
    method MainStep(text: string, budget: nat) returns (status: Status)
      modifies this, expr
      ensures Took(M.Run(env, text, old(Now()), budget), status)
      ensures !M.LosesInRun(env, text, old(Now()), budget) ==> Undone()
    {
      hide M.Input, M.Loses, Undoes, Revert, RunToken;
      UndoesNothing(Revert, log, Controls());
      UndoesNothing(RunToken, expr.log, expr.Now());
      status := Success;
      var left: nat := budget;
      while macroPc < |text| && left > 0
        invariant status == Success && Undone()
        invariant M.Run(env, text, Now(), left) == M.Run(env, text, old(Now()), budget)
        invariant M.LosesInRun(env, text, Now(), left) == M.LosesInRun(env, text, old(Now()), budget)
        decreases left
      {
        var c := text[macroPc];
        macroPc := macroPc + 1;
        ghost var l, s, el, es := log, Controls(), expr.log, expr.Now();
        ghost var loses := M.Loses(env, c, Now());
        M.LosingFails(env, c, Now());
        status := Input(c);
        if !loses {
          UndoesTrans(Revert, old(log), old(Controls()), l, s, log, Controls());
          UndoesTrans(RunToken, old(expr.log), old(expr.Now()), el, es, expr.log, expr.Now());
        }
        if status.Failure? {
          return;
        }
        left := left - 1;
      }
    }

    /** Reverts everything emitted after the first tokens of both logs. */
    method Rubout(mark: nat, exprMark: nat)
      requires mark <= |log| && exprMark <= |expr.log|
      modifies this, expr
      ensures log == old(log)[..mark] && expr.log == old(expr.log)[..exprMark] && macroPc == old(macroPc)
      ensures Controls() == Rewind(Revert, old(log)[mark..], old(Controls()))
      ensures expr.Now() == Rewind(RunToken, old(expr.log)[exprMark..], old(expr.Now()))
    {
      while |log| > mark
        invariant mark <= |log| <= |old(log)| && log == old(log)[..|log|] && macroPc == old(macroPc)
        invariant expr.log == old(expr.log) && expr.Now() == old(expr.Now())
        invariant Rewind(Revert, log[mark..], Controls()) == Rewind(Revert, old(log)[mark..], old(Controls()))
      {
        var t := log[|log| - 1];
        assert Front(log[mark..]) == log[..|log| - 1][mark..] && Last(log[mark..]) == t;
        log := log[..|log| - 1];
        var c := Revert(t, Controls());
        mode, nestLevel, conditional, loopStack, data := c.mode, c.nestLevel, c.conditional, c.loopStack, c.data;
      }
      expr.Rubout(exprMark);
    }

    /**
     * Executing a character and rubbing it out again leaves everything as it was, except
     * after a break that lost its loop: the loop is then missing from the loop stack.
     */
    method InputThenRubout(c: char) returns (status: Status)
      modifies this, expr
      ensures log == old(log) && expr.log == old(expr.log) && expr.Now() == old(expr.Now())
      ensures var lost := M.Loses(env, c, old(Now()));
              && (lost ==> status.Failure? && old(loopStack) != [])
              && Controls() == if lost then old(Controls()).(loopStack := Front(old(loopStack))) else old(Controls())
    {
      hide M.Input, M.Loses, Revert, RunToken;
      var mark, exprMark := |log|, |expr.log|;
      M.LosingFails(env, c, Now());
      status := Input(c);
      Rubout(mark, exprMark);
    }
  }
}
