/**
 * Whole runs of stack operations. Every run can be reverted, also when it fails part-way,
 * and as long as nothing fails the argument marks count the numbers.
 */
module ExpressionRuns {
  import opened Sequences
  import opened Rewinding
  import opened Words
  import opened ExpressionSpec
  import opened ExpressionStack

  datatype Call =
    | CallPush(number: Word)
    | CallDigit(digit: nat, radix: Word)
    | CallPop
    | CallPopArgument
    | CallOperator(op: Op)
    | CallComma
    | CallSign
    | CallEval
    | CallDiscard
    | CallOpen
    | CallClose
    | CallReturn(keep: nat, args: nat)

  /** What the callers guarantee: arguments are popped only where they exist. */
  predicate Allowed(c: Call, s: Stacks) {
    match c
    case CallPop => TopIs(s, Number)
    case CallOperator(op) => Precedence(op) >= 1
    case CallReturn(_, args) => args <= Args(s.operators)
    case _ => true
  }

  function AppendDigit(digit: nat, radix: Word, s: Stacks): Stacks {
    var n := if Args(s.operators) > 0 then TopNum(s) else 0;
    var t := if Args(s.operators) > 0 then PopNum(s) else s;
    PushInt(t, Wrap(n * radix + (if n < 0 then -1 else 1) * digit))
  }

  function Comma(s: Stacks): Outcome {
    var o := Eval(false, s);
    if o.err != NoError then o else Outcome(PushOp(o.s, New), NoError)
  }

  function Effect(c: Call, s: Stacks): Outcome
    requires Allowed(c, s)
  {
    match c
    case CallPush(n) => Outcome(PushInt(s, n), NoError)
    case CallDigit(d, radix) => Outcome(AppendDigit(d, radix, s), NoError)
    case CallPop => Outcome(PopNum(s), NoError)
    case CallPopArgument => PopNumCalc(s)
    case CallOperator(op) => PushCalc(op, s)
    case CallComma => Comma(s)
    case CallSign => Outcome(s.(numSign := -s.numSign), NoError)
    case CallEval => Eval(false, s)
    case CallDiscard => DiscardArgs(s)
    case CallOpen => Outcome(BraceOpen(s), NoError)
    case CallClose => BraceClose(s)
    case CallReturn(keep, args) => BraceReturn(keep, args, s)
  }

  /** A run stops at the first failing call and at the first call that is not allowed. */
  function RunCalls(cs: seq<Call>, s: Stacks): Outcome {
    if cs == [] || !Allowed(cs[0], s) then Outcome(s, NoError)
    else
      var o := Effect(cs[0], s);
      if o.err != NoError then o else RunCalls(cs[1..], o.s)
  }

  method AddDigit(e: Expressions, digit: nat, radix: Word)
    modifies e
    ensures e.Now() == AppendDigit(digit, radix, old(e.Now()))
    ensures Undoes(RunToken, old(e.log), old(e.Now()), e.log, e.Now())
  {
    hide Undoes, Quiet, LevelFree;
    QuietRefl(e.log, e.Now());
    var n: Word := 0;
    var args := e.ArgumentCount();
    if args > 0 {
      n := e.PopNumber();
    }
    ghost var l, s := e.log, e.Now();
    e.PushNumber(Wrap(n * radix + (if n < 0 then -1 else 1) * digit));
    QuietTrans(old(e.log), old(e.Now()), l, s, e.log, e.Now());
    QuietUndoes(old(e.log), old(e.Now()), e.log, e.Now());
  }

  method EvaluateAndSeparate(e: Expressions) returns (err: Error)
    modifies e
    ensures Outcome(e.Now(), err) == Comma(old(e.Now()))
    ensures Quiet(old(e.log), old(e.Now()), e.log, e.Now())
  {
    hide Undoes, Quiet, LevelFree, Eval;
    err := e.Evaluate(false);
    if err == NoError {
      ghost var l, s := e.log, e.Now();
      e.PushOpMark(New);
      QuietTrans(old(e.log), old(e.Now()), l, s, e.log, e.Now());
    }
  }

  method Perform(e: Expressions, c: Call) returns (err: Error)
    requires Allowed(c, e.Now())
    modifies e
    ensures Outcome(e.Now(), err) == Effect(c, old(e.Now()))
    ensures Undoes(RunToken, old(e.log), old(e.Now()), e.log, e.Now())
  {
    hide Undoes, Quiet, LevelFree, Eval, PopNumCalc, PushCalc, DiscardArgs, BraceReturn, BraceClose, BraceOpen,
         PushInt, PopNum, AppendDigit, Comma;
    err := NoError;
    match c {
      case CallPush(n) => e.PushNumber(n);
      case CallDigit(d, radix) =>
        AddDigit(e, d, radix);
        return;
      case CallPop => var _ := e.PopNumber();
      case CallPopArgument => var _, x := e.PopArgument(0); err := x;
      case CallOperator(op) => err := e.PushOperator(op);
      case CallComma => err := EvaluateAndSeparate(e);
      case CallSign => e.SetNumSign(-e.numSign);
      case CallEval => err := e.Evaluate(false);
      case CallDiscard => err := e.DiscardArguments();
      case CallOpen =>
        e.OpenBrace();
        return;
      case CallClose =>
        err := e.CloseBrace();
        return;
      case CallReturn(keep, args) =>
        err := e.ReturnFromBraces(keep, args);
        return;
    }
    QuietUndoes(old(e.log), old(e.Now()), e.log, e.Now());
  }

  method RunAll(e: Expressions, cs: seq<Call>) returns (err: Error)
    modifies e
    ensures Outcome(e.Now(), err) == RunCalls(cs, old(e.Now()))
    ensures Undoes(RunToken, old(e.log), old(e.Now()), e.log, e.Now())
  {
    hide Undoes, Quiet, LevelFree, Effect;
    QuietRefl(e.log, e.Now());
    QuietUndoes(e.log, e.Now(), e.log, e.Now());
    err := NoError;
    var i := 0;
    while i < |cs|
      invariant 0 <= i <= |cs| && err == NoError
      invariant RunCalls(cs[i..], e.Now()) == RunCalls(cs, old(e.Now()))
      invariant Undoes(RunToken, old(e.log), old(e.Now()), e.log, e.Now())
    {
      assert cs[i..][0] == cs[i] && cs[i..][1..] == cs[i + 1..];
      if !IsAllowed(e, cs[i]) {
        return;
      }
      ghost var l, s := e.log, e.Now();
      err := Perform(e, cs[i]);
      UndoesTrans(RunToken, old(e.log), old(e.Now()), l, s, e.log, e.Now());
      if err != NoError {
        return;
      }
      i := i + 1;
    }
  }

  predicate IsAllowed(e: Expressions, c: Call)
    reads e
  {
    Allowed(c, e.Now())
  }

  /** Rubbing out a run restores both stacks, the brace level, the sign and the token log. */
  method RunThenRubout(e: Expressions, cs: seq<Call>)
    modifies e
    ensures e.Now() == old(e.Now()) && e.log == old(e.log)
  {
    var mark := |e.log|;
    var _ := RunAll(e, cs);
    e.Rubout(mark);
  }

  function CountNumbers(ops: seq<Op>): nat {
    if ops == [] then 0 else CountNumbers(Front(ops)) + if Last(ops) == Number then 1 else 0
  }

  /** Every number has its mark on the operator stack. */
  predicate Balanced(s: Stacks) {
    |s.numbers| == CountNumbers(s.operators)
  }

  lemma CountAppend(ops: seq<Op>, op: Op)
    ensures CountNumbers(ops + [op]) == CountNumbers(ops) + if op == Number then 1 else 0
  {
    assert Front(ops + [op]) == ops;
  }

  lemma {:induction false} CountStrip(ops: seq<Op>)
    ensures CountNumbers(StripNew(ops)) == CountNumbers(ops)
  {
    if ops != [] && Last(ops) == New {
      CountStrip(Front(ops));
    }
  }

  lemma {:induction false} CountRemove(ops: seq<Op>, i: nat)
    requires i < |ops|
    ensures CountNumbers(ops) == CountNumbers(RemoveAt(ops, i)) + if ops[i] == Number then 1 else 0
  {
    if i == |ops| - 1 {
      assert RemoveAt(ops, i) == Front(ops);
    } else {
      CountRemove(Front(ops), i);
      assert RemoveAt(ops, i) == RemoveAt(Front(ops), i) + [Last(ops)];
      CountAppend(RemoveAt(Front(ops), i), Last(ops));
    }
  }

  lemma BalancedPush(s: Stacks, n: Word)
    requires Balanced(s)
    ensures Balanced(PushInt(s, n))
  {
    hide StripNew;
    CountStrip(s.operators);
    CountAppend(StripNew(s.operators), Number);
  }

  lemma BalancedPop(s: Stacks)
    requires Balanced(s) && TopIs(s, Number)
    ensures s.numbers != [] && Balanced(PopNum(s))
  {
  }

  lemma BalancedCalc(s: Stacks)
    requires Balanced(s) && Calc(s).err == NoError
    ensures Balanced(Calc(s).s)
  {
    hide StripNew, PushInt, Balanced;
    BalancedPop(s);
    var s1 := PopNum(s);
    var op := PeekOp(s1.operators, 0);
    var s2 := PopOp(s1, 0);
    assert Arith(op, TopNum(s2), TopNum(s)).Ok?;
    assert op != Number;
    BalancedRemove(s1, 0);
    BalancedPop(s2);
    BalancedPush(PopNum(s2), Arith(op, TopNum(s2), TopNum(s)).value);
  }

  /** Two values lie on top, so that one of them is taken for the operator. */
  predicate TwoValues(s: Stacks) {
    |s.operators| >= 2 && PeekOp(s.operators, 0) == Number && PeekOp(s.operators, 1) == Number
  }

  /** A resolution step, failing or not, loses the balance exactly on two adjacent values. */
  lemma CalcBalanceExact(s: Stacks)
    requires Balanced(s)
    ensures Balanced(Calc(s).s) <==> !TwoValues(s)
  {
    hide StripNew, PushInt, Arith;
    if TopIs(s, Number) {
      BalancedPop(s);
      var s1 := PopNum(s);
      if s1.operators != [] {
        var op := PeekOp(s1.operators, 0);
        var s2 := PopOp(s1, 0);
        CountRemove(s1.operators, |s1.operators| - 1);
        if TopIs(s2, Number) {
          CountRemove(s2.operators, |s2.operators| - 1);
          assert RemoveAt(s2.operators, |s2.operators| - 1) == Front(s2.operators);
          NumberIsNoOperator(TopNum(s2), TopNum(s));
          if Arith(op, TopNum(s2), TopNum(s)).Ok? {
            BalancedCalc(s);
          }
        }
      }
    }
  }

  lemma NumberIsNoOperator(l: Word, r: Word)
    ensures Arith(Number, l, r) == Err(NotReached)
  {
  }

  lemma BalancedRemove(s: Stacks, n: nat)
    requires Balanced(s) && n < |s.operators| && PeekOp(s.operators, n) != Number
    ensures Balanced(PopOp(s, n))
  {
    CountRemove(s.operators, |s.operators| - 1 - n);
  }

  lemma {:induction false} BalancedEval(popBrace: bool, s: Stacks)
    requires Balanced(s) && Eval(popBrace, s).err == NoError
    ensures Balanced(Eval(popBrace, s).s)
    decreases |s.operators|
  {
    hide Balanced, Calc, FirstOp;
    var n := FirstOp(s.operators);
    if n >= 0 && PeekOp(s.operators, n) == Brace {
      BalancedRemove(s, n);
    } else if n >= 1 {
      BalancedCalc(s);
      BalancedEval(popBrace, Calc(s).s);
    }
  }

  lemma {:induction false} BalancedReduce(p: nat, s: Stacks)
    requires Balanced(s) && Reduce(p, s).err == NoError
    ensures Balanced(Reduce(p, s).s)
    decreases |s.operators|
  {
    hide Balanced, Calc, FirstOp;
    var n := FirstOp(s.operators);
    if n >= 0 && p <= Precedence(PeekOp(s.operators, n)) {
      BalancedCalc(s);
      BalancedReduce(p, Calc(s).s);
    }
  }

  lemma BalancedPopNumCalc(s: Stacks)
    requires Balanced(s) && PopNumCalc(s).err == NoError
    ensures Balanced(PopNumCalc(s).s)
  {
    hide Eval;
    BalancedEval(false, s);
    var o := Eval(false, s);
    var t := if o.s.numSign < 0 then o.s.(numSign := 1) else o.s;
    if Args(t.operators) > 0 {
      BalancedPop(t);
    }
  }

  lemma {:induction false} BalancedDiscard(i: nat, s: Stacks)
    requires Balanced(s) && DiscardLoop(i, s).err == NoError
    ensures Balanced(DiscardLoop(i, s).s)
  {
    hide Balanced, PopNumCalc;
    if i > 0 {
      BalancedPopNumCalc(s);
      BalancedDiscard(i - 1, PopNumCalc(s).s);
    }
  }

  lemma BalancedDiscardArgs(s: Stacks)
    requires Balanced(s) && DiscardArgs(s).err == NoError
    ensures Balanced(DiscardArgs(s).s)
  {
    hide Balanced, Eval, DiscardLoop;
    BalancedEval(false, s);
    BalancedDiscard(Args(Eval(false, s).s.operators), Eval(false, s).s);
  }

  lemma BalancedLevel(s: Stacks, k: nat)
    requires Balanced(s)
    ensures Balanced(s.(braceLevel := k))
  {
  }

  lemma {:induction false} BalancedLeave(keep: nat, s: Stacks)
    requires Balanced(s) && LeaveBraces(keep, s).err == NoError
    ensures Balanced(LeaveBraces(keep, s).s)
    decreases s.braceLevel
  {
    hide Balanced, Eval, DiscardArgs;
    if s.braceLevel > keep {
      BalancedDiscardArgs(s);
      var s1 := DiscardArgs(s).s;
      BalancedEval(true, s1);
      var s2 := Eval(true, s1).s;
      BalancedLevel(s2, s2.braceLevel - 1);
      BalancedLeave(keep, s2.(braceLevel := s2.braceLevel - 1));
    }
  }

  lemma {:induction false} BalancedPops(args: nat, s: Stacks)
    requires args <= Args(s.operators) && Balanced(s)
    ensures Balanced(PopNums(args, s))
  {
    if args > 0 {
      BalancedPop(s);
      BalancedPops(args - 1, PopNum(s));
    }
  }

  lemma {:induction false} BalancedPushes(ns: seq<Word>, s: Stacks)
    requires Balanced(s)
    ensures Balanced(PushInts(ns, s))
  {
    hide Balanced, PushInt;
    if ns != [] {
      BalancedPush(s, ns[0]);
      BalancedPushes(ns[1..], PushInt(s, ns[0]));
    }
  }

  lemma BalancedReturn(keep: nat, args: nat, s: Stacks)
    requires args <= Args(s.operators) && Balanced(s)
    requires BraceReturn(keep, args, s).err == NoError
    ensures Balanced(BraceReturn(keep, args, s).s)
  {
    hide Balanced, PopNums, LeaveBraces, PushInts, TopNums;
    BalancedPops(args, s);
    BalancedLeave(keep, PopNums(args, s));
    BalancedPushes(TopNums(args, s), LeaveBraces(keep, PopNums(args, s)).s);
  }

  lemma BalancedEffect(c: Call, s: Stacks)
    requires Allowed(c, s) && Balanced(s) && Effect(c, s).err == NoError
    ensures Balanced(Effect(c, s).s)
  {
    hide PopNum, Eval, Reduce, PopNumCalc, DiscardArgs, BraceReturn, PushInt, StripNew;
    match c
    case CallPush(n) => BalancedPush(s, n);
    case CallDigit(d, radix) =>
      if Args(s.operators) > 0 {
        BalancedPop(s);
      }
      var n := if Args(s.operators) > 0 then TopNum(s) else 0;
      var t := if Args(s.operators) > 0 then PopNum(s) else s;
      BalancedPush(t, Wrap(n * radix + (if n < 0 then -1 else 1) * d));
    case CallPop => BalancedPop(s);
    case CallPopArgument => BalancedPopNumCalc(s);
    case CallOperator(op) =>
      BalancedReduce(Precedence(op), s);
      CountAppend(Reduce(Precedence(op), s).s.operators, op);
    case CallComma =>
      BalancedEval(false, s);
      CountAppend(Eval(false, s).s.operators, New);
    case CallSign =>
    case CallEval => BalancedEval(false, s);
    case CallDiscard => BalancedDiscardArgs(s);
    case CallOpen =>
      CountStrip(s.operators);
      CountAppend(StripNew(s.operators), Brace);
    case CallClose =>
      BalancedEval(true, s.(braceLevel := s.braceLevel - 1));
    case CallReturn(keep, args) => BalancedReturn(keep, args, s);
  }

  /** Over every run in which nothing fails, each number keeps exactly one mark. */
  lemma {:induction false} RunKeepsBalance(cs: seq<Call>, s: Stacks)
    requires Balanced(s) && RunCalls(cs, s).err == NoError
    ensures Balanced(RunCalls(cs, s).s)
  {
    hide Effect, Balanced;
    if cs != [] && Allowed(cs[0], s) {
      BalancedEffect(cs[0], s);
      RunKeepsBalance(cs[1..], Effect(cs[0], s).s);
    }
  }
}
