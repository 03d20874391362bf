/**
 * What becomes of numbers on the expression stacks: typed digits, negated parentheses, the
 * arguments that commands take, and the values that are carried out of braces.
 */
module StackLaws {
  import opened Sequences
  import opened Words
  import opened ExpressionSpec
  import opened ExpressionRuns
  import opened ExpressionGrammar
  import M = MacroMachine

  // Digits.

  /** The digits are typed one after the other. */
  function Typed(ds: seq<nat>, radix: Word, s: Stacks): Stacks {
    if ds == [] then s else AppendDigit(Last(ds), radix, Typed(Front(ds), radix, s))
  }

  function Numeral(ds: seq<nat>, radix: nat): nat {
    if ds == [] then 0 else Numeral(Front(ds), radix) * radix + Last(ds)
  }

  function Negated(minus: bool, n: int): int {
    if minus then -n else n
  }

  lemma NumeralGrows(ds: seq<nat>, radix: nat)
    requires ds != [] && radix >= 1
    ensures Numeral(Front(ds), radix) <= Numeral(ds, radix)
    ensures Numeral(Front(ds), radix) > 0 ==> Numeral(ds, radix) > 0
  {
    var n := Numeral(Front(ds), radix);
    assert n * radix >= n * 1;
  }

  lemma {:induction false} NumeralStarts(ds: seq<nat>, radix: nat)
    requires ds != [] && radix >= 1 && ds[0] > 0
    ensures Numeral(ds, radix) > 0
  {
    if |ds| > 1 {
      NumeralStarts(Front(ds), radix);
      NumeralGrows(ds, radix);
    } else {
      assert Front(ds) == [] && Numeral([], radix) == 0;
    }
  }

  /** The typed digits leave one number, which a pending minus negates unless it begins with 0. */
  function Entered(ds: seq<nat>, radix: nat, s: Stacks): Stacks
    requires ds != []
  {
    var n := Numeral(ds, radix);
    Stacks(s.numbers + [Negated(s.numSign < 0 && ds[0] != 0, n)], StripNew(s.operators) + [Number],
           s.braceLevel, if s.numSign < 0 then 1 else s.numSign)
  }

  lemma {:induction false} TypedIsEntered(ds: seq<nat>, radix: nat, s: Stacks)
    requires ds != [] && radix >= 1 && Args(s.operators) == 0 && Numeral(ds, radix) <= INT_MAX
    ensures Typed(ds, radix, s) == Entered(ds, radix, s)
  {
    hide StripNew, Wrap, Args, AppendDigit, Numeral, Negated;
    NumeralGrows(ds, radix);
    NumeralNext(ds, radix);
    if |ds| == 1 {
      assert Typed(Front(ds), radix, s) == s;
      FirstDigit(ds[0], radix, s);
      NegatedWord(s.numSign < 0, ds[0]);
    } else {
      TypedIsEntered(Front(ds), radix, s);
      if ds[0] > 0 {
        NumeralStarts(Front(ds), radix);
      }
      StripIdempotent(s.operators);
      var minus, n := s.numSign < 0 && ds[0] != 0, Numeral(Front(ds), radix);
      NegatedNext(minus, n, Last(ds), radix);
      NegatedWord(minus, n * radix + Last(ds));
      NextDigit(Entered(Front(ds), radix, s), s.numbers, StripNew(s.operators), Last(ds), radix);
    }
  }

  lemma NumeralNext(ds: seq<nat>, radix: nat)
    requires ds != []
    ensures Numeral(ds, radix) == Numeral(Front(ds), radix) * radix + Last(ds)
    ensures |ds| == 1 ==> Front(ds) == [] && Numeral(ds, radix) == ds[0]
  {
    assert Numeral([], radix) == 0;
  }

  lemma NegatedNext(minus: bool, n: nat, d: nat, radix: nat)
    requires minus ==> n > 0
    ensures var v := Negated(minus, n); v * radix + Negated(v < 0, d) == Negated(minus, n * radix + d)
  {
  }

  lemma NegatedWord(minus: bool, n: nat)
    requires n <= INT_MAX
    ensures IsWord(Negated(minus, n)) && (n == 0 ==> Negated(minus, n) == Negated(false, n))
  {
  }

  lemma FirstDigit(d: nat, radix: nat, s: Stacks)
    requires Args(s.operators) == 0 && d <= INT_MAX
    ensures AppendDigit(d, radix, s) ==
            Stacks(s.numbers + [Negated(s.numSign < 0, d)], StripNew(s.operators) + [Number],
                   s.braceLevel, if s.numSign < 0 then 1 else s.numSign)
  {
    hide StripNew, Args;
  }

  lemma NextDigit(s: Stacks, below: seq<Word>, ops: seq<Op>, d: nat, radix: nat)
    requires s.numbers != [] && s.numbers == below + [Last(s.numbers)] && s.operators == ops + [Number]
    requires s.numSign >= 0 && ops == StripNew(ops)
    requires var n := Last(s.numbers); IsWord(n * radix + Negated(n < 0, d))
    ensures var n := Last(s.numbers);
            AppendDigit(d, radix, s) == s.(numbers := below + [n * radix + Negated(n < 0, d)])
  {
    hide StripNew;
    assert Front(s.operators) == ops && Front(s.numbers) == below;
    var n := Last(s.numbers);
    assert (if n < 0 then -1 else 1) * d == Negated(n < 0, d);
  }

  /**
   * A minus before a number typed in digits negates it exactly if it does not begin with 0,
   * or is 0.
   */
  lemma MinusExact(ds: seq<nat>, radix: nat, s: Stacks)
    requires ds != [] && radix >= 1 && Args(s.operators) == 0 && Numeral(ds, radix) <= INT_MAX && s.numSign < 0
    ensures var t := Typed(ds, radix, s);
            && t.numbers != [] && Front(t.numbers) == s.numbers
            && (Last(t.numbers) == Negated(true, Numeral(ds, radix)) <==> ds[0] != 0 || Numeral(ds, radix) == 0)
  {
    hide Numeral, StripNew, Args;
    TypedIsEntered(ds, radix, s);
  }

  // Arguments.

  /** A command takes the value of the sentence before it, and leaves what was there earlier. */
  lemma ArgumentTaken(e: Infix, s: Stacks, imply: Word)
    requires Legal(e) && Ready(s) && Below(s, 1)
    ensures Grammatical(TreeOf(e))
    ensures var fed, v := Feed(Tokens(e), s), Value(TreeOf(e));
            v.Ok? ==>
              && fed.err == NoError
              && PopNumCalc(fed.s) == Outcome(s.(operators := StripNew(s.operators)), NoError)
              && PopNumCalcValue(fed.s, imply) == v.value
  {
    hide Feed, Value, FirstOp, StripNew;
    SentenceEvaluates(e, s);
    var fed, v := Feed(Tokens(e), s), Value(TreeOf(e));
    if v.Ok? && fed.err == NoError {
      var t := PushInt(s, v.value);
      assert Front(t.operators) == StripNew(s.operators) && Front(t.numbers) == s.numbers;
    }
  }

  /** Without a value on top, a command takes the implied one. */
  lemma ArgumentImplied(s: Stacks, imply: Word)
    requires Ready(s) && !TopIs(s, Number)
    ensures PopNumCalc(s) == Outcome(s, NoError) && PopNumCalcValue(s, imply) == imply
  {
    hide FirstOp;
  }

  /** A comma makes the sentences before and after it two values, in that order. */
  lemma ArgumentsSeparate(a: Infix, b: Infix, s: Stacks)
    requires Legal(a) && Legal(b) && Ready(s) && Below(s, 1)
    ensures Grammatical(TreeOf(a)) && Grammatical(TreeOf(b))
    ensures var va, vb := Value(TreeOf(a)), Value(TreeOf(b));
            var fed := Feed(Tokens(a), s);
            var c := Comma(fed.s);
            var fed' := Feed(Tokens(b), c.s);
            va.Ok? && vb.Ok? ==>
              && fed.err == NoError && c.err == NoError && fed'.err == NoError
              && Eval(false, fed'.s) == Outcome(PushInt(PushInt(s, va.value), vb.value), NoError)
  {
    hide Feed, Value, FirstOp, StripNew, PeekOp;
    SentenceEvaluates(a, s);
    TreeSpellsSentence(b);
    var va := Value(TreeOf(a));
    if va.Ok? {
      var t := PushInt(s, va.value);
      var c := PushOp(t, New);
      FirstOpStrip(s.operators);
      FirstOpAppend(StripNew(s.operators), Number);
      FirstOpAppend(t.operators, New);
      PushIntKeepsPending(s, va.value, 1);
      NewKeepsPending(t);
      SentenceEvaluates(b, c);
      SeparatorStripped(StripNew(s.operators));
    }
  }

  lemma NewKeepsPending(s: Stacks)
    requires Below(s, 1) && s.numSign >= 0
    ensures Below(PushOp(s, New), 1) && Ready(PushOp(s, New))
  {
    hide FirstOp;
    FirstOpAppend(s.operators, New);
    assert forall op :: Precedence(op) < 1 ==> op == Brace || IsValueMark(op);
  }

  lemma SeparatorStripped(ops: seq<Op>)
    ensures StripNew(ops + [Number] + [New]) == StripNew(ops + [Number]) == ops + [Number]
  {
    assert Front(ops + [Number] + [New]) == ops + [Number];
  }

  /** An operator directly behind one that does not bind less lacks the right operand of that one. */
  lemma OperatorTwice(s: Stacks, a: Op, b: Op)
    requires s.operators != [] && Last(s.operators) == a && IsBinary(a) && IsBinary(b)
    ensures PushCalc(b, s).err == if Precedence(b) <= Precedence(a) then MissingRightOperand else NoError
    ensures Precedence(b) > Precedence(a) ==> PushCalc(b, s).s == PushOp(s, b)
  {
  }

  lemma CalcLacksLeft(s: Stacks, below: seq<Op>, op: Op)
    requires s.operators == below + [op] + [Number] && (below == [] || Last(below) != Number)
    ensures Calc(s).err == MissingLeftOperand
  {
    hide Arith, PushInt;
    var ops := below + [op];
    assert Front(s.operators) == ops && RemoveAt(ops, |ops| - 1) == below;
  }

  lemma OperatorPending(s: Stacks, below: seq<Op>, op: Op)
    requires s.operators == below + [op] + [Number] && IsBinary(op)
    ensures Pending(s)
  {
    hide FirstOp;
    FirstOpAppend(below, op);
    FirstOpAppend(below + [op], Number);
  }

  /** A value behind an operator that has none before it lacks the left operand. */
  lemma LeftMissing(s: Stacks, op: Op, v: Word)
    requires IsBinary(op) && !TopIs(s, Number) && s.numSign >= 0
    ensures Eval(false, PushInt(PushOp(s, op), v)).err == MissingLeftOperand
  {
    hide Eval, Calc, Pending, StripNew;
    StripOfTop(s.operators, op);
    var t := PushInt(PushOp(s, op), v);
    OperatorPending(t, s.operators, op);
    CalcLacksLeft(t, s.operators, op);
    EvalStep(t);
  }

  // Negated parentheses.

  /** A minus before parentheses negates what is inside. */
  lemma NegatedParens(e: Infix, s: Stacks)
    requires Legal(e) && s.numSign < 0 && !Pending(s)
    ensures Grammatical(TreeOf(e))
    ensures var o := MinusParens(e, s);
            var v := Value(TreeOf(e));
            if v.Ok? then o == Outcome(PushInt(s.(numSign := 1), Wrap(-v.value)), NoError) else o.err == v.error
  {
    hide Arith, StripNew, FirstOp, Feed, Flatten, Value, Reduce, Eval;
    TreeSpellsSentence(e);
    var t, s0 := Group(TreeOf(e)), s.(numSign := 1);
    var s1 := PushOp(PushInt(s0, -1), Mul);
    NegationStarts(s);
    PushedOpIsReady(PushInt(s0, -1), Mul);
    FeedComputes(t, s1, 1);
    ErrorsAreErrors(t);
    var fed := Feed(Flatten(t), s1);
    assert Flatten(t) == [TOpen] + Tokens(e) + [TClose] by { GroupFlat(TreeOf(e)); }
    assert Value(t) == Value(TreeOf(e)) by { GroupValue(TreeOf(e)); }
    if fed.err == NoError {
      EvalIsReduce(fed.s);
    }
    if Value(t).Ok? {
      NegationEnds(s0, Value(t).value);
    }
  }

  /** What `-(e)` does: the minus is pending when the brace is opened. */
  function MinusParens(e: Infix, s: Stacks): Outcome {
    var o := M.SignedBrace(s);
    if o.err != NoError then o
    else
      var fed := Feed([TOpen] + Tokens(e) + [TClose], o.s);
      if fed.err != NoError then fed else Eval(false, fed.s)
  }

  lemma GroupFlat(t: Tree)
    ensures Flatten(Group(t)) == [TOpen] + Flatten(t) + [TClose]
  {
  }

  lemma GroupValue(t: Tree)
    requires Grammatical(t)
    ensures Value(Group(t)) == Value(t)
  {
  }

  lemma NegationStarts(s: Stacks)
    requires s.numSign < 0 && !Pending(s)
    ensures M.SignedBrace(s) == Outcome(PushOp(PushInt(s.(numSign := 1), -1), Mul), NoError)
  {
    hide StripNew, FirstOp;
    var s0 := s.(numSign := 1);
    assert Eval(false, s0) == Outcome(s0, NoError);
    PushedValueStays(s0, -1, Precedence(Mul));
  }

  lemma NegationEnds(s: Stacks, v: Word)
    requires s.numSign >= 0 && !Pending(s)
    ensures Reduce(1, PushInt(PushOp(PushInt(s, -1), Mul), v)) == Outcome(PushInt(s, Wrap(-v)), NoError)
  {
    hide StripNew, FirstOp, Reduce, Wrap;
    ReduceBinary(s, Mul, -1, v, 1);
    PushedValueStays(s, Wrap(-v), 1);
    assert -1 * v == -v;
  }

  // Returning from braces.

  /** The numbers as they are pushed under a sign, which the first one takes. */
  function Signed(sign: int, ns: seq<Word>): seq<Word> {
    if sign < 0 && ns != [] then [Wrap(-ns[0])] + ns[1..] else ns
  }

  lemma {:induction false} PushIntsAppends(ns: seq<Word>, s: Stacks)
    ensures PushInts(ns, s).numbers == s.numbers + Signed(s.numSign, ns)
    ensures PushInts(ns, s).operators ==
            if ns == [] then s.operators else StripNew(s.operators) + seq(|ns|, _ => Number)
    decreases |ns|
  {
    hide Wrap, StripNew;
    if ns != [] {
      var t := PushInt(s, ns[0]);
      PushIntsAppends(ns[1..], t);
      StripOfTop(StripNew(s.operators), Number);
      assert seq(|ns|, _ => Number) == [Number] + seq(|ns| - 1, _ => Number);
    }
  }

  lemma FrontSlices<T>(xs: seq<T>, n: nat)
    requires 0 < n <= |xs|
    ensures var ys := Front(xs);
            && |ys| == |xs| - 1
            && ys[..|ys| - (n - 1)] == xs[..|xs| - n]
            && ys[|ys| - (n - 1)..] + [Last(xs)] == xs[|xs| - n..]
  {
  }

  lemma PopNumIs(s: Stacks)
    requires Balanced(s) && Args(s.operators) > 0
    ensures s.numbers != [] && s.operators != []
    ensures PopNum(s) == s.(numbers := Front(s.numbers), operators := Front(s.operators))
    ensures TopNum(s) == Last(s.numbers) && Balanced(PopNum(s))
    ensures Args(Front(s.operators)) == Args(s.operators) - 1
  {
    hide Balanced, Front, Last;
    BalancedPop(s);
  }

  lemma {:induction false} TopNumsAre(n: nat, s: Stacks)
    requires Balanced(s) && n <= Args(s.operators)
    ensures n <= |s.numbers| && TopNums(n, s) == s.numbers[|s.numbers| - n..]
    ensures PopNums(n, s) ==
            s.(numbers := s.numbers[..|s.numbers| - n], operators := s.operators[..|s.operators| - n])
  {
    if n == 0 {
      TopNumsNone(s);
    } else {
      PopNumIs(s);
      TopNumsStep(n, s);
      hide Balanced, Front, Last, Args, PopNum, TopNum, PopNums, TopNums;
      TopNumsAre(n - 1, PopNum(s));
      FrontLength(s.numbers);
      FrontSlices(s.operators, n);
      FrontSlices(s.numbers, n);
    }
  }

  lemma FrontLength<T>(xs: seq<T>)
    requires xs != []
    ensures |Front(xs)| == |xs| - 1
  {
  }

  lemma TopNumsStep(n: nat, s: Stacks)
    requires 0 < n <= Args(s.operators)
    ensures n <= |s.operators| && n - 1 <= Args(PopNum(s).operators)
    ensures TopNums(n, s) == TopNums(n - 1, PopNum(s)) + [TopNum(s)] && PopNums(n, s) == PopNums(n - 1, PopNum(s))
  {
  }

  lemma TopNumsNone(s: Stacks)
    ensures TopNums(0, s) == s.numbers[|s.numbers|..] && PopNums(0, s) == s
    ensures s.numbers[..|s.numbers|] == s.numbers && s.operators[..|s.operators|] == s.operators
  {
  }

  lemma CalcSign(s: Stacks)
    requires s.numSign >= 0
    ensures Calc(s).s.numSign == s.numSign
  {
    hide Arith, StripNew;
  }

  lemma {:induction false} EvalSign(popBrace: bool, s: Stacks)
    requires s.numSign >= 0
    ensures Eval(popBrace, s).s.numSign == s.numSign
    decreases |s.operators|
  {
    hide Calc, FirstOp;
    CalcSign(s);
    if FirstOp(s.operators) >= 1 && Calc(s).err == NoError {
      EvalSign(popBrace, Calc(s).s);
    }
  }

  lemma {:induction false} DiscardSign(i: nat, s: Stacks)
    requires s.numSign >= 0
    ensures DiscardLoop(i, s).s.numSign == s.numSign
  {
    hide Eval, Args;
    if i > 0 {
      EvalSign(false, s);
      if PopNumCalc(s).err == NoError {
        DiscardSign(i - 1, PopNumCalc(s).s);
      }
    }
  }

  lemma {:induction false} LeaveSign(keep: nat, s: Stacks)
    requires s.numSign >= 0
    ensures LeaveBraces(keep, s).s.numSign == s.numSign
    decreases s.braceLevel
  {
    hide Eval, Args, DiscardLoop;
    EvalSign(false, s);
    var e := Eval(false, s);
    if s.braceLevel > keep && e.err == NoError {
      DiscardSign(Args(e.s.operators), e.s);
      var o := DiscardArgs(s);
      EvalSign(true, o.s);
      var o' := Eval(true, o.s);
      if o.err == NoError && o'.err == NoError {
        LeaveSign(keep, o'.s.(braceLevel := o'.s.braceLevel - 1));
      }
    }
  }

  /**
   * Returning from braces keeps the order of the values: what the braces leave, and then the
   * topmost `args` numbers as they lay on the stack.
   */
  lemma ReturnKeepsOrder(keep: nat, args: nat, s: Stacks)
    requires Balanced(s) && args <= Args(s.operators) && s.numSign >= 0
    ensures args <= |s.numbers|
    ensures var k := |s.numbers| - args;
            var inside := s.(numbers := s.numbers[..k], operators := s.operators[..|s.operators| - args]);
            var o, r := LeaveBraces(keep, inside), BraceReturn(keep, args, s);
            && r.err == o.err
            && (r.err == NoError ==> r.s.numbers == o.s.numbers + s.numbers[k..])
  {
    hide LeaveBraces, Balanced, PushInts;
    TopNumsAre(args, s);
    LeaveSign(keep, PopNums(args, s));
    PushIntsAppends(TopNums(args, s), LeaveBraces(keep, PopNums(args, s)).s);
  }
}
