/**
 * The frame rule of the expression stacks: above the topmost brace, every operation that does
 * not remove that brace acts as it would on stacks holding nothing else.
 */
module Frames {
  import opened Sequences
  import opened Words
  import opened ExpressionSpec
  import opened ExpressionRuns
  import ExpressionGrammar

  /** What lies above the topmost brace: no brace, and one mark for each number. */
  predicate Proper(f: Stacks) {
    Brace !in f.operators && Balanced(f) && f.braceLevel == 0
  }

  /** What lies at and below the topmost brace. */
  predicate IsBase(b: Stacks) {
    b.operators == [] || Last(b.operators) == Brace
  }

  /** An operator that waits for its right operand is on top. */
  predicate Hangs(f: Stacks) {
    f.operators != [] && !IsValueMark(Last(f.operators))
  }

  /** The frame `f` on top of `b`. */
  function Plug(b: Stacks, f: Stacks): Stacks {
    Stacks(b.numbers + f.numbers, b.operators + f.operators, b.braceLevel, f.numSign)
  }

  function Open(s: Stacks): Stacks {
    s.(operators := s.operators + [Brace], braceLevel := s.braceLevel + 1)
  }

  function EmptyFrame(sign: int): Stacks {
    Stacks([], [], 0, sign)
  }

  /** The outcome `o'` on full stacks is the outcome `o` on the frame. */
  predicate Framed(b: Stacks, o: Outcome, o': Outcome) {
    o'.err == o.err && (o.err == NoError ==> o'.s == Plug(b, o.s) && Proper(o.s))
  }

  lemma PlugAssoc(b: Stacks, f: Stacks, g: Stacks)
    ensures Plug(Plug(b, f), g) == Plug(b, Plug(f, g))
  {
    assert b.operators + f.operators + g.operators == b.operators + (f.operators + g.operators);
    assert b.numbers + f.numbers + g.numbers == b.numbers + (f.numbers + g.numbers);
  }

  lemma PlugEmpty(b: Stacks, sign: int)
    ensures Plug(b, EmptyFrame(sign)) == b.(numSign := sign)
  {
    assert b.operators + [] == b.operators && b.numbers + [] == b.numbers;
  }

  lemma {:induction false} CountConcat(a: seq<Op>, b: seq<Op>)
    ensures CountNumbers(a + b) == CountNumbers(a) + CountNumbers(b)
  {
    if b == [] {
      assert a + b == a;
    } else {
      assert Front(a + b) == a + Front(b);
      CountConcat(a, Front(b));
    }
  }

  lemma ProperPlug(f: Stacks, g: Stacks)
    requires Proper(f) && Proper(g)
    ensures Proper(Plug(f, g))
  {
    CountConcat(f.operators, g.operators);
  }

  lemma {:induction false} StripPlug(b: seq<Op>, f: seq<Op>)
    requires b == [] || Last(b) == Brace
    ensures StripNew(b + f) == b + StripNew(f)
  {
    if f == [] {
      assert b + f == b;
    } else {
      assert Last(b + f) == Last(f) && Front(b + f) == b + Front(f);
      if Last(f) == New {
        StripPlug(b, Front(f));
      }
    }
  }

  lemma {:induction false} StripNoBrace(f: seq<Op>)
    requires Brace !in f
    ensures Brace !in StripNew(f)
  {
    if f != [] && Last(f) == New {
      StripNoBrace(Front(f));
    }
  }

  lemma ProperStrip(f: Stacks)
    requires Proper(f)
    ensures Proper(f.(operators := StripNew(f.operators)))
  {
    CountStrip(f.operators);
    StripNoBrace(f.operators);
  }

  lemma PushIntPlug(b: Stacks, f: Stacks, n: Word)
    requires IsBase(b) && Proper(f)
    ensures PushInt(Plug(b, f), n) == Plug(b, PushInt(f, n)) && Proper(PushInt(f, n))
  {
    hide StripNew;
    StripPlug(b.operators, f.operators);
    StripNoBrace(f.operators);
    BalancedPush(f, n);
    assert b.operators + (StripNew(f.operators) + [Number]) == b.operators + StripNew(f.operators) + [Number];
  }

  lemma {:induction false} FirstOpPlug(b: seq<Op>, f: seq<Op>)
    requires b == [] || Last(b) == Brace
    requires Brace !in f
    ensures FirstOp(b + f) == if FirstOp(f) >= 0 then FirstOp(f) else if b == [] then -1 else |f|
  {
    if f == [] {
      assert b + f == b;
    } else {
      assert Last(b + f) == Last(f) && Front(b + f) == b + Front(f);
      FirstOpPlug(b, Front(f));
    }
  }

  lemma {:induction false} ArgsPlug(b: seq<Op>, f: seq<Op>)
    requires b == [] || Last(b) == Brace
    ensures Args(b + f) == Args(f)
  {
    if f == [] {
      assert b + f == b;
    } else {
      assert Last(b + f) == Last(f) && Front(b + f) == b + Front(f);
      ArgsPlug(b, Front(f));
    }
  }

  lemma PopNumPlug(b: Stacks, f: Stacks)
    requires Proper(f) && TopIs(f, Number)
    ensures TopIs(Plug(b, f), Number)
    ensures PopNum(Plug(b, f)) == Plug(b, PopNum(f)) && TopNum(Plug(b, f)) == TopNum(f)
    ensures Proper(PopNum(f))
  {
    BalancedPop(f);
    assert Front(b.operators + f.operators) == b.operators + Front(f.operators);
    assert Front(b.numbers + f.numbers) == b.numbers + Front(f.numbers);
  }

  lemma TopPlug(b: Stacks, f: Stacks)
    requires IsBase(b)
    ensures TopIs(Plug(b, f), Number) <==> TopIs(f, Number)
  {
    if f.operators != [] {
      assert Last(b.operators + f.operators) == Last(f.operators);
    } else {
      assert b.operators + f.operators == b.operators;
    }
  }

  /** Popping the mark below the top value pops the operator of the frame. */
  lemma PopOpPlug(b: Stacks, f: Stacks)
    requires f.operators != []
    ensures PeekOp(Plug(b, f).operators, 0) == PeekOp(f.operators, 0)
    ensures PopOp(Plug(b, f), 0) == Plug(b, PopOp(f, 0))
  {
    assert RemoveAt(b.operators + f.operators, |b.operators + f.operators| - 1)
        == b.operators + RemoveAt(f.operators, |f.operators| - 1);
  }

  /** The lone value below which no operator waits. */
  lemma FirstOpBelowTop(ops: seq<Op>)
    requires ops != [] && IsValueMark(Last(ops)) && FirstOp(ops) >= 0
    ensures Front(ops) != [] && FirstOp(Front(ops)) >= 0
  {
  }

  lemma CalcPlug(b: Stacks, f: Stacks)
    requires IsBase(b) && Proper(f) && FirstOp(f.operators) >= 0
    ensures Framed(b, Calc(f), Calc(Plug(b, f)))
  {
    hide StripNew, PushInt, Arith, FirstOp, Proper, Plug, IsBase, TopIs, PopNum, PopOp, TopNum, Balanced;
    TopPlug(b, f);
    if TopIs(f, Number) {
      TopIsNumber(f);
      PopNumPlug(b, f);
      FirstOpBelowTop(f.operators);
      var f1 := PopNum(f);
      assert f1.operators == Front(f.operators) by { PopNumFront(f); }
      PopOpPlug(b, f1);
      assert Plug(b, f1).operators != [] by { PlugNonEmpty(b, f1); }
      var f2 := PopOp(f1, 0);
      TopPlug(b, f2);
      if TopIs(f2, Number) {
        CalcRightPlug(b, f1, TopNum(f));
      }
    }
  }

  lemma TopIsNumber(f: Stacks)
    requires TopIs(f, Number)
    ensures f.operators != [] && IsValueMark(Last(f.operators))
  {
  }

  lemma PopNumFront(f: Stacks)
    requires f.operators != []
    ensures PopNum(f).operators == Front(f.operators)
  {
  }

  lemma PlugNonEmpty(b: Stacks, f: Stacks)
    requires f.operators != []
    ensures Plug(b, f).operators != []
  {
  }

  lemma CalcRightPlug(b: Stacks, f: Stacks, r: Word)
    requires IsBase(b) && Proper(f) && f.operators != [] && TopIs(PopOp(f, 0), Number)
    ensures var op := PeekOp(f.operators, 0);
            var f2 := PopOp(f, 0);
            var g2 := PopOp(Plug(b, f), 0);
            && TopIs(g2, Number)
            && var v := Arith(op, TopNum(f2), r);
               var w := Arith(op, TopNum(g2), r);
               && w.Err? == v.Err?
               && (v.Err? ==> w.error == v.error)
               && (v.Ok? ==> v == w && PushInt(PopNum(g2), v.value) == Plug(b, PushInt(PopNum(f2), v.value))
                             && Proper(PushInt(PopNum(f2), v.value)))
  {
    hide StripNew, Arith, PushInt;
    var op := PeekOp(f.operators, 0);
    var f2 := PopOp(f, 0);
    PopOpPlug(b, f);
    TopPlug(b, f2);
    if op == Number {
      NumberIsNoOperator(TopNum(f2), r);
      NumberIsNoOperator(TopNum(PopOp(Plug(b, f), 0)), r);
    } else {
      BalancedRemove(f, 0);
      PopNumPlug(b, f2);
      var v := Arith(op, TopNum(f2), r);
      if v.Ok? {
        PushIntPlug(b, PopNum(f2), v.value);
      }
    }
  }

  lemma PendingPlug(b: Stacks, f: Stacks)
    requires IsBase(b) && Proper(f)
    ensures var n := FirstOp(f.operators);
            var m := FirstOp(Plug(b, f).operators);
            && (n >= 0 ==> m == n && PeekOp(Plug(b, f).operators, m) == PeekOp(f.operators, n)
                           && PeekOp(f.operators, n) != Brace)
            && (n < 0 && m >= 0 ==> PeekOp(Plug(b, f).operators, m) == Brace)
  {
    hide FirstOp;
    FirstOpPlug(b.operators, f.operators);
    PeekPlug(b.operators, f.operators);
  }

  lemma PeekPlug(b: seq<Op>, f: seq<Op>)
    ensures forall n: nat :: n < |f| ==> PeekOp(b + f, n) == PeekOp(f, n) && PeekOp(f, n) in f
    ensures b != [] ==> PeekOp(b + f, |f|) == Last(b)
  {
  }

  lemma {:induction false} EvalPlug(b: Stacks, f: Stacks)
    requires IsBase(b) && Proper(f)
    ensures Framed(b, Eval(false, f), Eval(false, Plug(b, f)))
    decreases |f.operators|
  {
    hide Calc, FirstOp, Plug, IsBase, Proper;
    PendingPlug(b, f);
    var n := FirstOp(f.operators);
    if n >= 1 {
      CalcPlug(b, f);
      if Calc(f).err == NoError {
        EvalPlug(b, Calc(f).s);
      }
    }
  }

  lemma {:induction false} ReducePlug(p: nat, b: Stacks, f: Stacks)
    requires IsBase(b) && Proper(f) && p >= 1
    ensures Framed(b, Reduce(p, f), Reduce(p, Plug(b, f)))
    decreases |f.operators|
  {
    hide Calc, FirstOp, Plug, IsBase, Proper;
    PendingPlug(b, f);
    var n := FirstOp(f.operators);
    assert Precedence(Brace) == 0;
    if n >= 0 && p <= Precedence(PeekOp(f.operators, n)) {
      CalcPlug(b, f);
      if Calc(f).err == NoError {
        ReducePlug(p, b, Calc(f).s);
      }
    }
  }

  lemma PushCalcPlug(op: Op, b: Stacks, f: Stacks)
    requires IsBase(b) && Proper(f) && Precedence(op) >= 1
    ensures Framed(b, PushCalc(op, f), PushCalc(op, Plug(b, f)))
  {
    hide Reduce;
    ReducePlug(Precedence(op), b, f);
    var o := Reduce(Precedence(op), f);
    if o.err == NoError {
      CountAppend(o.s.operators, op);
      assert b.operators + (o.s.operators + [op]) == b.operators + o.s.operators + [op];
    }
  }

  lemma PopNumCalcPlug(b: Stacks, f: Stacks, imply: Word)
    requires IsBase(b) && Proper(f)
    ensures Framed(b, PopNumCalc(f), PopNumCalc(Plug(b, f)))
    ensures PopNumCalc(f).err == NoError ==>
              PopNumCalcValue(Plug(b, f), imply) == PopNumCalcValue(f, imply)
  {
    hide Eval, Balanced;
    EvalPlug(b, f);
    var o := Eval(false, f);
    if o.err == NoError {
      ArgsPlug(b.operators, o.s.operators);
      var t := if o.s.numSign < 0 then o.s.(numSign := 1) else o.s;
      assert Proper(t) by { ProperSign(o.s, 1); }
      if Args(t.operators) > 0 {
        PopNumPlug(b, t);
        PopNumPlug(b, o.s);
      }
    }
  }

  lemma ProperSign(f: Stacks, sign: int)
    requires Proper(f)
    ensures Proper(f.(numSign := sign))
  {
  }

  lemma {:induction false} DiscardLoopPlug(i: nat, b: Stacks, f: Stacks)
    requires IsBase(b) && Proper(f)
    ensures Framed(b, DiscardLoop(i, f), DiscardLoop(i, Plug(b, f)))
  {
    hide PopNumCalc, Plug, Proper, IsBase;
    if i > 0 {
      PopNumCalcPlug(b, f, 0);
      if PopNumCalc(f).err == NoError {
        DiscardLoopPlug(i - 1, b, PopNumCalc(f).s);
      }
    }
  }

  lemma DiscardArgsPlug(b: Stacks, f: Stacks)
    requires IsBase(b) && Proper(f)
    ensures Framed(b, DiscardArgs(f), DiscardArgs(Plug(b, f)))
  {
    hide Eval, DiscardLoop, Proper, Args;
    EvalPlug(b, f);
    var o := Eval(false, f);
    if o.err == NoError {
      ArgsPlug(b.operators, o.s.operators);
      DiscardLoopPlug(Args(o.s.operators), b, o.s);
    }
  }

  /**
   * Closing a brace resolves the frame above it and removes the brace, unless an operator
   * waits on top of the frame: then nothing is resolved and the brace stays.
   */
  lemma ClosePlug(c: Stacks, f: Stacks)
    requires Proper(f)
    ensures var o := Eval(false, f);
            var o' := Eval(true, Plug(Open(c), f));
            if Hangs(f) then o' == Outcome(Plug(Open(c), f), NoError)
            else if o.err != NoError then o'.err == o.err
            else Proper(o.s) && o' == Outcome(Plug(c, o.s).(braceLevel := c.braceLevel + 1), NoError)
  {
    hide Eval, FirstOp, Hangs, Proper;
    var b := Open(c);
    if Hangs(f) {
      HangsPlug(b, f);
      EvalHangs(true, Plug(b, f));
    } else {
      EvalPlug(b, f);
      ExpressionGrammar.EvalPopsAfter(Plug(b, f));
      var o := Eval(false, f);
      if o.err == NoError {
        EvalSettles(f);
        PopBracePlug(c, o.s);
      }
    }
  }

  lemma HangsPlug(b: Stacks, f: Stacks)
    requires Proper(f) && Hangs(f)
    ensures Hangs(Plug(b, f)) && Plug(b, f).operators != [] && Last(Plug(b, f).operators) != Brace
  {
    assert Last(b.operators + f.operators) == Last(f.operators);
  }

  lemma EvalHangs(popBrace: bool, s: Stacks)
    requires Hangs(s) && Last(s.operators) != Brace
    ensures Eval(popBrace, s) == Outcome(s, NoError)
  {
  }

  /** What is resolved without an error holds no operator, unless one was on top. */
  lemma {:induction false} EvalSettles(f: Stacks)
    requires Proper(f) && !Hangs(f) && Eval(false, f).err == NoError
    ensures FirstOp(Eval(false, f).s.operators) < 0
    decreases |f.operators|
  {
    hide Calc, Proper;
    var b := EmptyFrame(0);
    assert IsBase(b);
    if FirstOp(f.operators) >= 1 {
      PendingPlug(b, f);
      CalcPlug(b, f);
      CalcSettles(f);
      EvalSettles(Calc(f).s);
    }
  }

  lemma CalcSettles(s: Stacks)
    requires Calc(s).err == NoError
    ensures !Hangs(Calc(s).s)
  {
    hide Arith, FirstOp;
  }

  lemma PopBracePlug(c: Stacks, f: Stacks)
    requires Proper(f) && FirstOp(f.operators) < 0
    ensures Eval(true, Plug(Open(c), f)) == Outcome(Plug(c, f).(braceLevel := c.braceLevel + 1), NoError)
  {
    hide FirstOp;
    var b := Open(c);
    FirstOpPlug(b.operators, f.operators);
    var ops := b.operators + f.operators;
    assert PeekOp(ops, |f.operators|) == Brace;
    assert RemoveAt(ops, |c.operators|) == c.operators + f.operators;
  }
}
