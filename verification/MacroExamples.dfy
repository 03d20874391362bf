/** Macros in which a brace stays behind, or a loop is lost: the exceptions of the main theorems. */
module MacroExamples {
  import opened Sequences
  import opened Words
  import opened ExpressionSpec
  import opened ExpressionRuns
  import opened Frames
  import opened MacroMachine
  import opened StructuredMacros
  import opened MacroRefinement
  import opened BraceRemoval
  import MacroSimulation

  /** An interpreter whose ordinary commands are decimal digits and two operators. */
  function Calculator(): Env<bool> {
    Env((c, f, d) => Calculate(c, f, d), d => 0, (k, v) => false, 0)
  }

  function Calculate(c: char, f: Stacks, d: bool): CommandResult<bool> {
    if '0' <= c <= '9' then Executed(AppendDigit(c as int - '0' as int, 10, f), d)
    else if c == '+' || c == '/' then
      var o := PushCalc(if c == '+' then Add else Div, f);
      if o.err == NoError then Executed(o.s, d) else Rejected
    else Rejected
  }

  const NOTHING := Stacks([], [], 0, 1)

  /** What the structural characters do in normal mode. */
  lemma Structures(m: Machine<bool>)
    requires m.mode == Normal && !m.conditional
    ensures Input(Calculator(), '<', m) == LoopOpen(m) && Input(Calculator(), ';', m) == BreakLoop(Calculator(), m)
    ensures Input(Calculator(), '(', m) == ParenOpen(m) && Input(Calculator(), ')', m) == ParenClose(m)
  {
    hide LoopOpen, BreakLoop, ParenOpen, ParenClose, Calculator;
  }

  /** An ordinary command acts on the frame above the topmost brace. */
  lemma Types(c: char, m: Machine<bool>, b: Stacks, f: Stacks, g: Stacks)
    requires m.mode == Normal && !m.conditional && IsPlain(c) && m.es == Plug(b, f)
    requires IsBase(b) && Proper(f) && Proper(g) && Calculate(c, f, m.data) == Executed(g, m.data)
    ensures Input(Calculator(), c, m) == Go(m.(es := Plug(b, g)))
  {
    hide Calculate, Plug, Proper, IsBase;
    TopOfPlug(b, f);
  }

  function Value(n: nat): Stacks {
    Stacks([n], [Number], 0, 1)
  }

  /** The frame after `1+` or `1/`. */
  function Pending(op: Op): Stacks {
    Stacks([1], [Number, op], 0, 1)
  }

  lemma TypesDigit(n: nat)
    requires n < 10
    ensures AppendDigit(n, 10, NOTHING) == Value(n) && Proper(Value(n)) && !Hangs(Value(n)) && Args([Number]) == 1
  {
    assert Front([Number]) == [];
    assert StripNew([]) + [Number] == [Number];
  }

  lemma TypesOperator(op: Op)
    requires op == Add || op == Div
    ensures PushCalc(op, Value(1)) == Outcome(Pending(op), NoError)
    ensures Proper(Pending(op)) && Hangs(Pending(op))
  {
    assert Front([Number]) == [] && Front([Number, op]) == [Number] && Last([Number, op]) == op;
    assert [Number] + [op] == [Number, op];
    assert CountNumbers([Number]) == 1 && CountNumbers([Number, op]) == 1;
  }

  /** Typing one operand and one operator into an empty frame. */
  lemma TypesPending(text: string, m: Machine<bool>, n: nat, m1: Machine<bool>, b: Stacks, c: char)
    requires Run(Calculator(), text, m, n) == Go(m1) && m1.mode == Normal && !m1.conditional
    requires m1.pc + 1 < |text| && text[m1.pc] == '1' && text[m1.pc + 1] == c && (c == '+' || c == '/')
    requires m1.es == Plug(b, NOTHING) && IsBase(b)
    ensures Run(Calculator(), text, m, n + 2)
         == Go(m1.(pc := m1.pc + 2, es := Plug(b, Pending(if c == '+' then Add else Div))))
  {
    hide Run, Plug, IsBase, PushCalc, AppendDigit, Proper, Hangs, Input;
    var op := if c == '+' then Add else Div;
    TypesDigit(1);
    TypesOperator(op);
    assert Proper(NOTHING) by { ProperNothing(); }
    Types('1', Moved(m1, 1), b, NOTHING, Value(1));
    var m2 := Moved(m1, 1).(es := Plug(b, Value(1)));
    Advance(Calculator(), text, m, n, m1, '1', m2);
    Types(c, Moved(m2, 1), b, Value(1), Pending(op));
    Advance(Calculator(), text, m, n + 1, m2, c, Moved(m2, 1).(es := Plug(b, Pending(op))));
  }

  lemma ProperNothing()
    ensures Proper(NOTHING) && !Hangs(NOTHING) && IsBase(NOTHING) && IsBase(Open(NOTHING))
    ensures PopNumCalc(NOTHING) == Outcome(NOTHING, NoError) && forall v :: PopNumCalcValue(NOTHING, v) == v
    ensures forall b :: Plug(b, NOTHING) == b.(numSign := 1)
  {
    forall b: Stacks
      ensures Plug(b, NOTHING) == b.(numSign := 1)
    {
      PlugEmpty(b, 1);
    }
  }

  function Started(): Machine<bool> {
    Machine(0, Normal, 0, false, [], NOTHING, false)
  }

  /** After `(1+)` the brace level is 0, but the brace is still there. */
  lemma ClosingKeepsBrace()
    ensures Run(Calculator(), "(1+)", Started(), 4)
         == Go(Started().(pc := 4, es := Stacks([1], [Brace, Number, Add], 0, 1)))
  {
    hide Run, Calculator, Plug, Open;
    TypesClosing("(1+)");
    StacksLeft();
  }

  lemma TypesClosing(text: string)
    requires |text| == 4 && text[0] == '(' && text[1] == '1' && text[2] == '+' && text[3] == ')'
    ensures Run(Calculator(), text, Started(), 4)
         == Go(Started().(pc := 4, es := Plug(Open(NOTHING), Pending(Add)).(braceLevel := 0)))
  {
    hide Run, Input, Plug, Proper, Hangs, IsBase, ParenOpen, ParenClose, PopNumCalc, PopNumCalcValue, Calculator,
         Open, Pending;
    var b := Open(NOTHING);
    ProperNothing();
    Start0(Calculator(), text, Started());
    OpensNothing();
    Structures(Moved(Started(), 1));
    OpensParen();
    var m1 := Started().(pc := 1, es := b);
    Advance(Calculator(), text, Started(), 0, Started(), '(', m1);
    assert b == Plug(b, NOTHING);
    TypesPending(text, Started(), 1, m1, b, '+');
    var m3 := Started().(pc := 3, es := Plug(b, Pending(Add)));
    Structures(Moved(m3, 1));
    ClosesAtOperator(Moved(m3, 1));
    Advance(Calculator(), text, Started(), 3, m3, ')', m3.(pc := 4, es := m3.es.(braceLevel := 0)));
  }

  lemma ClosesAtOperator(m: Machine<bool>)
    requires m.es == Plug(Open(NOTHING), Pending(Add))
    ensures ParenClose(m) == Go(m.(es := m.es.(braceLevel := 0)))
  {
    hide Plug, Proper, Hangs, BraceClose, Open;
    TypesOperator(Add);
    CloseExact(NOTHING, Pending(Add));
  }

  lemma OpensParen()
    ensures ParenOpen(Moved(Started(), 1)) == Go(Started().(pc := 1, es := Open(NOTHING)))
  {
    hide BraceOpen, Open;
    OpensNothing();
  }

  lemma OpensNothing()
    ensures BraceOpen(NOTHING) == Open(NOTHING) && Open(NOTHING) == Stacks([], [Brace], 1, 1)
  {
    assert StripNew([]) + [Brace] == [Brace];
  }

  lemma StacksLeft()
    ensures Plug(Open(NOTHING), Pending(Add)).(braceLevel := 0) == Stacks([1], [Brace, Number, Add], 0, 1)
  {
    assert [Brace] + [Number, Add] == [Brace, Number, Add];
  }

  /** The machine in a loop without a counter, after `pc` characters. */
  function Looping(pc: nat, es: Stacks): Machine<bool> {
    Machine(pc, Normal, 0, false, [LoopContext(-1, 0, 1)], es, false)
  }

  lemma OpensLoop()
    ensures LoopOpen(Moved(Started(), 1)) == Go(Looping(1, Open(NOTHING)))
  {
    hide PopNumCalc, PopNumCalcValue, BraceOpen, Open;
    ProperNothing();
    OpensNothing();
    assert [] + [LoopContext(-1, 0, 1)] == [LoopContext(-1, 0, 1)];
  }

  /** A loop without a counter begins. */
  lemma StartsLoop(text: string)
    requires |text| > 1 && text[0] == '<'
    ensures Run(Calculator(), text, Started(), 1) == Go(Looping(1, Open(NOTHING)))
  {
    hide Run, Input, LoopOpen, Open, Calculator;
    Start0(Calculator(), text, Started());
    OpensLoop();
    Structures(Moved(Started(), 1));
    Advance(Calculator(), text, Started(), 0, Started(), '<', Looping(1, Open(NOTHING)));
  }

  /** One operand and one operator at the start of a loop. */
  lemma StartsPending(text: string, c: char)
    requires |text| > 2 && text[0] == '<' && text[1] == '1' && text[2] == c && (c == '+' || c == '/')
    ensures Run(Calculator(), text, Started(), 3)
         == Go(Looping(3, Plug(Open(NOTHING), Pending(if c == '+' then Add else Div))))
  {
    hide Run, Input, Plug, Open, Calculator, IsBase, Proper, Hangs, PopNumCalc, PopNumCalcValue;
    ProperNothing();
    OpensNothing();
    StartsLoop(text);
    assert Open(NOTHING) == Plug(Open(NOTHING), NOTHING);
    TypesPending(text, Started(), 1, Looping(1, Open(NOTHING)), Open(NOTHING), c);
  }

  /** After `<1+;>` no loop is open and the brace level is 0, but the brace of the loop is still there. */
  lemma BreakKeepsBrace()
    ensures Run(Calculator(), "<1+;>", Started(), 5)
         == Go(Started().(pc := 5, es := Stacks([1], [Brace, Number, Add], 0, 1)))
  {
    hide Run, Input, Plug, Proper, Hangs, BreakLoop, Open, Calculator;
    var text, b := "<1+;>", Open(NOTHING);
    StartsPending(text, '+');
    TypesOperator(Add);
    var m3 := Looping(3, Plug(b, Pending(Add)));
    BreaksAtOperator(Moved(m3, 1), b, Pending(Add));
    Structures(Moved(m3, 1));
    var m4 := Started().(pc := 4, mode := SkipLoop, es := Plug(b, Pending(Add)).(braceLevel := 0));
    assert Front(m3.loops) == [];
    Advance(Calculator(), text, Started(), 3, m3, ';', m4);
    SkippingEnds(Moved(m4, 1));
    Advance(Calculator(), text, Started(), 4, m4, '>', m4.(pc := 5, mode := Normal));
    StacksLeft();
  }

  lemma SkippingEnds(m: Machine<bool>)
    requires m.mode == SkipLoop && m.nest == 0 && !m.conditional
    ensures Input(Calculator(), '>', m) == Go(m.(mode := Normal))
  {
  }

  /** A break with an operator on top leaves the loop, but no brace. */
  lemma BreaksAtOperator(m: Machine<bool>, b: Stacks, f: Stacks)
    requires |m.loops| == 1 && m.loops[0].braceLevel == 0
    requires m.es == Plug(b, f) && f.numSign >= 0 && Proper(f) && Hangs(f)
    ensures BreakLoop(Calculator(), m)
        == Go(m.(es := m.es.(braceLevel := 0), loops := Front(m.loops), mode := SkipLoop))
  {
    hide Plug, Proper, Hangs, Eval, DiscardArgs, LeaveBraces, BraceReturn;
    HangsPlug(b, f);
    var s := m.es;
    EvalHangs(false, s);
    assert Args(s.operators) == 0 && s.numSign >= 0 by { PlugSign(b, f); NoArguments(s); }
    DiscardHanging(s);
    HangsKeepsBraces(0, s);
    MacroSimulation.ReturnNothing(0, s);
  }

  lemma PlugSign(b: Stacks, f: Stacks)
    ensures Plug(b, f).numSign == f.numSign
  {
  }

  lemma NoArguments(s: Stacks)
    requires Hangs(s)
    ensures Args(s.operators) == 0
  {
  }

  /** The frame after `1/0`. */
  function Undefined(): Stacks {
    Stacks([1, 0], [Number, Div, Number], 0, 1)
  }

  lemma TypesUndefined()
    ensures AppendDigit(0, 10, Pending(Div)) == Undefined() && Proper(Undefined()) && !Hangs(Undefined())
  {
    var ops := [Number, Div, Number];
    assert Front([Number]) == [] && Front([Number, Div]) == [Number] && Front(ops) == [Number, Div];
    assert [Number, Div] + [Number] == ops && [1] + [0] == [1, 0];
    assert CountNumbers([Number]) == 1 && CountNumbers([Number, Div]) == 1 && CountNumbers(ops) == 2;
  }

  lemma DividesByZero()
    ensures DiscardArgs(Undefined()).err == DivisionByZero
  {
    hide StripNew, PushInt, Args;
    var ops := [Number, Div, Number];
    assert Front([Number, Div]) == [Number] && Front(ops) == [Number, Div];
    assert FirstOp([Number, Div]) == 0 && FirstOp(ops) == 1;
    var s1 := PopNum(Undefined());
    assert RemoveAt([Number, Div], 1) == [Number];
    assert Calc(Undefined()).err == DivisionByZero;
  }

  /** Discarding the empty frame and then `1/0` fails. */
  lemma UnwindsUndefined()
    ensures Unwind([Undefined()], NOTHING) == UnwindFailed(DivisionByZero)
    ensures DiscardArgs(NOTHING) == Outcome(NOTHING, NoError)
  {
    hide Hangs, DiscardArgs, Proper;
    TypesUndefined();
    DividesByZero();
    ProperNothing();
    DiscardsNothing();
    PlugEmpty(Undefined(), 1);
    var u := [Undefined()];
    assert Last(u) == Undefined() && Front(u) == [];
    assert Unwind([], Undefined()) == UnwindFailed(DivisionByZero);
  }

  lemma DiscardsNothing()
    ensures DiscardArgs(NOTHING) == Outcome(NOTHING, NoError)
  {
    DiscardNone(NOTHING);
  }

  /** In `<1/0(;` the break fails with a division by zero, after it has taken its loop off the loop stack. */
  lemma BreakLosesLoop()
    ensures var m := Looping(6, Stacks([1, 0], [Brace, Number, Div, Number, Brace], 2, 1));
            && Run(Calculator(), "<1/0(;", Started(), 5) == Go(m.(pc := 5))
            && Input(Calculator(), ';', m) == Fail(CalculationFailed(DivisionByZero))
            && Loses(Calculator(), ';', m)
  {
    hide Run, Input, Plug, Proper, BreakLoop, Calculator, LosesLoop;
    var m5 := Looping(5, Stacks([1, 0], [Brace, Number, Div, Number, Brace], 2, 1));
    TypesQuotient("<1/0(;");
    Structures(Moved(m5, 1));
    BreaksUndefined(Moved(m5, 1));
    assert LosesLoop(Calculator(), Moved(m5, 1)) by { LosesUndefined(Moved(m5, 1)); }
  }

  lemma LosesUndefined(m: Machine<bool>)
    requires m.es == Stacks([1, 0], [Brace, Number, Div, Number, Brace], 2, 1)
    requires |m.loops| == 1 && m.loops[0].braceLevel == 0
    ensures LosesLoop(Calculator(), m)
  {
    hide BreakLoop, PopNumCalc;
    BreaksUndefined(m);
  }

  /** The machine after `<1/0(`. */
  lemma TypesQuotient(text: string)
    requires |text| == 6 && text[0] == '<' && text[1] == '1' && text[2] == '/' && text[3] == '0' && text[4] == '('
    ensures Run(Calculator(), text, Started(), 5)
         == Go(Looping(5, Stacks([1, 0], [Brace, Number, Div, Number, Brace], 2, 1)))
  {
    hide Run, Input, Plug, Open, BraceOpen, Calculator, Undefined, Pending, IsBase, Calculate;
    var b := Open(NOTHING);
    StartsPending(text, '/');
    var m3, m4 := Looping(3, Plug(b, Pending(Div))), Looping(4, Plug(b, Undefined()));
    assert Input(Calculator(), '0', Moved(m3, 1)) == Go(m4) by { TypesDivisor(Moved(m3, 1), b); }
    Advance(Calculator(), text, Started(), 3, m3, '0', m4);
    OpensUndefined();
    Structures(Moved(m4, 1));
    Advance(Calculator(), text, Started(), 4, m4, '(', Looping(5, Stacks([1, 0], [Brace, Number, Div, Number, Brace],
        2, 1)));
  }

  lemma TypesDivisor(m: Machine<bool>, b: Stacks)
    requires m.mode == Normal && !m.conditional && m.es == Plug(b, Pending(Div)) && b == Open(NOTHING) && !m.data
    ensures Input(Calculator(), '0', m) == Go(m.(es := Plug(b, Undefined())))
  {
    hide Input, Plug, Open, Calculator, Calculate, Proper, IsBase;
    ProperNothing();
    TypesOperator(Div);
    TypesUndefined();
    TypesZero();
    Types('0', m, b, Pending(Div), Undefined());
  }

  lemma TypesZero()
    ensures Calculate('0', Pending(Div), false) == Executed(Undefined(), false)
  {
    hide AppendDigit;
    TypesUndefined();
  }

  lemma OpensUndefined()
    ensures var s := Plug(Open(NOTHING), Undefined());
            && s.numSign == 1
            && BraceOpen(s) == Stacks([1, 0], [Brace, Number, Div, Number, Brace], 2, 1)
            && BraceOpen(s) == Plug(Open(s), NOTHING)
            && Open(s) == Base(Open(Plug(NOTHING, NOTHING)), [Undefined()])
  {
    var s := Plug(Open(NOTHING), Undefined());
    assert [Brace] + [Number, Div, Number] == [Brace, Number, Div, Number];
    assert [Brace, Number, Div, Number] + [Brace] == [Brace, Number, Div, Number, Brace];
    assert StripNew(s.operators) == s.operators;
    PlugEmpty(Open(s), 1);
    PlugEmpty(NOTHING, 1);
    var u := [Undefined()];
    assert Last(u) == Undefined() && Front(u) == [] && Base(Open(NOTHING), []) == Open(NOTHING);
  }

  lemma BreaksUndefined(m: Machine<bool>)
    requires m.es == Stacks([1, 0], [Brace, Number, Div, Number, Brace], 2, 1)
    requires |m.loops| == 1 && m.loops[0].braceLevel == 0
    ensures BreakLoop(Calculator(), m) == Fail(CalculationFailed(DivisionByZero)) && PopNumCalc(m.es).err == NoError
  {
    hide PopNumCalc, PopNumCalcValue, DiscardArgs, Unwind, LeaveBraces, BraceReturn, Base, Open, Plug, Proper, Hangs,
         BraceOpen,
         Undefined, IsBase;
    var u, s := [Undefined()], Plug(Open(NOTHING), Undefined());
    OpensUndefined();
    TypesUndefined();
    ProperNothing();
    UnwindsUndefined();
    assert IsBase(Open(s)) by { OpenIsBase(s); }
    PopNumCalcPlug(Open(s), NOTHING, 0);
    DiscardArgsPlug(Open(s), NOTHING);
    assert AllProper(u);
    UnwindLeaves(NOTHING, NOTHING, u, NOTHING);
    MacroSimulation.ReturnNothing(0, m.es);
  }
}
