/**
 * The shift-reduce evaluator computes the value that the infix grammar gives an expression:
 * operators of higher precedence bind tighter, and operators of one precedence associate left.
 */
module ExpressionGrammar {
  import opened Sequences
  import opened Words
  import opened ExpressionSpec

  /** An infix sentence as it is typed: operands joined by operators, from left to right. */
  datatype Operand = Literal(n: nat) | Parens(inner: Infix)
  datatype Infix = Single(first: Operand) | Chain(init: Infix, op: Op, last: Operand)

  datatype Tok = TNum(n: nat) | TOp(op: Op) | TOpen | TClose

  function Tokens(e: Infix): seq<Tok> {
    match e
    case Single(x) => OperandTokens(x)
    case Chain(init, op, x) => Tokens(init) + [TOp(op)] + OperandTokens(x)
  }

  function OperandTokens(x: Operand): seq<Tok> {
    match x
    case Literal(n) => [TNum(n)]
    case Parens(inner) => [TOpen] + Tokens(inner) + [TClose]
  }

  predicate IsBinary(op: Op) {
    Precedence(op) >= 1
  }

  /** Literals fit a word and every operator is one of the nine binary operators. */
  predicate Legal(e: Infix) {
    match e
    case Single(x) => LegalOperand(x)
    case Chain(init, op, x) => Legal(init) && IsBinary(op) && LegalOperand(x)
  }

  predicate LegalOperand(x: Operand) {
    match x
    case Literal(n) => n <= INT_MAX
    case Parens(inner) => Legal(inner)
  }

  /** The syntax tree of a sentence under the grammar's precedence and associativity. */
  datatype Tree = Leaf(n: nat) | Group(inner: Tree) | Bin(op: Op, left: Tree, right: Tree)

  const ATOM: nat := 7

  function Level(t: Tree): nat {
    if t.Bin? then Precedence(t.op) else ATOM
  }

  /** Left operands bind at least as tightly as the operator, right operands tighter. */
  predicate Grammatical(t: Tree) {
    match t
    case Leaf(n) => n <= INT_MAX
    case Group(inner) => Grammatical(inner)
    case Bin(op, l, r) =>
      && IsBinary(op)
      && Grammatical(l) && Level(l) >= Precedence(op)
      && Grammatical(r) && Level(r) > Precedence(op)
  }

  function Flatten(t: Tree): seq<Tok> {
    match t
    case Leaf(n) => [TNum(n)]
    case Group(inner) => [TOpen] + Flatten(inner) + [TClose]
    case Bin(op, l, r) => Flatten(l) + [TOp(op)] + Flatten(r)
  }

  /** The tree that extends `t` on the right by one operator and operand. */
  function Attach(t: Tree, op: Op, x: Tree): Tree {
    if t.Bin? && Precedence(t.op) < Precedence(op)
    then Bin(t.op, t.left, Attach(t.right, op, x))
    else Bin(op, t, x)
  }

  function TreeOf(e: Infix): Tree {
    match e
    case Single(x) => OperandTree(x)
    case Chain(init, op, x) => Attach(TreeOf(init), op, OperandTree(x))
  }

  function OperandTree(x: Operand): Tree {
    match x
    case Literal(n) => Leaf(n)
    case Parens(inner) => Group(TreeOf(inner))
  }

  lemma ConcatAssoc<T>(a: seq<T>, b: seq<T>, c: seq<T>, d: seq<T>)
    ensures a + (b + c + d) == a + b + c + d
  {
  }

  lemma {:induction false} AttachKeeps(t: Tree, op: Op, x: Tree)
    requires Grammatical(t) && IsBinary(op) && Grammatical(x) && Level(x) == ATOM
    ensures Grammatical(Attach(t, op, x))
    ensures Flatten(Attach(t, op, x)) == Flatten(t) + [TOp(op)] + Flatten(x)
    ensures Level(Attach(t, op, x)) == if Level(t) < Precedence(op) then Level(t) else Precedence(op)
  {
    if t.Bin? && Precedence(t.op) < Precedence(op) {
      AttachKeeps(t.right, op, x);
      ConcatAssoc(Flatten(t.left) + [TOp(t.op)], Flatten(t.right), [TOp(op)], Flatten(x));
    }
  }

  /** Every infix sentence has a grammatical tree, and the tree spells the sentence. */
  lemma {:induction false} TreeSpellsSentence(e: Infix)
    requires Legal(e)
    ensures Grammatical(TreeOf(e)) && Flatten(TreeOf(e)) == Tokens(e)
  {
    match e
    case Single(x) => OperandTreeSpells(x);
    case Chain(init, op, x) =>
      TreeSpellsSentence(init);
      OperandTreeSpells(x);
      AttachKeeps(TreeOf(init), op, OperandTree(x));
  }

  lemma {:induction false} OperandTreeSpells(x: Operand)
    requires LegalOperand(x)
    ensures Grammatical(OperandTree(x)) && Level(OperandTree(x)) == ATOM
    ensures Flatten(OperandTree(x)) == OperandTokens(x)
  {
    match x
    case Literal(_) =>
    case Parens(inner) => TreeSpellsSentence(inner);
  }

  /** The value of a tree, or the first undefined subterm met from left to right. */
  function Value(t: Tree): Result<Word>
    requires Grammatical(t)
  {
    match t
    case Leaf(n) => Ok(n)
    case Group(inner) => Value(inner)
    case Bin(op, l, r) =>
      var vl := Value(l);
      if vl.Err? then vl
      else
        var vr := Value(r);
        if vr.Err? then vr else Arith(op, vl.value, vr.value)
  }

  /** What one token does to the stacks. */
  function Shift(t: Tok, s: Stacks): Outcome {
    match t
    case TNum(n) => Outcome(PushInt(s, Wrap(n)), NoError)
    case TOp(op) => PushCalc(op, s)
    case TOpen => Outcome(BraceOpen(s), NoError)
    case TClose => BraceClose(s)
  }

  function Feed(ts: seq<Tok>, s: Stacks): Outcome {
    if ts == [] then Outcome(s, NoError)
    else
      var o := Shift(ts[0], s);
      if o.err != NoError then o else Feed(ts[1..], o.s)
  }

  lemma {:induction false} FeedConcat(a: seq<Tok>, b: seq<Tok>, s: Stacks)
    ensures Feed(a + b, s) ==
            var o := Feed(a, s); if o.err != NoError then o else Feed(b, o.s)
  {
    if a == [] {
      assert a + b == b;
    } else {
      assert (a + b)[0] == a[0] && (a + b)[1..] == a[1..] + b;
      var o := Shift(a[0], s);
      if o.err == NoError {
        FeedConcat(a[1..], b, o.s);
      }
    }
  }

  /** The topmost pending operator, if any, binds less tightly than `p`. */
  predicate Below(s: Stacks, p: nat) {
    var n := FirstOp(s.operators);
    n >= 0 ==> Precedence(PeekOp(s.operators, n)) < p
  }

  /** No value lies above a pending operator: the next token may start an operand. */
  predicate Ready(s: Stacks) {
    && s.numSign >= 0
    && var n := FirstOp(s.operators);
       n > 0 ==> PeekOp(s.operators, n) == Brace
  }

  lemma FirstOpAppend(ops: seq<Op>, op: Op)
    ensures FirstOp(ops + [op]) ==
            if !IsValueMark(op) then 0 else if FirstOp(ops) < 0 then -1 else FirstOp(ops) + 1
  {
    assert Front(ops + [op]) == ops;
  }

  lemma {:induction false} FirstOpStrip(ops: seq<Op>)
    ensures FirstOp(StripNew(ops)) < 0 <==> FirstOp(ops) < 0
    ensures FirstOp(ops) >= 0 ==>
              && FirstOp(StripNew(ops)) <= FirstOp(ops)
              && PeekOp(StripNew(ops), FirstOp(StripNew(ops))) == PeekOp(ops, FirstOp(ops))
  {
    if ops != [] && Last(ops) == New {
      FirstOpStrip(Front(ops));
    }
  }

  /** A pushed value leaves the topmost pending operator what it was. */
  lemma PushIntKeepsPending(s: Stacks, n: Word, p: nat)
    ensures Below(PushInt(s, n), p) <==> Below(s, p)
  {
    hide FirstOp, StripNew;
    FirstOpStrip(s.operators);
    FirstOpAppend(StripNew(s.operators), Number);
  }

  lemma StripOfTop(ops: seq<Op>, op: Op)
    requires op != New
    ensures StripNew(ops + [op]) == ops + [op]
  {
  }

  lemma CalcIgnoresLevel(s: Stacks, k: nat)
    ensures Calc(s.(braceLevel := k)) == Outcome(Calc(s).s.(braceLevel := k), Calc(s).err)
  {
    hide Arith, StripNew, Last, Front, RemoveAt, PeekOp;
  }

  /** Evaluation does not look at the brace level. */
  lemma {:induction false} EvalIgnoresLevel(b: bool, s: Stacks, k: nat)
    ensures var o := Eval(b, s);
            Eval(b, s.(braceLevel := k)) == Outcome(o.s.(braceLevel := k), o.err)
    decreases |s.operators|
  {
    hide Calc, FirstOp;
    var n := FirstOp(s.operators);
    if n >= 1 && PeekOp(s.operators, n) != Brace {
      var o := Calc(s);
      CalcIgnoresLevel(s, k);
      if o.err == NoError {
        EvalIgnoresLevel(b, o.s, k);
      }
    }
  }

  lemma CalcTop(s: Stacks)
    requires Calc(s).err == NoError
    ensures TopIs(Calc(s).s, Number)
  {
    hide Arith, StripNew;
  }

  /** An operator is pending above the topmost brace. */
  predicate Pending(s: Stacks) {
    var n := FirstOp(s.operators);
    n >= 0 && PeekOp(s.operators, n) != Brace
  }

  lemma EvalStep(s: Stacks)
    requires TopIs(s, Number)
    ensures Eval(false, s) ==
            if !Pending(s) then Outcome(s, NoError)
            else if Calc(s).err != NoError then Calc(s) else Eval(false, Calc(s).s)
  {
    assert FirstOp(s.operators) != 0;
  }

  lemma ReduceStep(s: Stacks)
    ensures Reduce(1, s) ==
            if !Pending(s) then Outcome(s, NoError)
            else if Calc(s).err != NoError then Calc(s) else Reduce(1, Calc(s).s)
  {
    var n := FirstOp(s.operators);
    if n >= 0 {
      assert 1 > Precedence(PeekOp(s.operators, n)) <==> PeekOp(s.operators, n) == Brace;
    }
  }

  /** Below a value, evaluation is reduction of everything that binds at all. */
  lemma {:induction false} EvalIsReduce(s: Stacks)
    requires TopIs(s, Number)
    ensures Eval(false, s) == Reduce(1, s)
    decreases |s.operators|
  {
    EvalStep(s);
    ReduceStep(s);
    var o := Calc(s);
    if Pending(s) && o.err == NoError {
      CalcTop(s);
      EvalIsReduce(o.s);
    }
  }

  /** Removing the brace is the last step of evaluating up to it. */
  lemma {:induction false} EvalPopsAfter(s: Stacks)
    ensures var o := Eval(false, s);
            Eval(true, s) == if o.err != NoError then o else Eval(true, o.s)
    decreases |s.operators|
  {
    var n := FirstOp(s.operators);
    if n >= 1 && PeekOp(s.operators, n) != Brace {
      var o := Calc(s);
      if o.err == NoError {
        EvalPopsAfter(o.s);
      }
    }
  }

  function Resolve(o: Outcome, p: nat): Outcome {
    if o.err != NoError then o else Reduce(p, o.s)
  }

  /** After reduction, the outcome `o` is that of pushing the value `v` onto `s`, or its error. */
  predicate Yields(o: Outcome, v: Result<Word>, s: Stacks, p: nat) {
    if v.Ok? then Resolve(o, p) == Reduce(p, PushInt(s, v.value)) else Resolve(o, p).err == v.error
  }

  lemma PushedValueStays(s: Stacks, v: Word, p: nat)
    requires Below(s, p)
    ensures Reduce(p, PushInt(s, v)) == Outcome(PushInt(s, v), NoError)
  {
    PushIntKeepsPending(s, v, p);
  }

  lemma OpenedIsReady(s: Stacks)
    requires s.numSign >= 0
    ensures Ready(BraceOpen(s)) && forall p :: p >= 1 ==> Below(BraceOpen(s), p)
  {
    FirstOpAppend(StripNew(s.operators), Brace);
  }

  /** Closing the brace around a resolved value leaves that value in the outer context. */
  lemma ClosePops(s: Stacks, v: Word)
    requires s.numSign >= 0
    ensures Eval(true, PushInt(BraceOpen(s), v)).err == NoError
    ensures Eval(true, PushInt(BraceOpen(s), v)).s.(braceLevel := s.braceLevel) == PushInt(s, v)
  {
    hide Calc, FirstOp, StripNew;
    var b := StripNew(s.operators) + [Brace];
    StripOfTop(StripNew(s.operators), Brace);
    FirstOpAppend(StripNew(s.operators), Brace);
    FirstOpAppend(b, Number);
    assert RemoveAt(b + [Number], |b| - 1) == StripNew(s.operators) + [Number];
  }

  /** Below a value, the closing brace resolves the operators above it and is removed. */
  lemma CloseReduces(s: Stacks)
    requires TopIs(s, Number) && s.braceLevel > 0
    ensures var o := Reduce(1, s);
            var o' := Eval(true, o.s);
            BraceClose(s) ==
            if o.err != NoError then Outcome(o.s.(braceLevel := s.braceLevel - 1), o.err)
            else Outcome(o'.s.(braceLevel := s.braceLevel - 1), o'.err)
  {
    hide Calc, Reduce, Eval, FirstOp;
    EvalIsReduce(s);
    EvalPopsAfter(s);
    EvalIgnoresLevel(true, s, s.braceLevel - 1);
  }

  /** A group is fed between opening and closing its brace. */
  lemma FeedGroup(inner: seq<Tok>, s: Stacks)
    ensures Feed([TOpen] + inner + [TClose], s) ==
            var o := Feed(inner, BraceOpen(s));
            if o.err != NoError then o else BraceClose(o.s)
  {
    var ts := [TOpen] + inner + [TClose];
    assert ts[0] == TOpen && ts[1..] == inner + [TClose];
    FeedConcat(inner, [TClose], BraceOpen(s));
    FeedOne(TClose, Feed(inner, BraceOpen(s)).s);
  }

  lemma FeedOne(t: Tok, s: Stacks)
    ensures Feed([t], s) == Shift(t, s)
  {
    assert [t][1..] == [];
    assert Feed([], Shift(t, s).s) == Outcome(Shift(t, s).s, NoError);
  }

  lemma FeedBin(l: seq<Tok>, op: Op, r: seq<Tok>, s: Stacks)
    ensures Feed(l + [TOp(op)] + r, s) ==
            var o := Resolve(Feed(l, s), Precedence(op));
            if o.err != NoError then o else Feed(r, PushOp(o.s, op))
  {
    FeedConcat(l + [TOp(op)], r, s);
    FeedConcat(l, [TOp(op)], s);
    FeedOne(TOp(op), Feed(l, s).s);
  }

  /** The stacks ended with a value, and every brace opened since `s` is closed. */
  predicate Complete(o: Outcome, s: Stacks) {
    o.err == NoError ==> TopIs(o.s, Number) && o.s.braceLevel == s.braceLevel
  }

  lemma CloseYields(fed: Outcome, v: Result<Word>, s: Stacks, p: nat)
    requires s.numSign >= 0 && Complete(fed, BraceOpen(s))
    requires Yields(fed, v, BraceOpen(s), 1) && (v.Err? ==> v.error != NoError)
    ensures var o := if fed.err != NoError then fed else BraceClose(fed.s);
            Yields(o, v, s, p) && Complete(o, s)
  {
    hide Calc, Reduce, Eval, FirstOp, StripNew;
    if fed.err == NoError {
      CloseReduces(fed.s);
      if v.Ok? {
        OpenedIsReady(s);
        PushedValueStays(BraceOpen(s), v.value, 1);
        ClosePops(s, v.value);
      }
    } else if v.Ok? {
      OpenedIsReady(s);
      PushedValueStays(BraceOpen(s), v.value, 1);
    }
  }

  lemma OperatorYields(fed: Outcome, op: Op, v: Word, s: Stacks)
    requires Below(s, Precedence(op)) && Yields(fed, Ok(v), s, Precedence(op))
    ensures Resolve(fed, Precedence(op)) == Outcome(PushInt(s, v), NoError)
  {
    PushedValueStays(s, v, Precedence(op));
  }

  lemma RightYields(fed: Outcome, op: Op, l: Word, r: Result<Word>, s: Stacks, p: nat)
    requires s.numSign >= 0 && IsBinary(op) && 1 <= p <= Precedence(op)
    requires Yields(fed, r, PushOp(PushInt(s, l), op), p)
    ensures Yields(fed, if r.Err? then r else Arith(op, l, r.value), s, p)
  {
    if r.Ok? {
      ReduceBinary(s, op, l, r.value, p);
    }
  }

  /** Two values around an operator reduce to the value of the operation. */
  lemma ReduceBinary(s: Stacks, op: Op, l: Word, r: Word, p: nat)
    requires s.numSign >= 0 && IsBinary(op) && p <= Precedence(op)
    ensures var o := Reduce(p, PushInt(PushOp(PushInt(s, l), op), r));
            var v := Arith(op, l, r);
            if v.Ok? then o == Reduce(p, PushInt(s, v.value)) else o.err == v.error
  {
    hide Calc, Arith, StripNew, FirstOp;
    var s1 := PushInt(s, l);
    var s2 := PushOp(s1, op);
    var s3 := PushInt(s2, r);
    StripOfTop(s1.operators, op);
    FirstOpAppend(s1.operators, op);
    FirstOpAppend(s2.operators, Number);
    assert FirstOp(s3.operators) == 1 && PeekOp(s3.operators, 1) == op;
    CalcBinary(s, op, l, r);
  }

  lemma CalcBinary(s: Stacks, op: Op, l: Word, r: Word)
    requires s.numSign >= 0 && IsBinary(op)
    ensures var o := Calc(PushInt(PushOp(PushInt(s, l), op), r));
            var v := Arith(op, l, r);
            if v.Ok? then o == Outcome(PushInt(s, v.value), NoError) else o.err == v.error
  {
    hide Arith, StripNew;
    var s1 := PushInt(s, l);
    var s2 := PushOp(s1, op);
    var s3 := PushInt(s2, r);
    StripOfTop(s1.operators, op);
    assert Front(s3.operators) == s2.operators && Front(s3.numbers) == s1.numbers;
    assert RemoveAt(s2.operators, |s2.operators| - 1) == s1.operators;
    assert Front(s1.operators) == StripNew(s.operators) && Front(s1.numbers) == s.numbers;
    StripIdempotent(s.operators);
  }

  lemma StripIdempotent(ops: seq<Op>)
    ensures StripNew(StripNew(ops)) == StripNew(ops)
  {
  }

  lemma PushedOpIsReady(s: Stacks, op: Op)
    requires s.numSign >= 0 && IsBinary(op)
    ensures Ready(PushOp(s, op)) && forall p :: p > Precedence(op) ==> Below(PushOp(s, op), p)
  {
    FirstOpAppend(s.operators, op);
  }

  lemma {:induction false} ErrorsAreErrors(t: Tree)
    requires Grammatical(t)
    ensures Value(t).Err? ==> Value(t).error != NoError
  {
    match t
    case Leaf(_) =>
    case Group(inner) => ErrorsAreErrors(inner);
    case Bin(_, l, r) => ErrorsAreErrors(l); ErrorsAreErrors(r);
  }

  lemma {:induction false} FeedComputes(t: Tree, s: Stacks, p: nat)
    requires Grammatical(t) && Ready(s) && Below(s, Level(t))
    requires 1 <= p <= Level(t)
    ensures Yields(Feed(Flatten(t), s), Value(t), s, p)
    ensures Complete(Feed(Flatten(t), s), s)
  {
    match t
    case Leaf(n) => FeedOne(TNum(n), s);
    case Group(inner) =>
      OpenedIsReady(s);
      FeedComputes(inner, BraceOpen(s), 1);
      ErrorsAreErrors(inner);
      FeedGroup(Flatten(inner), s);
      CloseYields(Feed(Flatten(inner), BraceOpen(s)), Value(inner), s, p);
    case Bin(op, l, r) =>
      FeedComputes(l, s, Precedence(op));
      ErrorsAreErrors(l);
      FeedBin(Flatten(l), op, Flatten(r), s);
      if Value(l).Ok? {
        var v := Value(l).value;
        OperatorYields(Feed(Flatten(l), s), op, v, s);
        var s2 := PushOp(PushInt(s, v), op);
        PushedOpIsReady(PushInt(s, v), op);
        FeedComputes(r, s2, p);
        RightYields(Feed(Flatten(r), s2), op, v, Value(r), s, p);
      }
  }

  /**
   * Typing a sentence and resolving it leaves the earlier stacks plus its value, or stops
   * with the error of the first undefined subterm.
   */
  lemma SentenceEvaluates(e: Infix, s: Stacks)
    requires Legal(e) && Ready(s)
    requires Below(s, 1)
    ensures Grammatical(TreeOf(e))
    ensures var fed := Feed(Tokens(e), s);
            var o := if fed.err != NoError then fed else Eval(false, fed.s);
            var v := Value(TreeOf(e));
            if v.Ok? then o == Outcome(PushInt(s, v.value), NoError) else o.err == v.error
  {
    TreeSpellsSentence(e);
    var t := TreeOf(e);
    FeedComputes(t, s, 1);
    var fed := Feed(Flatten(t), s);
    if fed.err == NoError {
      EvalIsReduce(fed.s);
    }
    if Value(t).Ok? {
      PushedValueStays(s, Value(t).value, 1);
    }
  }
}
