/** What the operations on the number and operator stacks do, as functions on the stacks. */
module ExpressionSpec {
  import opened Sequences
  import opened Words

  datatype Op =
    | New | Brace | Number
    | Pow | Mod | Div | Mul | Sub | Add | And | Xor | Or

  /** The enumeration value of an operator; its upper nibble is the precedence. */
  function Code(op: Op): nat {
    match op
    case New => 0x01
    case Brace => 0x02
    case Number => 0x03
    case Pow => 0x60
    case Mod => 0x50
    case Div => 0x51
    case Mul => 0x52
    case Sub => 0x40
    case Add => 0x41
    case And => 0x30
    case Xor => 0x20
    case Or => 0x10
  }

  function Precedence(op: Op): nat {
    Code(op) / 16
  }

  datatype Error =
    | NoError
    | MissingRightOperand
    | MissingLeftOperand
    | NegativePowerOfZero
    | DivisionByZero
    | RemainderOfDivisionByZero
    | MissingOpeningBrace
    | NotReached  // the assertion in the default branch of the operator switch

  datatype Result<T> = Ok(value: T) | Err(error: Error)

  /** Both stacks (the top is at the end), the brace level and the pending sign. */
  datatype Stacks = Stacks(numbers: seq<Word>, operators: seq<Op>, braceLevel: nat, numSign: int)

  /** The stacks after an operation, and the error that stopped it, if any. */
  datatype Outcome = Outcome(s: Stacks, err: Error)

  function TopIs(s: Stacks, op: Op): bool {
    s.operators != [] && Last(s.operators) == op
  }

  /** Drops the argument separators on top of the operator stack. */
  function StripNew(ops: seq<Op>): (r: seq<Op>)
    ensures |r| <= |ops|
  {
    if ops != [] && Last(ops) == New then StripNew(Front(ops)) else ops
  }

  function PushInt(s: Stacks, n: Word): Stacks {
    Stacks(s.numbers + [if s.numSign < 0 then Wrap(-n) else n],
           StripNew(s.operators) + [Number],
           s.braceLevel,
           if s.numSign < 0 then 1 else s.numSign)
  }

  function PushOp(s: Stacks, op: Op): Stacks {
    s.(operators := s.operators + [op])
  }

  function PopOp(s: Stacks, index: nat): Stacks
    requires index < |s.operators|
  {
    s.(operators := RemoveAt(s.operators, |s.operators| - 1 - index))
  }

  /** Pops the topmost number together with the mark on top of the operator stack. */
  function PopNum(s: Stacks): Stacks
    requires s.operators != []
  {
    var t := s.(operators := Front(s.operators));
    if s.numbers != [] then t.(numbers := Front(s.numbers)) else t
  }

  function TopNum(s: Stacks): Word {
    if s.numbers != [] then Last(s.numbers) else 0
  }

  /** The number of argument marks on top of the operator stack. */
  function Args(ops: seq<Op>): (n: nat)
    ensures n <= |ops|
  {
    if ops != [] && Last(ops) == Number then 1 + Args(Front(ops)) else 0
  }

  predicate IsValueMark(op: Op) {
    op == Number || op == New
  }

  /** The distance from the top to the topmost operator or brace, or -1. */
  function FirstOp(ops: seq<Op>): (n: int)
    ensures -1 <= n < |ops|
    ensures n >= 0 ==> !IsValueMark(ops[|ops| - 1 - n])
  {
    if ops == [] then -1
    else if !IsValueMark(Last(ops)) then 0
    else
      var n := FirstOp(Front(ops));
      if n < 0 then -1 else n + 1
  }

  function PeekOp(ops: seq<Op>, index: nat): Op
    requires index < |ops|
  {
    ops[|ops| - 1 - index]
  }

  function Power(base: int, e: nat): int {
    if e == 0 then 1 else base * Power(base, e - 1)
  }

  /** The value of one binary operation on words. */
  function Arith(op: Op, l: Word, r: Word): (v: Result<Word>)
    ensures v.Err? ==> v.error != NoError
  {
    match op
    case Pow =>
      if r == 0 then Ok(if l < 0 then -1 else 1)
      else if r < 0 then
        if l == 0 then Err(NegativePowerOfZero)
        else Ok(if Abs(l) == 1 then l else 0)
      else Ok(Wrap(Power(l, r)))
    case Mul => Ok(Wrap(l * r))
    case Div => if r == 0 then Err(DivisionByZero) else Ok(Wrap(TruncDiv(l, r)))
    case Mod => if r == 0 then Err(RemainderOfDivisionByZero) else Ok(Wrap(TruncMod(l, r)))
    case Add => Ok(Wrap(l + r))
    case Sub => Ok(Wrap(l - r))
    case And => Ok(BitAnd(l, r))
    case Xor => Ok(BitXor(l, r))
    case Or => Ok(BitOr(l, r))
    case _ => Err(NotReached)
  }

  /** Resolves the operator below the topmost number. Operands stay popped when it fails. */
  function Calc(s: Stacks): (o: Outcome)
    ensures |o.s.operators| <= |s.operators|
    ensures o.err == NoError ==> |o.s.operators| + 2 <= |s.operators|
    ensures o.s.braceLevel == s.braceLevel
  {
    if !TopIs(s, Number) then Outcome(s, MissingRightOperand)
    else
      var s1 := PopNum(s);
      if s1.operators == [] then Outcome(s1, MissingLeftOperand)
      else
        var s2 := PopOp(s1, 0);
        if !TopIs(s2, Number) then Outcome(s2, MissingLeftOperand)
        else
          var s3 := PopNum(s2);
          match Arith(PeekOp(s1.operators, 0), TopNum(s2), TopNum(s))
          case Err(e) => Outcome(s3, e)
          case Ok(v) => Outcome(PushInt(s3, v), NoError)
  }

  /** Resolves pending operators down to the first one of lower precedence than `p`. */
  function Reduce(p: nat, s: Stacks): (o: Outcome)
    ensures |o.s.operators| <= |s.operators|
    ensures o.s.braceLevel == s.braceLevel
    decreases |s.operators|
  {
    var first := FirstOp(s.operators);
    if first < 0 || p > Precedence(PeekOp(s.operators, first)) then Outcome(s, NoError)
    else
      var o := Calc(s);
      if o.err != NoError then o else Reduce(p, o.s)
  }

  function PushCalc(op: Op, s: Stacks): Outcome {
    var o := Reduce(Precedence(op), s);
    if o.err != NoError then o else Outcome(PushOp(o.s, op), NoError)
  }

  /** Resolves all operators above the topmost brace; `popBrace` also removes that brace. */
  function Eval(popBrace: bool, s: Stacks): (o: Outcome)
    ensures |o.s.operators| <= |s.operators|
    ensures o.s.braceLevel == s.braceLevel
    decreases |s.operators|
  {
    var n := FirstOp(s.operators);
    if n < 0 then Outcome(s, NoError)
    else if PeekOp(s.operators, n) == Brace then
      Outcome(if popBrace then PopOp(s, n) else s, NoError)
    else if n < 1 then Outcome(s, NoError)
    else
      var o := Calc(s);
      if o.err != NoError then o else Eval(popBrace, o.s)
  }

  /** Pops the topmost argument, or implies a value when there is none. */
  function PopNumCalc(s: Stacks): (o: Outcome)
    ensures |o.s.operators| <= |s.operators|
    ensures o.s.braceLevel == s.braceLevel
  {
    var o := Eval(false, s);
    if o.err != NoError then o
    else
      var t := if o.s.numSign < 0 then o.s.(numSign := 1) else o.s;
      Outcome(if Args(t.operators) > 0 then PopNum(t) else t, NoError)
  }

  function PopNumCalcValue(s: Stacks, imply: Word): Word {
    var o := Eval(false, s);
    if Args(o.s.operators) > 0 then TopNum(o.s) else imply
  }

  function DiscardLoop(i: nat, s: Stacks): (o: Outcome)
    ensures |o.s.operators| <= |s.operators|
    ensures o.s.braceLevel == s.braceLevel
  {
    if i == 0 then Outcome(s, NoError)
    else
      var o := PopNumCalc(s);
      if o.err != NoError then o else DiscardLoop(i - 1, o.s)
  }

  function DiscardArgs(s: Stacks): (o: Outcome)
    ensures |o.s.operators| <= |s.operators|
    ensures o.s.braceLevel == s.braceLevel
  {
    var o := Eval(false, s);
    if o.err != NoError then o else DiscardLoop(Args(o.s.operators), o.s)
  }

  function BraceOpen(s: Stacks): Stacks {
    s.(operators := StripNew(s.operators) + [Brace], braceLevel := s.braceLevel + 1)
  }

  function BraceClose(s: Stacks): Outcome {
    if s.braceLevel == 0 then Outcome(s, MissingOpeningBrace)
    else Eval(true, s.(braceLevel := s.braceLevel - 1))
  }

  function LeaveBraces(keep: nat, s: Stacks): (o: Outcome)
    decreases s.braceLevel
  {
    if s.braceLevel <= keep then Outcome(s, NoError)
    else
      var o := DiscardArgs(s);
      if o.err != NoError then o
      else
        var o' := Eval(true, o.s);
        if o'.err != NoError then o'
        else LeaveBraces(keep, o'.s.(braceLevel := o'.s.braceLevel - 1))
  }

  function PopNums(args: nat, s: Stacks): Stacks
    requires args <= Args(s.operators)
  {
    if args == 0 then s else PopNums(args - 1, PopNum(s))
  }

  function PushInts(ns: seq<Word>, s: Stacks): Stacks {
    if ns == [] then s else PushInts(ns[1..], PushInt(s, ns[0]))
  }

  /** The topmost `args` numbers, in stack order. */
  function TopNums(args: nat, s: Stacks): (ns: seq<Word>)
    requires args <= Args(s.operators)
    ensures |ns| == args
  {
    if args == 0 then [] else TopNums(args - 1, PopNum(s)) + [TopNum(s)]
  }

  /** Leaves all braces above level `keep`, carrying `args` resolved arguments out. */
  function BraceReturn(keep: nat, args: nat, s: Stacks): Outcome
    requires args <= Args(s.operators)
  {
    var o := LeaveBraces(keep, PopNums(args, s));
    if o.err != NoError then o else Outcome(PushInts(TopNums(args, s), o.s), NoError)
  }
}
