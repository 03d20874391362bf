/**
 * The two expression stacks as they are updated in place. Every update emits the undo token
 * that reverts it; running the tokens last-in-first-out restores the stacks.
 */
module ExpressionStack {
  import opened Sequences
  import opened Rewinding
  import opened Words
  import opened ExpressionSpec
  import opened ArithmeticLaws

  datatype Token =
    | RemoveNumber(index: nat)
    | InsertNumber(index: nat, number: Word)
    | RemoveOperator(index: nat)
    | InsertOperator(index: nat, op: Op)
    | RestoreBraceLevel(level: nat)
    | RestoreNumSign(sign: int)
    | RestoreStacks(s: Stacks)  // stands for the tokens of an ordinary command

  /** Runs one token. Removing or inserting beyond the end has no effect. */
  function RunToken(t: Token, s: Stacks): Stacks {
    match t
    case RemoveNumber(i) => if i < |s.numbers| then s.(numbers := RemoveAt(s.numbers, i)) else s
    case InsertNumber(i, n) => if i <= |s.numbers| then s.(numbers := InsertAt(s.numbers, i, n)) else s
    case RemoveOperator(i) => if i < |s.operators| then s.(operators := RemoveAt(s.operators, i)) else s
    case InsertOperator(i, op) => if i <= |s.operators| then s.(operators := InsertAt(s.operators, i, op)) else s
    case RestoreBraceLevel(n) => s.(braceLevel := n)
    case RestoreNumSign(n) => s.(numSign := n)
    case RestoreStacks(s0) => s0
  }

  predicate SetsLevel(t: Token) {
    t.RestoreBraceLevel? || t.RestoreStacks?
  }

  /** No token emitted since `l0` restores the brace level. */
  predicate LevelFree(l0: seq<Token>, l1: seq<Token>) {
    |l0| <= |l1| && forall i :: |l0| <= i < |l1| ==> !SetsLevel(l1[i])
  }

  /** The tokens emitted since `l0` revert everything and leave the brace level alone. */
  ghost predicate Quiet(l0: seq<Token>, s0: Stacks, l1: seq<Token>, s1: Stacks) {
    Undoes(RunToken, l0, s0, l1, s1) && LevelFree(l0, l1)
  }

  lemma QuietRefl(l: seq<Token>, s: Stacks)
    ensures Quiet(l, s, l, s)
  {
    assert l[|l|..] == [];
  }

  lemma QuietTrans(l0: seq<Token>, s0: Stacks, l1: seq<Token>, s1: Stacks, l2: seq<Token>, s2: Stacks)
    requires Quiet(l0, s0, l1, s1) && Quiet(l1, s1, l2, s2)
    ensures Quiet(l0, s0, l2, s2)
  {
    UndoesTrans(RunToken, l0, s0, l1, s1, l2, s2);
    forall i | |l0| <= i < |l1|
      ensures l2[i] == l1[i]
    {
      assert l2[i] == l2[..|l1|][i];
    }
  }

  lemma QuietOne(l: seq<Token>, s: Stacks, t: Token, s': Stacks)
    requires RunToken(t, s') == s && !SetsLevel(t)
    ensures Quiet(l, s, l + [t], s')
  {
    UndoesOne(RunToken, l, s, t, s');
  }

  lemma QuietUndoes(l0: seq<Token>, s0: Stacks, l1: seq<Token>, s1: Stacks)
    requires Quiet(l0, s0, l1, s1)
    ensures Undoes(RunToken, l0, s0, l1, s1)
  {
  }

  lemma {:induction false} RewindAtLevel(ts: seq<Token>, s: Stacks, k: nat)
    requires forall i :: 0 <= i < |ts| ==> !SetsLevel(ts[i])
    ensures Rewind(RunToken, ts, s.(braceLevel := k)) == Rewind(RunToken, ts, s).(braceLevel := k)
  {
    if ts != [] {
      RewindAtLevel(Front(ts), RunToken(Last(ts), s), k);
    }
  }

  lemma QuietAtLevel(l0: seq<Token>, s0: Stacks, l1: seq<Token>, s1: Stacks, k: nat)
    requires Quiet(l0, s0, l1, s1)
    ensures Quiet(l0, s0.(braceLevel := k), l1, s1.(braceLevel := k))
  {
    RewindAtLevel(l1[|l0|..], s1, k);
  }

  lemma RemoveInserts<T>(xs: seq<T>, i: nat)
    requires i < |xs|
    ensures InsertAt(RemoveAt(xs, i), i, xs[i]) == xs
  {
  }

  lemma AppendRemoves<T>(xs: seq<T>, x: T)
    ensures RemoveAt(xs + [x], |xs|) == xs
  {
  }

  lemma MulAssoc(x: int, y: int, z: int)
    ensures x * y * z == x * (y * z)
  {
  }

  /** Intermediate wrapping of the base does not change a wrapped power. */
  lemma {:induction false} WrapPower(x: int, e: nat, k: int)
    ensures Wrap(Power(Wrap(x), e) * k) == Wrap(Power(x, e) * k)
  {
    hide Wrap;
    if e > 0 {
      var p, q := Power(Wrap(x), e - 1), Power(x, e - 1);
      calc {
        Wrap(Wrap(x) * p * k);
        { MulAssoc(Wrap(x), p, k); }
        Wrap(Wrap(x) * (p * k));
        { WrapMul(x, p * k); }
        Wrap(x * (p * k));
        { assert x * (p * k) == p * (x * k) by { MulSwap(x, p, k); } }
        Wrap(p * (x * k));
        { WrapPower(x, e - 1, x * k); }
        Wrap(q * (x * k));
        { MulSwap(x, q, k); MulAssoc(x, q, k); }
        Wrap(x * q * k);
      }
    }
  }

  lemma MulSwap(x: int, y: int, z: int)
    ensures x * (y * z) == y * (x * z)
  {
  }

  lemma {:induction false} PowerSquare(x: int, e: nat)
    ensures Power(x, 2 * e) == Power(x * x, e)
  {
    if e > 0 {
      PowerSquare(x, e - 1);
      MulAssoc(x, x, Power(x, 2 * e - 2));
      assert Power(x, 2 * e) == x * Power(x, 2 * e - 1);
    }
  }

  /** What is left to compute while squaring. */
  function Remaining(result: Word, base: Word, e: nat): Word {
    Wrap(Power(base, e) * result)
  }

  lemma SquareEven(result: Word, base: Word, h: nat)
    ensures Remaining(result, Wrap(base * base), h) == Remaining(result, base, 2 * h)
  {
    hide Wrap;
    WrapPower(base * base, h, result);
    PowerSquare(base, h);
  }

  lemma SquareOdd(result: Word, base: Word, e: nat)
    ensures Remaining(Wrap(result * base), base, e) == Remaining(result, base, e + 1)
  {
    hide Wrap;
    var p := Power(base, e);
    calc {
      Wrap(p * Wrap(result * base));
      { assert p * Wrap(result * base) == Wrap(result * base) * p; }
      Wrap(Wrap(result * base) * p);
      { WrapMul(result * base, p); }
      Wrap(result * base * p);
      { assert result * base * p == base * p * result by { MulAssoc(base, p, result); MulAssoc(result, base, p); } }
      Wrap(base * p * result);
    }
  }

  /** Exponentiation by squaring. */
  method PowerBySquaring(l: Word, r: Word) returns (result: Word)
    requires r > 0
    ensures result == Wrap(Power(l, r))
  {
    hide Remaining, Wrap, Power;
    var vleft, vright := l, r;
    result := 1;
    RemainingStart(l, r);
    while true
      invariant vright > 0 && IsWord(result)
      invariant Remaining(result, vleft, vright) == Wrap(Power(l, r))
      decreases vright
    {
      ghost var before := result;
      if vright % 2 == 1 {
        SquareOdd(result, vleft, vright - 1);
        result := Wrap(result * vleft);
        assert Remaining(result, vleft, vright - 1) == Wrap(Power(l, r));
      }
      vright := vright / 2;
      SquareEven(result, vleft, vright);
      if vright == 0 {
        RemainingEnd(result, vleft);
        break;
      }
      vleft := Wrap(vleft * vleft);
    }
  }

  lemma RemainingStart(l: Word, r: nat)
    ensures Remaining(1, l, r) == Wrap(Power(l, r))
  {
  }

  lemma RemainingEnd(result: Word, base: Word)
    requires IsWord(result)
    ensures Remaining(result, base, 0) == result
  {
  }

  class Expressions {
    var numbers: seq<Word>
    var operators: seq<Op>
    var braceLevel: nat
    var numSign: int
    var log: seq<Token>

    function Now(): Stacks
      reads this
    {
      Stacks(numbers, operators, braceLevel, numSign)
    }

    constructor ()
      ensures Now() == Stacks([], [], 0, 1) && log == []
    {
      numbers, operators, braceLevel, numSign, log := [], [], 0, 1, [];
    }

    method PushOpMark(op: Op)
      modifies this
      ensures Now() == PushOp(old(Now()), op)
      ensures Quiet(old(log), old(Now()), log, Now())
    {
      AppendRemoves(operators, op);
      operators := operators + [op];
      log := log + [RemoveOperator(|operators| - 1)];
      QuietOne(old(log), old(Now()), RemoveOperator(|operators| - 1), Now());
    }

    method PopOpMark(index: nat) returns (op: Op)
      requires index < |operators|
      modifies this
      ensures op == PeekOp(old(operators), index)
      ensures Now() == PopOp(old(Now()), index)
      ensures Quiet(old(log), old(Now()), log, Now())
    {
      op := operators[|operators| - 1 - index];
      RemoveInserts(operators, |operators| - 1 - index);
      var t := InsertOperator(|operators| - 1 - index, op);
      log := log + [t];
      operators := RemoveAt(operators, |operators| - 1 - index);
      QuietOne(old(log), old(Now()), t, Now());
    }

    method SetNumSign(sign: int)
      modifies this
      ensures Now() == old(Now()).(numSign := sign)
      ensures Quiet(old(log), old(Now()), log, Now())
    {
      log := log + [RestoreNumSign(numSign)];
      numSign := sign;
      QuietOne(old(log), old(Now()), RestoreNumSign(old(numSign)), Now());
    }

    method PopSeparators()
      modifies this
      ensures Now() == old(Now()).(operators := StripNew(old(operators)))
      ensures Quiet(old(log), old(Now()), log, Now())
    {
      hide Undoes, LevelFree, Quiet;
      QuietRefl(log, Now());
      while |operators| > 0 && operators[|operators| - 1] == New
        invariant StripNew(operators) == StripNew(old(operators))
        invariant Now() == old(Now()).(operators := operators)
        invariant Quiet(old(log), old(Now()), log, Now())
      {
        ghost var l, s := log, Now();
        var _ := PopOpMark(0);
        assert operators == Front(s.operators);
        QuietTrans(old(log), old(Now()), l, s, log, Now());
      }
    }

    method PushNumber(number: Word)
      modifies this
      ensures Now() == PushInt(old(Now()), number)
      ensures Quiet(old(log), old(Now()), log, Now())
    {
      hide Undoes, LevelFree, Quiet, StripNew;
      PopSeparators();
      ghost var l1, s1 := log, Now();
      PushOpMark(Number);
      QuietTrans(old(log), old(Now()), l1, s1, log, Now());
      var n := number;
      if numSign < 0 {
        ghost var l2, s2 := log, Now();
        SetNumSign(1);
        QuietTrans(old(log), old(Now()), l2, s2, log, Now());
        n := Wrap(-n);
      }
      ghost var l3, s3 := log, Now();
      AppendRemoves(numbers, n);
      numbers := numbers + [n];
      log := log + [RemoveNumber(|numbers| - 1)];
      QuietOne(l3, s3, RemoveNumber(|numbers| - 1), Now());
      QuietTrans(old(log), old(Now()), l3, s3, log, Now());
    }

    method PopNumber() returns (n: Word)
      requires TopIs(Now(), Number)
      modifies this
      ensures n == TopNum(old(Now())) && Now() == PopNum(old(Now()))
      ensures Quiet(old(log), old(Now()), log, Now())
    {
      hide Undoes, LevelFree, Quiet;
      n := 0;
      var _ := PopOpMark(0);
      assert operators == Front(old(operators));
      if |numbers| > 0 {
        ghost var l, s := log, Now();
        n := numbers[|numbers| - 1];
        RemoveInserts(numbers, |numbers| - 1);
        var t := InsertNumber(|numbers| - 1, n);
        log := log + [t];
        numbers := RemoveAt(numbers, |numbers| - 1);
        assert numbers == Front(s.numbers);
        QuietOne(l, s, t, Now());
        QuietTrans(old(log), old(Now()), l, s, log, Now());
      }
    }

    method FirstOperator() returns (n: int)
      ensures n == FirstOp(operators)
    {
      var i := 0;
      assert operators[..|operators|] == operators;
      while i < |operators|
        invariant i <= |operators|
        invariant FirstOp(operators) ==
                  var m := FirstOp(operators[..|operators| - i]); if m < 0 then -1 else m + i
      {
        assert Front(operators[..|operators| - i]) == operators[..|operators| - (i + 1)];
        if !IsValueMark(operators[|operators| - 1 - i]) {
          return i;
        }
        i := i + 1;
      }
      return -1;
    }

    method ArgumentCount() returns (n: nat)
      ensures n == Args(operators)
    {
      n := 0;
      assert operators[..|operators|] == operators;
      while n < |operators| && operators[|operators| - 1 - n] == Number
        invariant n <= |operators|
        invariant Args(operators) == n + Args(operators[..|operators| - n])
      {
        assert Front(operators[..|operators| - n]) == operators[..|operators| - (n + 1)];
        n := n + 1;
      }
    }

    method Operate(op: Op, vleft: Word, vright: Word) returns (r: Result<Word>)
      ensures r == Arith(op, vleft, vright)
      ensures IsWord(vleft) && IsWord(vright) ==> Lawful(op, vleft, vright, r)
    {
      if IsWord(vleft) && IsWord(vright) {
        ArithLawful(op, vleft, vright);
      }
      if op == Pow && vright > 0 {
        var v := PowerBySquaring(vleft, vright);
        r := Ok(v);
      } else {
        r := Arith(op, vleft, vright);
      }
    }

    method Calculate() returns (err: Error)
      modifies this
      ensures Outcome(Now(), err) == Calc(old(Now()))
      ensures Quiet(old(log), old(Now()), log, Now())
    {
      hide Undoes, LevelFree, Quiet, Arith, StripNew;
      QuietRefl(log, Now());
      if |operators| == 0 || operators[|operators| - 1] != Number {
        return MissingRightOperand;
      }
      var vright := PopNumber();
      if |operators| == 0 {
        return MissingLeftOperand;
      }
      ghost var l1, s1 := log, Now();
      var op := PopOpMark(0);
      QuietTrans(old(log), old(Now()), l1, s1, log, Now());
      if |operators| == 0 || operators[|operators| - 1] != Number {
        return MissingLeftOperand;
      }
      ghost var l2, s2 := log, Now();
      var vleft := PopNumber();
      QuietTrans(old(log), old(Now()), l2, s2, log, Now());
      var r := Operate(op, vleft, vright);
      if r.Err? {
        return r.error;
      }
      ghost var l3, s3 := log, Now();
      PushNumber(r.value);
      QuietTrans(old(log), old(Now()), l3, s3, log, Now());
      err := NoError;
    }

    method PushOperator(op: Op) returns (err: Error)
      modifies this
      ensures Outcome(Now(), err) == PushCalc(op, old(Now()))
      ensures Quiet(old(log), old(Now()), log, Now())
    {
      hide Undoes, LevelFree, Quiet, Calc, FirstOp;
      QuietRefl(log, Now());
      var p := Precedence(op);
      while true
        invariant Reduce(p, Now()) == Reduce(p, old(Now()))
        invariant Quiet(old(log), old(Now()), log, Now())
        decreases |operators|
      {
        var first := FirstOperator();
        if first < 0 || p > Precedence(operators[|operators| - 1 - first]) {
          break;
        }
        ghost var l, s := log, Now();
        err := Calculate();
        QuietTrans(old(log), old(Now()), l, s, log, Now());
        if err != NoError {
          return;
        }
      }
      ghost var l, s := log, Now();
      PushOpMark(op);
      QuietTrans(old(log), old(Now()), l, s, log, Now());
      err := NoError;
    }

    method Evaluate(popBrace: bool) returns (err: Error)
      modifies this
      ensures Outcome(Now(), err) == Eval(popBrace, old(Now()))
      ensures Quiet(old(log), old(Now()), log, Now())
    {
      hide Undoes, LevelFree, Quiet, Calc, FirstOp;
      QuietRefl(log, Now());
      err := NoError;
      while true
        invariant err == NoError && Eval(popBrace, Now()) == Eval(popBrace, old(Now()))
        invariant Quiet(old(log), old(Now()), log, Now())
        decreases |operators|
      {
        var n := FirstOperator();
        if n < 0 {
          break;
        }
        ghost var l, s := log, Now();
        if operators[|operators| - 1 - n] == Brace {
          if popBrace {
            var _ := PopOpMark(n);
            QuietTrans(old(log), old(Now()), l, s, log, Now());
          }
          return;
        }
        if n < 1 {
          break;
        }
        err := Calculate();
        QuietTrans(old(log), old(Now()), l, s, log, Now());
        if err != NoError {
          return;
        }
      }
    }

    /** Pops an argument after resolving operators, or implies `imply` if there is none. */
    method PopArgument(imply: Word) returns (v: Word, err: Error)
      modifies this
      ensures Outcome(Now(), err) == PopNumCalc(old(Now()))
      ensures err == NoError ==> v == PopNumCalcValue(old(Now()), imply)
      ensures Quiet(old(log), old(Now()), log, Now())
    {
      hide Undoes, LevelFree, Quiet, Eval;
      v := imply;
      err := Evaluate(false);
      if err != NoError {
        return;
      }
      if numSign < 0 {
        ghost var l, s := log, Now();
        SetNumSign(1);
        QuietTrans(old(log), old(Now()), l, s, log, Now());
      }
      var n := ArgumentCount();
      if n > 0 {
        ghost var l, s := log, Now();
        v := PopNumber();
        QuietTrans(old(log), old(Now()), l, s, log, Now());
      }
    }

    method DiscardArguments() returns (err: Error)
      modifies this
      ensures Outcome(Now(), err) == DiscardArgs(old(Now()))
      ensures Quiet(old(log), old(Now()), log, Now())
    {
      hide Undoes, LevelFree, Quiet, Eval, PopNumCalc;
      err := Evaluate(false);
      if err != NoError {
        return;
      }
      var i := ArgumentCount();
      while i > 0
        invariant err == NoError && DiscardLoop(i, Now()) == DiscardArgs(old(Now()))
        invariant Quiet(old(log), old(Now()), log, Now())
      {
        ghost var l, s := log, Now();
        var _, e := PopArgument(0);
        err := e;
        QuietTrans(old(log), old(Now()), l, s, log, Now());
        if err != NoError {
          return;
        }
        i := i - 1;
      }
    }

    method OpenBrace()
      modifies this
      ensures Now() == BraceOpen(old(Now()))
      ensures Undoes(RunToken, old(log), old(Now()), log, Now())
    {
      hide Undoes, LevelFree, Quiet, StripNew;
      PopSeparators();
      ghost var l1, s1 := log, Now();
      PushOpMark(Brace);
      QuietTrans(old(log), old(Now()), l1, s1, log, Now());
      ghost var l2, s2 := log, Now();
      log := log + [RestoreBraceLevel(braceLevel)];
      braceLevel := braceLevel + 1;
      UndoesOne(RunToken, l2, s2, RestoreBraceLevel(s2.braceLevel), Now());
      QuietUndoes(old(log), old(Now()), l2, s2);
      UndoesTrans(RunToken, old(log), old(Now()), l2, s2, log, Now());
    }

    method CloseBrace() returns (err: Error)
      modifies this
      ensures Outcome(Now(), err) == BraceClose(old(Now()))
      ensures Undoes(RunToken, old(log), old(Now()), log, Now())
    {
      hide Undoes, LevelFree, Quiet, Eval;
      QuietRefl(log, Now());
      QuietUndoes(log, Now(), log, Now());
      if braceLevel == 0 {
        return MissingOpeningBrace;
      }
      log := log + [RestoreBraceLevel(braceLevel)];
      braceLevel := braceLevel - 1;
      ghost var l, s := log, Now();
      UndoesOne(RunToken, old(log), old(Now()), RestoreBraceLevel(old(braceLevel)), s);
      err := Evaluate(true);
      QuietUndoes(l, s, log, Now());
      UndoesTrans(RunToken, old(log), old(Now()), l, s, log, Now());
    }

    method PopNumbers(args: nat) returns (values: seq<Word>)
      requires args <= Args(operators)
      modifies this
      ensures Now() == PopNums(args, old(Now())) && values == TopNums(args, old(Now()))
      ensures Quiet(old(log), old(Now()), log, Now())
    {
      hide Undoes, LevelFree, Quiet;
      QuietRefl(log, Now());
      values := [];
      var i := args;
      while i > 0
        invariant 0 <= i <= args && i <= Args(operators)
        invariant PopNums(i, Now()) == PopNums(args, old(Now()))
        invariant TopNums(i, Now()) + values == TopNums(args, old(Now()))
        invariant Quiet(old(log), old(Now()), log, Now())
      {
        ghost var l, s := log, Now();
        var v := PopNumber();
        QuietTrans(old(log), old(Now()), l, s, log, Now());
        assert TopNums(i - 1, Now()) + ([v] + values) == TopNums(i - 1, Now()) + [v] + values;
        values := [v] + values;
        i := i - 1;
      }
    }

    method PushNumbers(values: seq<Word>)
      modifies this
      ensures Now() == PushInts(values, old(Now()))
      ensures Quiet(old(log), old(Now()), log, Now())
    {
      hide Undoes, LevelFree, Quiet, PushInt;
      QuietRefl(log, Now());
      var i := 0;
      while i < |values|
        invariant 0 <= i <= |values|
        invariant PushInts(values[i..], Now()) == PushInts(values, old(Now()))
        invariant Quiet(old(log), old(Now()), log, Now())
      {
        ghost var l, s := log, Now();
        assert values[i..][0] == values[i] && values[i..][1..] == values[i + 1..];
        PushNumber(values[i]);
        QuietTrans(old(log), old(Now()), l, s, log, Now());
        i := i + 1;
      }
    }

    /** Leaves all braces above `keep`. The level itself is not covered by any token here. */
    method DropBraces(keep: nat) returns (err: Error)
      modifies this
      ensures Outcome(Now(), err) == LeaveBraces(keep, old(Now()))
      ensures Quiet(old(log), old(Now()).(braceLevel := braceLevel), log, Now())
    {
      hide Undoes, LevelFree, Quiet, Eval, DiscardArgs;
      ghost var s0 := Now();
      QuietRefl(log, s0);
      err := NoError;
      while braceLevel > keep
        invariant err == NoError && LeaveBraces(keep, Now()) == LeaveBraces(keep, s0)
        invariant Quiet(old(log), s0.(braceLevel := braceLevel), log, Now())
        decreases braceLevel
      {
        ghost var l, s := log, Now();
        err := DiscardArguments();
        QuietTrans(old(log), s0.(braceLevel := braceLevel), l, s, log, Now());
        if err != NoError {
          return;
        }
        ghost var l', s' := log, Now();
        err := Evaluate(true);
        QuietTrans(old(log), s0.(braceLevel := braceLevel), l', s', log, Now());
        if err != NoError {
          return;
        }
        QuietAtLevel(old(log), s0.(braceLevel := braceLevel), log, Now(), braceLevel - 1);
        braceLevel := braceLevel - 1;
      }
    }

    /** Leaves all braces above `keep`; one token covers all changes of the level. */
    method ReturnFromBraces(keep: nat, args: nat) returns (err: Error)
      requires args <= Args(operators)
      modifies this
      ensures Outcome(Now(), err) == BraceReturn(keep, args, old(Now()))
      ensures Undoes(RunToken, old(log), old(Now()), log, Now())
    {
      hide Undoes, LevelFree, Quiet, PopNums, TopNums, LeaveBraces, PushInts;
      var values := PopNumbers(args);
      ghost var l1, s1 := log, Now();
      QuietUndoes(old(log), old(Now()), l1, s1);
      log := log + [RestoreBraceLevel(braceLevel)];
      ghost var l2 := log;
      err := DropBraces(keep);
      QuietUndoes(l2, s1.(braceLevel := braceLevel), log, Now());
      UndoesAnyLevel(old(log), old(Now()), l1, s1, l2, log, Now());
      if err != NoError {
        return;
      }
      ghost var l3, s3 := log, Now();
      PushNumbers(values);
      QuietUndoes(l3, s3, log, Now());
      UndoesTrans(RunToken, old(log), old(Now()), l3, s3, log, Now());
    }

    /** Lets an ordinary command put other values above the topmost brace. */
    method Replace(numbers: seq<Word>, operators: seq<Op>, numSign: int)
      modifies this
      ensures Now() == Stacks(numbers, operators, old(braceLevel), numSign)
      ensures Undoes(RunToken, old(log), old(Now()), log, Now())
    {
      log := log + [RestoreStacks(Now())];
      this.numbers, this.operators, this.numSign := numbers, operators, numSign;
      UndoesOne(RunToken, old(log), old(Now()), RestoreStacks(old(Now())), Now());
    }

    /** Reverts everything emitted after the first `mark` tokens. */
    method Rubout(mark: nat)
      requires mark <= |log|
      modifies this
      ensures log == old(log)[..mark]
      ensures Now() == Rewind(RunToken, old(log)[mark..], old(Now()))
    {
      while |log| > mark
        invariant mark <= |log| <= |old(log)| && log == old(log)[..|log|]
        invariant Rewind(RunToken, log[mark..], Now()) == Rewind(RunToken, old(log)[mark..], old(Now()))
      {
        var t := log[|log| - 1];
        assert Front(log[mark..]) == log[..|log| - 1][mark..] && Last(log[mark..]) == t;
        log := log[..|log| - 1];
        match t {
          case RemoveNumber(i) =>
            if i < |numbers| { numbers := RemoveAt(numbers, i); }
          case InsertNumber(i, n) =>
            if i <= |numbers| { numbers := InsertAt(numbers, i, n); }
          case RemoveOperator(i) =>
            if i < |operators| { operators := RemoveAt(operators, i); }
          case InsertOperator(i, op) =>
            if i <= |operators| { operators := InsertAt(operators, i, op); }
          case RestoreBraceLevel(n) => braceLevel := n;
          case RestoreNumSign(n) => numSign := n;
          case RestoreStacks(s) => numbers, operators, braceLevel, numSign := s.numbers, s.operators, s.braceLevel,
              s.numSign;
        }
      }
    }
  }

  /** A token for the brace level makes later changes of the level irrelevant. */
  lemma UndoesAnyLevel(l0: seq<Token>, s0: Stacks, l1: seq<Token>, s1: Stacks, l2: seq<Token>, l3: seq<Token>,
      s3: Stacks)
    requires l2 == l1 + [RestoreBraceLevel(s1.braceLevel)]
    requires Undoes(RunToken, l0, s0, l1, s1)
    requires Undoes(RunToken, l2, s1.(braceLevel := s3.braceLevel), l3, s3)
    ensures Undoes(RunToken, l0, s0, l3, s3)
  {
    hide Undoes;
    var mid := s1.(braceLevel := s3.braceLevel);
    UndoesOne(RunToken, l1, s1, RestoreBraceLevel(s1.braceLevel), mid);
    UndoesTrans(RunToken, l1, s1, l2, mid, l3, s3);
    UndoesTrans(RunToken, l0, s0, l1, s1, l3, s3);
  }
}
