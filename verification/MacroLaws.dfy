/** What conditionals decide by the value on top of the stack, and how often loops run. */
module MacroLaws {
  import opened Words
  import opened ExpressionSpec
  import opened Frames
  import opened MacroMachine
  import opened StructuredMacros

  // Conditionals.

  const TYPES := {'~', 'A', 'a', 'C', 'c', 'D', 'd', 'E', 'e', '=', 'F', 'f', 'G', 'g', '>', 'I', 'i', 'L', 'l', '<',
                  'N', 'n', 'R', 'r', 'S', 's', 'T', 't', 'U', 'u', 'V', 'v', 'W', 'w'}

  /** A conditional of type `c` takes the topmost value, and runs or skips its branch. */
  ghost predicate Tests<D>(env: Env<D>, c: char, m: Machine<D>, holds: Word -> bool)
    requires var o := Eval(false, m.es); o.err == NoError && o.s.operators != []
  {
    var s := Eval(false, m.es).s;
    Conditional(env, c, m) ==
    Go(m.(es := PopNum(s), conditional := false, mode := if holds(TopNum(s)) then Normal else SkipCond))
  }

  lemma ConditionTested<D>(env: Env<D>, c: char, m: Machine<D>)
    requires m.mode == Normal && c != '~'
    requires var o := Eval(false, m.es); o.err == NoError && Args(o.s.operators) > 0
    ensures var s := Eval(false, m.es).s;
            var t := Test(env, c, TopNum(s));
            Conditional(env, c, m) ==
            if t.Err? then Fail(InvalidConditional)
            else Go(m.(es := PopNum(s), conditional := false, mode := if t.value then Normal else SkipCond))
  {
    hide Eval, PopNum, TopNum, Args, Test;
  }

  /** The type of a conditional says how the topmost value is compared. */
  lemma ComparisonIs<D>(env: Env<D>, c: char, m: Machine<D>)
    requires m.mode == Normal
    requires var o := Eval(false, m.es); o.err == NoError && Args(o.s.operators) > 0
    ensures c in {'G', 'g', '>'} ==> Tests(env, c, m, v => v > 0)
    ensures c in {'L', 'l', '<', 'S', 's', 'T', 't'} ==> Tests(env, c, m, v => v < 0)
    ensures c in {'F', 'f', 'U', 'u'} ==> Tests(env, c, m, v => v >= 0)
    ensures c in {'E', 'e', '='} ==> Tests(env, c, m, v => v == 0)
    ensures c in {'N', 'n'} ==> Tests(env, c, m, v => v != 0)
  {
    hide Eval, PopNum, TopNum, Args, Conditional;
    if c != '~' {
      ConditionTested(env, c, m);
    }
  }

  /** The types that ask what kind of character the topmost value is. */
  lemma ClassIs<D>(env: Env<D>, c: char, m: Machine<D>)
    requires m.mode == Normal
    requires var o := Eval(false, m.es); o.err == NoError && Args(o.s.operators) > 0
    ensures c in {'A', 'a'} ==> Tests(env, c, m, v => env.charClass(Alphabetic, v))
    ensures c in {'D', 'd'} ==> Tests(env, c, m, v => env.charClass(Digit, v))
    ensures c in {'R', 'r'} ==> Tests(env, c, m, v => env.charClass(Alphanumeric, v))
    ensures c in {'V', 'v'} ==> Tests(env, c, m, v => env.charClass(Lower, v))
    ensures c in {'W', 'w'} ==> Tests(env, c, m, v => env.charClass(Upper, v))
    ensures c in {'I', 'i'} ==> Tests(env, c, m, v => env.charClass(Separator, v))
    ensures c in {'C', 'c'} ==>
              Tests(env, c, m, v =>
                    env.charClass(Alphanumeric, v) || v == '.' as int || v == '$' as int || v == '_' as int)
  {
    hide Eval, PopNum, TopNum, Args, Conditional;
    if c != '~' {
      ConditionTested(env, c, m);
    }
  }

  /** There are no other types. */
  lemma OtherInvalid<D>(env: Env<D>, c: char, m: Machine<D>)
    requires m.mode == Normal && c !in TYPES
    requires var o := Eval(false, m.es); o.err == NoError && Args(o.s.operators) > 0
    ensures Conditional(env, c, m) == Fail(InvalidConditional)
  {
    hide Eval, PopNum, TopNum, Args, Conditional;
    var v := TopNum(Eval(false, m.es).s);
    assert Test(env, c, v).Err?;
    ConditionTested(env, c, m);
  }

  /** A conditional needs a stack that can be resolved, and an argument unless its type is `~`. */
  lemma ConditionRefused<D>(env: Env<D>, c: char, m: Machine<D>)
    requires m.mode == Normal
    ensures var o := Eval(false, m.es);
            && (o.err != NoError ==> Conditional(env, c, m) == Fail(CalculationFailed(o.err)))
            && (o.err == NoError && !TopIs(o.s, Number) && c != '~' ==>
                  Conditional(env, c, m) == Fail(ArgumentExpected))
  {
    hide Eval;
  }

  /** `"~` runs its branch exactly if there is no argument, and leaves the stacks resolved but otherwise alone. */
  lemma DefaultIs<D>(env: Env<D>, m: Machine<D>)
    requires m.mode == Normal && Eval(false, m.es).err == NoError
    ensures var s := Eval(false, m.es).s;
            Conditional(env, '~', m) ==
            Go(m.(es := s, conditional := false, mode := if TopIs(s, Number) then SkipCond else Normal))
  {
    hide Eval;
  }

  /** Types are invalid in code that is skipped exactly if they are in code that is run. */
  lemma TypesAre(c: char)
    ensures IsConditionType(c) <==> c in TYPES
  {
  }

  /** In code that is skipped, nothing is tested; only the nesting counts conditionals. */
  lemma SkippedIs<D>(env: Env<D>, c: char, m: Machine<D>)
    requires m.mode != Normal
    ensures Conditional(env, c, m) ==
            if c !in TYPES then Fail(InvalidConditional)
            else Go(m.(nest := if m.mode == SkipLoop then m.nest else m.nest + 1, conditional := false))
  {
    hide IsConditionType;
    TypesAre(c);
  }

  /** A conditional of a program runs the first branch exactly if the machine does. */
  lemma BranchTaken<D>(env: Env<D>, c: char, t: Prog, e: Prog, r: Prog, inLoop: bool, outer: seq<Stacks>,
                       m: Machine<D>, fuel: nat)
    requires m.mode == Normal && Conditional(env, c, m).Go?
    ensures var m' := Conditional(env, c, m).m;
            var x := Exec(env, if m'.mode == Normal then t else e, inLoop, outer, m'.es, m.data, fuel);
            Exec(env, CondElse(c, t, e, r), inLoop, outer, m.es, m.data, fuel) ==
            if Leaves(x) then x else Exec(env, r, inLoop, outer, x.frame, x.data, fuel)
  {
    hide Conditional, Decide;
    ConditionalDecides(env, c, m);
  }

  // Loops.

  function Times<D>(next: D -> D, n: nat, d: D): D {
    if n == 0 then d else Times(next, n - 1, next(d))
  }

  /** The command `c` changes the data only. */
  ghost predicate Counts<D(!new)>(env: Env<D>, c: char, next: D -> D, sign: int) {
    forall d :: env.command(c, EmptyFrame(sign), d) == Executed(EmptyFrame(sign), next(d))
  }

  lemma EmptyIteration<D>(last: bool, sign: int, d: D)
    ensures EndIteration(last, EmptyFrame(sign), d) == Fell(EmptyFrame(sign), d)
  {
    assert [] + EmptyFrame(sign).numbers == [] && [] + EmptyFrame(sign).operators == [];
  }

  lemma RunsOnce<D(!new)>(env: Env<D>, c: char, next: D -> D, sign: int, d: D, fuel: nat)
    requires Counts(env, c, next, sign)
    ensures Exec(env, Do(c, Done), true, [], EmptyFrame(sign), d, fuel) == Fell(EmptyFrame(sign), next(d))
  {
    assert env.command(c, EmptyFrame(sign), d) == Executed(EmptyFrame(sign), next(d));
    var x := RunCommand(env, c, EmptyFrame(sign), d);
    assert Exec(env, Done, true, [], x.frame, x.data, fuel) == x;
  }

  lemma {:induction false} IteratesTimes<D(!new)>(env: Env<D>, c: char, next: D -> D, sign: int, counter: Word, d: D,
                                                  fuel: nat)
    requires Counts(env, c, next, sign) && counter != 0
    ensures Iterate(env, Do(c, Done), counter, EmptyFrame(sign), d, fuel) ==
            if 0 < counter <= fuel then Fell(EmptyFrame(sign), Times(next, counter, d)) else Unfinished
    decreases fuel
  {
    hide Exec, EndIteration, Counts;
    if fuel > 0 {
      RunsOnce(env, c, next, sign, d, fuel);
      EmptyIteration(counter == 1, sign, next(d));
      if counter != 1 {
        IteratesTimes(env, c, next, sign, if counter > 0 then counter - 1 else counter, next(d), fuel - 1);
      } else {
        assert Times(next, 0, next(d)) == next(d);
      }
    }
  }

  /**
   * A loop with the argument `n` runs its command `n` times, 0 times for 0, and for ever for a
   * negative or missing argument.
   */
  lemma LoopRunsTimes<D(!new)>(env: Env<D>, c: char, next: D -> D, f: Stacks, d: D, fuel: nat)
    requires f.numSign >= 0 && FirstOp(f.operators) < 0 && Counts(env, c, next, f.numSign)
    ensures var p := Loop(Do(c, Done), Done);
            var n := if TopIs(f, Number) then TopNum(f) else -1;
            var x := Exec(env, p, false, [], f, d, fuel);
            && (n == 0 ==> x == Fell(PopNum(f), d))
            && (n < 0 || n > fuel ==> x.Unfinished?)
            && (0 < n <= fuel ==> x.Fell? && x.data == Times(next, n, d) && x.frame == Separated(PopNum(f)))
  {
    hide Iterate, FirstOp, StripNew;
    var n := if TopIs(f, Number) then TopNum(f) else -1;
    assert Eval(false, f) == Outcome(f, NoError);
    if n != 0 {
      var g := Separated(PopNumCalc(f).s);
      IteratesTimes(env, c, next, g.numSign, n, d, fuel);
      PlugEmpty(g, g.numSign);
    }
  }
}
