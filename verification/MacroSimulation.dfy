/**
 * The structured semantics describes the flat interpreter: wherever a structured run of a
 * program ends, the machine gets to by executing the program's text.
 */
module MacroSimulation {
  import opened Sequences
  import opened Words
  import opened ExpressionSpec
  import opened Frames
  import opened MacroMachine
  import opened StructuredMacros
  import opened BraceRemoval
  import opened MacroRefinement

  /**
   * Where a program runs: `outer` are the frames of the braces opened since the stacks `b`.
   * Inside a loop, `b` ends with the brace that the loop put over the frame `f0` on `b0`.
   */
  datatype Ctx = Ctx(inLoop: bool, b0: Stacks, f0: Stacks, b: Stacks, outer: seq<Stacks>)

  predicate ValidCtx(c: Ctx) {
    && IsBase(c.b)
    && AllProper(c.outer)
    && (c.inLoop ==> IsBase(c.b0) && Proper(c.f0) && c.b == Open(Plug(c.b0, c.f0)))
  }

  lemma BaseIsBase(c: Ctx)
    requires ValidCtx(c)
    ensures IsBase(Base(c.b, c.outer))
  {
  }

  /** The loop stack agrees with the structure around the program. */
  predicate LoopsMatch<D>(env: Env<D>, c: Ctx, loops: seq<LoopContext>) {
    if c.inLoop then |loops| > env.fp && Last(loops).braceLevel == c.b0.braceLevel
    else |loops| == env.fp
  }

  ghost predicate Starts<D>(env: Env<D>, m: Machine<D>, c: Ctx, f: Stacks, d: D) {
    && m.mode == Normal && m.nest == 0 && !m.conditional
    && m.es == Plug(Base(c.b, c.outer), f) && m.data == d && Proper(f)
    && ValidCtx(c) && LoopsMatch(env, c, m.loops)
  }

  /** The machine after the program fell through. */
  function Passed<D>(m: Machine<D>, len: nat, c: Ctx, f: Stacks, d: D): Machine<D> {
    m.(pc := m.pc + len, es := Plug(Base(c.b, c.outer), f), data := d)
  }

  /** The machine after a break, at the end of the program's text. */
  function Broken<D>(m: Machine<D>, len: nat, c: Ctx, f: Stacks, d: D): Machine<D>
    requires m.loops != []
  {
    m.(pc := m.pc + len, mode := SkipLoop, loops := Front(m.loops), es := Plug(c.b0, Plug(c.f0, f)), data := d)
  }

  /** The machine runs on, but has left a brace behind. */
  predicate LeftBrace<D>(r: Step<D>, b: Stacks) {
    r.Go? && Surplus(r.m.es) > Surplus(b)
  }

  /** The machine has not stopped. */
  predicate Busy<D>(text: string, r: Step<D>) {
    r.Go? && r.m.pc < |text|
  }

  /** `n` characters take the machine `m` over `len` characters of text to the exit `x`. */
  ghost predicate Ends<D>(env: Env<D>, text: string, m: Machine<D>, n: nat, len: nat, c: Ctx, x: Exit<D>) {
    match x
    case Fell(f, d) => Run(env, text, m, n) == Go(Passed(m, len, c, f, d)) && Proper(f)
    case Broke(f, d) => c.inLoop && m.loops != [] && Run(env, text, m, n) == Go(Broken(m, len, c, f, d)) && Proper(f)
    case Failed(e) => Run(env, text, m, n) == Fail(e)
    case Dangling => LeftBrace(Run(env, text, m, n), c.b)
    case Unfinished => Busy(text, Run(env, text, m, n))
  }

  lemma PassedStarts<D>(env: Env<D>, m: Machine<D>, len: nat, c: Ctx, f: Stacks, d: D, f': Stacks, d': D)
    requires Starts(env, m, c, f, d) && Proper(f')
    ensures Starts(env, Passed(m, len, c, f', d'), c, f', d')
  {
  }

  lemma PassedTwice<D>(m: Machine<D>, a: nat, b: nat, c: Ctx, f: Stacks, d: D, x: Exit<D>)
    requires x.Fell? || (x.Broke? && m.loops != [])
    ensures x.Fell? ==> Passed(Passed(m, a, c, f, d), b, c, x.frame, x.data) == Passed(m, a + b, c, x.frame, x.data)
    ensures x.Broke? ==> Broken(Passed(m, a, c, f, d), b, c, x.frame, x.data) == Broken(m, a + b, c, x.frame, x.data)
  {
  }

  lemma SeqFell<D>(env: Env<D>, text: string, m: Machine<D>, n1: nat, len1: nat, n2: nat, len2: nat,
                   c: Ctx, x: Exit<D>, y: Exit<D>)
    requires x.Fell? && Ends(env, text, m, n1, len1, c, x)
    requires Ends(env, text, Passed(m, len1, c, x.frame, x.data), n2, len2, c, y)
    ensures Ends(env, text, m, n1 + n2, len1 + len2, c, y)
  {
    hide Run, Passed, Broken;
    var m1 := Passed(m, len1, c, x.frame, x.data);
    assert m1.loops == m.loops by { PassedLoops(m, len1, c, x.frame, x.data); }
    Then(env, text, m, n1, m1, n2);
    if y.Fell? || y.Broke? {
      PassedTwice(m, len1, len2, c, x.frame, x.data, y);
    }
  }

  lemma PassedLoops<D>(m: Machine<D>, len: nat, c: Ctx, f: Stacks, d: D)
    ensures Passed(m, len, c, f, d).loops == m.loops
    ensures Passed(m, len, c, f, d).pc == m.pc + len
  {
  }

  lemma SeqBroke<D>(env: Env<D>, text: string, m: Machine<D>, n1: nat, len1: nat, p: Prog, c: Ctx, x: Exit<D>)
    requires x.Broke? && Ends(env, text, m, n1, len1, c, x)
    requires WellFormed(p) && At(text, m.pc + len1, Text(p))
    ensures Ends(env, text, m, n1 + |Text(p)|, len1 + |Text(p)|, c, x)
    requires !m.conditional
  {
    hide Run, At, WellFormed, Text;
    var m1 := Broken(m, len1, c, x.frame, x.data);
    Skip(env, p, text, m1);
    Then(env, text, m, n1, m1, |Text(p)|);
  }

  // What the single characters do.

  lemma StepDo<D>(env: Env<D>, text: string, m: Machine<D>, ch: char, c: Ctx, f: Stacks, d: D)
    requires Starts(env, m, c, f, d) && m.pc < |text| && text[m.pc] == ch && IsPlain(ch)
    ensures Ends(env, text, m, 1, 1, c, RunCommand(env, ch, f, d))
  {
    hide Run, Proper, Input, IsPlain, Base, Plug, TopFrame, BelowFrame, IsBase, ValidCtx, AllProper;
    RunOne(env, text, m);
    BaseIsBase(c);
    TopOfPlug(Base(c.b, c.outer), f);
    PlainInput(env, ch, Moved(m, 1));
  }

  lemma PlainInput<D>(env: Env<D>, ch: char, m: Machine<D>)
    requires m.mode == Normal && !m.conditional && IsPlain(ch)
    ensures Input(env, ch, m) == Command(env, ch, m)
  {
    hide Command;
  }

  lemma ReturnNothing(keep: nat, s: Stacks)
    ensures BraceReturn(keep, 0, s) == LeaveBraces(keep, s)
  {
    hide LeaveBraces;
    var o := LeaveBraces(keep, s);
    assert PopNums(0, s) == s && TopNums(0, s) == [] && PushInts([], o.s) == o.s;
  }

  /** What the command `;` does to the machine, by the frames above the loop's brace. */
  lemma BreakEnds<D>(env: Env<D>, m: Machine<D>, c: Ctx, f: Stacks, d: D)
    requires Starts(env, m, c, f, d)
    ensures var r := BreakLoop(env, m);
            match RunBreak(env, c.inLoop, c.outer, f, d)
            case Fell(g, e) => r == Go(Passed(m, 0, c, g, e)) && Proper(g)
            case Broke(g, e) => c.inLoop && m.loops != [] && r == Go(Broken(m, 0, c, g, e)) && Proper(g)
            case Failed(e) => r == Fail(e)
            case Dangling => LeftBrace(r, c.b)
            case Unfinished => false
  {
    hide Proper, PopNumCalc, PopNumCalcValue, DiscardArgs, Unwind, LeaveBraces, BraceReturn, Base, IsBase, Surplus,
         AllProper;
    BaseIsBase(c);
    var b := Base(c.b, c.outer);
    if c.inLoop {
      PopNumCalcPlug(b, f, env.search(d));
      var o := PopNumCalc(f);
      if o.err == NoError && PopNumCalcValue(f, env.search(d)) >= 0 {
        DiscardArgsPlug(b, o.s);
        var o1 := DiscardArgs(o.s);
        if o1.err == NoError {
          ReturnNothing(c.b0.braceLevel, Plug(b, o1.s));
          UnwindLeaves(c.b0, c.f0, c.outer, o1.s);
          LoopSurplus(c);
          var u := Unwind(c.outer, o1.s);
          if u.UnwindDangling? {
            PrefixProper(u.outer, c.outer);
            DanglingSurplus(c.b0, c.f0, u.outer, u.top);
          }
        }
      }
    }
  }

  lemma StepBreak<D>(env: Env<D>, text: string, m: Machine<D>, c: Ctx, f: Stacks, d: D)
    requires Starts(env, m, c, f, d) && m.pc < |text| && text[m.pc] == ';'
    ensures Ends(env, text, m, 1, 1, c, RunBreak(env, c.inLoop, c.outer, f, d))
  {
    hide Run, Proper, BreakLoop, RunBreak, Base, ValidCtx, Surplus;
    RunOne(env, text, m);
    assert Input(env, ';', Moved(m, 1)) == BreakLoop(env, Moved(m, 1));
    BreakEnds(env, Moved(m, 1), c, f, d);
  }

  /**
   * When a break loses its loop, by the frames opened since the loop began: its condition can
   * be popped and is fulfilled, and leaving these frames is blocked.
   */
  lemma LosesExact<D>(env: Env<D>, m: Machine<D>, c: Ctx, f: Stacks, d: D)
    requires Starts(env, m, c, f, d) && c.inLoop
    ensures LosesLoop(env, m) <==>
            PopNumCalc(f).err == NoError && PopNumCalcValue(f, env.search(d)) >= 0 && BreakBlocks(c.outer, f)
  {
    hide Proper, BreakLoop, RunBreak, Base, IsBase, Surplus, PopNumCalc, PopNumCalcValue, BreakBlocks, AllProper;
    BaseIsBase(c);
    PopNumCalcPlug(Base(c.b, c.outer), f, env.search(d));
    BreakEnds(env, m, c, f, d);
    RunBreakExact(env, c.outer, f, d);
  }

  /** Directly in its loop, where no brace was opened since, a break never loses the loop. */
  lemma DirectKeepsLoop<D>(env: Env<D>, m: Machine<D>, c: Ctx, f: Stacks, d: D)
    requires Starts(env, m, c, f, d) && (c.inLoop ==> c.outer == [])
    ensures !LosesLoop(env, m)
  {
    hide Proper, BreakLoop, Base, IsBase, PopNumCalc, PopNumCalcValue, BreakBlocks, AllProper;
    if c.inLoop {
      LosesExact(env, m, c, f, d);
      if PopNumCalc(f).err == NoError {
        DirectBreak(f);
      }
    }
  }

  lemma LoopSurplus(c: Ctx)
    requires ValidCtx(c) && c.inLoop
    ensures Surplus(c.b) == Surplus(c.b0)
  {
    hide Surplus, Proper;
    PlugSurplus(c.b0, c.f0);
    OpenSurplus(Plug(c.b0, c.f0));
  }

  /** A loop ends neither outside of its macro nor below a brace opened in it; a break needs a loop of its macro. */
  lemma LoopEndRefused<D>(env: Env<D>, m: Machine<D>, c: Ctx, f: Stacks, d: D)
    requires Starts(env, m, c, f, d)
    ensures !c.inLoop ==> LoopClose(env, m) == Fail(LoopEndWithoutStart) && BreakLoop(env, m) == Fail(BreakOutsideLoop)
    ensures c.inLoop && c.outer != [] ==> LoopClose(env, m) == Fail(BraceLeftOpen)
  {
    hide DiscardArgs, PopNumCalc, BraceClose, BraceReturn, Surplus, Proper;
    BaseSurplus(c.b, c.outer);
    if c.inLoop {
      assert c.b.braceLevel == c.b0.braceLevel + 1;
    }
  }

  /** Without an open brace, a closing bracket is an error. */
  lemma ParenCloseRefused<D>(m: Machine<D>)
    requires m.es.braceLevel == 0
    ensures ParenClose(m) == Fail(CalculationFailed(MissingOpeningBrace))
  {
  }

  lemma SignedBracePlug(b: Stacks, f: Stacks)
    requires IsBase(b) && Proper(f)
    ensures Framed(b, SignedBrace(f), SignedBrace(Plug(b, f)))
  {
    hide Eval, PushCalc, Proper, IsBase, PushInt;
    if f.numSign < 0 {
      ProperSign(f, 1);
      assert Plug(b, f).(numSign := 1) == Plug(b, f.(numSign := 1));
      EvalPlug(b, f.(numSign := 1));
      var o := Eval(false, f.(numSign := 1));
      if o.err == NoError {
        PushIntPlug(b, o.s, -1);
        PushCalcPlug(Mul, b, PushInt(o.s, -1));
      }
    }
  }

  lemma BraceOpenPlug(b: Stacks, f: Stacks)
    requires IsBase(b) && Proper(f)
    ensures BraceOpen(Plug(b, f)) == Plug(Open(Plug(b, Separated(f))), EmptyFrame(f.numSign))
    ensures Proper(Separated(f)) && Proper(EmptyFrame(f.numSign))
  {
    hide StripNew;
    StripPlug(b.operators, f.operators);
    ProperStrip(f);
    PlugEmpty(Open(Plug(b, Separated(f))), f.numSign);
  }

  /** The context inside a brace opened over the frame `g`. */
  function Inner(c: Ctx, g: Stacks): Ctx {
    c.(outer := c.outer + [g])
  }

  lemma InnerBase(c: Ctx, g: Stacks)
    ensures Base(c.b, Inner(c, g).outer) == Open(Plug(Base(c.b, c.outer), g))
  {
    assert Front(c.outer + [g]) == c.outer;
  }

  lemma InnerValid(c: Ctx, g: Stacks)
    requires ValidCtx(c) && Proper(g)
    ensures ValidCtx(Inner(c, g))
  {
  }

  lemma StepParenOpen<D>(env: Env<D>, text: string, m: Machine<D>, c: Ctx, f: Stacks, d: D)
    requires Starts(env, m, c, f, d) && m.pc < |text| && text[m.pc] == '('
    ensures var o := SignedBrace(f);
            if o.err != NoError then Run(env, text, m, 1) == Fail(CalculationFailed(o.err))
            else
              var g := Separated(o.s);
              var m1 := Passed(m, 1, Inner(c, g), EmptyFrame(g.numSign), d);
              Run(env, text, m, 1) == Go(m1) && Starts(env, m1, Inner(c, g), EmptyFrame(g.numSign), d) && Proper(g)
  {
    hide Run, Proper, SignedBrace, Base, IsBase, Separated, Open, EmptyFrame, Plug, BraceOpen, ValidCtx;
    RunOne(env, text, m);
    assert Input(env, '(', Moved(m, 1)) == ParenOpen(Moved(m, 1));
    BaseIsBase(c);
    var b := Base(c.b, c.outer);
    SignedBracePlug(b, f);
    var o := SignedBrace(f);
    if o.err == NoError {
      BraceOpenPlug(b, o.s);
      var g := Separated(o.s);
      assert g.numSign == o.s.numSign by { SeparatedSign(o.s); }
      InnerBase(c, g);
      InnerValid(c, g);
    }
  }

  lemma SeparatedSign(f: Stacks)
    ensures Separated(f).numSign == f.numSign
  {
  }

  lemma ContextSurplus(c: Ctx)
    requires ValidCtx(c)
    ensures Surplus(Base(c.b, c.outer)) == Surplus(c.b)
  {
    BaseSurplus(c.b, c.outer);
  }

  /** The closing brace, in the machine that opened it at `m` over the frame `g`. */
  lemma StepParenClose<D>(env: Env<D>, text: string, m: Machine<D>, n: nat, len: nat, c: Ctx, g: Stacks, x: Exit<D>)
    requires ValidCtx(c) && Proper(g) && m.mode == Normal && !m.conditional
    requires x.Fell? && Ends(env, text, m, n, len, Inner(c, g), x)
    requires m.pc + len < |text| && text[m.pc + len] == ')'
    ensures Ends(env, text, m, n + 1, len + 1, c, JoinBraces(g, x.frame, x.data))
  {
    hide Run, Proper, Eval, Hangs, Base, BraceClose, Plug, Open, ValidCtx, Surplus;
    var m1 := Passed(m, len, Inner(c, g), x.frame, x.data);
    Then(env, text, m, n, m1, 1);
    RunOne(env, text, m1);
    assert Input(env, ')', Moved(m1, 1)) == ParenClose(Moved(m1, 1));
    InnerBase(c, g);
    var b := Base(c.b, c.outer);
    CloseExact(Plug(b, g), x.frame);
    var o := Eval(false, x.frame);
    if Hangs(x.frame) {
      PlugSurplus(b, g);
      ContextSurplus(c);
    } else if o.err == NoError {
      PlugAssoc(b, g, o.s);
      ProperPlug(g, o.s);
    }
  }

  lemma StepIgnored<D>(env: Env<D>, text: string, m: Machine<D>, n: nat, len: nat, c: Ctx, x: Exit<D>, ch: char)
    requires x.Broke? && Ends(env, text, m, n, len, c, x) && !m.conditional
    requires m.pc + len < |text| && text[m.pc + len] == ch && ch in ")'|"
    ensures Ends(env, text, m, n + 1, len + 1, c, x)
  {
    hide Run, Proper, Plug;
    var m1 := Broken(m, len, c, x.frame, x.data);
    Then(env, text, m, n, m1, 1);
    RunOne(env, text, m1);
    assert Input(env, ch, Moved(m1, 1)) == Go(Moved(m1, 1));
  }

  lemma DecidePlug<D>(env: Env<D>, ch: char, b: Stacks, f: Stacks)
    requires IsBase(b) && Proper(f)
    ensures var q := Decide(env, ch, f);
            var r := Decide(env, ch, Plug(b, f));
            if q.Undecided? then r == q
            else r == Decided(Plug(b, q.frame), q.holds) && Proper(q.frame)
  {
    hide Eval, Test, Proper, PopNum, TopNum, Plug;
    EvalPlug(b, f);
    var o := Eval(false, f);
    if o.err == NoError {
      assert Args(Plug(b, o.s).operators) == Args(o.s.operators) by { PlugArgs(b, o.s); }
      if ch != '~' && Args(o.s.operators) > 0 {
        PopNumPlug(b, o.s);
      }
    }
  }

  lemma PlugArgs(b: Stacks, f: Stacks)
    requires IsBase(b)
    ensures Args(Plug(b, f).operators) == Args(f.operators)
  {
    ArgsPlug(b.operators, f.operators);
  }

  lemma StepCond<D>(env: Env<D>, text: string, m: Machine<D>, ch: char, c: Ctx, f: Stacks, d: D)
    requires Starts(env, m, c, f, d) && At(text, m.pc, ['"', ch])
    ensures var q := Decide(env, ch, f);
            if q.Undecided? then Run(env, text, m, 2) == Fail(q.fault)
            else Run(env, text, m, 2) ==
                   Go(Passed(m, 2, c, q.frame, d).(mode := if q.holds then Normal else SkipCond))
                 && Proper(q.frame)
  {
    hide Run, Decide, Proper, Base, Conditional, Plug, ValidCtx, LoopsMatch;
    assert text[m.pc..m.pc + 2][0] == '"' && text[m.pc..m.pc + 2][1] == ch;
    Start0(env, text, m);
    var m1 := Moved(m, 1).(conditional := true);
    Advance(env, text, m, 0, m, '"', m1);
    Then(env, text, m, 1, m1, 1);
    RunOne(env, text, m1);
    BaseIsBase(c);
    DecidePlug(env, ch, Base(c.b, c.outer), f);
    ConditionalDecides(env, ch, Moved(m1, 1));
    assert Input(env, ch, Moved(m1, 1)) == Conditional(env, ch, Moved(m1, 1));
  }

  /** The context of the body of a loop that starts over the frame `g`. */
  function Body(c: Ctx, g: Stacks): Ctx {
    Ctx(true, Base(c.b, c.outer), g, Open(Plug(Base(c.b, c.outer), g)), [])
  }

  lemma StepLoopOpen<D>(env: Env<D>, text: string, m: Machine<D>, c: Ctx, f: Stacks, d: D)
    requires Starts(env, m, c, f, d) && m.pc < |text| && text[m.pc] == '<'
    ensures var o := PopNumCalc(f);
            var counter := PopNumCalcValue(f, -1);
            if o.err != NoError then Run(env, text, m, 1) == Fail(CalculationFailed(o.err))
            else if counter == 0 then
              Run(env, text, m, 1) == Go(Passed(m, 1, c, o.s, d).(mode := SkipLoop)) && Proper(o.s)
            else
              var g := Separated(o.s);
              var l := LoopContext(counter, Base(c.b, c.outer).braceLevel, m.pc + 1);
              var m1 := Passed(m, 1, Body(c, g), EmptyFrame(g.numSign), d).(loops := m.loops + [l]);
              && Run(env, text, m, 1) == Go(m1)
              && Starts(env, m1, Body(c, g), EmptyFrame(g.numSign), d)
              && Proper(g)
  {
    hide Run, Proper, PopNumCalc, PopNumCalcValue, Base, IsBase, Separated, Open, EmptyFrame, BraceOpen;
    RunOne(env, text, m);
    assert Input(env, '<', Moved(m, 1)) == LoopOpen(Moved(m, 1));
    BaseIsBase(c);
    var b := Base(c.b, c.outer);
    PopNumCalcPlug(b, f, -1);
    var o := PopNumCalc(f);
    var counter := PopNumCalcValue(f, -1);
    if o.err == NoError && counter != 0 {
      BraceOpenPlug(b, o.s);
      var g := Separated(o.s);
      assert g.numSign == o.s.numSign by { SeparatedSign(o.s); }
      BodyBase(c, g);
      BodyValid(env, c, g, m.loops, LoopContext(counter, b.braceLevel, m.pc + 1));
    }
  }

  lemma BodyBase(c: Ctx, g: Stacks)
    ensures Base(Body(c, g).b, Body(c, g).outer) == Open(Plug(Base(c.b, c.outer), g))
  {
  }

  lemma BodyValid<D>(env: Env<D>, c: Ctx, g: Stacks, loops: seq<LoopContext>, l: LoopContext)
    requires ValidCtx(c) && Proper(g) && LoopsMatch(env, c, loops) && |loops| >= env.fp
    requires l.braceLevel == Base(c.b, c.outer).braceLevel
    ensures ValidCtx(Body(c, g)) && LoopsMatch(env, Body(c, g), loops + [l])
  {
    BaseIsBase(c);
  }

  /** The machine at a body's start, in the loop whose counter stands at `counter`. */
  ghost predicate InLoop<D>(env: Env<D>, m: Machine<D>, c: Ctx, counter: Word, f: Stacks, d: D) {
    && Starts(env, m, c, f, d) && c.inLoop && c.outer == [] && m.loops != []
    && Last(m.loops) == LoopContext(counter, c.b0.braceLevel, m.pc)
  }

  lemma EndIterationPlug(c: Stacks, f: Stacks)
    requires Proper(f)
    ensures var o := DiscardArgs(f);
            var o' := DiscardArgs(Plug(Open(c), f));
            && o'.err == o.err
            && (o.err == NoError ==> Proper(o.s) && o'.s == Plug(Open(c), o.s))
  {
    hide DiscardArgs;
    DiscardArgsPlug(Open(c), f);
  }

  /** The machine after the loop that was entered at `m`. */
  function LoopLeft<D>(m: Machine<D>, len: nat, c: Ctx, f: Stacks, d: D): Machine<D>
    requires m.loops != []
  {
    m.(pc := m.pc + len, loops := Front(m.loops), es := Plug(c.b0, Plug(c.f0, f)), data := d)
  }

  function Next(counter: Word): Word {
    if counter > 0 then counter - 1 else counter
  }

  /** The `>` that ends an iteration. */
  lemma StepLoopClose<D>(env: Env<D>, text: string, m: Machine<D>, n: nat, len: nat, c: Ctx, counter: Word,
                         f: Stacks, d: D, x: Exit<D>)
    requires InLoop(env, m, c, counter, f, d) && counter != 0
    requires x.Fell? && Ends(env, text, m, n, len, c, x)
    requires m.pc + len < |text| && text[m.pc + len] == '>'
    ensures var y := EndIteration(counter == 1, x.frame, x.data);
            && (y.Failed? ==> Run(env, text, m, n + 1) == Fail(y.fault))
            && (y.Dangling? ==> LeftBrace(Run(env, text, m, n + 1), c.b))
            && (y.Fell? && counter == 1 ==>
                  Run(env, text, m, n + 1) == Go(LoopLeft(m, len + 1, c, y.frame, y.data)) && Proper(y.frame))
            && (y.Fell? && counter != 1 ==>
                  var m' := Passed(m, 0, c, y.frame, y.data).(
                              loops := Front(m.loops) + [LoopContext(Next(counter), c.b0.braceLevel, m.pc)]);
                  && Run(env, text, m, n + 1) == Go(m')
                  && InLoop(env, m', c, Next(counter), y.frame, y.data))
  {
    hide Run, Proper, DiscardArgs, BraceClose, Open, Plug, JoinBraces, Surplus;
    var m1 := Passed(m, len, c, x.frame, x.data);
    Then(env, text, m, n, m1, 1);
    RunOne(env, text, m1);
    assert Input(env, '>', Moved(m1, 1)) == LoopClose(env, Moved(m1, 1));
    var cl := Plug(c.b0, c.f0);
    EndIterationPlug(cl, x.frame);
    assert m1.es.braceLevel == c.b0.braceLevel + 1 by { LoopLevel(c, x.frame); }
    var o := DiscardArgs(x.frame);
    if o.err == NoError {
      if counter == 1 {
        LastIteration(c, o.s, x.data);
        LoopSurplus(c);
        PlugSurplus(c.b0, c.f0);
      }
    }
  }

  lemma LoopLevel(c: Ctx, f: Stacks)
    requires ValidCtx(c) && c.inLoop && c.outer == []
    ensures Plug(Base(c.b, c.outer), f).braceLevel == c.b0.braceLevel + 1
  {
  }

  lemma LastIteration<D>(c: Ctx, f: Stacks, d: D)
    requires Proper(f) && Proper(c.f0)
    ensures var y := JoinBraces(EmptyFrame(0), f, d);
            var o := BraceClose(Plug(Open(Plug(c.b0, c.f0)), f));
            && (y.Failed? ==> o.err != NoError && y.fault == CalculationFailed(o.err))
            && (y.Dangling? ==> o.err == NoError && Surplus(o.s) == Surplus(Plug(c.b0, c.f0)) + 1)
            && (y.Fell? ==> o == Outcome(Plug(c.b0, Plug(c.f0, y.frame)), NoError) && Proper(y.frame) && y.data == d)
  {
    hide Eval, Hangs, Proper, BraceClose, Surplus;
    CloseExact(Plug(c.b0, c.f0), f);
    var o := Eval(false, f);
    if !Hangs(f) && o.err == NoError {
      PlugAssoc(c.b0, c.f0, o.s);
      assert o.s.braceLevel == 0 by { ProperLevel(o.s); }
      assert Plug(EmptyFrame(0), o.s) == o.s;
    }
  }

  lemma ProperLevel(f: Stacks)
    requires Proper(f)
    ensures f.braceLevel == 0
  {
  }

  /** The `>` that ends skipping after a break. */
  lemma StepLoopBroken<D>(env: Env<D>, text: string, m: Machine<D>, n: nat, len: nat, c: Ctx, x: Exit<D>)
    requires x.Broke? && Ends(env, text, m, n, len, c, x) && !m.conditional && m.nest == 0 && m.mode == Normal
    requires m.pc + len < |text| && text[m.pc + len] == '>'
    ensures Run(env, text, m, n + 1) == Go(LoopLeft(m, len + 1, c, x.frame, x.data))
  {
    hide Run, Proper, Plug;
    var m1 := Broken(m, len, c, x.frame, x.data);
    Then(env, text, m, n, m1, 1);
    RunOne(env, text, m1);
  }

  lemma BodySurplus(c: Ctx, g: Stacks)
    requires ValidCtx(c) && Proper(g)
    ensures Surplus(Body(c, g).b) == Surplus(c.b)
  {
    hide Surplus, Proper;
    ContextSurplus(c);
    PlugSurplus(Base(c.b, c.outer), g);
    OpenSurplus(Plug(Base(c.b, c.outer), g));
  }

  /** What a whole loop does, from the start of its body. */
  ghost predicate LoopEnds<D>(env: Env<D>, text: string, m: Machine<D>, n: nat, len: nat, c: Ctx, x: Exit<D>) {
    match x
    case Fell(f, d) => m.loops != [] && Run(env, text, m, n) == Go(LoopLeft(m, len, c, f, d)) && Proper(f)
    case Broke(_, _) => false
    case Failed(e) => Run(env, text, m, n) == Fail(e)
    case Dangling => LeftBrace(Run(env, text, m, n), c.b)
    case Unfinished => Busy(text, Run(env, text, m, n))
  }

  lemma {:induction false} SimulateLoop<D>(env: Env<D>, p: Prog, text: string, m: Machine<D>, c: Ctx, counter: Word,
                                           f: Stacks, d: D, fuel: nat) returns (n: nat)
    requires WellFormed(p) && counter != 0 && InLoop(env, m, c, counter, f, d)
    requires At(text, m.pc, Text(p) + ">")
    ensures LoopEnds(env, text, m, n, |Text(p)| + 1, c, Iterate(env, p, counter, f, d, fuel))
    ensures Iterate(env, p, counter, f, d, fuel).Unfinished? ==> n >= fuel
    decreases fuel, p, 2
  {
    hide Run, Exec, EndIteration, Proper, WellFormed, Text, Plug, LoopsMatch, ValidCtx, LoopLeft, Surplus, Base, Ends;
    n := 0;
    var len := |Text(p)|;
    AtSplit(text, m.pc, Text(p), ">");
    Start0(env, text, m);
    if fuel > 0 {
      assert text[m.pc + len..m.pc + len + 1][0] == '>';
      var n1 := Simulate(env, p, text, m, c, f, d, fuel);
      var x := Exec(env, p, true, [], f, d, fuel);
      n := n1;
      if x.Broke? {
        StepLoopBroken(env, text, m, n1, len, c, x);
        BrokenProper(env, text, m, n1, len, c, x);
        n := n1 + 1;
      } else if !x.Fell? {
        StoppedInLoop(env, text, m, n1, len, c, x, len + 1);
      } else {
        StepLoopClose(env, text, m, n1, len, c, counter, f, d, x);
        n := n1 + 1;
        var y := EndIteration(counter == 1, x.frame, x.data);
        if y.Fell? && counter != 1 {
          var m' := Passed(m, 0, c, y.frame, y.data).(
                      loops := Front(m.loops) + [LoopContext(Next(counter), c.b0.braceLevel, m.pc)]);
          var n2 := SimulateLoop(env, p, text, m', c, Next(counter), y.frame, y.data, fuel - 1);
          n := n1 + 1 + n2;
          assert LoopEnds(env, text, m, n, len + 1, c, Iterate(env, p, Next(counter), y.frame, y.data, fuel - 1)) by {
            LoopAgain(env, text, m, n1 + 1, m', n2, len + 1, c,
                      Iterate(env, p, Next(counter), y.frame, y.data, fuel - 1));
          }
        }
      }
    }
  }

  /** An exit from the body that is one from the loop. */
  lemma StoppedInLoop<D>(env: Env<D>, text: string, m: Machine<D>, n: nat, len: nat, c: Ctx, x: Exit<D>, size: nat)
    requires !x.Fell? && !x.Broke? && Ends(env, text, m, n, len, c, x)
    ensures LoopEnds(env, text, m, n, size, c, x)
  {
    hide Run, Surplus, Proper;
  }

  lemma BrokenProper<D>(env: Env<D>, text: string, m: Machine<D>, n: nat, len: nat, c: Ctx, x: Exit<D>)
    requires x.Broke? && Ends(env, text, m, n, len, c, x)
    ensures Proper(x.frame) && m.loops != []
  {
    hide Run, Proper;
  }

  /** A loop that goes on at `m'` after one iteration. */
  lemma LoopAgain<D>(env: Env<D>, text: string, m: Machine<D>, n1: nat, m': Machine<D>, n2: nat, len: nat, c: Ctx,
      x: Exit<D>)
    requires m.loops != [] && m'.loops != [] && Front(m'.loops) == Front(m.loops)
    requires m' == m.(loops := m'.loops, es := m'.es, data := m'.data)
    requires Run(env, text, m, n1) == Go(m') && LoopEnds(env, text, m', n2, len, c, x)
    ensures LoopEnds(env, text, m, n1 + n2, len, c, x)
  {
    hide Run, LoopLeft, Proper, Surplus;
    Then(env, text, m, n1, m', n2);
    if x.Fell? {
      LoopLeftAgain(m, m', len, c, x.frame, x.data);
    }
  }

  lemma LoopLeftAgain<D>(m: Machine<D>, m': Machine<D>, len: nat, c: Ctx, f: Stacks, d: D)
    requires m.loops != [] && m'.loops != [] && Front(m'.loops) == Front(m.loops)
    requires m' == m.(loops := m'.loops, es := m'.es, data := m'.data)
    ensures LoopLeft(m', len, c, f, d) == LoopLeft(m, len, c, f, d)
  {
  }

  /** Continues with the program `r` after a part that ended with `x`. */
  lemma {:induction false} Continue<D>(env: Env<D>, r: Prog, text: string, m: Machine<D>, n1: nat, len: nat, c: Ctx,
                                       f: Stacks, d: D, x: Exit<D>, fuel: nat) returns (n: nat)
    requires WellFormed(r) && Starts(env, m, c, f, d) && At(text, m.pc + len, Text(r))
    requires Ends(env, text, m, n1, len, c, x) && (x.Unfinished? ==> n1 >= fuel)
    ensures var y := if Leaves(x) then x else Exec(env, r, c.inLoop, c.outer, x.frame, x.data, fuel);
            Ends(env, text, m, n, len + |Text(r)|, c, y) && (y.Unfinished? ==> n >= fuel)
    decreases fuel, r, 3
  {
    hide Run, Exec, Proper, WellFormed, Text;
    n := n1;
    if x.Broke? {
      SeqBroke(env, text, m, n1, len, r, c, x);
      n := n1 + |Text(r)|;
    } else if x.Fell? {
      PassedStarts(env, m, len, c, f, d, x.frame, x.data);
      var n2 := Simulate(env, r, text, Passed(m, len, c, x.frame, x.data), c, x.frame, x.data, fuel);
      n := n1 + n2;
      SeqFell(env, text, m, n1, len, n2, |Text(r)|, c, x,
              Exec(env, r, c.inLoop, c.outer, x.frame, x.data, fuel));
    }
  }

  lemma RunZeroEnds<D>(env: Env<D>, text: string, m: Machine<D>, c: Ctx, f: Stacks, d: D)
    requires Starts(env, m, c, f, d)
    ensures Ends(env, text, m, 0, 0, c, Fell(f, d))
  {
    Start0(env, text, m);
    assert Passed(m, 0, c, f, d) == m;
  }

  /** Only an exit by falling through depends on the braces around the program. */
  lemma EndsOutside<D>(env: Env<D>, text: string, m: Machine<D>, n: nat, len: nat, c: Ctx, g: Stacks, x: Exit<D>)
    requires !x.Fell? && Ends(env, text, m, n, len, Inner(c, g), x)
    ensures Ends(env, text, m, n, len, c, x)
  {
    hide Run, Proper, Plug;
  }

  /** The definitions for a brace, one step. */
  lemma ParenParts<D>(env: Env<D>, b: Prog, r: Prog, c: Ctx, f: Stacks, d: D, fuel: nat)
    ensures var p := Paren(b, r);
            && Text(p) == "(" + (Text(b) + (")" + Text(r)))
            && (WellFormed(p) <==> WellFormed(b) && WellFormed(r))
            && Exec(env, p, c.inLoop, c.outer, f, d, fuel) ==
               var o := SignedBrace(f);
               if o.err != NoError then Failed(CalculationFailed(o.err))
               else
                 var g := Separated(o.s);
                 var x := Exec(env, b, c.inLoop, c.outer + [g], EmptyFrame(g.numSign), d, fuel);
                 if Leaves(x) then x
                 else
                   var y := JoinBraces(g, x.frame, x.data);
                   if Leaves(y) then y else Exec(env, r, c.inLoop, c.outer, y.frame, y.data, fuel)
  {
    hide SignedBrace, Separated, EmptyFrame, JoinBraces;
  }

  lemma {:induction false} SimulateParen<D>(env: Env<D>, p: Prog, b: Prog, r: Prog, text: string, m: Machine<D>, c: Ctx,
                                            f: Stacks, d: D, fuel: nat) returns (n: nat)
    requires p == Paren(b, r) && WellFormed(p) && Starts(env, m, c, f, d) && At(text, m.pc, Text(p))
    ensures Ends(env, text, m, n, |Text(p)|, c, Exec(env, p, c.inLoop, c.outer, f, d, fuel))
    ensures Exec(env, p, c.inLoop, c.outer, f, d, fuel).Unfinished? ==> n >= fuel
    decreases fuel, p, 0
  {
    hide Run, At, Ends, Starts, SignedBrace, Separated, EmptyFrame, JoinBraces, Text, WellFormed, Exec;
    ParenParts(env, b, r, c, f, d, fuel);
    BracketAt(text, m.pc, '(', Text(b), ')', Text(r));
    var n1, y := EnterParen(env, b, text, m, c, f, d, fuel);
    n := Continue(env, r, text, m, n1, 2 + |Text(b)|, c, f, d, y, fuel);
    if SignedBrace(f).err != NoError {
      FailedAnywhere(env, text, m, n, 2 + |Text(b)| + |Text(r)|, |Text(p)|, c, y);
    }
  }

  /** A brace up to and including its end. */
  lemma {:induction false} EnterParen<D>(env: Env<D>, b: Prog, text: string, m: Machine<D>, c: Ctx,
                                         f: Stacks, d: D, fuel: nat) returns (n: nat, y: Exit<D>)
    requires WellFormed(b) && Starts(env, m, c, f, d)
    requires m.pc < |text| && text[m.pc] == '(' && At(text, m.pc + 1, Text(b))
    requires m.pc + 1 + |Text(b)| < |text| && text[m.pc + 1 + |Text(b)|] == ')'
    ensures var o := SignedBrace(f);
            y == if o.err != NoError then Failed(CalculationFailed(o.err))
                 else
                   var g := Separated(o.s);
                   var x := Exec(env, b, c.inLoop, c.outer + [g], EmptyFrame(g.numSign), d, fuel);
                   if Leaves(x) then x else JoinBraces(g, x.frame, x.data)
    ensures Ends(env, text, m, n, 2 + |Text(b)|, c, y) && (y.Unfinished? ==> n >= fuel)
    decreases fuel, b, 3
  {
    hide Run, At, Proper, SignedBrace, Separated, EmptyFrame, JoinBraces, Passed, Base, ValidCtx, LoopsMatch, Plug,
         Exec, WellFormed, Text;
    StepParenOpen(env, text, m, c, f, d);
    var o := SignedBrace(f);
    if o.err != NoError {
      n, y := 1, Failed(CalculationFailed(o.err));
    } else {
      var g := Separated(o.s);
      var start := EmptyFrame(g.numSign);
      var x := Exec(env, b, c.inLoop, c.outer + [g], start, d, fuel);
      var n1 := SimulateInside(env, b, text, m, Inner(c, g), start, d, fuel);
      y := if Leaves(x) then x else JoinBraces(g, x.frame, x.data);
      n := LeaveParen(env, text, m, n1, 1 + |Text(b)|, c, g, f, d, x);
    }
  }

  /** Runs a program one character after `m`, in the context that this character established. */
  lemma {:induction false} SimulateInside<D>(env: Env<D>, b: Prog, text: string, m: Machine<D>, c: Ctx,
                                             f: Stacks, d: D, fuel: nat) returns (n: nat)
    requires WellFormed(b) && At(text, m.pc + 1, Text(b))
    requires Run(env, text, m, 1) == Go(Passed(m, 1, c, f, d)) && Starts(env, Passed(m, 1, c, f, d), c, f, d)
    ensures Ends(env, text, m, n, 1 + |Text(b)|, c, Exec(env, b, c.inLoop, c.outer, f, d, fuel))
    ensures Exec(env, b, c.inLoop, c.outer, f, d, fuel).Unfinished? ==> n >= fuel
    decreases fuel, b, 2
  {
    hide Run, At, Proper, WellFormed, Text, Exec;
    var n1 := Simulate(env, b, text, Passed(m, 1, c, f, d), c, f, d, fuel);
    SeqFell(env, text, m, 1, 1, n1, |Text(b)|, c, Fell(f, d), Exec(env, b, c.inLoop, c.outer, f, d, fuel));
    n := 1 + n1;
  }

  lemma LeaveParen<D>(env: Env<D>, text: string, m: Machine<D>, n1: nat, len: nat, c: Ctx, g: Stacks, f: Stacks, d: D,
                      x: Exit<D>) returns (n: nat)
    requires Starts(env, m, c, f, d) && Proper(g)
    requires Ends(env, text, m, n1, len, Inner(c, g), x)
    requires m.pc + len < |text| && text[m.pc + len] == ')'
    ensures Ends(env, text, m, n, len + 1, c, if Leaves(x) then x else JoinBraces(g, x.frame, x.data))
    ensures n >= n1
  {
    hide Run, Proper, JoinBraces;
    n := n1;
    if x.Fell? {
      StepParenClose(env, text, m, n1, len, c, g, x);
      n := n1 + 1;
    } else {
      if x.Broke? {
        StepIgnored(env, text, m, n1, len, Inner(c, g), x, ')');
        n := n1 + 1;
      }
      EndsOutside(env, text, m, n, len + 1, c, g, x);
    }
  }

  lemma {:induction false} SimulateWhole<D>(env: Env<D>, p: Prog, b: Prog, r: Prog, text: string, m: Machine<D>, c: Ctx,
                                            f: Stacks, d: D, fuel: nat) returns (n: nat)
    requires p == Loop(b, r) && WellFormed(p) && Starts(env, m, c, f, d) && At(text, m.pc, Text(p))
    ensures Ends(env, text, m, n, |Text(p)|, c, Exec(env, p, c.inLoop, c.outer, f, d, fuel))
    ensures Exec(env, p, c.inLoop, c.outer, f, d, fuel).Unfinished? ==> n >= fuel
    decreases fuel, p, 0
  {
    hide Run, At, Proper, PopNumCalc, PopNumCalcValue, Separated, EmptyFrame, Ends, Starts, Plug, Iterate;
    BracketAt(text, m.pc, '<', Text(b), '>', Text(r));
    var o := PopNumCalc(f);
    var counter := PopNumCalcValue(f, -1);
    var len := 2 + |Text(b)|;
    var n1, x := EnterLoop(env, b, text, m, c, f, d, fuel);
    if o.err != NoError {
      n := n1;
      FailedAnywhere(env, text, m, n, len, |Text(p)|, c, x);
    } else {
      n := Continue(env, r, text, m, n1, len, c, f, d, x, fuel);
    }
  }

  /** A loop command up to and including its end, whether or not its body is executed. */
  lemma {:induction false} EnterLoop<D>(env: Env<D>, b: Prog, text: string, m: Machine<D>, c: Ctx,
                                        f: Stacks, d: D, fuel: nat) returns (n: nat, x: Exit<D>)
    requires WellFormed(b) && Starts(env, m, c, f, d)
    requires m.pc < |text| && text[m.pc] == '<' && At(text, m.pc + 1, Text(b))
    requires m.pc + 1 + |Text(b)| < |text| && text[m.pc + 1 + |Text(b)|] == '>'
    ensures var o := PopNumCalc(f);
            var counter := PopNumCalcValue(f, -1);
            x == if o.err != NoError then Failed(CalculationFailed(o.err))
                 else if counter == 0 then Fell(o.s, d)
                 else
                   var g := Separated(o.s);
                   AfterLoop(g, Iterate(env, b, counter, EmptyFrame(g.numSign), d, fuel))
    ensures Ends(env, text, m, n, 2 + |Text(b)|, c, x) && (x.Unfinished? ==> n >= fuel)
    decreases fuel, b, 3
  {
    hide Run, At, Proper, PopNumCalc, PopNumCalcValue, Separated, EmptyFrame, Plug, Iterate, WellFormed, Text,
         AfterLoop;
    StepLoopOpen(env, text, m, c, f, d);
    var o := PopNumCalc(f);
    var counter := PopNumCalcValue(f, -1);
    if o.err != NoError {
      n, x := 1, Failed(CalculationFailed(o.err));
    } else if counter == 0 {
      SkipLoopBody(env, b, text, m, c, o.s, d);
      n, x := 2 + |Text(b)|, Fell(o.s, d);
    } else {
      var g := Separated(o.s);
      var l := LoopContext(counter, Base(c.b, c.outer).braceLevel, m.pc + 1);
      var m1 := Passed(m, 1, Body(c, g), EmptyFrame(g.numSign), d).(loops := m.loops + [l]);
      AtPrefix(text, m.pc + 1, Text(b), '>');
      var n1 := SimulateLoop(env, b, text, m1, Body(c, g), counter, EmptyFrame(g.numSign), d, fuel);
      var y := Iterate(env, b, counter, EmptyFrame(g.numSign), d, fuel);
      LeaveLoop(env, text, m, m1, n1, 1 + |Text(b)|, c, f, d, g, y);
      n, x := 1 + n1, AfterLoop(g, y);
    }
  }

  lemma BracketAt(text: string, pc: nat, open: char, b: string, close: char, r: string)
    requires At(text, pc, [open] + (b + ([close] + r)))
    ensures pc < |text| && text[pc] == open && At(text, pc + 1, b)
    ensures pc + 1 + |b| < |text| && text[pc + 1 + |b|] == close && At(text, pc + 2 + |b|, r)
  {
    hide At;
    AtChar(text, pc, open, b + ([close] + r));
    AtSplit(text, pc + 1, b, [close] + r);
    AtChar(text, pc + 1 + |b|, close, r);
  }

  function AfterLoop<D>(g: Stacks, x: Exit<D>): (y: Exit<D>)
    ensures y.Unfinished? <==> x.Unfinished?
  {
    if Leaves(x) then x else Fell(Plug(g, x.frame), x.data)
  }

  lemma AtPrefix(text: string, pc: nat, a: string, c: char)
    requires At(text, pc, a) && pc + |a| < |text| && text[pc + |a|] == c
    ensures At(text, pc, a + [c])
  {
    assert text[pc..pc + |a| + 1] == text[pc..pc + |a|] + [text[pc + |a|]];
  }

  lemma SkipLoopBody<D>(env: Env<D>, b: Prog, text: string, m: Machine<D>, c: Ctx, g: Stacks, d: D)
    requires WellFormed(b) && !m.conditional && m.mode == Normal && m.nest == 0 && Proper(g)
    requires Run(env, text, m, 1) == Go(Passed(m, 1, c, g, d).(mode := SkipLoop))
    requires At(text, m.pc + 1, Text(b))
    requires m.pc + 1 + |Text(b)| < |text| && text[m.pc + 1 + |Text(b)|] == '>'
    ensures Ends(env, text, m, 2 + |Text(b)|, 2 + |Text(b)|, c, Fell(g, d))
  {
    hide Run, At, Proper, WellFormed, Text;
    var m1 := Passed(m, 1, c, g, d).(mode := SkipLoop);
    Skip(env, b, text, m1);
    Then(env, text, m, 1, m1, |Text(b)|);
    Advance(env, text, m, 1 + |Text(b)|, Moved(m1, |Text(b)|), '>', Passed(m, 2 + |Text(b)|, c, g, d));
  }

  lemma LeaveLoop<D>(env: Env<D>, text: string, m: Machine<D>, m1: Machine<D>, n1: nat, len: nat, c: Ctx, f: Stacks,
      d: D,
                     g: Stacks, x: Exit<D>)
    requires Starts(env, m, c, f, d) && Proper(g)
    requires Run(env, text, m, 1) == Go(m1)
    requires m1 == m.(pc := m.pc + 1, es := m1.es, data := m1.data, loops := m1.loops)
    requires m1.loops != [] && Front(m1.loops) == m.loops
    requires LoopEnds(env, text, m1, n1, len, Body(c, g), x)
    ensures Ends(env, text, m, 1 + n1, len + 1, c, AfterLoop(g, x))
  {
    hide Run, Proper, Plug, Surplus, LoopsMatch;
    Then(env, text, m, 1, m1, n1);
    BodySurplus(c, g);
    if x.Fell? {
      assert Proper(Plug(g, x.frame)) by { ProperPlug(g, x.frame); }
    }
  }

  /** The quote that ends a conditional whose branch was executed. */
  lemma StepQuote<D>(env: Env<D>, text: string, m: Machine<D>, n: nat, len: nat, c: Ctx, x: Exit<D>)
    requires Ends(env, text, m, n, len, c, x) && !m.conditional && m.mode == Normal
    requires m.pc + len < |text| && text[m.pc + len] == '\''
    ensures Ends(env, text, m, if x.Fell? || x.Broke? then n + 1 else n, len + 1, c, x)
  {
    hide Run, Proper, Plug;
    if x.Broke? {
      StepIgnored(env, text, m, n, len, c, x, '\'');
    } else if x.Fell? {
      var m1 := Passed(m, len, c, x.frame, x.data);
      Advance(env, text, m, n, m1, '\'', Passed(m, len + 1, c, x.frame, x.data));
    }
  }

  lemma StepCondEnds<D>(env: Env<D>, text: string, m: Machine<D>, ch: char, c: Ctx, f: Stacks, d: D)
    requires Starts(env, m, c, f, d) && At(text, m.pc, ['"', ch])
    ensures var q := Decide(env, ch, f);
            if q.Undecided? then Ends(env, text, m, 2, 2, c, Failed(q.fault))
            else if q.holds then Ends(env, text, m, 2, 2, c, Fell(q.frame, d))
            else Proper(q.frame) &&
                 Run(env, text, m, 2) == Go(Passed(m, 2, c, q.frame, d).(mode := SkipCond))
  {
    hide Run, Proper, Decide, Plug, At;
    StepCond(env, text, m, ch, c, f, d);
  }

  /** A branch that is not taken is skipped up to the character that ends it. */
  lemma SkipBranch<D>(env: Env<D>, t: Prog, text: string, m: Machine<D>, n: nat, len: nat, c: Ctx, f: Stacks, d: D,
      ch: char)
    requires WellFormed(t) && !m.conditional && m.mode == Normal && m.nest == 0 && Proper(f)
    requires Run(env, text, m, n) == Go(Passed(m, len, c, f, d).(mode := SkipCond))
    requires At(text, m.pc + len, Text(t))
    requires m.pc + len + |Text(t)| < |text| && text[m.pc + len + |Text(t)|] == ch && ch in "'|"
    ensures Ends(env, text, m, n + |Text(t)| + 1, len + |Text(t)| + 1, c, Fell(f, d))
  {
    hide Run, At, Proper, WellFormed, Text, Plug;
    var m1 := Passed(m, len, c, f, d).(mode := SkipCond);
    Skip(env, t, text, m1);
    Then(env, text, m, n, m1, |Text(t)|);
    Advance(env, text, m, n + |Text(t)|, Moved(m1, |Text(t)|), ch, Passed(m, len + |Text(t)| + 1, c, f, d));
  }

  lemma {:induction false} SimulateCond<D>(env: Env<D>, p: Prog, ch: char, t: Prog, r: Prog, text: string,
      m: Machine<D>,
                                           c: Ctx, f: Stacks, d: D, fuel: nat) returns (n: nat)
    requires p == Cond(ch, t, r) && WellFormed(p) && Starts(env, m, c, f, d) && At(text, m.pc, Text(p))
    ensures Ends(env, text, m, n, |Text(p)|, c, Exec(env, p, c.inLoop, c.outer, f, d, fuel))
    ensures Exec(env, p, c.inLoop, c.outer, f, d, fuel).Unfinished? ==> n >= fuel
    decreases fuel, p, 0
  {
    hide Run, At, Proper, Decide, Ends, IsConditionType, Base, Plug, ValidCtx, LoopsMatch, Passed, Text, WellFormed,
         Exec;
    CondParts(env, ch, t, r, c, f, d, fuel);
    AtSplit(text, m.pc, ['"', ch], Text(t) + ("'" + Text(r)));
    AtSplit(text, m.pc + 2, Text(t), "'" + Text(r));
    AtChar(text, m.pc + 2 + |Text(t)|, '\'', Text(r));
    StepCondEnds(env, text, m, ch, c, f, d);
    var q := Decide(env, ch, f);
    var len := 3 + |Text(t)|;
    if q.Undecided? {
      n := 2;
      FailedAnywhere(env, text, m, 2, 2, |Text(p)|, c, Failed(q.fault));
    } else if q.holds {
      var n1 := Continue(env, t, text, m, 2, 2, c, f, d, Fell(q.frame, d), fuel);
      var x := Exec(env, t, c.inLoop, c.outer, q.frame, d, fuel);
      StepQuote(env, text, m, n1, len - 1, c, x);
      n := Continue(env, r, text, m, if x.Fell? || x.Broke? then n1 + 1 else n1, len, c, f, d, x, fuel);
    } else {
      SkipBranch(env, t, text, m, 2, 2, c, q.frame, d, '\'');
      n := Continue(env, r, text, m, len, len, c, f, d, Fell(q.frame, d), fuel);
    }
  }

  /** Where a run that failed would have ended does not matter. */
  lemma FailedAnywhere<D>(env: Env<D>, text: string, m: Machine<D>, n: nat, a: nat, b: nat, c: Ctx, x: Exit<D>)
    requires x.Failed? && Ends(env, text, m, n, a, c, x)
    ensures Ends(env, text, m, n, b, c, x)
  {
  }

  /** After the executed branch, the other branch is skipped. */
  lemma LeaveThen<D>(env: Env<D>, e: Prog, text: string, m: Machine<D>, n1: nat, len: nat, c: Ctx,
      x: Exit<D>) returns (n: nat)
    requires WellFormed(e) && Ends(env, text, m, n1, len, c, x)
    requires !m.conditional && m.mode == Normal && m.nest == 0
    requires m.pc + len < |text| && text[m.pc + len] == '|'
    requires At(text, m.pc + len + 1, Text(e))
    requires m.pc + len + 1 + |Text(e)| < |text| && text[m.pc + len + 1 + |Text(e)|] == '\''
    ensures Ends(env, text, m, n, len + 2 + |Text(e)|, c, x) && n >= n1
  {
    hide Run, At, Proper, WellFormed, Text, Plug;
    n := n1;
    if x.Broke? {
      StepIgnored(env, text, m, n1, len, c, x, '|');
      SeqBroke(env, text, m, n1 + 1, len + 1, e, c, x);
      StepIgnored(env, text, m, n1 + 1 + |Text(e)|, len + 1 + |Text(e)|, c, x, '\'');
      n := n1 + 2 + |Text(e)|;
    } else if x.Fell? {
      var m1 := Passed(m, len, c, x.frame, x.data);
      Advance(env, text, m, n1, m1, '|', Passed(m, len + 1, c, x.frame, x.data).(mode := SkipCond));
      SkipBranch(env, e, text, m, n1 + 1, len + 1, c, x.frame, x.data, '\'');
      n := n1 + 2 + |Text(e)|;
    }
  }

  lemma CondElseAt(text: string, pc: nat, ch: char, t: string, e: string, r: string)
    requires At(text, pc, ['"', ch] + (t + ("|" + (e + ("'" + r)))))
    ensures At(text, pc, ['"', ch]) && At(text, pc + 2, t)
    ensures pc + 2 + |t| < |text| && text[pc + 2 + |t|] == '|'
    ensures At(text, pc + 3 + |t|, e)
    ensures pc + 3 + |t| + |e| < |text| && text[pc + 3 + |t| + |e|] == '\''
    ensures At(text, pc + 4 + |t| + |e|, r)
  {
    hide At;
    AtSplit(text, pc, ['"', ch], t + ("|" + (e + ("'" + r))));
    AtSplit(text, pc + 2, t, "|" + (e + ("'" + r)));
    AtChar(text, pc + 2 + |t|, '|', e + ("'" + r));
    AtSplit(text, pc + 3 + |t|, e, "'" + r);
    AtChar(text, pc + 3 + |t| + |e|, '\'', r);
  }

  /** The definitions for a conditional, one step. */
  lemma CondParts<D>(env: Env<D>, ch: char, t: Prog, r: Prog, c: Ctx, f: Stacks, d: D, fuel: nat)
    ensures var p := Cond(ch, t, r);
            && Text(p) == ['"', ch] + (Text(t) + ("'" + Text(r)))
            && (WellFormed(p) <==> IsConditionType(ch) && WellFormed(t) && WellFormed(r))
            && Exec(env, p, c.inLoop, c.outer, f, d, fuel) ==
               var q := Decide(env, ch, f);
               if q.Undecided? then Failed(q.fault)
               else
                 var x := if q.holds then Exec(env, t, c.inLoop, c.outer, q.frame, d, fuel) else Fell(q.frame, d);
                 if Leaves(x) then x else Exec(env, r, c.inLoop, c.outer, x.frame, x.data, fuel)
  {
    hide Decide, IsConditionType;
  }

  /** The definitions for a conditional with an else part, one step. */
  lemma CondElseParts<D>(env: Env<D>, ch: char, t: Prog, e: Prog, r: Prog, c: Ctx, f: Stacks, d: D, fuel: nat)
    ensures var p := CondElse(ch, t, e, r);
            && Text(p) == ['"', ch] + (Text(t) + ("|" + (Text(e) + ("'" + Text(r)))))
            && (WellFormed(p) <==> IsConditionType(ch) && WellFormed(t) && WellFormed(e) && WellFormed(r))
            && Exec(env, p, c.inLoop, c.outer, f, d, fuel) ==
               var q := Decide(env, ch, f);
               if q.Undecided? then Failed(q.fault)
               else
                 var x := Exec(env, if q.holds then t else e, c.inLoop, c.outer, q.frame, d, fuel);
                 if Leaves(x) then x else Exec(env, r, c.inLoop, c.outer, x.frame, x.data, fuel)
  {
    hide Decide, IsConditionType;
  }

  lemma {:induction false} SimulateCondElse<D>(env: Env<D>, p: Prog, ch: char, t: Prog, e: Prog, r: Prog, text: string,
                                               m: Machine<D>, c: Ctx, f: Stacks, d: D, fuel: nat) returns (n: nat)
    requires p == CondElse(ch, t, e, r) && WellFormed(p) && Starts(env, m, c, f, d) && At(text, m.pc, Text(p))
    ensures Ends(env, text, m, n, |Text(p)|, c, Exec(env, p, c.inLoop, c.outer, f, d, fuel))
    ensures Exec(env, p, c.inLoop, c.outer, f, d, fuel).Unfinished? ==> n >= fuel
    decreases fuel, p, 0
  {
    hide Run, At, Decide, Ends, Starts, IsConditionType, Passed, Proper, Text, WellFormed, Exec;
    CondElseParts(env, ch, t, e, r, c, f, d, fuel);
    CondElseAt(text, m.pc, ch, Text(t), Text(e), Text(r));
    StepCondEnds(env, text, m, ch, c, f, d);
    var q := Decide(env, ch, f);
    var len := 4 + |Text(t)| + |Text(e)|;
    if q.Undecided? {
      n := 2;
      FailedAnywhere(env, text, m, 2, 2, |Text(p)|, c, Failed(q.fault));
    } else {
      var n1 := SimulateBranch(env, p, t, e, text, m, c, f, d, q, fuel);
      var x := Exec(env, if q.holds then t else e, c.inLoop, c.outer, q.frame, d, fuel);
      n := Continue(env, r, text, m, n1, len, c, f, d, x, fuel);
    }
  }

  /** From behind the type of a conditional to behind the quote that ends it. */
  lemma {:induction false} SimulateBranch<D>(env: Env<D>, p: Prog, t: Prog, e: Prog, text: string, m: Machine<D>,
      c: Ctx,
                                             f: Stacks, d: D, q: Decision, fuel: nat) returns (n: nat)
    requires p.CondElse? && p.thn == t && p.els == e
    requires WellFormed(t) && WellFormed(e) && Starts(env, m, c, f, d) && q.Decided?
    requires if q.holds then Ends(env, text, m, 2, 2, c, Fell(q.frame, d))
             else Proper(q.frame) && Run(env, text, m, 2) == Go(Passed(m, 2, c, q.frame, d).(mode := SkipCond))
    requires At(text, m.pc + 2, Text(t))
    requires m.pc + 2 + |Text(t)| < |text| && text[m.pc + 2 + |Text(t)|] == '|'
    requires At(text, m.pc + 3 + |Text(t)|, Text(e))
    requires m.pc + 3 + |Text(t)| + |Text(e)| < |text| && text[m.pc + 3 + |Text(t)| + |Text(e)|] == '\''
    ensures var x := Exec(env, if q.holds then t else e, c.inLoop, c.outer, q.frame, d, fuel);
            Ends(env, text, m, n, 4 + |Text(t)| + |Text(e)|, c, x) && (x.Unfinished? ==> n >= fuel)
    decreases fuel, p, -1
  {
    hide Run, At, Ends, Proper, Exec, WellFormed, Text, Base, Plug, ValidCtx, LoopsMatch, Passed;
    if q.holds {
      var n1 := Continue(env, t, text, m, 2, 2, c, f, d, Fell(q.frame, d), fuel);
      var x := Exec(env, t, c.inLoop, c.outer, q.frame, d, fuel);
      n := LeaveThen(env, e, text, m, n1, 2 + |Text(t)|, c, x);
    } else {
      SkipBranch(env, t, text, m, 2, 2, c, q.frame, d, '|');
      var len := 3 + |Text(t)|;
      var n1 := Continue(env, e, text, m, len, len, c, f, d, Fell(q.frame, d), fuel);
      var x := Exec(env, e, c.inLoop, c.outer, q.frame, d, fuel);
      StepQuote(env, text, m, n1, len + |Text(e)|, c, x);
      n := if x.Fell? || x.Broke? then n1 + 1 else n1;
    }
  }

  lemma {:induction false} Simulate<D>(env: Env<D>, p: Prog, text: string, m: Machine<D>, c: Ctx, f: Stacks, d: D,
                                       fuel: nat) returns (n: nat)
    requires WellFormed(p) && Starts(env, m, c, f, d) && At(text, m.pc, Text(p))
    ensures Ends(env, text, m, n, |Text(p)|, c, Exec(env, p, c.inLoop, c.outer, f, d, fuel))
    ensures Exec(env, p, c.inLoop, c.outer, f, d, fuel).Unfinished? ==> n >= fuel
    decreases fuel, p, 1
  {
    hide Run, Ends, Starts, RunCommand, RunBreak, Decide, JoinBraces, At, IsPlain, IsConditionType;
    match p
    case Done =>
      RunZeroEnds(env, text, m, c, f, d);
      n := 0;
    case Do(ch, r) =>
      AtChar(text, m.pc, ch, Text(r));
      StepDo(env, text, m, ch, c, f, d);
      n := Continue(env, r, text, m, 1, 1, c, f, d, RunCommand(env, ch, f, d), fuel);
    case Break(r) =>
      AtChar(text, m.pc, ';', Text(r));
      StepBreak(env, text, m, c, f, d);
      n := Continue(env, r, text, m, 1, 1, c, f, d, RunBreak(env, c.inLoop, c.outer, f, d), fuel);
    case Paren(b, r) => n := SimulateParen(env, p, b, r, text, m, c, f, d, fuel);
    case Loop(b, r) => n := SimulateWhole(env, p, b, r, text, m, c, f, d, fuel);
    case Cond(ch, t, r) => n := SimulateCond(env, p, ch, t, r, text, m, c, f, d, fuel);
    case CondElse(ch, t, e, r) => n := SimulateCondElse(env, p, ch, t, e, r, text, m, c, f, d, fuel);
  }

  lemma {:induction false} NoBreakOutsideLoop<D>(env: Env<D>, p: Prog, outer: seq<Stacks>, f: Stacks, d: D, fuel: nat)
    ensures !Exec(env, p, false, outer, f, d, fuel).Broke?
    decreases p
  {
    hide RunCommand, Decide, SignedBrace, JoinBraces, PopNumCalc, PopNumCalcValue, Iterate, Separated;
    match p
    case Done =>
    case Do(c, r) =>
      var x := RunCommand(env, c, f, d);
      if x.Fell? { NoBreakOutsideLoop(env, r, outer, x.frame, x.data, fuel); }
    case Break(_) =>
    case Paren(b, r) =>
      var o := SignedBrace(f);
      if o.err == NoError {
        var g := Separated(o.s);
        NoBreakOutsideLoop(env, b, outer + [g], EmptyFrame(g.numSign), d, fuel);
        var x := Exec(env, b, false, outer + [g], EmptyFrame(g.numSign), d, fuel);
        if x.Fell? {
          var y := JoinBraces(g, x.frame, x.data);
          if y.Fell? { NoBreakOutsideLoop(env, r, outer, y.frame, y.data, fuel); }
        }
      }
    case Cond(c, t, r) =>
      var q := Decide(env, c, f);
      if q.Decided? {
        NoBreakOutsideLoop(env, t, outer, q.frame, d, fuel);
        var x := if q.holds then Exec(env, t, false, outer, q.frame, d, fuel) else Fell(q.frame, d);
        if x.Fell? { NoBreakOutsideLoop(env, r, outer, x.frame, x.data, fuel); }
      }
    case CondElse(c, t, e, r) =>
      var q := Decide(env, c, f);
      if q.Decided? {
        var u := if q.holds then t else e;
        NoBreakOutsideLoop(env, u, outer, q.frame, d, fuel);
        var x := Exec(env, u, false, outer, q.frame, d, fuel);
        if x.Fell? { NoBreakOutsideLoop(env, r, outer, x.frame, x.data, fuel); }
      }
    case Loop(b, r) =>
      var o := PopNumCalc(f);
      var counter := PopNumCalcValue(f, -1);
      if o.err == NoError && counter == 0 {
        NoBreakOutsideLoop(env, r, outer, o.s, d, fuel);
      } else if o.err == NoError {
        var g := Separated(o.s);
        var x := Iterate(env, b, counter, EmptyFrame(g.numSign), d, fuel);
        LoopExits(env, b, counter, EmptyFrame(g.numSign), d, fuel);
        if x.Fell? { NoBreakOutsideLoop(env, r, outer, Plug(g, x.frame), x.data, fuel); }
      }
  }

  lemma {:induction false} LoopExits<D>(env: Env<D>, body: Prog, counter: Word, f: Stacks, d: D, fuel: nat)
    ensures !Iterate(env, body, counter, f, d, fuel).Broke?
    decreases fuel
  {
    hide Exec, EndIteration;
    if fuel > 0 {
      var x := Exec(env, body, true, [], f, d, fuel);
      if x.Fell? {
        var y := EndIteration(counter == 1, x.frame, x.data);
        if y.Fell? && counter != 1 {
          LoopExits(env, body, if counter > 0 then counter - 1 else counter, y.frame, y.data, fuel - 1);
        }
      }
    }
  }

  /** A machine at the start of a macro, called above the stacks `b` with the arguments `f`. */
  function AtStart<D>(loops: seq<LoopContext>, b: Stacks, f: Stacks, d: D): Machine<D> {
    Machine(0, Normal, 0, false, loops, Plug(b, f), d)
  }

  lemma RunStops<D>(env: Env<D>, text: string, m: Machine<D>, n: nat)
    requires m.pc >= |text|
    ensures Run(env, text, m, n) == Go(m)
  {
  }

  /** A machine that has stopped does not go on. */
  lemma StaysStopped<D>(env: Env<D>, text: string, m: Machine<D>, a: nat, b: nat)
    requires a <= b && !Busy(text, Run(env, text, m, a))
    ensures Run(env, text, m, b) == Run(env, text, m, a)
  {
    hide Run;
    RunSplit(env, text, m, a, b - a);
    var r := Run(env, text, m, a);
    if r.Go? {
      RunStops(env, text, r.m, b - a);
    }
  }

  /**
   * What the flat run of a macro's text does, by the structured run of the macro. If that
   * ends, the flat run ends at the end of the text in the same state, executing normally,
   * with the loop stack and the brace level it started with; if it fails, the flat run fails
   * in the same way; if it ends below a dangling operator, the flat run leaves a brace
   * behind; and if it takes more iterations, the flat run takes at least as many characters.
   */
  lemma MacroRefines<D>(env: Env<D>, p: Prog, loops: seq<LoopContext>, b: Stacks, f: Stacks, d: D, fuel: nat)
    returns (n: nat)
    requires WellFormed(p) && IsBase(b) && Proper(f) && |loops| == env.fp
    ensures var start := AtStart(loops, b, f, d);
            match Exec(env, p, false, [], f, d, fuel)
            case Fell(g, e) =>
              forall k :: k >= n ==>
                Run(env, Text(p), start, k) == Go(AtStart(loops, b, g, e).(pc := |Text(p)|))
            case Failed(fault) => forall k :: k >= n ==> Run(env, Text(p), start, k) == Fail(fault)
            case Dangling => LeftBrace(Run(env, Text(p), start, n), b)
            case Unfinished => forall k :: 0 <= k <= fuel ==> Busy(Text(p), Run(env, Text(p), start, k))
            case Broke(_, _) => false
  {
    hide Exec, Run, Text, Proper, LeftBrace;
    var text := Text(p);
    var c := Ctx(false, b, f, b, []);
    var m := AtStart(loops, b, f, d);
    assert At(text, 0, text) by { assert text[0..|text|] == text; }
    n := Simulate(env, p, text, m, c, f, d, fuel);
    NoBreakOutsideLoop(env, p, [], f, d, fuel);
    if !Busy(text, Run(env, text, m, n)) {
      forall k | k >= n
        ensures Run(env, text, m, k) == Run(env, text, m, n)
      {
        StaysStopped(env, text, m, n, k);
      }
    } else {
      forall k | 0 <= k <= n
        ensures Busy(text, Run(env, text, m, k))
      {
        if !Busy(text, Run(env, text, m, k)) {
          StaysStopped(env, text, m, k, n);
        }
      }
    }
  }

  /**
   * Conversely, if the flat run of a macro's text ends or fails, the structured run does so in
   * the same way, unless the flat run has left a brace behind.
   */
  lemma MacroReflects<D>(env: Env<D>, p: Prog, loops: seq<LoopContext>, b: Stacks, f: Stacks, d: D, k: nat)
    returns (n: nat)
    requires WellFormed(p) && IsBase(b) && Proper(f) && |loops| == env.fp
    requires !Busy(Text(p), Run(env, Text(p), AtStart(loops, b, f, d), k))
    ensures var r := Run(env, Text(p), AtStart(loops, b, f, d), k);
            match Exec(env, p, false, [], f, d, k)
            case Fell(g, e) => r == Go(AtStart(loops, b, g, e).(pc := |Text(p)|))
            case Failed(fault) => r == Fail(fault)
            case Dangling => LeftBrace(Run(env, Text(p), AtStart(loops, b, f, d), n), b)
            case Unfinished => false
            case Broke(_, _) => false
  {
    hide Exec, Run, Text, Proper, LeftBrace;
    n := MacroRefines(env, p, loops, b, f, d, k);
    StaysStopped(env, Text(p), AtStart(loops, b, f, d), k, if n >= k then n else k);
  }
}
