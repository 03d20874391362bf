/**
 * The flat interpreter of macro code: a program counter, a loop stack, a skip mode and a
 * nesting level stand in for the structure of loops and conditionals.
 */
module MacroMachine {
  import opened Sequences
  import opened Ascii
  import opened Words
  import opened ExpressionSpec
  import opened ExpressionRuns
  import opened Frames

  datatype Mode = Normal | SkipLoop | SkipCond | SkipCondForce

  datatype Fault =
    | CalculationFailed(error: Error)
    | ArgumentExpected
    | InvalidConditional
    | BreakOutsideLoop
    | LoopEndWithoutStart
    | BraceLeftOpen
    | CommandFailed

  datatype LoopContext = LoopContext(counter: Word, braceLevel: nat, pc: nat)

  /** `conditional` tells that the next character is the type of a conditional. */
  datatype Machine<D> = Machine(
    pc: nat,
    mode: Mode,
    nest: nat,
    conditional: bool,
    loops: seq<LoopContext>,
    es: Stacks,
    data: D)

  datatype Step<D> = Go(m: Machine<D>) | Fail(fault: Fault)

  /** Unicode character classes, and the separators of directories. */
  datatype CharClass = Alphabetic | Digit | Alphanumeric | Lower | Upper | Separator

  datatype CommandResult<D> = Executed(frame: Stacks, data: D) | Rejected

  /**
   * What the interpreter is run with: the ordinary commands (acting above the topmost brace),
   * the condition code of the search register, the Unicode character classes, and the number
   * of loops that were open when the macro was called.
   */
  datatype Env<!D> = Env(
    command: (char, Stacks, D) -> CommandResult<D>,
    search: D -> Word,
    charClass: (CharClass, Word) -> bool,
    fp: nat)

  /** The result of a conditional of type `c`, or nothing if there is no such type. */
  function Test<D>(env: Env<D>, c: char, value: Word): Result<bool> {
    match AsciiUpper(c)
    case 'A' => Ok(env.charClass(Alphabetic, value))
    case 'C' => Ok(env.charClass(Alphanumeric, value) || value == 46 || value == 36 || value == 95)
    case 'D' => Ok(env.charClass(Digit, value))
    case 'I' => Ok(env.charClass(Separator, value))
    case 'S' => Ok(value < 0)
    case 'T' => Ok(value < 0)
    case 'F' => Ok(value >= 0)
    case 'U' => Ok(value >= 0)
    case 'E' => Ok(value == 0)
    case '=' => Ok(value == 0)
    case 'G' => Ok(value > 0)
    case '>' => Ok(value > 0)
    case 'L' => Ok(value < 0)
    case '<' => Ok(value < 0)
    case 'N' => Ok(value != 0)
    case 'R' => Ok(env.charClass(Alphanumeric, value))
    case 'V' => Ok(env.charClass(Lower, value))
    case 'W' => Ok(env.charClass(Upper, value))
    case _ => Err(NotReached)
  }

  predicate IsConditionType(c: char) {
    || c == '~'
    || AsciiUpper(c) in {'A', 'C', 'D', 'I', 'S', 'T', 'F', 'U', 'E', '=', 'G', '>', 'L', '<', 'N', 'R', 'V', 'W'}
  }

  /** Number of marks above the topmost brace. */
  function Above(ops: seq<Op>): (n: nat)
    ensures n <= |ops|
  {
    if ops == [] || Last(ops) == Brace then 0 else 1 + Above(Front(ops))
  }

  function Min(a: nat, b: nat): nat {
    if a < b then a else b
  }

  function TopFrame(s: Stacks): Stacks {
    var ops := s.operators[|s.operators| - Above(s.operators)..];
    var n := Min(CountNumbers(ops), |s.numbers|);
    Stacks(s.numbers[|s.numbers| - n..], ops, 0, s.numSign)
  }

  function BelowFrame(s: Stacks): Stacks {
    var ops := s.operators[|s.operators| - Above(s.operators)..];
    var n := Min(CountNumbers(ops), |s.numbers|);
    Stacks(s.numbers[..|s.numbers| - n], s.operators[..|s.operators| - Above(s.operators)], s.braceLevel, s.numSign)
  }

  function Command<D>(env: Env<D>, c: char, m: Machine<D>): Step<D> {
    match env.command(c, TopFrame(m.es), m.data)
    case Rejected => Fail(CommandFailed)
    case Executed(f, d) =>
      if Proper(f) then Go(m.(es := Plug(BelowFrame(m.es), f), data := d)) else Fail(CommandFailed)
  }

  function LoopOpen<D>(m: Machine<D>): Step<D> {
    var o := PopNumCalc(m.es);
    var counter := PopNumCalcValue(m.es, -1);
    if o.err != NoError then Fail(CalculationFailed(o.err))
    else if counter == 0 then Go(m.(es := o.s, mode := SkipLoop))
    else Go(m.(es := BraceOpen(o.s), loops := m.loops + [LoopContext(counter, o.s.braceLevel, m.pc)]))
  }

  function LoopClose<D>(env: Env<D>, m: Machine<D>): Step<D> {
    if |m.loops| <= env.fp then Fail(LoopEndWithoutStart)
    else
      var l := Last(m.loops);
      if m.es.braceLevel != l.braceLevel + 1 then Fail(BraceLeftOpen)
      else
        var o := DiscardArgs(m.es);
        if o.err != NoError then Fail(CalculationFailed(o.err))
        else if l.counter == 1 then
          var o' := BraceClose(o.s);
          if o'.err != NoError then Fail(CalculationFailed(o'.err))
          else Go(m.(es := o'.s, loops := Front(m.loops)))
        else
          var counter := if l.counter >= 0 then l.counter - 1 else l.counter;
          Go(m.(es := o.s, pc := l.pc, loops := Front(m.loops) + [l.(counter := counter)]))
  }

  function BreakLoop<D>(env: Env<D>, m: Machine<D>): Step<D> {
    if |m.loops| <= env.fp then Fail(BreakOutsideLoop)
    else
      var o := PopNumCalc(m.es);
      if o.err != NoError then Fail(CalculationFailed(o.err))
      else if PopNumCalcValue(m.es, env.search(m.data)) < 0 then Go(m.(es := o.s))
      else
        var o1 := DiscardArgs(o.s);
        if o1.err != NoError then Fail(CalculationFailed(o1.err))
        else
          var o2 := BraceReturn(Last(m.loops).braceLevel, 0, o1.s);
          if o2.err != NoError then Fail(CalculationFailed(o2.err))
          else Go(m.(es := o2.s, loops := Front(m.loops), mode := SkipLoop))
  }

  /**
   * A break that fails after it has taken its loop off the loop stack: its condition could be
   * popped, but not all its braces can be left. `MacroSimulation.LosesExact` tells when, by the
   * frames opened since the loop began; without any, `MacroSimulation.DirectKeepsLoop` excludes it.
   */
  predicate LosesLoop<D>(env: Env<D>, m: Machine<D>) {
    |m.loops| > env.fp && PopNumCalc(m.es).err == NoError && BreakLoop(env, m).Fail?
  }

  /** A pending sign before a brace is turned into a multiplication. */
  function SignedBrace(s: Stacks): Outcome {
    if s.numSign >= 0 then Outcome(s, NoError)
    else
      var o := Eval(false, s.(numSign := 1));
      if o.err != NoError then o else PushCalc(Mul, PushInt(o.s, -1))
  }

  function ParenOpen<D>(m: Machine<D>): Step<D> {
    var o := SignedBrace(m.es);
    if o.err != NoError then Fail(CalculationFailed(o.err)) else Go(m.(es := BraceOpen(o.s)))
  }

  function ParenClose<D>(m: Machine<D>): Step<D> {
    var o := BraceClose(m.es);
    if o.err != NoError then Fail(CalculationFailed(o.err)) else Go(m.(es := o.s))
  }

  /** The character after a double quote. */
  function Conditional<D>(env: Env<D>, c: char, m: Machine<D>): Step<D> {
    if m.mode == SkipCond || m.mode == SkipCondForce then
      if IsConditionType(c) then Go(m.(nest := m.nest + 1, conditional := false)) else Fail(InvalidConditional)
    else if m.mode == SkipLoop then
      if IsConditionType(c) then Go(m.(conditional := false)) else Fail(InvalidConditional)
    else
      var o := Eval(false, m.es);
      if o.err != NoError then Fail(CalculationFailed(o.err))
      else if c == '~' then
        Go(m.(es := o.s, conditional := false, mode := if Args(o.s.operators) == 0 then Normal else SkipCond))
      else if Args(o.s.operators) == 0 then Fail(ArgumentExpected)
      else
        var r := Test(env, c, TopNum(o.s));
        if r.Err? then Fail(InvalidConditional)
        else Go(m.(es := PopNum(o.s), conditional := false, mode := if r.value then Normal else SkipCond))
  }

  /** What the character `c`, which the program counter has just passed, does. */
  function Input<D>(env: Env<D>, c: char, m: Machine<D>): Step<D> {
    if m.conditional then Conditional(env, c, m)
    else match c
      case '<' =>
        if m.mode == SkipLoop then Go(m.(nest := m.nest + 1))
        else if m.mode == Normal then LoopOpen(m) else Go(m)
      case '>' =>
        if m.mode == SkipLoop then
          Go(if m.nest == 0 then m.(mode := Normal) else m.(nest := m.nest - 1))
        else if m.mode == Normal then LoopClose(env, m) else Go(m)
      case '|' =>
        if m.mode == SkipCond && m.nest == 0 then Go(m.(mode := Normal))
        else if m.mode == Normal then Go(m.(mode := SkipCond)) else Go(m)
      case '\'' =>
        if m.mode == SkipCond || m.mode == SkipCondForce then
          Go(if m.nest == 0 then m.(mode := Normal) else m.(nest := m.nest - 1))
        else Go(m)
      case '"' => Go(m.(conditional := true))
      case ';' => if m.mode == Normal then BreakLoop(env, m) else Go(m)
      case '(' => if m.mode == Normal then ParenOpen(m) else Go(m)
      case ')' => if m.mode == Normal then ParenClose(m) else Go(m)
      case _ => if m.mode == Normal then Command(env, c, m) else Go(m)
  }

  /** At most `n` characters of `text` are executed, starting at the program counter. */
  function Run<D>(env: Env<D>, text: string, m: Machine<D>, n: nat): Step<D>
    decreases n
  {
    if n == 0 || m.pc >= |text| then Go(m)
    else
      var r := Input(env, text[m.pc], m.(pc := m.pc + 1));
      if r.Fail? then r else Run(env, text, r.m, n - 1)
  }

  /** The character `c` is a break that loses its loop. */
  predicate Loses<D>(env: Env<D>, c: char, m: Machine<D>) {
    c == ';' && m.mode == Normal && !m.conditional && LosesLoop(env, m)
  }

  lemma LosingFails<D>(env: Env<D>, c: char, m: Machine<D>)
    ensures Loses(env, c, m) ==> Input(env, c, m).Fail?
  {
    hide BreakLoop, PopNumCalc;
  }

  /** The run ends at a break that loses its loop. */
  predicate LosesInRun<D>(env: Env<D>, text: string, m: Machine<D>, n: nat)
    decreases n
  {
    if n == 0 || m.pc >= |text| then false
    else
      var m1 := m.(pc := m.pc + 1);
      var r := Input(env, text[m.pc], m1);
      if r.Fail? then Loses(env, text[m.pc], m1) else LosesInRun(env, text, r.m, n - 1)
  }

  lemma {:induction false} RunSplit<D>(env: Env<D>, text: string, m: Machine<D>, a: nat, b: nat)
    ensures Run(env, text, m, a + b) ==
            var r := Run(env, text, m, a); if r.Fail? then r else Run(env, text, r.m, b)
    decreases a
  {
    hide Input;
    if a > 0 && m.pc < |text| {
      var r := Input(env, text[m.pc], m.(pc := m.pc + 1));
      if r.Go? {
        RunSplit(env, text, r.m, a - 1, b);
      }
    } else if a > 0 {
      assert Run(env, text, m, a) == Go(m);
    }
  }

  lemma RunOne<D>(env: Env<D>, text: string, m: Machine<D>)
    requires m.pc < |text|
    ensures Run(env, text, m, 1) == Input(env, text[m.pc], m.(pc := m.pc + 1))
  {
    hide Input;
    var r := Input(env, text[m.pc], m.(pc := m.pc + 1));
    if r.Go? {
      assert Run(env, text, r.m, 0) == r;
    }
  }

  /** The stacks above the topmost brace are the frame that was put there. */
  lemma TopOfPlug(b: Stacks, f: Stacks)
    requires IsBase(b) && Proper(f)
    ensures TopFrame(Plug(b, f)) == f
    ensures forall g :: Plug(BelowFrame(Plug(b, f)), g) == Plug(b, g)
  {
    AbovePlug(b.operators, f.operators);
    var ops := b.operators + f.operators;
    assert ops[|ops| - |f.operators|..] == f.operators && ops[..|ops| - |f.operators|] == b.operators;
    var nums := b.numbers + f.numbers;
    assert nums[|nums| - |f.numbers|..] == f.numbers && nums[..|nums| - |f.numbers|] == b.numbers;
  }

  lemma {:induction false} AbovePlug(b: seq<Op>, f: seq<Op>)
    requires b == [] || Last(b) == Brace
    requires Brace !in f
    ensures Above(b + f) == |f|
  {
    if f == [] {
      assert b + f == b;
    } else {
      assert Last(b + f) == Last(f) && Front(b + f) == b + Front(f);
      AbovePlug(b, Front(f));
    }
  }
}
