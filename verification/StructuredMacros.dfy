/**
 * Structured semantics of macro code: nested loops, conditionals, braces and breaks, each
 * construct running on the arguments of its own brace level only.
 */
module StructuredMacros {
  import opened Sequences
  import opened Words
  import opened ExpressionSpec
  import opened Frames
  import opened MacroMachine

  datatype Prog =
    | Done
    | Do(c: char, rest: Prog)
    | Break(rest: Prog)
    | Loop(body: Prog, rest: Prog)
    | Paren(body: Prog, rest: Prog)
    | Cond(c: char, thn: Prog, rest: Prog)
    | CondElse(c: char, thn: Prog, els: Prog, rest: Prog)

  function Text(p: Prog): string {
    match p
    case Done => ""
    case Do(c, r) => [c] + Text(r)
    case Break(r) => ";" + Text(r)
    case Loop(b, r) => "<" + (Text(b) + (">" + Text(r)))
    case Paren(b, r) => "(" + (Text(b) + (")" + Text(r)))
    case Cond(c, t, r) => ['"', c] + (Text(t) + ("'" + Text(r)))
    case CondElse(c, t, e, r) => ['"', c] + (Text(t) + ("|" + (Text(e) + ("'" + Text(r)))))
  }

  /** Commands that are one character and neither open nor close a construct. */
  predicate IsPlain(c: char) {
    c !in "<>|'\";()"
  }

  predicate WellFormed(p: Prog) {
    match p
    case Done => true
    case Do(c, r) => IsPlain(c) && WellFormed(r)
    case Break(r) => WellFormed(r)
    case Loop(b, r) => WellFormed(b) && WellFormed(r)
    case Paren(b, r) => WellFormed(b) && WellFormed(r)
    case Cond(c, t, r) => IsConditionType(c) && WellFormed(t) && WellFormed(r)
    case CondElse(c, t, e, r) => IsConditionType(c) && WellFormed(t) && WellFormed(e) && WellFormed(r)
  }

  /**
   * How a program ends: it falls through with a frame, it breaks out of the innermost loop
   * (leaving `frame` for the code after the loop), or it fails. `Dangling` is the end where a
   * brace is to be removed below an operator without right operand; `Unfinished` means that
   * more loop iterations are needed than were granted.
   */
  datatype Exit<D> =
    | Fell(frame: Stacks, data: D)
    | Broke(frame: Stacks, data: D)
    | Failed(fault: Fault)
    | Dangling
    | Unfinished

  /** `UnwindDangling` gives the frames below the braces that stay, and the frame above them. */
  datatype Unwound =
    | Left(frame: Stacks)
    | UnwindFailed(error: Error)
    | UnwindDangling(outer: seq<Stacks>, top: Stacks)

  /** Discards the arguments of all brace levels that a break leaves, innermost first. */
  function Unwind(outer: seq<Stacks>, f: Stacks): Unwound
    decreases |outer|
  {
    if Hangs(f) then UnwindDangling(outer, f)
    else
      var o := DiscardArgs(f);
      if o.err != NoError then UnwindFailed(o.err)
      else if outer == [] then Left(o.s)
      else Unwind(Front(outer), Plug(Last(outer), o.s))
  }

  /** The frame seen by a conditional's branches, and whether the condition holds. */
  datatype Decision = Decided(frame: Stacks, holds: bool) | Undecided(fault: Fault)

  function Decide<D>(env: Env<D>, c: char, f: Stacks): Decision {
    var o := Eval(false, f);
    if o.err != NoError then Undecided(CalculationFailed(o.err))
    else if c == '~' then Decided(o.s, Args(o.s.operators) == 0)
    else if Args(o.s.operators) == 0 then Undecided(ArgumentExpected)
    else
      var r := Test(env, c, TopNum(o.s));
      if r.Err? then Undecided(InvalidConditional) else Decided(PopNum(o.s), r.value)
  }

  /** A conditional that is executed, as the interpreter sees it. */
  lemma ConditionalDecides<D>(env: Env<D>, c: char, m: Machine<D>)
    requires m.mode == Normal
    ensures var q := Decide(env, c, m.es);
            Conditional(env, c, m) ==
            if q.Undecided? then Fail(q.fault)
            else Go(m.(es := q.frame, conditional := false, mode := if q.holds then Normal else SkipCond))
  {
    hide Test, Eval, PopNum, TopNum;
  }

  function Separated(f: Stacks): Stacks {
    f.(operators := StripNew(f.operators))
  }

  /** Runs one ordinary command on the frame. */
  function RunCommand<D>(env: Env<D>, c: char, f: Stacks, d: D): (x: Exit<D>)
    ensures x.Fell? || x.Failed?
  {
    match env.command(c, f, d)
    case Rejected => Failed(CommandFailed)
    case Executed(g, e) => if Proper(g) then Fell(g, e) else Failed(CommandFailed)
  }

  /** What `;` does: falls through on success, otherwise unwinds the loop's brace levels. */
  function RunBreak<D>(env: Env<D>, inLoop: bool, outer: seq<Stacks>, f: Stacks, d: D): (x: Exit<D>)
    ensures !x.Unfinished? && (x.Broke? || x.Dangling? ==> inLoop)
  {
    if !inLoop then Failed(BreakOutsideLoop)
    else
      var o := PopNumCalc(f);
      if o.err != NoError then Failed(CalculationFailed(o.err))
      else if PopNumCalcValue(f, env.search(d)) < 0 then Fell(o.s, d)
      else
        var o' := DiscardArgs(o.s);
        if o'.err != NoError then Failed(CalculationFailed(o'.err))
        else
          match Unwind(outer, o'.s)
          case UnwindFailed(e) => Failed(CalculationFailed(e))
          case UnwindDangling(_, _) => Dangling
          case Left(g) => Broke(g, d)
  }

  /** What `)` does with the arguments inside the braces: they are appended to those outside. */
  function JoinBraces<D>(outside: Stacks, inside: Stacks, d: D): (x: Exit<D>)
    ensures !x.Broke? && !x.Unfinished?
  {
    if Hangs(inside) then Dangling
    else
      var o := Eval(false, inside);
      if o.err != NoError then Failed(CalculationFailed(o.err)) else Fell(Plug(outside, o.s), d)
  }

  /** What remains of the frame inside a loop at the end of an iteration. */
  function EndIteration<D>(last: bool, f: Stacks, d: D): (x: Exit<D>)
    ensures !x.Broke? && !x.Unfinished?
  {
    var o := DiscardArgs(f);
    if o.err != NoError then Failed(CalculationFailed(o.err))
    else if last then JoinBraces(EmptyFrame(0), o.s, d)
    else Fell(o.s, d)
  }

  /** Where a part of a program is left other than at its end, the rest is not run. */
  predicate Leaves<D>(x: Exit<D>) {
    !x.Fell?
  }

  /**
   * Runs `p` on the frame `f` and the data `d`. `outer` holds the frames of the braces opened
   * since the innermost loop, and `fuel` bounds the iterations of every loop.
   */
  function Exec<D>(env: Env<D>, p: Prog, inLoop: bool, outer: seq<Stacks>, f: Stacks, d: D, fuel: nat): Exit<D>
    decreases fuel, p, 1
  {
    match p
    case Done => Fell(f, d)
    case Do(c, r) =>
      var x := RunCommand(env, c, f, d);
      if Leaves(x) then x else Exec(env, r, inLoop, outer, x.frame, x.data, fuel)
    case Break(r) =>
      var x := RunBreak(env, inLoop, outer, f, d);
      if Leaves(x) then x else Exec(env, r, inLoop, outer, x.frame, x.data, fuel)
    case Paren(b, r) =>
      var o := SignedBrace(f);
      if o.err != NoError then Failed(CalculationFailed(o.err))
      else
        var g := Separated(o.s);
        var x := Exec(env, b, inLoop, outer + [g], EmptyFrame(g.numSign), d, fuel);
        if Leaves(x) then x
        else
          var y := JoinBraces(g, x.frame, x.data);
          if Leaves(y) then y else Exec(env, r, inLoop, outer, y.frame, y.data, fuel)
    case Cond(c, t, r) =>
      var q := Decide(env, c, f);
      if q.Undecided? then Failed(q.fault)
      else
        var x := if q.holds then Exec(env, t, inLoop, outer, q.frame, d, fuel) else Fell(q.frame, d);
        if Leaves(x) then x else Exec(env, r, inLoop, outer, x.frame, x.data, fuel)
    case CondElse(c, t, e, r) =>
      var q := Decide(env, c, f);
      if q.Undecided? then Failed(q.fault)
      else
        var x := Exec(env, if q.holds then t else e, inLoop, outer, q.frame, d, fuel);
        if Leaves(x) then x else Exec(env, r, inLoop, outer, x.frame, x.data, fuel)
    case Loop(b, r) =>
      var o := PopNumCalc(f);
      var counter := PopNumCalcValue(f, -1);
      if o.err != NoError then Failed(CalculationFailed(o.err))
      else if counter == 0 then Exec(env, r, inLoop, outer, o.s, d, fuel)
      else
        var g := Separated(o.s);
        var x := Iterate(env, b, counter, EmptyFrame(g.numSign), d, fuel);
        if Leaves(x) then x
        else Exec(env, r, inLoop, outer, Plug(g, x.frame), x.data, fuel)
  }

  /** Runs the loop body until the counter is used up or the body breaks. */
  function Iterate<D>(env: Env<D>, body: Prog, counter: Word, f: Stacks, d: D, fuel: nat): Exit<D>
    decreases fuel, body, 2
  {
    if fuel == 0 then Unfinished
    else
      match Exec(env, body, true, [], f, d, fuel)
      case Broke(g, e) => Fell(g, e)
      case Fell(g, e) =>
        var x := EndIteration(counter == 1, g, e);
        if Leaves(x) || counter == 1 then x
        else Iterate(env, body, if counter > 0 then counter - 1 else counter, x.frame, x.data, fuel - 1)
      case Failed(e) => Failed(e)
      case Dangling => Dangling
      case Unfinished => Unfinished
  }
}
