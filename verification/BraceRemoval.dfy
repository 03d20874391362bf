/**
 * Which braces the commands `)`, `>` and `;` remove, and when they fail. Both depend on the
 * frames that are left only: a brace stays behind if an operator waits for its right operand
 * on top of one of them, unless a frame inside of that one cannot be resolved.
 */
module BraceRemoval {
  import opened Sequences
  import opened Words
  import opened ExpressionSpec
  import opened Frames
  import opened StructuredMacros
  import ExpressionGrammar
  import MacroMachine

  // What resolving and discarding leave of a frame.

  predicate Settled(f: Stacks) {
    FirstOp(f.operators) < 0
  }

  lemma SettledHangs(f: Stacks)
    requires Settled(f)
    ensures !Hangs(f)
  {
  }

  lemma EvalSettled(f: Stacks)
    requires Settled(f)
    ensures Eval(false, f) == Outcome(f, NoError)
  {
  }

  lemma ProperHangs(f: Stacks)
    requires Proper(f) && Hangs(f)
    ensures f.operators != [] && Last(f.operators) != Brace && Args(f.operators) == 0
  {
  }

  /** Popping an argument leaves an operator on top exactly if it was there before. */
  lemma PopNumCalcHangs(f: Stacks)
    requires Proper(f) && PopNumCalc(f).err == NoError
    ensures Proper(PopNumCalc(f).s) && (Hangs(PopNumCalc(f).s) <==> Hangs(f))
    ensures !Hangs(f) ==> Settled(PopNumCalc(f).s)
  {
    hide Eval, Proper, FirstOp;
    var b := EmptyFrame(0);
    assert IsBase(b);
    PopNumCalcPlug(b, f, 0);
    if Hangs(f) {
      ProperHangs(f);
      EvalHangs(false, f);
    } else {
      EvalSettles(f);
      FrontSettled(Eval(false, f).s.operators);
      SettledHangs(PopNumCalc(f).s);
    }
  }

  lemma FrontSettled(ops: seq<Op>)
    requires FirstOp(ops) < 0
    ensures ops != [] ==> FirstOp(Front(ops)) < 0
  {
  }

  lemma PopSettled(f: Stacks)
    requires Settled(f)
    ensures PopNumCalc(f).err == NoError && Settled(PopNumCalc(f).s)
    ensures Args(PopNumCalc(f).s.operators) == if Args(f.operators) > 0 then Args(f.operators) - 1 else 0
  {
    hide FirstOp;
    EvalSettled(f);
    FrontSettled(f.operators);
  }

  lemma {:induction false} DiscardLoopSettles(i: nat, f: Stacks)
    requires Settled(f) && i == Args(f.operators)
    ensures DiscardLoop(i, f).err == NoError
    ensures Settled(DiscardLoop(i, f).s) && Args(DiscardLoop(i, f).s.operators) == 0
  {
    hide PopNumCalc, Settled, Args;
    if i > 0 {
      PopSettled(f);
      DiscardLoopSettles(i - 1, PopNumCalc(f).s);
    }
  }

  /** Discarding leaves an operator on top exactly if it was there before; otherwise at most separators remain. */
  lemma DiscardArgsHangs(f: Stacks)
    requires Proper(f)
    ensures Hangs(f) ==> DiscardArgs(f) == Outcome(f, NoError)
    ensures DiscardArgs(f).err == NoError ==> Proper(DiscardArgs(f).s) && (Hangs(DiscardArgs(f).s) <==> Hangs(f))
    ensures !Hangs(f) && DiscardArgs(f).err == NoError ==>
              Settled(DiscardArgs(f).s) && Args(DiscardArgs(f).s.operators) == 0
  {
    hide Eval, Proper, FirstOp, Args, Hangs, DiscardLoop;
    var b := EmptyFrame(0);
    assert IsBase(b);
    DiscardArgsPlug(b, f);
    if Hangs(f) {
      ProperHangs(f);
      EvalHangs(false, f);
      assert DiscardLoop(0, f) == Outcome(f, NoError) by { DiscardNone(f); }
    } else if Eval(false, f).err == NoError {
      EvalSettles(f);
      var g := Eval(false, f).s;
      DiscardLoopSettles(Args(g.operators), g);
      SettledHangs(DiscardArgs(f).s);
    }
  }

  lemma DiscardNone(f: Stacks)
    ensures DiscardLoop(0, f) == Outcome(f, NoError)
  {
  }

  // Unwinding.

  predicate AllProper(outer: seq<Stacks>) {
    forall i :: 0 <= i < |outer| ==> Proper(outer[i])
  }

  /** No frame has an operator on top. */
  predicate NoneHangs(outer: seq<Stacks>) {
    forall i :: 0 <= i < |outer| ==> !Hangs(outer[i])
  }

  lemma NoneHangsFront(outer: seq<Stacks>)
    requires outer != []
    ensures NoneHangs(outer) <==> NoneHangs(Front(outer)) && !Hangs(Last(outer))
    ensures AllProper(outer) <==> AllProper(Front(outer)) && Proper(Last(outer))
  {
    hide Hangs, Proper;
    assert forall i :: 0 <= i < |outer| - 1 ==> Front(outer)[i] == outer[i];
  }

  /** Separators above an operator are an error. */
  lemma SeparatorBlocks(h: Stacks, g: Stacks)
    requires !Settled(h) && Proper(h) && g.operators != [] && Settled(g) && Args(g.operators) == 0
    ensures !Hangs(Plug(h, g)) && DiscardArgs(Plug(h, g)).err != NoError
  {
    var ops := h.operators + g.operators;
    FirstOpAbove(h.operators, g.operators);
    assert Last(ops) == Last(g.operators) == New;
    assert PeekOp(ops, FirstOp(ops)) == PeekOp(h.operators, FirstOp(h.operators));
    assert Eval(false, Plug(h, g)) == Calc(Plug(h, g));
  }

  lemma {:induction false} FirstOpAbove(h: seq<Op>, g: seq<Op>)
    requires FirstOp(g) < 0
    ensures FirstOp(h + g) == if FirstOp(h) < 0 then -1 else FirstOp(h) + |g|
  {
    if g == [] {
      assert h + g == h;
    } else {
      assert Last(h + g) == Last(g) && Front(h + g) == h + Front(g);
      FirstOpAbove(h, Front(g));
    }
  }

  lemma PlugOnTop(h: Stacks, g: Stacks)
    requires Proper(g) && Settled(g) && Args(g.operators) == 0
    ensures g.operators == [] ==> Plug(h, g).operators == h.operators
    ensures !Hangs(h) || g.operators != [] ==> !Hangs(Plug(h, g))
    ensures Hangs(h) && g.operators == [] ==> Hangs(Plug(h, g))
  {
    if g.operators != [] {
      assert Last(h.operators + g.operators) == Last(g.operators);
    } else {
      assert h.operators + g.operators == h.operators;
    }
  }

  /** Without an error, unwinding removes all braces exactly if no frame has an operator on top. */
  lemma {:induction false} UnwindLeft(outer: seq<Stacks>, f: Stacks)
    requires AllProper(outer) && Proper(f)
    ensures var u := Unwind(outer, f);
            !u.UnwindFailed? ==> (u.Left? <==> !Hangs(f) && NoneHangs(outer))
    decreases |outer|
  {
    hide DiscardArgs, Proper, Hangs, Settled, Args, NoneHangs, AllProper;
    DiscardArgsHangs(f);
    var o := DiscardArgs(f);
    if !Hangs(f) && o.err == NoError {
      if outer == [] {
        assert NoneHangs(outer) by { NoneHangsEmpty(); }
      } else {
        var h := Last(outer);
        NoneHangsFront(outer);
        PlugOnTop(h, o.s);
        ProperPlug(h, o.s);
        UnwindLeft(Front(outer), Plug(h, o.s));
        if Hangs(h) && o.s.operators != [] {
          HangsUnsettled(h);
          SeparatorBlocks(h, o.s);
        }
      }
    }
  }

  lemma NoneHangsEmpty()
    ensures NoneHangs([])
  {
  }

  lemma HangsUnsettled(h: Stacks)
    requires Hangs(h)
    ensures !Settled(h)
  {
  }

  /**
   * Whether leaving the frames, the last one first, runs into an error before it stops at an
   * operator that waits on top: a frame cannot be resolved, or holds an operator below the
   * separators that were left of the frames above it. `sep` tells whether there are such
   * separators, and `sign` is the pending sign.
   */
  predicate Blocks(frames: seq<Stacks>, sep: bool, sign: int)
    decreases |frames|
  {
    if frames == [] then false
    else
      var h := Last(frames).(numSign := sign);
      if Hangs(h) then sep
      else if sep && !Settled(h) then true
      else
        var o := DiscardArgs(h);
        o.err != NoError || Blocks(Front(frames), sep || o.s.operators != [], o.s.numSign)
  }

  lemma BlocksMore(frames: seq<Stacks>, h: Stacks)
    ensures Blocks(frames + [h], false, h.numSign) <==>
              !Hangs(h) && (DiscardArgs(h).err != NoError
                            || Blocks(frames, DiscardArgs(h).s.operators != [], DiscardArgs(h).s.numSign))
  {
    hide Hangs, DiscardArgs;
    var more := frames + [h];
    assert Last(more) == h && Front(more) == frames && h.(numSign := h.numSign) == h;
  }

  lemma SettledDiscards(f: Stacks)
    requires Settled(f)
    ensures DiscardArgs(f).err == NoError
    ensures Args(f.operators) == 0 ==> DiscardArgs(f) == Outcome(f, NoError)
  {
    hide DiscardLoop, Args;
    EvalSettled(f);
    DiscardLoopSettles(Args(f.operators), f);
    DiscardNone(f);
  }

  /** Below separators, nothing is resolved. */
  lemma {:induction false} BlocksUnsigned(frames: seq<Stacks>, a: int, b: int)
    ensures Blocks(frames, true, a) == Blocks(frames, true, b)
    decreases |frames|
  {
    hide DiscardArgs;
    if frames != [] {
      var h, g := Last(frames).(numSign := a), Last(frames).(numSign := b);
      if Settled(h) {
        SettledHangs(h);
        SettledDiscards(h);
        SettledDiscards(g);
        BlocksUnsigned(Front(frames), DiscardArgs(h).s.numSign, DiscardArgs(g).s.numSign);
      }
    }
  }

  lemma PlugNothing(h: Stacks, g: Stacks)
    requires Proper(h) && Proper(g) && g.operators == []
    ensures Plug(h, g) == h.(numSign := g.numSign) && Proper(Plug(h, g))
  {
    assert h.operators + [] == h.operators && h.numbers + [] == h.numbers;
  }

  lemma PlugSettled(h: Stacks, g: Stacks)
    requires Settled(h) && Settled(g) && g.operators != [] && Args(g.operators) == 0
    ensures var f := Plug(h, g); Settled(f) && f.operators != [] && Args(f.operators) == 0 && f.numSign == g.numSign
  {
    FirstOpAbove(h.operators, g.operators);
    assert Last(h.operators + g.operators) == Last(g.operators);
  }

  lemma {:induction false} UnwindFails(outer: seq<Stacks>, f: Stacks)
    requires AllProper(outer) && Proper(f)
    ensures Unwind(outer, f).UnwindFailed? <==> Blocks(outer + [f], false, f.numSign)
    decreases |outer|, 1
  {
    hide DiscardArgs, Proper, Hangs, Settled, Args, AllProper, Blocks;
    BlocksMore(outer, f);
    DiscardArgsHangs(f);
    var o := DiscardArgs(f);
    if !Hangs(f) && o.err == NoError {
      if outer == [] {
        assert !Blocks([], o.s.operators != [], o.s.numSign) by { BlocksNothing(o.s.operators != [], o.s.numSign); }
      } else {
        UnwindNext(outer, o.s);
      }
    }
  }

  lemma BlocksNothing(sep: bool, sign: int)
    ensures !Blocks([], sep, sign)
  {
  }

  /** Going on below the topmost brace, with `g` left of what was above it. */
  lemma {:induction false} UnwindNext(outer: seq<Stacks>, g: Stacks)
    requires AllProper(outer) && outer != []
    requires Proper(g) && Settled(g) && Args(g.operators) == 0
    ensures Unwind(Front(outer), Plug(Last(outer), g)).UnwindFailed? <==> Blocks(outer, g.operators != [], g.numSign)
    decreases |outer|, 0
  {
    hide DiscardArgs, Proper, Hangs, Settled, Args, AllProper, Blocks, Plug;
    var h, front := Last(outer), Front(outer);
    var f := Plug(h, g);
    NoneHangsFront(outer);
    BlocksStep(outer, g.operators != [], g.numSign);
    if g.operators == [] {
      PlugNothing(h, g);
      UnwindFails(front, f);
      BlocksMore(front, f);
    } else if !Settled(h) {
      SeparatorBlocks(h, g);
    } else {
      SettledHangs(h);
      PlugSettled(h, g);
      ProperPlug(h, g);
      SettledHangs(f);
      SettledDiscards(f);
      UnwindFails(front, f);
      BlocksMore(front, f);
      var h' := h.(numSign := g.numSign);
      SettledDiscards(h');
      BlocksUnsigned(front, f.numSign, DiscardArgs(h').s.numSign);
    }
  }

  lemma BlocksStep(frames: seq<Stacks>, sep: bool, sign: int)
    requires frames != []
    ensures var h := Last(frames).(numSign := sign);
            var o := DiscardArgs(h);
            && (Hangs(h) <==> Hangs(Last(frames))) && (Settled(h) <==> Settled(Last(frames)))
            && (Blocks(frames, sep, sign) <==>
                  if Hangs(h) then sep
                  else (sep && !Settled(h)) || o.err != NoError
                       || Blocks(Front(frames), sep || o.s.operators != [], o.s.numSign))
    ensures Hangs(Last(frames)) ==> !Settled(Last(frames))
  {
    hide DiscardArgs;
  }

  /**
   * How unwinding ends, by the frames alone: with an error exactly if they block, otherwise
   * with all braces removed exactly if no frame has an operator on top.
   */
  lemma UnwindExact(outer: seq<Stacks>, f: Stacks)
    requires AllProper(outer) && Proper(f)
    ensures var u, blocks := Unwind(outer, f), Blocks(outer + [f], false, f.numSign);
            && (u.UnwindFailed? <==> blocks)
            && (u.Left? <==> !blocks && !Hangs(f) && NoneHangs(outer))
            && (u.UnwindDangling? <==> !blocks && (Hangs(f) || !NoneHangs(outer)))
  {
    hide Blocks, Unwind, Hangs, NoneHangs, Proper, AllProper;
    UnwindFails(outer, f);
    UnwindLeft(outer, f);
  }

  /** Whether a break that is taken is blocked. */
  predicate BreakBlocks(outer: seq<Stacks>, f: Stacks) {
    var g := PopNumCalc(f).s;
    Blocks(outer + [g], false, g.numSign)
  }

  lemma DiscardTwice(f: Stacks)
    requires Proper(f) && DiscardArgs(f).err == NoError
    ensures DiscardArgs(DiscardArgs(f).s) == Outcome(DiscardArgs(f).s, NoError)
  {
    hide DiscardArgs, Settled, Args, Hangs;
    DiscardArgsHangs(f);
    if Hangs(f) {
      DiscardArgsHangs(DiscardArgs(f).s);
    } else {
      SettledDiscards(DiscardArgs(f).s);
    }
  }

  /**
   * How a break ends, by the frames opened since its loop began: it fails exactly if its
   * condition cannot be popped or it is blocked, leaves its loop exactly if no operator is on
   * top of a frame, and otherwise leaves a brace behind.
   */
  lemma RunBreakExact<D>(env: MacroMachine.Env<D>, outer: seq<Stacks>, f: Stacks, d: D)
    requires AllProper(outer) && Proper(f)
    ensures var x, popped := RunBreak(env, true, outer, f, d), PopNumCalc(f).err == NoError;
            var taken := popped && PopNumCalcValue(f, env.search(d)) >= 0;
            var hangs := Hangs(f) || !NoneHangs(outer);
            && (x.Failed? <==> !popped || (taken && BreakBlocks(outer, f)))
            && (x.Fell? <==> popped && !taken)
            && (x.Broke? <==> taken && !BreakBlocks(outer, f) && !hangs)
            && (x.Dangling? <==> taken && !BreakBlocks(outer, f) && hangs)
  {
    hide DiscardArgs, PopNumCalc, PopNumCalcValue, Proper, Hangs, Settled, NoneHangs, AllProper, Unwind, Blocks;
    if PopNumCalc(f).err == NoError {
      PopNumCalcHangs(f);
      var g := PopNumCalc(f).s;
      DiscardArgsHangs(g);
      BlocksMore(outer, g);
      var o := DiscardArgs(g);
      if o.err == NoError {
        DiscardTwice(g);
        BlocksMore(outer, o.s);
        UnwindExact(outer, o.s);
      }
    }
  }

  /** Without a brace opened since the loop, a break fails only if its condition cannot be popped. */
  lemma DirectBreak(f: Stacks)
    requires Proper(f) && PopNumCalc(f).err == NoError
    ensures !BreakBlocks([], f)
  {
    hide DiscardArgs, PopNumCalc, Proper, Hangs, Settled, Blocks;
    PopNumCalcHangs(f);
    var g := PopNumCalc(f).s;
    BlocksMore([], g);
    if !Hangs(g) {
      SettledDiscards(g);
      BlocksNothing(DiscardArgs(g).s.operators != [], DiscardArgs(g).s.numSign);
    }
  }

  // Braces on the operator stack.

  function CountBraces(ops: seq<Op>): (n: nat) {
    if ops == [] then 0 else CountBraces(Front(ops)) + if Last(ops) == Brace then 1 else 0
  }

  /** The number of braces beyond the brace level. */
  function Surplus(s: Stacks): int {
    CountBraces(s.operators) - s.braceLevel
  }

  lemma {:induction false} CountBracesPlug(a: seq<Op>, b: seq<Op>)
    requires Brace !in b
    ensures CountBraces(a + b) == CountBraces(a)
  {
    if b == [] {
      assert a + b == a;
    } else {
      assert Front(a + b) == a + Front(b) && Last(a + b) == Last(b);
      CountBracesPlug(a, Front(b));
    }
  }

  lemma PlugSurplus(b: Stacks, f: Stacks)
    requires Proper(f)
    ensures Surplus(Plug(b, f)) == Surplus(b) && CountBraces(Plug(b, f).operators) == CountBraces(b.operators)
  {
    CountBracesPlug(b.operators, f.operators);
  }

  lemma OpenSurplus(s: Stacks)
    ensures Surplus(Open(s)) == Surplus(s) && CountBraces(Open(s).operators) == CountBraces(s.operators) + 1
  {
    assert Front(s.operators + [Brace]) == s.operators;
  }

  /** The stacks with the frames `outer` on top of `b`, each below a brace. */
  function Base(b: Stacks, outer: seq<Stacks>): Stacks {
    if outer == [] then b else Open(Plug(Base(b, Front(outer)), Last(outer)))
  }

  lemma {:induction false} BaseSurplus(b: Stacks, outer: seq<Stacks>)
    requires AllProper(outer)
    ensures Surplus(Base(b, outer)) == Surplus(b) && Base(b, outer).braceLevel == b.braceLevel + |outer|
  {
    hide Surplus, Open, Plug, Proper;
    if outer != [] {
      NoneHangsFront(outer);
      BaseSurplus(b, Front(outer));
      var c := Base(b, Front(outer));
      PlugSurplus(c, Last(outer));
      OpenSurplus(Plug(c, Last(outer)));
      assert Open(Plug(c, Last(outer))).braceLevel == c.braceLevel + 1 by { OpenLevel(c, Last(outer)); }
    }
  }

  lemma OpenLevel(c: Stacks, f: Stacks)
    ensures Open(Plug(c, f)).braceLevel == c.braceLevel + 1
  {
  }

  // The closing bracket and the end of the last iteration.

  /**
   * A closing bracket that does not fail lowers the brace level; it also removes the brace
   * exactly if no operator is on top of the frame.
   */
  lemma CloseExact(c: Stacks, f: Stacks)
    requires Proper(f)
    ensures var e := Eval(false, f);
            var o := BraceClose(Plug(Open(c), f));
            && (o.err == NoError ==>
                  o.s.braceLevel == c.braceLevel && (Surplus(o.s) == Surplus(c) <==> !Hangs(f)))
            && if Hangs(f) then
                 o == Outcome(Plug(Open(c), f).(braceLevel := c.braceLevel), NoError) && Surplus(o.s) == Surplus(c) + 1
               else if e.err != NoError then o.err == e.err
               else Proper(e.s) && o == Outcome(Plug(c, e.s), NoError)
  {
    hide Eval, Hangs, Proper, Surplus;
    var s := Plug(Open(c), f);
    ClosePlug(c, f);
    ExpressionGrammar.EvalIgnoresLevel(true, s, c.braceLevel);
    PlugSurplus(Open(c), f);
    OpenSurplus(c);
    if !Hangs(f) && Eval(false, f).err == NoError {
      PlugSurplus(c, Eval(false, f).s);
    }
    LevelSurplus(s, c.braceLevel);
  }

  lemma LevelSurplus(s: Stacks, k: nat)
    ensures Surplus(s.(braceLevel := k)) == Surplus(s) + s.braceLevel - k
  {
  }

  /**
   * The `>` that ends the last iteration of a loop discards the arguments first. It fails
   * exactly if no operator is on top and the frame cannot be resolved.
   */
  lemma LastIterationExact(c: Stacks, f: Stacks)
    requires Proper(f)
    ensures var o := DiscardArgs(Plug(Open(c), f));
            var o' := BraceClose(o.s);
            && (o.err != NoError <==> !Hangs(f) && Eval(false, f).err != NoError)
            && (o.err == NoError ==>
                  && o'.err == NoError && o'.s.braceLevel == c.braceLevel
                  && (Surplus(o'.s) == Surplus(c) <==> !Hangs(f)))
  {
    hide Eval, DiscardArgs, BraceClose, Proper, Hangs, Surplus, Plug, Open, IsBase, Settled;
    OpenIsBase(c);
    DiscardArgsPlug(Open(c), f);
    DiscardArgsHangs(f);
    DiscardFails(f);
    var g := DiscardArgs(f).s;
    if DiscardArgs(f).err == NoError {
      CloseExact(c, g);
      if !Hangs(g) {
        EvalSettled(g);
      }
    }
  }

  /** Discarding fails exactly if resolving does. */
  lemma DiscardFails(f: Stacks)
    requires Proper(f)
    ensures DiscardArgs(f).err == Eval(false, f).err
  {
    hide Eval, Proper, Hangs, DiscardLoop, Args;
    if Hangs(f) {
      ProperHangs(f);
      EvalHangs(false, f);
      DiscardNone(f);
    } else if Eval(false, f).err == NoError {
      EvalSettles(f);
      var g := Eval(false, f).s;
      DiscardLoopSettles(Args(g.operators), g);
    }
  }

  lemma OpenIsBase(c: Stacks)
    ensures IsBase(Open(c))
  {
  }

  // The break.

  /** From an operator on top, leaving braces only lowers the brace level. */
  lemma {:induction false} HangsKeepsBraces(keep: nat, s: Stacks)
    requires Hangs(s) && Last(s.operators) != Brace && keep <= s.braceLevel
    ensures LeaveBraces(keep, s) == Outcome(s.(braceLevel := keep), NoError)
    decreases s.braceLevel
  {
    hide DiscardArgs, Eval, Hangs;
    if keep < s.braceLevel {
      DiscardHanging(s);
      EvalHangs(true, s);
      HangsLevel(s, s.braceLevel - 1);
      HangsKeepsBraces(keep, s.(braceLevel := s.braceLevel - 1));
    }
  }

  lemma HangsLevel(s: Stacks, k: nat)
    ensures Hangs(s.(braceLevel := k)) <==> Hangs(s)
  {
  }

  lemma DiscardHanging(s: Stacks)
    requires Hangs(s) && Last(s.operators) != Brace
    ensures DiscardArgs(s) == Outcome(s, NoError)
  {
    EvalHangs(false, s);
    assert Args(s.operators) == 0;
  }

  /** Discarding the arguments of one level and removing its brace. */
  lemma UnwindStep(c: Stacks, f: Stacks)
    requires Proper(f) && !Hangs(f)
    ensures var o := DiscardArgs(f);
            var o' := DiscardArgs(Plug(Open(c), f));
            && o'.err == o.err
            && (o.err == NoError ==>
                  && Proper(o.s)
                  && Eval(true, o'.s) == Outcome(Plug(c, o.s).(braceLevel := c.braceLevel + 1), NoError))
  {
    hide DiscardArgs, Eval, FirstOp, Proper, Plug, Hangs, Args, IsBase;
    OpenIsBase(c);
    DiscardArgsPlug(Open(c), f);
    DiscardArgsHangs(f);
    var o := DiscardArgs(f);
    if o.err == NoError {
      PopBracePlug(c, o.s);
    }
  }

  /** Leaving all braces of a loop leaves the frame outside with what was not discarded, or the braces that stay. */
  lemma {:induction false} UnwindLeaves(b0: Stacks, f0: Stacks, outer: seq<Stacks>, f: Stacks)
    requires Proper(f) && Proper(f0) && AllProper(outer)
    ensures var b := Open(Plug(b0, f0));
            var o := LeaveBraces(b0.braceLevel, Plug(Base(b, outer), f));
            match Unwind(outer, f)
            case UnwindFailed(e) => o.err == e && e != NoError
            case Left(g) => o == Outcome(Plug(b0, Plug(f0, g)), NoError) && Proper(g)
            case UnwindDangling(rest, g) =>
              && o == Outcome(Plug(Base(b, rest), g).(braceLevel := b0.braceLevel), NoError)
              && rest <= outer && Proper(g)
    decreases |outer|
  {
    hide DiscardArgs, Eval, Hangs, Proper, AllProper;
    var b := Open(Plug(b0, f0));
    BaseSurplus(b, outer);
    var s := Plug(Base(b, outer), f);
    if Hangs(f) {
      HangsPlug(Base(b, outer), f);
      HangsKeepsBraces(b0.braceLevel, s);
    } else {
      var c := if outer == [] then Plug(b0, f0) else Plug(Base(b, Front(outer)), Last(outer));
      assert Base(b, outer) == Open(c);
      UnwindStep(c, f);
      var g := DiscardArgs(f).s;
      if DiscardArgs(f).err == NoError {
        if outer == [] {
          PlugAssoc(b0, f0, g);
          assert LeaveBraces(b0.braceLevel, Plug(c, g)) == Outcome(Plug(c, g), NoError);
        } else {
          NoneHangsFront(outer);
          PlugAssoc(Base(b, Front(outer)), Last(outer), g);
          ProperPlug(Last(outer), g);
          UnwindLeaves(b0, f0, Front(outer), Plug(Last(outer), g));
        }
      }
    }
  }

  lemma PrefixProper(rest: seq<Stacks>, outer: seq<Stacks>)
    requires rest <= outer && AllProper(outer)
    ensures AllProper(rest)
  {
  }

  /** The braces that stay behind when unwinding stops at an operator. */
  lemma DanglingSurplus(b0: Stacks, f0: Stacks, outer: seq<Stacks>, g: Stacks)
    requires Proper(f0) && Proper(g) && AllProper(outer)
    ensures var b := Open(Plug(b0, f0));
            Surplus(Plug(Base(b, outer), g).(braceLevel := b0.braceLevel)) == Surplus(b0) + 1 + |outer|
  {
    hide Proper, Surplus, AllProper;
    var b := Open(Plug(b0, f0));
    PlugSurplus(b0, f0);
    OpenSurplus(Plug(b0, f0));
    BaseSurplus(b, outer);
    PlugSurplus(Base(b, outer), g);
    LevelSurplus(Plug(Base(b, outer), g), b0.braceLevel);
  }

  /**
   * Leaving all braces of a loop fails exactly if the frames above them block. Otherwise it
   * lowers the brace level to that of the loop, and removes all the braces exactly if no
   * operator is on top of one of these frames.
   */
  lemma BreakExact(b0: Stacks, f0: Stacks, outer: seq<Stacks>, f: Stacks)
    requires Proper(f) && Proper(f0) && AllProper(outer)
    ensures var o := LeaveBraces(b0.braceLevel, Plug(Base(Open(Plug(b0, f0)), outer), f));
            && (o.err != NoError <==> Blocks(outer + [f], false, f.numSign))
            && (o.err == NoError ==>
                  && o.s.braceLevel == b0.braceLevel
                  && Surplus(o.s) >= Surplus(b0)
                  && (Surplus(o.s) == Surplus(b0) <==> !Hangs(f) && NoneHangs(outer)))
  {
    hide Proper, Surplus, AllProper, Hangs, NoneHangs, Unwind, LeaveBraces, Base, Blocks;
    UnwindLeaves(b0, f0, outer, f);
    UnwindExact(outer, f);
    match Unwind(outer, f)
    case UnwindFailed(_) =>
    case Left(g) =>
      PlugAssoc(b0, f0, g);
      PlugSurplus(b0, f0);
      PlugSurplus(Plug(b0, f0), g);
    case UnwindDangling(rest, g) =>
      PrefixProper(rest, outer);
      DanglingSurplus(b0, f0, rest, g);
  }
}
