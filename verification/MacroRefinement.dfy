/**
 * The flat interpreter refines the structured semantics: running the text of a program leaves
 * the machine where the structured run ends, without any syntax tree.
 */
module MacroRefinement {
  import opened MacroMachine
  import opened StructuredMacros

  /** The text holds `s` at position `pc`. */
  predicate At(text: string, pc: nat, s: string) {
    pc + |s| <= |text| && text[pc..pc + |s|] == s
  }

  lemma AtSplit(text: string, pc: nat, a: string, b: string)
    requires At(text, pc, a + b)
    ensures At(text, pc, a) && At(text, pc + |a|, b)
  {
    var s := text[pc..pc + |a + b|];
    assert text[pc..pc + |a|] == s[..|a|];
    assert text[pc + |a|..pc + |a| + |b|] == s[|a|..];
  }

  lemma AtChar(text: string, pc: nat, c: char, b: string)
    requires At(text, pc, [c] + b)
    ensures pc < |text| && text[pc] == c && At(text, pc + 1, b)
  {
    AtSplit(text, pc, [c], b);
    assert text[pc..pc + 1][0] == c;
  }

  lemma Then<D>(env: Env<D>, text: string, m: Machine<D>, a: nat, m1: Machine<D>, b: nat)
    requires Run(env, text, m, a) == Go(m1)
    ensures Run(env, text, m, a + b) == Run(env, text, m1, b)
  {
    RunSplit(env, text, m, a, b);
  }

  /** One character that leads from `m` to `m'`. */
  lemma Advance<D>(env: Env<D>, text: string, m: Machine<D>, a: nat, m1: Machine<D>, c: char, m2: Machine<D>)
    requires Run(env, text, m, a) == Go(m1)
    requires m1.pc < |text| && text[m1.pc] == c
    requires Input(env, c, m1.(pc := m1.pc + 1)) == Go(m2)
    ensures Run(env, text, m, a + 1) == Go(m2)
  {
    hide Input, Run;
    Then(env, text, m, a, m1, 1);
    RunOne(env, text, m1);
  }

  lemma Start0<D>(env: Env<D>, text: string, m: Machine<D>)
    ensures Run(env, text, m, 0) == Go(m)
  {
  }

  predicate Skipping<D>(m: Machine<D>) {
    (m.mode == SkipLoop || m.mode == SkipCond) && !m.conditional
  }

  function Moved<D>(m: Machine<D>, len: nat): Machine<D> {
    m.(pc := m.pc + len)
  }

  /** The two characters that open a conditional are counted while skipping one. */
  lemma SkipCondStart<D>(env: Env<D>, text: string, m: Machine<D>, c: char)
    requires Skipping(m) && IsConditionType(c) && At(text, m.pc, ['"', c])
    ensures Run(env, text, m, 2) ==
            Go(Inside(m, 2))
  {
    hide Run, IsConditionType;
    AtSplit(text, m.pc, ['"'], [c]);
    assert text[m.pc..m.pc + 1][0] == '"' && text[m.pc + 1..m.pc + 2][0] == c;
    Start0(env, text, m);
    Advance(env, text, m, 0, m, '"', Moved(m, 1).(conditional := true));
    Advance(env, text, m, 1, Moved(m, 1).(conditional := true), c,
            Moved(m, 2).(nest := if m.mode == SkipCond then m.nest + 1 else m.nest));
  }

  /** In a skip mode a whole program is passed over without any effect. */
  lemma {:induction false} Skip<D>(env: Env<D>, p: Prog, text: string, m: Machine<D>)
    requires WellFormed(p) && Skipping(m) && At(text, m.pc, Text(p))
    ensures Run(env, text, m, |Text(p)|) == Go(Moved(m, |Text(p)|))
    decreases p, 1
  {
    hide Run, Input, At, IsConditionType, Moved, Inside, Skipping;
    match p
    case Done =>
      Start0(env, text, m);
      assert Moved(m, 0) == m by { MovedZero(m); }
    case Do(c, r) => SkipChar(env, text, m, c, r);
    case Break(r) => SkipChar(env, text, m, ';', r);
    case Loop(b, r) => SkipBracket(env, text, m, p, '<', b, '>', r);
    case Paren(b, r) => SkipBracket(env, text, m, p, '(', b, ')', r);
    case Cond(c, t, r) => SkipThen(env, p, text, m);
    case CondElse(c, t, e, r) => SkipThenElse(env, p, text, m);
  }

  lemma {:induction false} SkipThen<D>(env: Env<D>, p: Prog, text: string, m: Machine<D>)
    requires p.Cond? && WellFormed(p) && Skipping(m) && At(text, m.pc, Text(p))
    ensures Run(env, text, m, |Text(p)|) == Go(Moved(m, |Text(p)|))
    decreases p, 0
  {
    hide Run, At, IsConditionType, Moved, Inside, Skipping;
    SkipConditional(env, text, m, p.c, p.thn, "'" + Text(p.rest));
    SkipEnd(env, text, m, 2 + |Text(p.thn)|, p.rest);
  }

  lemma {:induction false} SkipThenElse<D>(env: Env<D>, p: Prog, text: string, m: Machine<D>)
    requires p.CondElse? && WellFormed(p) && Skipping(m) && At(text, m.pc, Text(p))
    ensures Run(env, text, m, |Text(p)|) == Go(Moved(m, |Text(p)|))
    decreases p, 0
  {
    hide Run, At, IsConditionType, Moved, Inside, Skipping;
    SkipConditional(env, text, m, p.c, p.thn, "|" + (Text(p.els) + ("'" + Text(p.rest))));
    SkipElse(env, text, m, 2 + |Text(p.thn)|, p.els, "'" + Text(p.rest));
    SkipEnd(env, text, m, 3 + |Text(p.thn)| + |Text(p.els)|, p.rest);
  }

  lemma MovedZero<D>(m: Machine<D>)
    ensures Moved(m, 0) == m
  {
  }

  /** The machine inside a skipped conditional, `len` characters after `m`. */
  function Inside<D>(m: Machine<D>, len: nat): Machine<D> {
    Moved(m, len).(nest := if m.mode == SkipCond then m.nest + 1 else m.nest)
  }

  lemma ElseIgnored<D>(env: Env<D>, m: Machine<D>)
    requires !m.conditional && (m.mode == SkipLoop || (m.mode == SkipCond && m.nest > 0))
    ensures Input(env, '|', m) == Go(m)
  {
  }

  lemma {:induction false} SkipElse<D>(env: Env<D>, text: string, m: Machine<D>, len: nat, e: Prog, tail: string)
    requires WellFormed(e) && Skipping(m) && Run(env, text, m, len) == Go(Inside(m, len))
    requires At(text, m.pc + len, "|" + (Text(e) + tail))
    ensures Run(env, text, m, len + 1 + |Text(e)|) == Go(Inside(m, len + 1 + |Text(e)|))
    ensures At(text, m.pc + len + 1 + |Text(e)|, tail)
    decreases e, 2
  {
    hide Run, At, Input;
    var m1 := Inside(m, len);
    var m2 := Inside(m, len + 1);
    AtChar(text, m1.pc, '|', Text(e) + tail);
    ElseIgnored(env, m2);
    Advance(env, text, m, len, m1, '|', m2);
    AtSplit(text, m2.pc, Text(e), tail);
    Skip(env, e, text, m2);
    Then(env, text, m, len + 1, m2, |Text(e)|);
  }

  lemma {:induction false} SkipChar<D>(env: Env<D>, text: string, m: Machine<D>, c: char, r: Prog)
    requires WellFormed(r) && Skipping(m) && At(text, m.pc, [c] + Text(r))
    requires IsPlain(c) || c == ';'
    ensures Run(env, text, m, 1 + |Text(r)|) == Go(Moved(m, 1 + |Text(r)|))
    decreases r, 2
  {
    hide Run, At;
    AtChar(text, m.pc, c, Text(r));
    Start0(env, text, m);
    Advance(env, text, m, 0, m, c, Moved(m, 1));
    Skip(env, r, text, Moved(m, 1));
    Then(env, text, m, 1, Moved(m, 1), |Text(r)|);
  }

  /** A bracket that is skipped counts only if a loop is skipped. */
  lemma BracketsSkipped<D>(env: Env<D>, m: Machine<D>, open: char, close: char)
    requires Skipping(m) && ((open == '<' && close == '>') || (open == '(' && close == ')'))
    ensures var k := if open == '<' && m.mode == SkipLoop then m.nest + 1 else m.nest;
            && Skipping(m.(nest := k))
            && forall pc :: Input(env, open, m.(pc := pc)) == Go(m.(pc := pc, nest := k))
                            && Input(env, close, m.(pc := pc, nest := k)) == Go(m.(pc := pc))
    ensures forall pc, k :: Skipping(m.(pc := pc, nest := k))
  {
  }

  lemma {:induction false} SkipBracket<D>(env: Env<D>, text: string, m: Machine<D>, p: Prog, open: char, b: Prog,
      close: char, r: Prog)
    requires WellFormed(b) && WellFormed(r) && Skipping(m)
    requires p == Loop(b, r) || p == Paren(b, r)
    requires At(text, m.pc, [open] + (Text(b) + ([close] + Text(r))))
    requires (open == '<' && close == '>') || (open == '(' && close == ')')
    ensures var len := |Text(b)| + |Text(r)| + 2;
            Run(env, text, m, len) == Go(Moved(m, len))
    decreases p, 0
  {
    hide Run, At, WellFormed, Text, Input, Skipping;
    BracketsSkipped(env, m, open, close);
    var k := if open == '<' && m.mode == SkipLoop then m.nest + 1 else m.nest;
    AtChar(text, m.pc, open, Text(b) + ([close] + Text(r)));
    Start0(env, text, m);
    var m1 := Moved(m, 1).(nest := k);
    Advance(env, text, m, 0, m, open, m1);
    AtSplit(text, m1.pc, Text(b), [close] + Text(r));
    Skip(env, b, text, m1);
    Then(env, text, m, 1, m1, |Text(b)|);
    var m2 := Moved(m1, |Text(b)|);
    AtChar(text, m2.pc, close, Text(r));
    var m3 := Moved(m2, 1).(nest := m.nest);
    Advance(env, text, m, 1 + |Text(b)|, m2, close, m3);
    Skip(env, r, text, m3);
    Then(env, text, m, 2 + |Text(b)|, m3, |Text(r)|);
  }

  lemma {:induction false} SkipConditional<D>(env: Env<D>, text: string, m: Machine<D>, c: char, t: Prog, tail: string)
    requires WellFormed(t) && Skipping(m) && IsConditionType(c)
    requires At(text, m.pc, ['"', c] + (Text(t) + tail))
    ensures Run(env, text, m, 2 + |Text(t)|) == Go(Inside(m, 2 + |Text(t)|))
    ensures At(text, m.pc + 2 + |Text(t)|, tail)
    decreases t, 2
  {
    hide Run, At, IsConditionType;
    AtSplit(text, m.pc, ['"', c], Text(t) + tail);
    AtSplit(text, m.pc + 2, Text(t), tail);
    SkipCondStart(env, text, m, c);
    var m1 := Inside(m, 2);
    Skip(env, t, text, m1);
    Then(env, text, m, 2, m1, |Text(t)|);
  }

  lemma {:induction false} SkipEnd<D>(env: Env<D>, text: string, m: Machine<D>, len: nat, r: Prog)
    requires WellFormed(r) && Skipping(m) && Run(env, text, m, len) == Go(Inside(m, len))
    requires At(text, m.pc + len, "'" + Text(r))
    ensures Run(env, text, m, len + 1 + |Text(r)|) == Go(Moved(m, len + 1 + |Text(r)|))
    decreases r, 2
  {
    hide Run, At;
    var m1, m2 := Inside(m, len), Moved(m, len + 1);
    AtChar(text, m1.pc, '\'', Text(r));
    Advance(env, text, m, len, m1, '\'', m2);
    Skip(env, r, text, m2);
    Then(env, text, m, len + 1, m2, |Text(r)|);
  }
}
