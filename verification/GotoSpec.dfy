/**
 * Goto by labels that are collected while the macro is parsed, and goto by a table of all labels.
 * The macro is a sequence of characters of other commands, label definitions and goto commands.
 */
module GotoSpec {
  import opened Options
  import opened Words
  import opened ExpressionSpec
  import opened Frames
  import opened MacroMachine

  datatype Token =
    | Char(c: char)
    | Label(name: string)
    | Goto(labels: string, colon: bool)

  datatype Error = Macro(fault: Fault) | NoLabelsGiven | LabelNotFound | UnterminatedLoop | UnterminatedCommand

  datatype Outcome<D> = Finished(m: Machine<D>) | Failed(error: Error) | Running

  type Table = map<string, nat>

  // Selecting a label from a comma-separated list.

  /** The position of the first comma from `i` on, or the end of the string. */
  function Comma(s: string, i: nat): (j: nat)
    requires i <= |s|
    ensures i <= j <= |s| && (j < |s| ==> s[j] == ',')
    decreases |s| - i
  {
    if i == |s| || s[i] == ',' then i else Comma(s, i + 1)
  }

  /** The comma-separated fields of `s` from `i` on. */
  function Fields(s: string, i: nat): (r: seq<string>)
    requires i <= |s|
    ensures r != []
    decreases |s| - i
  {
    var j := Comma(s, i);
    [s[i..j]] + if j < |s| then Fields(s, j + 1) else []
  }

  /** The label selected by `value`, or none. */
  function Selected(s: string, value: Word): string {
    if 0 <= value < |Fields(s, 0)| then Fields(s, 0)[value] else []
  }

  // Tables of labels.

  /** The first definition of every label among the first `n` tokens: where to go on after it. */
  function FirstDefs(text: seq<Token>, n: nat): Table
    requires n <= |text|
  {
    if n == 0 then map[]
    else
      var t := FirstDefs(text, n - 1);
      if text[n - 1].Label? && text[n - 1].name !in t then t[text[n - 1].name := n] else t
  }

  lemma {:induction false} DefsKept(text: seq<Token>, n: nat, k: nat, target: string)
    requires n <= k <= |text| && target in FirstDefs(text, n)
    ensures target in FirstDefs(text, k) && FirstDefs(text, k)[target] == FirstDefs(text, n)[target]
    decreases k
  {
    if n < k {
      DefsKept(text, n, k - 1, target);
    }
  }

  lemma {:induction false} DefsBounded(text: seq<Token>, n: nat, target: string)
    requires n <= |text| && target in FirstDefs(text, n)
    ensures 0 < FirstDefs(text, n)[target] <= n && text[FirstDefs(text, n)[target] - 1] == Label(target)
    ensures forall i :: 0 <= i < FirstDefs(text, n)[target] - 1 ==> text[i] != Label(target)
  {
    if n > 0 && target in FirstDefs(text, n - 1) {
      DefsBounded(text, n - 1, target);
    } else {
      NotDefined(text, n - 1, target);
    }
  }

  /** A label is in the table exactly if it is defined. */
  lemma {:induction false} NotDefined(text: seq<Token>, n: nat, target: string)
    requires n <= |text|
    ensures target !in FirstDefs(text, n) <==> forall i :: 0 <= i < n ==> text[i] != Label(target)
  {
    if n > 0 {
      NotDefined(text, n - 1, target);
    }
  }

  // The interpreter that knows all labels.

  function Finish<D>(env: Env<D>, m: Machine<D>): Outcome<D> {
    if |m.loops| > env.fp then Failed(UnterminatedLoop)
    else if m.conditional then Failed(UnterminatedCommand)
    else Finished(m)
  }

  datatype Jump<D> = Ready(m: Machine<D>, target: string) | Refused(error: Error)

  /** The label that a goto command selects, with the stacks after its argument was taken. */
  function Select<D>(labels: string, m: Machine<D>): Jump<D> {
    if labels == [] then Refused(NoLabelsGiven)
    else
      var o := PopNumCalc(m.es);
      if o.err != NoError then Refused(Macro(CalculationFailed(o.err)))
      else Ready(m.(es := o.s), Selected(labels, PopNumCalcValue(m.es, 0)))
  }

  datatype Move<D> = Going(m: Machine<D>) | Halt(error: Error)

  /** One token, with all labels known from the start. */
  function EagerInput<D>(env: Env<D>, text: seq<Token>, m: Machine<D>): Move<D>
    requires m.pc < |text|
  {
    var m' := m.(pc := m.pc + 1);
    var all := FirstDefs(text, |text|);
    match text[m.pc]
    case Char(c) =>
      var r := Input(env, c, m');
      if r.Fail? then Halt(Macro(r.fault)) else Going(r.m)
    case Label(_) =>
      if m.conditional then Halt(Macro(InvalidConditional)) else Going(m')
    case Goto(labels, colon) =>
      if m.conditional then Halt(Macro(InvalidConditional))
      else if m.mode != Normal then Going(m')
      else
        var j := Select(labels, m');
        if j.Refused? then Halt(j.error)
        else if j.target == [] then Going(j.m)
        else if j.target in all then Going(j.m.(pc := all[j.target]))
        else if colon then Going(j.m)
        else Halt(LabelNotFound)
  }

  function EagerRun<D>(env: Env<D>, text: seq<Token>, m: Machine<D>, fuel: nat): Outcome<D>
    decreases fuel
  {
    if m.pc >= |text| then Finish(env, m)
    else if fuel == 0 then Running
    else
      var r := EagerInput(env, text, m);
      if r.Halt? then Failed(r.error) else EagerRun(env, text, r.m, fuel - 1)
  }

  // The interpreter that collects labels as it parses.

  /** `skip` is the label that is looked for, and `backup` where to go on if it is not found. */
  datatype Lazy<D> = Lazy(m: Machine<D>, table: Table, complete: bool, skip: Option<string>, backup: Option<nat>)

  datatype Next<D> = On(s: Lazy<D>) | Stop(error: Error)

  /** A label definition that the program counter has just passed. */
  function LabelInput<D>(name: string, s: Lazy<D>): Lazy<D> {
    if name in s.table then s
    else
      var s' := s.(table := s.table[name := s.m.pc]);
      if s.skip == Some(name) then s'.(skip := None, backup := None) else s'
  }

  function GotoInput<D>(labels: string, colon: bool, s: Lazy<D>): Next<D> {
    if s.skip.Some? || s.m.mode != Normal then On(s)
    else
      var j := Select(labels, s.m);
      if j.Refused? then Stop(j.error)
      else if j.target == [] then On(s.(m := j.m))
      else if j.target in s.table then On(s.(m := j.m.(pc := s.table[j.target])))
      else if !s.complete then On(s.(m := j.m, skip := Some(j.target), backup := if colon then Some(s.m.pc) else None))
      else if colon then On(s.(m := j.m))
      else Stop(LabelNotFound)
  }

  /** A character of another command; while a label is looked for, only conditionals are parsed. */
  function CharInput<D>(env: Env<D>, c: char, s: Lazy<D>): Next<D> {
    if s.skip.None? then
      var r := Input(env, c, s.m);
      if r.Fail? then Stop(Macro(r.fault)) else On(s.(m := r.m))
    else if s.m.conditional then
      if IsConditionType(c) then On(s.(m := s.m.(conditional := false))) else Stop(Macro(InvalidConditional))
    else On(s.(m := s.m.(conditional := c == '"')))
  }

  function TokenInput<D>(env: Env<D>, t: Token, s: Lazy<D>): Next<D> {
    if t.Char? then CharInput(env, t.c, s)
    else if s.m.conditional then Stop(Macro(InvalidConditional))
    else if t.Label? then On(LabelInput(t.name, s))
    else GotoInput(t.labels, t.colon, s)
  }

  /** The program counter moves past a token before the token is executed. */
  function Passed<D>(s: Lazy<D>): Lazy<D> {
    s.(m := s.m.(pc := s.m.pc + 1))
  }

  /** At the end of the macro, going on after a goto whose label was not found. */
  function Resume<D>(s: Lazy<D>): Lazy<D>
    requires s.backup.Some?
  {
    Lazy(s.m.(pc := s.backup.value, conditional := false), s.table, true, None, None)
  }

  function LazyRun<D>(env: Env<D>, text: seq<Token>, s: Lazy<D>, fuel: nat): Outcome<D>
    decreases fuel
  {
    if s.m.pc >= |text| then
      if s.backup.Some? then if fuel == 0 then Running else LazyRun(env, text, Resume(s), fuel - 1)
      else if s.skip.Some? then Failed(LabelNotFound)
      else Finish(env, s.m)
    else if fuel == 0 then Running
    else
      var r := TokenInput(env, text[s.m.pc], Passed(s));
      if r.Stop? then Failed(r.error) else LazyRun(env, text, r.s, fuel - 1)
  }

  // Searching for a label that is not yet known.

  /** Every conditional has a valid type. */
  predicate Lexical(text: seq<Token>) {
    forall i :: 0 <= i < |text| && text[i] == Char('"') ==>
                  i + 1 < |text| && text[i + 1].Char? && IsConditionType(text[i + 1].c)
  }

  /** The table after parsing on to `p`. */
  function Parsed(high: nat, p: nat): nat {
    if high < p then p else high
  }

  lemma FirstDefsNext(text: seq<Token>, high: nat, p: nat)
    requires p < |text| && high <= |text| && p <= high
    ensures FirstDefs(text, Parsed(high, p + 1)) ==
            if text[p].Label? && text[p].name !in FirstDefs(text, high)
            then FirstDefs(text, high)[text[p].name := p + 1] else FirstDefs(text, high)
  {
    if p < high && text[p].Label? {
      NotDefined(text, high, text[p].name);
    }
  }

  /** The state while a label is looked for: all labels up to `high` are known, and it is not among them. */
  ghost predicate Searching<D>(text: seq<Token>, s: Lazy<D>, high: nat) {
    && s.m.pc <= high <= |text| && s.table == FirstDefs(text, high)
    && s.skip.Some? && s.skip.value !in s.table
    && (s.m.conditional ==> s.m.pc > 0 && text[s.m.pc - 1] == Char('"'))
  }

  ghost predicate Malformed<D>(o: Outcome<D>) {
    o == Failed(Macro(InvalidConditional))
  }

  /** One step of the search, at a token that does not end it. */
  lemma SearchStep<D>(env: Env<D>, text: seq<Token>, s: Lazy<D>, high: nat)
    requires Searching(text, s, high) && s.m.pc < |text| && text[s.m.pc] != Label(s.skip.value)
    ensures var p := s.m.pc;
            var r := TokenInput(env, text[p], Passed(s));
            if r.Stop? then r.error == Macro(InvalidConditional) && !Lexical(text)
            else Searching(text, r.s, Parsed(high, p + 1))
                 && r.s == s.(m := s.m.(pc := p + 1, conditional := r.s.m.conditional), table := r.s.table)
  {
    hide FirstDefs, Input, Select, IsConditionType;
    FirstDefsNext(text, high, s.m.pc);
  }

  /** The label is found after its definition. */
  lemma SearchEnd<D>(env: Env<D>, text: seq<Token>, s: Lazy<D>, high: nat)
    requires Searching(text, s, high) && s.m.pc < |text| && text[s.m.pc] == Label(s.skip.value)
    ensures s.m.pc >= high
    ensures var p := s.m.pc;
            var r := TokenInput(env, text[p], Passed(s));
            if r.Stop? then r.error == Macro(InvalidConditional) && !Lexical(text)
            else r.s == Lazy(s.m.(pc := p + 1, conditional := false), FirstDefs(text, p + 1), s.complete, None, None)
  {
    hide FirstDefs;
    NotDefined(text, high, s.skip.value);
    FirstDefsNext(text, high, s.m.pc);
  }

  /** The search goes on to the first definition of the label, and from there. */
  lemma {:induction false} SearchFinds<D>(env: Env<D>, text: seq<Token>, s: Lazy<D>, high: nat, p: nat, fuel: nat)
    requires Searching(text, s, high) && s.m.pc < p <= |text| && text[p - 1] == Label(s.skip.value)
    requires forall i :: s.m.pc <= i < p - 1 ==> text[i] != Label(s.skip.value)
    ensures var o, d := LazyRun(env, text, s, fuel), p - s.m.pc;
            var s' := Lazy(s.m.(pc := p, conditional := false), FirstDefs(text, p), s.complete, None, None);
            || (Malformed(o) && !Lexical(text))
            || (if fuel < d then o == Running else o == LazyRun(env, text, s', fuel - d))
    decreases p - s.m.pc
  {
    hide TokenInput, FirstDefs, Finish, Lexical, Searching;
    if fuel > 0 {
      var r := TokenInput(env, text[s.m.pc], Passed(s));
      if s.m.pc == p - 1 {
        SearchEnd(env, text, s, high);
      } else {
        SearchStep(env, text, s, high);
        if r.On? {
          SearchFinds(env, text, r.s, Parsed(high, s.m.pc + 1), p, fuel - 1);
        }
      }
    }
  }

  /** The state after a search to the end of the macro. */
  function Exhausted<D>(text: seq<Token>, s: Lazy<D>): Lazy<D>
    requires s.backup.Some?
  {
    Lazy(s.m.(pc := s.backup.value, conditional := false), FirstDefs(text, |text|), true, None, None)
  }

  /** A label that is not defined is looked for up to the end of the macro. */
  lemma {:induction false} SearchFails<D>(env: Env<D>, text: seq<Token>, s: Lazy<D>, high: nat, fuel: nat)
    requires Searching(text, s, high)
    requires forall i :: s.m.pc <= i < |text| ==> text[i] != Label(s.skip.value)
    ensures var o, d := LazyRun(env, text, s, fuel), |text| - s.m.pc;
            || (Malformed(o) && !Lexical(text))
            || (if fuel < d then o == Running
                else if s.backup.None? then o == Failed(LabelNotFound)
                else if fuel == d then o == Running
                else o == LazyRun(env, text, Exhausted(text, s), fuel - d - 1))
    decreases |text| - s.m.pc
  {
    hide TokenInput, FirstDefs, Finish, Lexical;
    if s.m.pc < |text| && fuel > 0 {
      var r := TokenInput(env, text[s.m.pc], Passed(s));
      SearchStep(env, text, s, high);
      if r.On? {
        SearchFails(env, text, r.s, Parsed(high, s.m.pc + 1), fuel - 1);
      }
    }
  }

  // The two interpreters agree.

  /** All labels up to `high` are known, and all that was executed is before it. */
  ghost predicate Known<D>(env: Env<D>, text: seq<Token>, s: Lazy<D>, high: nat) {
    && s.skip.None? && s.backup.None? && s.m.pc <= high <= |text| && s.table == FirstDefs(text, high)
    && (s.complete ==> high == |text|)
    && LoopsBefore(env, s.m, high)
  }

  ghost predicate LoopsBefore<D>(env: Env<D>, m: Machine<D>, high: nat) {
    forall i :: env.fp <= i < |m.loops| ==> m.loops[i].pc <= high
  }

  /** Other commands never go on beyond what was parsed. */
  lemma InputStays<D>(env: Env<D>, c: char, m: Machine<D>, high: nat)
    requires m.pc <= high && LoopsBefore(env, m, high)
    ensures var r := Input(env, c, m); r.Go? ==> r.m.pc <= high && LoopsBefore(env, r.m, high)
  {
    hide PopNumCalc, PopNumCalcValue, BraceOpen, BraceClose, BraceReturn, DiscardArgs, SignedBrace, TopFrame,
         BelowFrame,
         Proper, Plug, Eval, Test, IsConditionType, PopNum, TopNum, Args;
  }

  lemma MoreBefore<D>(env: Env<D>, m: Machine<D>, high: nat, high': nat)
    requires LoopsBefore(env, m, high) && high <= high'
    ensures LoopsBefore(env, m, high')
  {
  }

  lemma SelectKeeps<D>(labels: string, m: Machine<D>)
    ensures var j := Select(labels, m); j.Ready? ==> j.m == m.(es := j.m.es)
  {
  }

  /** `d` steps of the lazy interpreter do what the eager one does in one. */
  ghost predicate Matches<D>(env: Env<D>, text: seq<Token>, s: Lazy<D>, fuel: nat, r: Move<D>, d: nat, s': Lazy<D>,
      high': nat) {
    var o := LazyRun(env, text, s, fuel);
    || (Malformed(o) && !Lexical(text))
    || (if fuel < d then o == Running
        else if r.Halt? then o == Failed(r.error)
        else Known(env, text, s', high') && s'.m == r.m && o == LazyRun(env, text, s', fuel - d))
  }

  lemma MatchChar<D>(env: Env<D>, text: seq<Token>, s: Lazy<D>, high: nat, fuel: nat)
    returns (s': Lazy<D>, high': nat)
    requires Known(env, text, s, high) && s.m.pc < |text| && !text[s.m.pc].Goto?
    ensures Matches(env, text, s, fuel, EagerInput(env, text, s.m), 1, s', high')
  {
    hide Input, FirstDefs, Finish, LoopsBefore, Lexical;
    s', high' := s, high;
    if fuel > 0 {
      var p := s.m.pc;
      var at := Passed(s);
      var r := TokenInput(env, text[p], at);
      high' := Parsed(high, p + 1);
      FirstDefsNext(text, high, p);
      MoreBefore(env, s.m, high, high');
      if text[p].Char? {
        assert LoopsBefore(env, at.m, high') by { LoopsSame(env, s.m, at.m, high'); }
        InputStays(env, text[p].c, at.m, high');
      } else {
        assert LoopsBefore(env, at.m, high') by { LoopsSame(env, s.m, at.m, high'); }
      }
      if r.On? {
        s' := r.s;
      }
    }
  }

  lemma LoopsSame<D>(env: Env<D>, m: Machine<D>, m': Machine<D>, high: nat)
    requires LoopsBefore(env, m, high) && m'.loops == m.loops
    ensures LoopsBefore(env, m', high)
  {
  }

  /** A goto that needs no search. */
  lemma MatchGotoKnown<D>(env: Env<D>, text: seq<Token>, s: Lazy<D>, high: nat, fuel: nat)
    returns (s': Lazy<D>, high': nat)
    requires Known(env, text, s, high) && s.m.pc < |text| && text[s.m.pc].Goto?
    requires var t := TokenInput(env, text[s.m.pc], Passed(s)); t.On? ==> t.s.skip.None?
    ensures Matches(env, text, s, fuel, EagerInput(env, text, s.m), 1, s', high')
  {
    hide FirstDefs, Finish, LoopsBefore, Lexical, Select;
    s', high' := s, high;
    if fuel > 0 {
      var p := s.m.pc;
      var at := Passed(s);
      var r := TokenInput(env, text[p], at);
      high' := Parsed(high, p + 1);
      FirstDefsNext(text, high, p);
      MoreBefore(env, s.m, high, high');
      var j := Select(text[p].labels, at.m);
      SelectKeeps(text[p].labels, at.m);
      if r.On? {
        s' := r.s;
        assert LoopsBefore(env, s'.m, high') by { LoopsSame(env, s.m, s'.m, high'); }
        if j.Ready? && j.target in s.table {
          DefsKept(text, high, |text|, j.target);
          DefsBounded(text, high, j.target);
        }
      }
    }
  }

  /** A goto to a label that is not yet known starts a search. */
  lemma SearchStarts<D>(env: Env<D>, text: seq<Token>, s: Lazy<D>, high: nat) returns (m: Machine<D>, r: Lazy<D>)
    requires Known(env, text, s, high) && s.m.pc < |text| && text[s.m.pc].Goto?
    requires var t := TokenInput(env, text[s.m.pc], Passed(s)); t.On? && t.s.skip.Some?
    ensures On(r) == TokenInput(env, text[s.m.pc], Passed(s))
    ensures var p, now := s.m.pc, Parsed(high, s.m.pc + 1);
            && Searching(text, r, now) && r.m == m && m == s.m.(pc := p + 1, es := m.es) && !m.conditional
            && r.skip.value != [] && !s.complete && r.complete == s.complete
            && r.backup == (if text[p].colon then Some(p + 1) else None)
            && LoopsBefore(env, m, now)
            && EagerInput(env, text, s.m) ==
               (var all := FirstDefs(text, |text|);
                if r.skip.value in all then Going(m.(pc := all[r.skip.value]))
                else if text[p].colon then Going(m) else Halt(LabelNotFound))
  {
    hide FirstDefs, LoopsBefore, Select;
    var p := s.m.pc;
    var at := Passed(s);
    r := TokenInput(env, text[p], at).s;
    m := Select(text[p].labels, at.m).m;
    SelectKeeps(text[p].labels, at.m);
    FirstDefsNext(text, high, p);
    MoreBefore(env, s.m, high, Parsed(high, p + 1));
    LoopsSame(env, s.m, m, Parsed(high, p + 1));
  }

  lemma MatchFound<D>(env: Env<D>, text: seq<Token>, s: Lazy<D>, high: nat, m: Machine<D>, r: Lazy<D>, fuel: nat)
    returns (d: nat, s': Lazy<D>, high': nat)
    requires Known(env, text, s, high) && s.m.pc < |text|
    requires On(r) == TokenInput(env, text[s.m.pc], Passed(s))
    requires Searching(text, r, Parsed(high, s.m.pc + 1)) && r.m == m && m.pc == s.m.pc + 1 && !m.conditional
        && !r.complete
    requires r.skip.value in FirstDefs(text, |text|) && LoopsBefore(env, m, Parsed(high, s.m.pc + 1))
    ensures 1 <= d <= |text| + 2
    ensures Matches(env, text, s, fuel, Going(m.(pc := FirstDefs(text, |text|)[r.skip.value])), d, s', high')
  {
    hide FirstDefs, Finish, LoopsBefore, Lexical, TokenInput;
    var p, now := s.m.pc, Parsed(high, s.m.pc + 1);
    DefsBounded(text, |text|, r.skip.value);
    var q := FirstDefs(text, |text|)[r.skip.value];
    NotDefined(text, now, r.skip.value);
    s', high' := Lazy(m.(pc := q, conditional := false), FirstDefs(text, q), r.complete, None, None), q;
    d := 1 + (q - (p + 1));
    MoreBefore(env, m, now, q);
    LoopsSame(env, m, s'.m, q);
    if fuel > 0 {
      SearchFinds(env, text, r, now, q, fuel - 1);
    }
  }

  lemma MatchMissing<D>(env: Env<D>, text: seq<Token>, s: Lazy<D>, high: nat, m: Machine<D>, r: Lazy<D>, fuel: nat)
    returns (d: nat, s': Lazy<D>, high': nat)
    requires Known(env, text, s, high) && s.m.pc < |text|
    requires On(r) == TokenInput(env, text[s.m.pc], Passed(s))
    requires Searching(text, r, Parsed(high, s.m.pc + 1)) && r.m == m && m.pc == s.m.pc + 1 && !m.conditional
    requires r.backup.Some? ==> r.backup == Some(m.pc)
    requires r.skip.value !in FirstDefs(text, |text|) && LoopsBefore(env, m, Parsed(high, s.m.pc + 1))
    ensures 1 <= d <= |text| + 2
    ensures Matches(env, text, s, fuel, if r.backup.Some? then Going(m) else Halt(LabelNotFound), d, s', high')
  {
    hide FirstDefs, Finish, LoopsBefore, Lexical, TokenInput;
    var p, now := s.m.pc, Parsed(high, s.m.pc + 1);
    NotDefined(text, |text|, r.skip.value);
    d := 1 + (|text| - (p + 1)) + if r.backup.Some? then 1 else 0;
    s', high' := r, |text|;
    if r.backup.Some? {
      s' := Exhausted(text, r);
      MoreBefore(env, m, now, |text|);
      LoopsSame(env, m, s'.m, |text|);
    }
    if fuel > 0 {
      SearchFails(env, text, r, now, fuel - 1);
    }
  }

  /** A goto to a label that is yet to be found. */
  lemma MatchGotoSearch<D>(env: Env<D>, text: seq<Token>, s: Lazy<D>, high: nat, fuel: nat)
    returns (d: nat, s': Lazy<D>, high': nat)
    requires Known(env, text, s, high) && s.m.pc < |text| && text[s.m.pc].Goto?
    requires var t := TokenInput(env, text[s.m.pc], Passed(s)); t.On? && t.s.skip.Some?
    ensures 1 <= d <= |text| + 2 && Matches(env, text, s, fuel, EagerInput(env, text, s.m), d, s', high')
  {
    hide FirstDefs, LoopsBefore, Select, TokenInput, EagerInput, Matches;
    var m, r := SearchStarts(env, text, s, high);
    if r.skip.value in FirstDefs(text, |text|) {
      d, s', high' := MatchFound(env, text, s, high, m, r, fuel);
    } else {
      d, s', high' := MatchMissing(env, text, s, high, m, r, fuel);
    }
  }

  lemma MatchStep<D>(env: Env<D>, text: seq<Token>, s: Lazy<D>, high: nat, fuel: nat)
    returns (d: nat, s': Lazy<D>, high': nat)
    requires Known(env, text, s, high) && s.m.pc < |text|
    ensures 1 <= d <= |text| + 2 && Matches(env, text, s, fuel, EagerInput(env, text, s.m), d, s', high')
  {
    hide Matches, EagerInput, TokenInput, Known;
    d := 1;
    if !text[s.m.pc].Goto? {
      s', high' := MatchChar(env, text, s, high, fuel);
    } else {
      var t := TokenInput(env, text[s.m.pc], Passed(s));
      if t.On? && t.s.skip.Some? {
        d, s', high' := MatchGotoSearch(env, text, s, high, fuel);
      } else {
        s', high' := MatchGotoKnown(env, text, s, high, fuel);
      }
    }
  }

  /** Enough fuel for the lazy interpreter to do `k` steps of the eager one. */
  function Budget(k: nat, size: nat): nat {
    if k == 0 then 0 else Budget(k - 1, size) + size + 2
  }

  lemma AtEnd<D>(env: Env<D>, text: seq<Token>, s: Lazy<D>, high: nat, fuel: nat, k: nat)
    requires Known(env, text, s, high) && s.m.pc >= |text|
    ensures LazyRun(env, text, s, fuel) == EagerRun(env, text, s.m, k) == Finish(env, s.m)
  {
  }

  lemma {:induction false} EagerThenLazy<D>(env: Env<D>, text: seq<Token>, s: Lazy<D>, high: nat, k: nat, fuel: nat)
    requires Known(env, text, s, high) && EagerRun(env, text, s.m, k) != Running && fuel >= Budget(k, |text|)
    ensures var o := LazyRun(env, text, s, fuel);
            o == EagerRun(env, text, s.m, k) || (Malformed(o) && !Lexical(text))
    decreases k
  {
    hide EagerInput, TokenInput, Known, LazyRun, Finish, Lexical;
    if s.m.pc >= |text| {
      AtEnd(env, text, s, high, fuel, k);
    } else {
      var d, s', high' := MatchStep(env, text, s, high, fuel);
      var r := EagerInput(env, text, s.m);
      if r.Going? && !(Malformed(LazyRun(env, text, s, fuel)) && !Lexical(text)) {
        EagerThenLazy(env, text, s', high', k - 1, fuel - d);
      }
    }
  }

  lemma {:induction false} LazyThenEager<D>(env: Env<D>, text: seq<Token>, s: Lazy<D>, high: nat, fuel: nat)
    requires Known(env, text, s, high) && LazyRun(env, text, s, fuel) != Running
    ensures var o := LazyRun(env, text, s, fuel);
            o == EagerRun(env, text, s.m, fuel) || (Malformed(o) && !Lexical(text))
    decreases fuel
  {
    hide EagerInput, TokenInput, Known, LazyRun, Finish, Lexical;
    if s.m.pc >= |text| {
      AtEnd(env, text, s, high, fuel, fuel);
    } else {
      var d, s', high' := MatchStep(env, text, s, high, fuel);
      var r := EagerInput(env, text, s.m);
      if r.Going? && !(Malformed(LazyRun(env, text, s, fuel)) && !Lexical(text)) {
        LazyThenEager(env, text, s', high', fuel - d);
        EagerMore(env, text, s'.m, fuel - d, fuel - 1);
      } else if r.Halt? && fuel > 0 {
        assert EagerRun(env, text, s.m, fuel) == Failed(r.error);
      }
    }
  }

  lemma {:induction false} EagerMore<D>(env: Env<D>, text: seq<Token>, m: Machine<D>, a: nat, b: nat)
    requires a <= b
    ensures EagerRun(env, text, m, a) != Running ==> EagerRun(env, text, m, b) == EagerRun(env, text, m, a)
    decreases a
  {
    hide EagerInput, Finish;
    if m.pc < |text| && a > 0 {
      var r := EagerInput(env, text, m);
      if r.Going? {
        EagerMore(env, text, r.m, a - 1, b - 1);
      }
    }
  }

  /** A macro about to be executed. */
  function Start<D>(m: Machine<D>): Lazy<D> {
    Lazy(m.(pc := 0), map[], false, None, None)
  }

  ghost predicate Eagerly<D>(env: Env<D>, text: seq<Token>, m: Machine<D>, o: Outcome<D>) {
    exists k :: EagerRun(env, text, m, k) == o
  }

  ghost predicate Lazily<D>(env: Env<D>, text: seq<Token>, s: Lazy<D>, o: Outcome<D>) {
    exists k :: LazyRun(env, text, s, k) == o
  }

  /**
   * Collecting labels while parsing, with searches and with going back after a search that found
   * nothing, has the outcome that a table of all labels would give. (A search may instead fail at
   * a malformed conditional that is never executed.)
   */
  lemma LazyGotoAgrees<D>(env: Env<D>, text: seq<Token>, m: Machine<D>, o: Outcome<D>)
    requires |m.loops| <= env.fp && m.pc == 0 && o != Running
    ensures Lexical(text) ==> (Lazily(env, text, Start(m), o) <==> Eagerly(env, text, m, o))
    ensures Lazily(env, text, Start(m), o) ==> Eagerly(env, text, m, o) || (Malformed(o) && !Lexical(text))
  {
    hide EagerRun, LazyRun, Lexical;
    assert Known(env, text, Start(m), 0);
    if Eagerly(env, text, m, o) {
      var k :| EagerRun(env, text, m, k) == o;
      EagerThenLazy(env, text, Start(m), 0, k, Budget(k, |text|));
    }
    if Lazily(env, text, Start(m), o) {
      var k :| LazyRun(env, text, Start(m), k) == o;
      LazyThenEager(env, text, Start(m), 0, k);
    }
  }

  /** What holds of every state of the lazy interpreter, when the macro has been parsed up to `high`. */
  ghost predicate Consistent<D>(env: Env<D>, text: seq<Token>, s: Lazy<D>, high: nat) {
    && high <= |text| && s.table == FirstDefs(text, high)
    && (s.complete ==> high == |text|)
    && (s.skip.Some? ==> s.skip.value !in s.table)
    && (s.backup.Some? ==> s.skip.Some? && s.backup.value <= high)
    && s.m.pc <= high && LoopsBefore(env, s.m, high)
  }

  /** The table always holds exactly the first definitions in what has been parsed so far. */
  lemma TableConsistent<D>(env: Env<D>, text: seq<Token>, s: Lazy<D>, high: nat)
    requires Consistent(env, text, s, high) && s.m.pc < |text|
    ensures var r := TokenInput(env, text[s.m.pc], Passed(s));
            r.On? ==> Consistent(env, text, r.s, Parsed(high, s.m.pc + 1))
  {
    hide FirstDefs, LoopsBefore, Input, Select, IsConditionType;
    var p, at, high' := s.m.pc, Passed(s), Parsed(high, s.m.pc + 1);
    FirstDefsNext(text, high, p);
    MoreBefore(env, s.m, high, high');
    LoopsSame(env, s.m, at.m, high');
    var r := TokenInput(env, text[p], at);
    match text[p] {
      case Char(c) =>
        InputStays(env, c, at.m, high');
        if r.On? && s.skip.Some? {
          LoopsSame(env, s.m, r.s.m, high');
        }
      case Label(_) =>
      case Goto(labels, _) =>
        SelectKeeps(labels, at.m);
        var j := Select(labels, at.m);
        if j.Ready? && j.target in s.table {
          DefsBounded(text, high, j.target);
        }
        if r.On? {
          LoopsSame(env, s.m, r.s.m, high');
        }
    }
  }

  /** Going on at the end of the macro. */
  lemma ResumeConsistent<D>(env: Env<D>, text: seq<Token>, s: Lazy<D>, high: nat)
    requires Consistent(env, text, s, high) && s.m.pc >= |text| && s.backup.Some?
    ensures Consistent(env, text, Resume(s), high)
  {
    LoopsSame(env, s.m, Resume(s).m, high);
  }

  /** A search can fail where going to the label would not: it parses `"x`, which is no conditional. */
  lemma MalformedMatters<D>(env: Env<D>, m: Machine<D>)
    requires m.pc == 0 && m.mode == Normal && !m.conditional && |m.loops| <= env.fp
    requires m.es == Stacks([], [], 0, 1)
    ensures var text := [Goto("a", false), Char('"'), Char('x'), Label("a")];
            && EagerRun(env, text, m, 1) == Finished(m.(pc := 4))
            && LazyRun(env, text, Start(m), 3) == Failed(Macro(InvalidConditional))
  {
    MalformedJump(env, m);
    MalformedSearch(env, m);
  }

  lemma MalformedJump<D>(env: Env<D>, m: Machine<D>)
    requires m.pc == 0 && m.mode == Normal && !m.conditional && |m.loops| <= env.fp
    requires m.es == Stacks([], [], 0, 1)
    ensures EagerRun(env, [Goto("a", false), Char('"'), Char('x'), Label("a")], m, 1) == Finished(m.(pc := 4))
  {
    hide Input, Selected;
    var text := [Goto("a", false), Char('"'), Char('x'), Label("a")];
    assert FirstDefs(text, 3) == map[];
    assert FirstDefs(text, 4) == map["a" := 4];
    SelectsOne();
    assert EagerInput(env, text, m) == Going(m.(pc := 4));
  }

  lemma MalformedSearch<D>(env: Env<D>, m: Machine<D>)
    requires m.pc == 0 && m.mode == Normal && !m.conditional && m.es == Stacks([], [], 0, 1)
    ensures LazyRun(env, [Goto("a", false), Char('"'), Char('x'), Label("a")], Start(m), 3)
         == Failed(Macro(InvalidConditional))
  {
    hide Input, Selected;
    SelectsOne();
  }

  lemma SelectsOne()
    ensures Selected("a", 0) == "a"
  {
    OneField("a");
  }

  lemma OneField(s: string)
    requires ',' !in s
    ensures Fields(s, 0) == [s]
  {
    var j := Comma(s, 0);
    assert s[0..|s|] == s;
  }
}
