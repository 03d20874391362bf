/** String arguments of commands: termination, string building characters, and escaping. */
module StringBuilding {
  import opened Ascii
  import opened Options
  import opened Rewinding

  const CTRL_Q: char := 17 as char
  const CTRL_CARET: char := 30 as char
  const ESCAPE: char := 27 as char

  datatype BuilderState = Start | Ctl | Escaped | Lower | LowerCtl | Upper | UpperCtl | CtlE

  datatype CaseMode = Normal | ToUpper | ToLower | Disabled

  /** Case folding beyond ASCII. */
  datatype Folding = Folding(upper: char -> char, lower: char -> char)

  function UpperOf(f: Folding, c: char): char {
    if c as int < 0x80 then AsciiUpper(c) else f.upper(c)
  }

  function LowerOf(f: Folding, c: char): char {
    if c as int < 0x80 then AsciiLower(c) else f.lower(c)
  }

  predicate IsCtl(c: char) {
    c < ' '
  }

  /** Sets bit 6, of control characters only. */
  function CtlEcho(c: char): char
    requires IsCtl(c)
  {
    (c as int + 0x40) as char
  }

  /** Clears bit 6. */
  function CtlKey(c: char): char {
    if c as int / 0x40 % 2 == 1 then (c as int - 0x40) as char else c
  }

  /** The argument being collected; `nesting` is 0 once it has been terminated. */
  datatype Argument = Argument(state: BuilderState, mode: CaseMode, escapeChar: char, nesting: int, text: string)

  function EscapedInput(f: Folding, a: Argument, c: char): Argument {
    var folded := match a.mode
      case ToUpper => UpperOf(f, c)
      case ToLower => LowerOf(f, c)
      case _ => c;
    a.(state := Start, text := a.text + [folded])
  }

  function CtlInput(a: Argument, c: char): Argument {
    var u := AsciiUpper(c);
    if u == '^' then a.(state := Start, text := a.text + "^")
    else if u == 'P' then a.(state := Start, mode := Disabled)
    else if u == 'Q' || u == 'R' then a.(state := Escaped)
    else if u == 'V' then a.(state := Lower)
    else if u == 'W' then a.(state := Upper)
    else if u == 'E' then a.(state := CtlE)
    else if u < '@' || u > '_' then a.(state := Start, text := a.text + ['^', u])
    else a.(state := Start, text := a.text + [CtlKey(u)])
  }

  function StartInput(f: Folding, a: Argument, c: char): Argument {
    if a.mode != Disabled && c == '^' then a.(state := Ctl)
    else if a.mode != Disabled && c != CTRL_CARET && IsCtl(c) then CtlInput(a, CtlEcho(c))
    else EscapedInput(f, a, c)
  }

  function CaseCtlInput(a: Argument, c: char, key: char, mode: CaseMode): Argument {
    var u := AsciiUpper(c);
    if u == key then a.(state := Start, mode := mode) else a.(state := Start, text := a.text + [CtlKey(u)])
  }

  /** One character for the string builder. What follows `^E` is not part of this model. */
  function Build(f: Folding, a: Argument, c: char): Argument
    requires !a.state.CtlE?
  {
    match a.state
    case Start => StartInput(f, a, c)
    case Ctl => CtlInput(a, c)
    case Escaped => EscapedInput(f, a, c)
    case Lower =>
      if c == '^' then a.(state := LowerCtl)
      else if IsCtl(c) then CaseCtlInput(a, CtlEcho(c), 'V', ToLower)
      else a.(state := Start, text := a.text + [LowerOf(f, c)])
    case LowerCtl => CaseCtlInput(a, c, 'V', ToLower)
    case Upper =>
      if c == '^' then a.(state := UpperCtl)
      else if IsCtl(c) then CaseCtlInput(a, CtlEcho(c), 'W', ToUpper)
      else a.(state := Start, text := a.text + [UpperOf(f, c)])
    case UpperCtl => CaseCtlInput(a, c, 'W', ToUpper)
  }

  /** How a character changes the nesting. */
  function Nested(f: Folding, a: Argument, c: char): int {
    if !a.state.Start? then a.nesting
    else if a.escapeChar == '{' then
      if c == '{' then a.nesting + 1 else if c == '}' then a.nesting - 1 else a.nesting
    else if UpperOf(f, c) == a.escapeChar then a.nesting - 1 else a.nesting
  }

  function Input(f: Folding, a: Argument, c: char): Argument
    requires !a.state.CtlE?
  {
    var a' := a.(nesting := Nested(f, a, c));
    if a'.nesting == 0 then a' else Build(f, a', c)
  }

  /** What becomes of a terminated argument: the next one, after the last of a command with the usual terminator. */
  function Renewed(a: Argument, last: bool): Argument {
    Argument(Start, Normal, if last then ESCAPE else a.escapeChar, 1, [])
  }

  /** The characters of `s` one after the other, until the argument is terminated. */
  function Feed(f: Folding, a: Argument, s: string): Argument
    decreases |s|
  {
    if s == [] || a.nesting == 0 || a.state.CtlE? then a else Feed(f, Input(f, a, s[0]), s[1..])
  }

  datatype Token =
    | RestoreState(state: BuilderState)
    | RestoreMode(mode: CaseMode)
    | RestoreNesting(nesting: int)
    | RestoreEscape(escapeChar: char)
    | RestoreText(text: string)
    | Truncate(len: nat)

  function Revert(t: Token, a: Argument): Argument {
    match t
    case RestoreState(s) => a.(state := s)
    case RestoreMode(m) => a.(mode := m)
    case RestoreNesting(n) => a.(nesting := n)
    case RestoreEscape(c) => a.(escapeChar := c)
    case RestoreText(t) => a.(text := t)
    case Truncate(len) => if len <= |a.text| then a.(text := a.text[..len]) else a
  }

  /** The string argument as the parser collects it, with the undo tokens that it emits. */
  class StringArgument {
    const folding: Folding
    var escapeChar: char
    var state: BuilderState
    var mode: CaseMode
    var nesting: int
    var text: string
    var log: seq<Token>

    constructor (folding: Folding, escapeChar: char)
      ensures Now() == Argument(Start, Normal, escapeChar, 1, []) && this.folding == folding && log == []
    {
      this.folding, this.escapeChar := folding, escapeChar;
      state, mode, nesting, text, log := Start, Normal, 1, [], [];
    }

    function Now(): Argument
      reads this
    {
      Argument(state, mode, escapeChar, nesting, text)
    }

    /** The tokens emitted since the earlier state revert everything. */
    twostate predicate Undone()
      reads this
    {
      Undoes(Revert, old(log), old(Now()), log, Now())
    }

    /** The tokens revert everything but the text, which was only appended to. */
    twostate predicate Appended()
      reads this
    {
      old(text) <= text && Undoes(Revert, old(log), old(Now()).(text := text), log, Now())
    }

    method SetState(s: BuilderState)
      modifies this`state, this`log
      ensures Now() == old(Now()).(state := s) && Undone()
    {
      UndoesNothing(Revert, log, Now());
      if state != s {
        log := log + [RestoreState(state)];
        state := s;
        UndoesOne(Revert, old(log), old(Now()), RestoreState(old(state)), Now());
      }
    }

    method SetMode(m: CaseMode)
      modifies this`mode, this`log
      ensures Now() == old(Now()).(mode := m) && Undone()
    {
      log := log + [RestoreMode(mode)];
      mode := m;
      UndoesOne(Revert, old(log), old(Now()), RestoreMode(old(mode)), Now());
    }

    /** Appends characters, and leaves the builder in a state. */
    method Append(chars: string, s: BuilderState)
      modifies this`state, this`text, this`log
      ensures Now() == old(Now()).(state := s, text := old(text) + chars) && Appended()
    {
      text := text + chars;
      SetState(s);
    }

    method BuildEscaped(c: char)
      modifies this`state, this`text, this`log
      ensures Now() == EscapedInput(folding, old(Now()), c) && Appended()
    {
      var folded := c;
      match mode {
        case ToUpper => folded := UpperOf(folding, c);
        case ToLower => folded := LowerOf(folding, c);
        case _ =>
      }
      Append([folded], Start);
    }

    /** Changes the mode, and returns to the initial state. */
    method EnterMode(m: CaseMode)
      modifies this`state, this`mode, this`log
      ensures Now() == old(Now()).(state := Start, mode := m) && Undone()
    {
      hide Undoes;
      SetMode(m);
      ghost var l, a := log, Now();
      SetState(Start);
      UndoesTrans(Revert, old(log), old(Now()), l, a, log, Now());
    }

    method BuildCtl(c: char)
      modifies this`state, this`mode, this`text, this`log
      ensures Now() == CtlInput(old(Now()), c) && Appended()
    {
      hide Undoes;
      var u := AsciiUpper(c);
      match u {
        case '^' => Append("^", Start);
        case 'P' => EnterMode(Disabled);
        case 'Q' => SetState(Escaped);
        case 'R' => SetState(Escaped);
        case 'V' => SetState(Lower);
        case 'W' => SetState(Upper);
        case 'E' => SetState(CtlE);
        case _ =>
          if u < '@' || u > '_' {
            Append(['^', u], Start);
          } else {
            Append([CtlKey(u)], Start);
          }
      }
    }

    method BuildCaseCtl(c: char, key: char, newMode: CaseMode)
      modifies this`state, this`mode, this`text, this`log
      ensures Now() == CaseCtlInput(old(Now()), c, key, newMode) && Appended()
    {
      hide Undoes;
      var u := AsciiUpper(c);
      if u == key {
        EnterMode(newMode);
      } else {
        Append([CtlKey(u)], Start);
      }
    }

    /** One character for the string builder. */
    method BuildNext(c: char)
      requires !state.CtlE?
      modifies this`state, this`mode, this`text, this`log
      ensures Now() == Build(folding, old(Now()), c) && Appended()
    {
      hide Undoes, CtlInput, CaseCtlInput, EscapedInput;
      match state {
        case Start =>
          if mode != Disabled && c == '^' {
            SetState(Ctl);
          } else if mode != Disabled && c != CTRL_CARET && IsCtl(c) {
            BuildCtl(CtlEcho(c));
          } else {
            BuildEscaped(c);
          }
        case Ctl => BuildCtl(c);
        case Escaped => BuildEscaped(c);
        case Lower =>
          if c == '^' {
            SetState(LowerCtl);
          } else if IsCtl(c) {
            BuildCaseCtl(CtlEcho(c), 'V', ToLower);
          } else {
            Append([LowerOf(folding, c)], Start);
          }
        case LowerCtl => BuildCaseCtl(c, 'V', ToLower);
        case Upper =>
          if c == '^' {
            SetState(UpperCtl);
          } else if IsCtl(c) {
            BuildCaseCtl(CtlEcho(c), 'W', ToUpper);
          } else {
            Append([UpperOf(folding, c)], Start);
          }
        case UpperCtl => BuildCaseCtl(c, 'W', ToUpper);
      }
    }

    method SetNesting(n: int)
      modifies this`nesting, this`log
      ensures Now() == old(Now()).(nesting := n) && Undone()
      ensures log == old(log) + [RestoreNesting(old(nesting))]
    {
      log := log + [RestoreNesting(nesting)];
      nesting := n;
      UndoesOne(Revert, old(log), old(Now()), RestoreNesting(old(nesting)), Now());
    }

    /** Changes the nesting at a terminator, outside of string building. */
    method Nest(c: char)
      modifies this`nesting, this`log
      ensures Now() == old(Now()).(nesting := Nested(folding, old(Now()), c)) && Undone()
      ensures nesting != old(nesting) ==> log == old(log) + [RestoreNesting(old(nesting))]
    {
      UndoesNothing(Revert, log, Now());
      if state.Start? {
        if escapeChar == '{' {
          if c == '{' {
            SetNesting(nesting + 1);
          } else if c == '}' {
            SetNesting(nesting - 1);
          }
        } else if UpperOf(folding, c) == escapeChar {
          SetNesting(nesting - 1);
        }
      }
    }

    /** A character within the argument is built into the text. */
    method Accumulate(c: char)
      requires !state.CtlE?
      modifies this`state, this`mode, this`text, this`log
      ensures Now() == Build(folding, old(Now()), c) && Undone()
    {
      hide Build, Undoes;
      var t := Truncate(|text|);
      log := log + [t];
      ghost var l1 := log;
      BuildNext(c);
      assert text[..|old(text)|] == old(text);
      UndoesOne(Revert, old(log), old(Now()), t, old(Now()).(text := text));
      UndoesTrans(Revert, old(log), old(Now()), l1, old(Now()).(text := text), log, Now());
    }

    /** One character, up to the termination of the argument. */
    method CollectNext(c: char)
      requires !state.CtlE?
      modifies this
      ensures Now() == Input(folding, old(Now()), c) && Undone()
    {
      hide Build, Undoes, Nested;
      Nest(c);
      if nesting != 0 {
        ghost var l, a := log, Now();
        Accumulate(c);
        UndoesTrans(Revert, old(log), old(Now()), l, a, log, Now());
      }
    }

    /** Hands out the text and makes ready for the next argument; the tokens leave a nesting of 1. */
    method Finish(last: bool) returns (arg: string)
      modifies this
      ensures arg == old(text) && Now() == Renewed(old(Now()), last)
      ensures Undoes(Revert, old(log), old(Now()).(nesting := 1), log, Now())
    {
      hide Undoes;
      arg := text;
      ghost var a0 := Now().(nesting := 1);
      log := log + [RestoreText(text)];
      text := [];
      UndoesOne(Revert, old(log), a0, RestoreText(arg), a0.(text := []));
      ghost var l1, a1 := log, a0.(text := []);
      if last {
        log := log + [RestoreEscape(escapeChar)];
        UndoesOne(Revert, l1, a1, RestoreEscape(escapeChar), a1.(escapeChar := ESCAPE));
        UndoesTrans(Revert, old(log), a0, l1, a1, log, a1.(escapeChar := ESCAPE));
        escapeChar := ESCAPE;
      }
      nesting := 1;
      ghost var l2, a2 := log, Now();
      SetState(Start);
      UndoesTrans(Revert, old(log), a0, l2, a2, log, Now());
      ghost var l3, a3 := log, Now();
      SetMode(Normal);
      UndoesTrans(Revert, old(log), a0, l3, a3, log, Now());
    }

    /** One character of the argument; the one that terminates it completes it. */
    method InputNext(c: char, last: bool) returns (done: Option<string>)
      requires !state.CtlE? && nesting > 0
      modifies this
      ensures var a := Input(folding, old(Now()), c);
              if a.nesting == 0 then done == Some(old(text)) && Now() == Renewed(a, last)
              else done == None && Now() == a
      ensures Undone()
    {
      hide Build, Undoes, Nested;
      Nest(c);
      ghost var l, a := log, Now();
      if nesting == 0 {
        var arg := Finish(last);
        UndoesOne(Revert, old(log), old(Now()), RestoreNesting(old(nesting)), a.(nesting := 1));
        UndoesTrans(Revert, old(log), old(Now()), l, a.(nesting := 1), log, Now());
        done := Some(arg);
      } else {
        Accumulate(c);
        UndoesTrans(Revert, old(log), old(Now()), l, a, log, Now());
        done := None;
      }
    }

    /** The characters of a string, until the argument is terminated. */
    method Collect(s: string)
      modifies this
      ensures Now() == Feed(folding, old(Now()), s) && Undone()
    {
      hide Input, Undoes;
      UndoesNothing(Revert, log, Now());
      var i := 0;
      while i < |s| && nesting != 0 && !state.CtlE?
        invariant 0 <= i <= |s| && Undone()
        invariant Feed(folding, Now(), s[i..]) == Feed(folding, old(Now()), s)
      {
        assert s[i..][0] == s[i] && s[i..][1..] == s[i + 1..];
        ghost var l, a := log, Now();
        CollectNext(s[i]);
        UndoesTrans(Revert, old(log), old(Now()), l, a, log, Now());
        i := i + 1;
      }
    }

    /** The characters of the escaped form of a string. */
    method CollectEscaped(s: string)
      requires Open(Now()) && Tame(folding, escapeChar, s)
      modifies this
      ensures old(Escapable(folding, escapeChar, s)) <==> Now() == old(Now()).(text := old(text) + s)
      ensures Undone()
    {
      EscapeExact(folding, Now(), s);
      var target := Escape(folding, escapeChar, s);
      Collect(target);
    }
  }

  // What the characters of string building do.

  /** Control characters can be typed as a caret and the character 64 codes above, in either case. */
  lemma CaretIsControl(f: Folding, a: Argument, c: char)
    requires a.state == Start && a.mode != Disabled && ('@' <= c <= '_' || 'a' <= c <= 'z') && c != '^'
    ensures var key := (AsciiUpper(c) as int - 64) as char;
            Build(f, Build(f, a, '^'), c) == Build(f, a, key)
  {
  }

  /** A caret before itself gives a caret, and before any other character stays. */
  lemma CaretStays(f: Folding, a: Argument, c: char)
    requires a.state == Start && a.mode != Disabled
    ensures Build(f, Build(f, a, '^'), '^') == a.(text := a.text + "^")
    ensures !('@' <= c <= '_' || 'a' <= c <= 'z') ==> Build(f, Build(f, a, '^'), c) == a.(text := a.text + ['^', c])
  {
  }

  /** `^Q` and `^R` take the next character as it is, but for the case. */
  lemma QuoteIs(f: Folding, a: Argument, quote: char, c: char)
    requires a.state == Start && a.mode != Disabled && (quote == 17 as char || quote == 18 as char)
    ensures Build(f, Build(f, a, quote), c) == a.(text := a.text + [Cased(f, a.mode, c)])
  {
  }

  function Cased(f: Folding, mode: CaseMode, c: char): char {
    if mode == ToUpper then UpperOf(f, c) else if mode == ToLower then LowerOf(f, c) else c
  }

  /** `^V` makes the next character small and `^W` large; typed twice, all that follow. */
  lemma CaseIs(f: Folding, a: Argument, c: char)
    requires a.state == Start && a.mode != Disabled && c != '^' && !IsCtl(c)
    ensures Build(f, Build(f, a, 22 as char), c) == a.(text := a.text + [LowerOf(f, c)])
    ensures Build(f, Build(f, a, 23 as char), c) == a.(text := a.text + [UpperOf(f, c)])
    ensures Build(f, Build(f, a, 22 as char), 22 as char) == a.(mode := ToLower)
    ensures Build(f, Build(f, a, 23 as char), 23 as char) == a.(mode := ToUpper)
    ensures Build(f, a, c) == a.(text := a.text + [Cased(f, a.mode, c)])
  {
  }

  /** After `^P`, all characters are taken as they are. */
  lemma DisabledIs(f: Folding, a: Argument, c: char)
    requires a.state == Start
    ensures a.mode != Disabled ==> Build(f, a, 16 as char) == a.(mode := Disabled)
    ensures a.mode == Disabled ==> Build(f, a, c) == a.(text := a.text + [c])
  {
  }

  // Where an argument ends.

  /** The braces opened in `s` and not closed in it. */
  function Depth(s: string): int {
    if s == [] then 0 else Depth(s[1..]) + if s[0] == '{' then 1 else if s[0] == '}' then -1 else 0
  }

  /** An argument in braces ends with the brace that closes it; those within belong to its text. */
  lemma {:induction false} BracesNest(f: Folding, a: Argument, s: string)
    requires a.state == Start && a.mode == Normal && a.escapeChar == '{'
    requires forall i :: 0 <= i < |s| ==> !IsSpecial(s[i])
    requires forall i :: 0 <= i <= |s| ==> a.nesting + Depth(s[..i]) > 0
    ensures Feed(f, a, s) == a.(text := a.text + s, nesting := a.nesting + Depth(s))
    decreases |s|
  {
    hide Build;
    assert s[..0] == [];
    if s != [] {
      var c, rest := s[0], s[1..];
      var d := if c == '{' then 1 else if c == '}' then -1 else 0;
      var a' := a.(text := a.text + [c], nesting := a.nesting + d);
      assert s[..1][1..] == [] && Depth(s[..1]) == Depth([]) + d;
      SpecialBuild(f, a.(nesting := Nested(f, a, c)), c);
      forall i | 0 <= i <= |rest|
        ensures a'.nesting + Depth(rest[..i]) > 0
      {
        assert s[..i + 1][1..] == rest[..i] && s[..i + 1][0] == c;
        assert Depth(s[..i + 1]) == Depth(rest[..i]) + d;
      }
      assert a'.nesting > 0 && Input(f, a, c) == a';
      BracesNest(f, a', rest);
      assert a.text + [c] + rest == a.text + s;
    } else {
      assert a.text + [] == a.text;
    }
  }

  lemma SpecialBuild(f: Folding, a: Argument, c: char)
    requires a.state == Start && a.mode == Normal && !IsSpecial(c)
    ensures Build(f, a, c) == a.(text := a.text + [c])
  {
    if IsCtl(c) && c != CTRL_CARET {
      EchoKey(c);
    }
  }

  /** Any other argument ends with the first character that is its terminator, in either case. */
  lemma {:induction false} TerminatorEnds(f: Folding, a: Argument, s: string, end: char)
    requires a.state == Start && a.mode == Normal && a.escapeChar != '{' && a.nesting == 1
    requires forall i :: 0 <= i < |s| ==> !IsSpecial(s[i]) && UpperOf(f, s[i]) != a.escapeChar
    requires UpperOf(f, end) == a.escapeChar
    ensures Feed(f, a, s) == a.(text := a.text + s)
    ensures Feed(f, a, s + [end]) == a.(text := a.text + s, nesting := 0)
    decreases |s|
  {
    hide Build;
    if s != [] {
      var c := s[0];
      SpecialBuild(f, a, c);
      TerminatorEnds(f, a.(text := a.text + [c]), s[1..], end);
      assert a.text + [c] + s[1..] == a.text + s && (s + [end])[1..] == s[1..] + [end];
    } else {
      assert a.text + [] == a.text && s + [end] == [end];
      assert Feed(f, a.(nesting := 0), []) == a.(nesting := 0);
    }
  }

  // Escaping.

  predicate NeedsEscape(f: Folding, escapeChar: char, c: char) {
    || UpperOf(f, c) == escapeChar
    || (escapeChar == '[' && c == ']')
    || (escapeChar == '{' && c == '}')
  }

  function EscapedForm(f: Folding, escapeChar: char, s: string): string {
    if s == [] then []
    else (if NeedsEscape(f, escapeChar, s[0]) then [CTRL_Q, s[0]] else [s[0]]) + EscapedForm(f, escapeChar, s[1..])
  }

  /** The terminator is preceded by `^Q`, as is the bracket that closes it; every other character stays alone. */
  lemma EscapedOne(f: Folding, escapeChar: char, c: char)
    ensures EscapedForm(f, escapeChar, [c]) ==
            if UpperOf(f, c) == escapeChar || (escapeChar, c) == ('[', ']') || (escapeChar, c) == ('{', '}')
            then [17 as char, c] else [c]
  {
    assert [c][1..] == [] && EscapedForm(f, escapeChar, []) == [];
  }

  lemma {:induction false} EscapedConcat(f: Folding, escapeChar: char, a: string, b: string)
    ensures EscapedForm(f, escapeChar, a + b) == EscapedForm(f, escapeChar, a) + EscapedForm(f, escapeChar, b)
  {
    hide NeedsEscape;
    if a == [] {
      assert a + b == b;
    } else {
      assert (a + b)[1..] == a[1..] + b;
      EscapedConcat(f, escapeChar, a[1..], b);
    }
  }

  method Escape(f: Folding, escapeChar: char, s: string) returns (target: string)
    ensures target == EscapedForm(f, escapeChar, s)
  {
    target := [];
    var i := 0;
    while i < |s|
      invariant 0 <= i <= |s| && target + EscapedForm(f, escapeChar, s[i..]) == EscapedForm(f, escapeChar, s)
    {
      var c := s[i];
      var before := target;
      if UpperOf(f, c) == escapeChar || (escapeChar == '[' && c == ']') || (escapeChar == '{' && c == '}') {
        target := target + [CTRL_Q];
      }
      target := target + [c];
      assert s[i..][1..] == s[i + 1..];
      EscapeOne(f, escapeChar, s[i..], before, target);
      i := i + 1;
    }
  }

  lemma EscapeOne(f: Folding, escapeChar: char, s: string, before: string, target: string)
    requires s != [] && target == before + if NeedsEscape(f, escapeChar, s[0]) then [CTRL_Q, s[0]] else [s[0]]
    ensures target + EscapedForm(f, escapeChar, s[1..]) == before + EscapedForm(f, escapeChar, s)
  {
  }

  /** Characters that string building does not take for themselves. */
  predicate IsSpecial(c: char) {
    c == '^' || (c < ' ' && CtlEcho(c) in "PQRVWE")
  }

  /** A string that escaping is meant for: it has special characters only as terminators. */
  ghost predicate Tame(f: Folding, escapeChar: char, s: string) {
    forall i :: 0 <= i < |s| ==> !IsSpecial(s[i]) || NeedsEscape(f, escapeChar, s[i])
  }

  /** An argument between two characters, with no string building going on. */
  predicate Open(a: Argument) {
    a.state == Start && a.mode == Normal && (if a.escapeChar == '{' then a.nesting > 0 else a.nesting == 1)
  }

  lemma PlainInput(f: Folding, a: Argument, c: char)
    requires Open(a) && !NeedsEscape(f, a.escapeChar, c) && !IsSpecial(c)
    ensures Input(f, a, c) == a.(text := a.text + [c])
  {
    if IsCtl(c) && c != CTRL_CARET {
      EchoKey(c);
    }
  }

  lemma EchoKey(c: char)
    requires IsCtl(c) && CtlEcho(c) != '^'
    ensures var u := AsciiUpper(CtlEcho(c)); u == CtlEcho(c) && '@' <= u <= '_' && CtlKey(u) == c
  {
  }

  lemma QuotedInput(f: Folding, a: Argument, c: char)
    requires Open(a) && a.escapeChar != CTRL_Q
    ensures var a1 := Input(f, a, CTRL_Q); a1 == a.(state := Escaped) && Input(f, a1, c) == a.(text := a.text + [c])
  {
  }

  /** Escaping needs no character that ends the argument. */
  ghost predicate Escapable(f: Folding, escapeChar: char, s: string) {
    escapeChar != CTRL_Q || forall i :: 0 <= i < |s| ==> !NeedsEscape(f, escapeChar, s[i])
  }

  lemma {:induction false} FeedAppends(f: Folding, a: Argument, s: string)
    requires Open(a) && Tame(f, a.escapeChar, s) && Escapable(f, a.escapeChar, s)
    ensures Feed(f, a, EscapedForm(f, a.escapeChar, s)) == a.(text := a.text + s)
    decreases |s|
  {
    hide Input, NeedsEscape, IsSpecial;
    var e := EscapedForm(f, a.escapeChar, s);
    if s == [] {
      assert a.text + [] == a.text;
    } else {
      var c, rest := s[0], EscapedForm(f, a.escapeChar, s[1..]);
      var a' := a.(text := a.text + [c]);
      assert a'.text + s[1..] == a.text + s;
      if NeedsEscape(f, a.escapeChar, c) {
        QuotedInput(f, a, c);
        assert e[1..] == [c] + rest && ([c] + rest)[1..] == rest;
        assert Feed(f, a, e) == Feed(f, a.(state := Escaped), [c] + rest);
      } else {
        PlainInput(f, a, c);
        assert e[1..] == rest;
      }
      FeedAppends(f, a', s[1..]);
    }
  }

  /** With `^Q` as terminator, the first escape ends the argument. */
  lemma {:induction false} FeedEnds(f: Folding, a: Argument, s: string)
    requires Open(a) && Tame(f, a.escapeChar, s) && !Escapable(f, a.escapeChar, s)
    ensures Feed(f, a, EscapedForm(f, a.escapeChar, s)).nesting == 0
    decreases |s|
  {
    hide NeedsEscape, IsSpecial, Build;
    var e := EscapedForm(f, a.escapeChar, s);
    var c := s[0];
    if NeedsEscape(f, a.escapeChar, c) {
      assert Input(f, a, CTRL_Q).nesting == 0;
    } else {
      PlainInput(f, a, c);
      assert e[1..] == EscapedForm(f, a.escapeChar, s[1..]);
      FeedEnds(f, a.(text := a.text + [c]), s[1..]);
    }
  }

  /**
   * Feeding the escaped form of a string into an open argument appends exactly that string and
   * changes nothing else, unless the terminator is `^Q` and something had to be escaped.
   */
  lemma EscapeExact(f: Folding, a: Argument, s: string)
    requires Open(a) && Tame(f, a.escapeChar, s)
    ensures Feed(f, a, EscapedForm(f, a.escapeChar, s)) == a.(text := a.text + s) <==> Escapable(f, a.escapeChar, s)
  {
    hide NeedsEscape, IsSpecial, Feed;
    if Escapable(f, a.escapeChar, s) {
      FeedAppends(f, a, s);
    } else {
      FeedEnds(f, a, s);
    }
  }
}
