/** The interactive command line: key presses insert, rub out and reinsert characters. */
module CommandLine {
  import opened Strings
  import opened Undo
  import opened CommandLineSpec

  datatype Key = Type(data: seq<char>) | Rubout | RuboutWord | Rubin | RubinWord

  /** How a sequence of key presses was processed. */
  datatype KeyStatus =
    | Handled
    | Refused(start: nat, pc: nat)  // the character at `pc` failed; all from `start` on is rubbed out
    | Stuck                         // out of budget, or a replacement within a replacement

  /** The line state in which inserting `data` starts to execute. */
  function Inserted(str: seq<char>, effectiveLen: nat, data: seq<char>, s: Snapshot): Line
    requires effectiveLen <= |str|
  {
    if |data| <= |str| - effectiveLen && str[effectiveLen..effectiveLen + |data|] == data
    then Line(str, effectiveLen + |data|, effectiveLen, s, [], 0)
    else Line(str[..effectiveLen] + data, effectiveLen + |data|, effectiveLen, s, [], 0)
  }

  // What key presses make of the command line.

  /** The command line with the editor state and undo stack that belong to it. */
  datatype Edit = Edit(str: seq<char>, effectiveLen: nat, s: Snapshot)

  /** `pc` is where execution stopped, if characters were executed. */
  datatype Pressed = Pressed(e: Edit, status: Status, pc: nat)

  function TypedIn(exec: Exec, e: Edit, data: seq<char>, budget: nat): Pressed
    requires e.effectiveLen <= |e.str|
  {
    var o := Loop(exec, Inserted(e.str, e.effectiveLen, data, e.s), budget);
    Pressed(Edit(o.l.str, o.l.effectiveLen, o.l.s), o.status, o.l.pc)
  }

  function RubbedOut(e: Edit): (r: Edit)
    ensures r.str == e.str && r.effectiveLen == if e.effectiveLen == 0 then 0 else e.effectiveLen - 1
  {
    if e.effectiveLen == 0 then e else Edit(e.str, e.effectiveLen - 1, PopTo(e.effectiveLen - 1, e.s))
  }

  /** Rubs out at least one character, until the parser is between two commands. */
  function RubbedOutWord(isStart: Editor -> bool, e: Edit): (r: Edit)
    ensures r.str == e.str && r.effectiveLen <= e.effectiveLen
    decreases e.effectiveLen
  {
    var r := RubbedOut(e);
    if isStart(r.s.ed) || r.effectiveLen == 0 then r else RubbedOutWord(isStart, r)
  }

  /** The next rubbed-out character, if there is one. */
  function NextChar(e: Edit): seq<char>
    requires e.effectiveLen <= |e.str|
  {
    e.str[e.effectiveLen..if e.effectiveLen < |e.str| then e.effectiveLen + 1 else e.effectiveLen]
  }

  /** Moves over one rubbed-out character. */
  function RubbedIn(exec: Exec, e: Edit, budget: nat): Pressed
    requires e.effectiveLen <= |e.str|
  {
    if |e.str| == 0 then Pressed(e, Success, 0)
    else TypedIn(exec, e, NextChar(e), budget)
  }

  /** Moves over rubbed-out characters until the parser is between two commands, or there are no more. */
  function RubbedInWord(exec: Exec, isStart: Editor -> bool, e: Edit, left: nat): Pressed
    requires e.effectiveLen <= |e.str|
    decreases left
  {
    var r := RubbedIn(exec, e, left);
    if r.status != Success || isStart(r.e.s.ed) || r.e.effectiveLen >= |r.e.str| then r
    else if left == 0 then r.(status := Running)
    else RubbedInWord(exec, isStart, r.e, left - 1)
  }

  function Press(exec: Exec, isStart: Editor -> bool, e: Edit, key: Key, budget: nat): Pressed
    requires e.effectiveLen <= |e.str|
  {
    match key
    case Type(data) => TypedIn(exec, e, data, budget)
    case Rubout => Pressed(RubbedOut(e), Success, 0)
    case RuboutWord => Pressed(RubbedOutWord(isStart, e), Success, 0)
    case Rubin => RubbedIn(exec, e, budget)
    case RubinWord => RubbedInWord(exec, isStart, e, budget)
  }

  /** The command line and the outcome after a sequence of keys; after an error all from `start` on is rubbed out. */
  function PressAll(exec: Exec, isStart: Editor -> bool, reset: Editor -> Editor, e: Edit, keys: seq<Key>,
                    start: nat, budget: nat): (Edit, KeyStatus)
    requires e.effectiveLen <= |e.str|
    decreases |keys|
  {
    if keys == [] then (e, Handled)
    else
      var r := Press(exec, isStart, e, keys[0], budget);
      match r.status
      case Success =>
        if r.e.effectiveLen <= |r.e.str| then PressAll(exec, isStart, reset, r.e, keys[1..], start, budget)
            else (r.e, Stuck)
      case Error => (Edit(r.e.str, start, PopTo(start, r.e.s)), Refused(start, r.pc))
      case Return =>
        PressAll(exec, isStart, reset, Edit([], 0, Snapshot(reset(r.e.s.ed), [])), keys[1..], 0, budget)
      case _ => (r.e, Stuck)
  }

  lemma InsertedGood(exec: Exec, base: Editor, str: seq<char>, effectiveLen: nat, data: seq<char>, s: Snapshot)
    requires effectiveLen <= |str| && Agrees(exec, base, str[..effectiveLen], s)
    ensures var l := Inserted(str, effectiveLen, data, s);
            && Good(exec, base, l) && l.effectiveLen <= |l.str|
            && l.str[..l.effectiveLen] == str[..effectiveLen] + data
  {
    hide Agrees;
    assert (str[..effectiveLen] + data)[..effectiveLen] == str[..effectiveLen];
  }

  /** No other line was executed before an error that is reported. */
  predicate InPlace(exec: Exec, base: Editor, l0: Line, l: Line) {
    || (l.saved == [] && l.str == l0.str && l.effectiveLen == l0.effectiveLen && l.pc >= l0.pc)
    || (var line := if l.saved == [] then l.str else l.saved;
        Replay(exec, base, line).Stopped? && Replay(exec, base, line).verdict.Replaced?)
  }

  lemma InPlaceKept(exec: Exec, base: Editor, l0: Line, l: Line)
    requires ReplacesProperly(exec) && Good(exec, base, l) && l.pc < l.effectiveLen && InPlace(exec, base, l0, l)
    requires l.pc < |l.str| && |l.s.heads| <= l.pc + 1
    ensures var o := Iteration(exec, l);
            && (o.status == Running ==> InPlace(exec, base, l0, o.l))
            && (o.status == Error ==> o.l.str == l0.str && o.l.effectiveLen == l0.effectiveLen && o.l.pc >= l0.pc)
  {
    hide Replay, Agrees, ChangeAll, PopTo, ReplacesProperly;
    NextVerdict(exec, base, l.str, l.pc, l.s);
    AgreesStep(exec, base, l.str, l.pc, l.s);
    if exec(l.s.ed, l.str[..l.pc + 1]).verdict != Accepted {
      ReplayStops(exec, base, l.str, l.pc + 1);
    }
  }

  /** An insertion that fails fails in the inserted line itself, at or after the insertion point. */
  lemma {:induction false} ErrorInPlace(exec: Exec, base: Editor, l0: Line, l: Line, budget: nat)
    requires ReplacesProperly(exec) && Good(exec, base, l) && InPlace(exec, base, l0, l)
    requires Loop(exec, l, budget).status == Error
    ensures var o := Loop(exec, l, budget);
            o.l.str == l0.str && o.l.effectiveLen == l0.effectiveLen && o.l.pc >= l0.pc
    decreases budget
  {
    hide Iteration, InPlace, Good, ReplacesProperly;
    assert l.pc < l.effectiveLen;
    GoodInRange(exec, base, l);
    InPlaceKept(exec, base, l0, l);
    GoodKept(exec, base, l);
    if Iteration(exec, l).status == Running {
      ErrorInPlace(exec, base, l0, Iteration(exec, l).l, budget - 1);
    }
  }

  predicate RubsOut(key: Key) {
    key.Rubout? || key.RuboutWord?
  }

  /** How long the line is at least after a key, if it was `len` characters long and nothing replaces it. */
  function Low(key: Key, len: nat): nat {
    match key
    case Type(data) => len + |data|
    case Rubout => if len > 0 then len - 1 else 0
    case RuboutWord => 0
    case Rubin => len
    case RubinWord => len
  }

  /** By their keys alone, the line never gets shorter than `start`. */
  predicate StaysAbove(keys: seq<Key>, len: nat, start: nat)
    decreases |keys|
  {
    start <= len && (keys == [] || StaysAbove(keys[1..], Low(keys[0], len), start))
  }

  /** Keys that do not rub out never make the line shorter. */
  lemma {:induction false} InsertingStays(keys: seq<Key>, len: nat, start: nat)
    requires start <= len && forall i :: 0 <= i < |keys| ==> !RubsOut(keys[i])
    ensures StaysAbove(keys, len, start)
    decreases |keys|
  {
    if keys != [] {
      assert !RubsOut(keys[0]);
      InsertingStays(keys[1..], Low(keys[0], len), start);
    }
  }

  /** No command replaces the command line. */
  ghost predicate NeverReplaces(exec: Exec) {
    forall e, p :: !exec(e, p).verdict.Replaced?
  }

  lemma {:induction false} LoopInPlace(exec: Exec, l: Line, budget: nat)
    requires NeverReplaces(exec) && l.saved == []
    ensures var o := Loop(exec, l, budget);
            o.l.str == l.str && o.l.effectiveLen == l.effectiveLen && o.l.saved == [] && l.pc <= o.l.pc
    decreases budget
  {
    hide ChangeAll, PopTo;
    if l.pc < l.effectiveLen && budget > 0 && l.pc < |l.str| && |l.s.heads| <= l.pc + 1 {
      var o := Iteration(exec, l);
      assert !exec(l.s.ed, l.str[..l.pc + 1]).verdict.Replaced?;
      if o.status == Running {
        LoopInPlace(exec, o.l, budget - 1);
      }
    }
  }

  lemma TypedInGrows(exec: Exec, e: Edit, data: seq<char>, budget: nat)
    requires e.effectiveLen <= |e.str| && NeverReplaces(exec)
    ensures var r := TypedIn(exec, e, data, budget);
            r.e.effectiveLen == e.effectiveLen + |data| && r.pc >= e.effectiveLen && r.e.effectiveLen <= |r.e.str|
  {
    hide Loop, NeverReplaces;
    LoopInPlace(exec, Inserted(e.str, e.effectiveLen, data, e.s), budget);
  }

  /** Without replacements, the line gets as long as the keys say, and no character before its end fails. */
  lemma {:induction false} PressGrows(exec: Exec, isStart: Editor -> bool, e: Edit, key: Key, budget: nat)
    requires e.effectiveLen <= |e.str| && NeverReplaces(exec)
    ensures var r := Press(exec, isStart, e, key, budget);
            && (r.status == Success ==> r.e.effectiveLen >= Low(key, e.effectiveLen))
            && (r.status == Error ==> r.pc >= e.effectiveLen && !RubsOut(key))
  {
    hide TypedIn, NeverReplaces, RubbedIn;
    match key
    case Type(data) => TypedInGrows(exec, e, data, budget);
    case Rubout =>
    case RuboutWord =>
    case Rubin => RubbedInGrows(exec, e, budget);
    case RubinWord => RubbedInWordGrows(exec, isStart, e, budget);
  }

  lemma RubbedInGrows(exec: Exec, e: Edit, budget: nat)
    requires e.effectiveLen <= |e.str| && NeverReplaces(exec)
    ensures var r := RubbedIn(exec, e, budget);
            && r.e.effectiveLen >= e.effectiveLen && (r.status != Success ==> r.pc >= e.effectiveLen)
            && r.e.effectiveLen <= |r.e.str|
  {
    hide TypedIn, NeverReplaces;
    if |e.str| > 0 {
      TypedInGrows(exec, e, NextChar(e), budget);
    }
  }

  lemma {:induction false} RubbedInWordGrows(exec: Exec, isStart: Editor -> bool, e: Edit, left: nat)
    requires e.effectiveLen <= |e.str| && NeverReplaces(exec)
    ensures var r := RubbedInWord(exec, isStart, e, left);
            r.e.effectiveLen >= e.effectiveLen && (r.status == Error ==> r.pc >= e.effectiveLen)
    decreases left
  {
    hide RubbedIn, NeverReplaces;
    RubbedInGrows(exec, e, left);
    var r := RubbedIn(exec, e, left);
    if r.status == Success && !isStart(r.e.s.ed) && r.e.effectiveLen < |r.e.str| && left > 0 {
      RubbedInWordGrows(exec, isStart, r.e, left - 1);
    }
  }

  /**
   * Typing what was rubbed out moves over it and keeps what lies behind; typing anything else
   * drops all that was rubbed out. Execution starts at the insertion point.
   */
  lemma InsertedIs(str: seq<char>, effectiveLen: nat, data: seq<char>, s: Snapshot)
    requires effectiveLen <= |str|
    ensures var l := Inserted(str, effectiveLen, data, s);
            && l.str == (if data <= str[effectiveLen..] then str else str[..effectiveLen] + data)
            && l.effectiveLen == effectiveLen + |data| && l.pc == effectiveLen && l.s == s && l.saved == []
  {
    var tail := str[effectiveLen..];
    if |data| <= |tail| {
      assert tail[..|data|] == str[effectiveLen..effectiveLen + |data|];
      assert data <= tail <==> tail[..|data|] == data;
    }
  }

  /** Without replacements, that is the line afterwards, whether or not a character fails. */
  lemma TypedText(exec: Exec, e: Edit, data: seq<char>, budget: nat)
    requires e.effectiveLen <= |e.str| && NeverReplaces(exec)
    ensures var r := TypedIn(exec, e, data, budget).e;
            && r.str == (if data <= e.str[e.effectiveLen..] then e.str else e.str[..e.effectiveLen] + data)
            && r.effectiveLen == e.effectiveLen + |data|
  {
    hide Loop, Inserted, NeverReplaces;
    InsertedIs(e.str, e.effectiveLen, data, e.s);
    LoopInPlace(exec, Inserted(e.str, e.effectiveLen, data, e.s), budget);
  }

  class CommandLine {
    const exec: Exec
    const isStart: Editor -> bool
    const reset: Editor -> Editor
    const undo: UndoStack
    /** The editor state in which the current command line began. */
    ghost var base: Editor
    var str: seq<char>
    var effectiveLen: nat
    var pc: nat

    constructor (exec: Exec, isStart: Editor -> bool, reset: Editor -> Editor, undo: UndoStack)
      requires ReplacesProperly(exec) && isStart(undo.ed) && (forall e :: isStart(reset(e))) && undo.heads == []
      ensures Valid() && this.undo == undo && str == []
    {
      this.exec, this.isStart, this.reset, this.undo := exec, isStart, reset, undo;
      base, str, effectiveLen, pc := undo.ed, [], 0, 0;
      new;
      assert Replay(exec, base, []) == Complete(Norm(0, undo.Now()));
    }

    ghost predicate Configured()
      reads this
    {
      ReplacesProperly(exec) && isStart(base) && forall e :: isStart(reset(e))
    }

    /** State and undo stack are those of a fresh replay of the effective command line. */
    ghost predicate Valid()
      reads this, undo
    {
      && Configured()
      && effectiveLen <= |str|
      && Agrees(exec, base, str[..effectiveLen], undo.Now())
    }

    ghost function Now(): Edit
      reads this, undo
    {
      Edit(str, effectiveLen, undo.Now())
    }

    ghost function LineNow(saved: seq<char>, replPc: nat): Line
      reads this, undo
    {
      Line(str, effectiveLen, pc, undo.Now(), saved, replPc)
    }

    /** Executes one character, so that it gets its own undo tokens. */
    method ExecuteCharacter(saved: seq<char>, replPc: nat) returns (status: Status, saved': seq<char>, replPc': nat)
      requires pc < |str| && |undo.heads| <= pc + 1
      modifies this`str, this`effectiveLen, this`pc, undo
      ensures var o := Iteration(exec, old(LineNow(saved, replPc)));
              o.status == status && (status == NestedReplacement || o.l == LineNow(saved', replPc'))
              && (status == NestedReplacement ==> o.l == LineNow(saved, replPc))
    {
      hide ChangeAll, PopTo;
      saved', replPc' := saved, replPc;
      status := Running;
      var x := exec(undo.ed, str[..pc + 1]);
      undo.PerformAll(x.changes, pc);
      match x.verdict {
        case Accepted =>
          pc := pc + 1;
        case Replaced(line) =>
          pc := StringDiff(str, line);
          undo.Pop(pc);
          if saved != [] {
            status := NestedReplacement;
          } else {
            saved', replPc' := str, pc;
            str, effectiveLen := line, |line|;
          }
        case Rejected =>
          if saved == [] {
            status := Error;
          } else {
            undo.Pop(replPc);
            str, saved' := saved, [];
            pc := replPc;
            effectiveLen := if effectiveLen > 0 then effectiveLen - 1 else 0;
          }
        case Returned =>
          status := Return;
      }
    }

    /** The loop executing the characters up to the effective length. */
    method Execute(budget: nat) returns (status: Status)
      requires Configured() && effectiveLen <= |str| && pc <= effectiveLen
      requires Agrees(exec, base, str[..pc], undo.Now())
      modifies this`str, this`effectiveLen, this`pc, undo
      ensures var o := Loop(exec, old(LineNow([], 0)), budget);
              && status == o.status && str == o.l.str && effectiveLen == o.l.effectiveLen && pc == o.l.pc
              && undo.Now() == o.l.s
    {
      hide Iteration, Agrees, Replay, ReplacesProperly;
      var saved: seq<char> := [];
      var replPc: nat := 0;
      var left: nat := budget;
      status := Success;
      while pc < effectiveLen
        invariant status == Success
        invariant Good(exec, base, LineNow(saved, replPc))
        invariant Loop(exec, LineNow(saved, replPc), left) == Loop(exec, old(LineNow([], 0)), budget)
        decreases left
      {
        if left == 0 {
          return Running;
        }
        GoodInRange(exec, base, LineNow(saved, replPc));
        GoodKept(exec, base, LineNow(saved, replPc));
        status, saved, replPc := ExecuteCharacter(saved, replPc);
        if status != Running {
          return;
        }
        status := Success;
        left := left - 1;
      }
    }

    /** Inserts characters at the end of the effective line, or moves over rubbed-out ones. */
    method Insert(data: seq<char>, budget: nat) returns (status: Status)
      requires Valid()
      modifies this`str, this`effectiveLen, this`pc, undo
      ensures Pressed(Now(), status, pc) == TypedIn(exec, old(Now()), data, budget)
      ensures status == Success ==> Valid()
      ensures status == Error ==>
                && Failing(exec, base, Line(str, effectiveLen, pc, undo.Now(), [], 0))
                && old(effectiveLen) <= pc && effectiveLen <= |str|
                && str[..effectiveLen] == old(str[..effectiveLen]) + data
      ensures NeverReplaces(exec) ==>
                && effectiveLen == old(effectiveLen) + |data|
                && str == (if data <= old(str[effectiveLen..]) then old(str) else old(str[..effectiveLen]) + data)
    {
      hide Loop, Iteration, Agrees, Replay, ReplacesProperly, NeverReplaces;
      if NeverReplaces(exec) {
        TypedText(exec, Now(), data, budget);
      }
      ghost var l0 := Inserted(str, effectiveLen, data, undo.Now());
      InsertedGood(exec, base, str, effectiveLen, data, undo.Now());
      pc := effectiveLen;
      if |data| <= |str| - effectiveLen && str[effectiveLen..effectiveLen + |data|] == data {
        effectiveLen := effectiveLen + |data|;
      } else {
        str := str[..effectiveLen] + data;
        effectiveLen := |str|;
      }
      assert Line(str, effectiveLen, pc, undo.Now(), [], 0) == l0;
      status := Execute(budget);
      LoopAgrees(exec, base, l0, budget);
      if status == Error {
        ErrorInPlace(exec, base, l0, l0, budget);
        FailingOnly(exec, base, Loop(exec, l0, budget).l);
      }
    }

    method RubOut()
      requires Valid()
      modifies this`effectiveLen, undo
      ensures Valid() && Now() == RubbedOut(old(Now()))
    {
      hide Agrees, Replay, ReplacesProperly;
      AgreesHeads(exec, base, str[..effectiveLen], undo.Now());
      if effectiveLen > 0 {
        assert str[..effectiveLen][..effectiveLen - 1] == str[..effectiveLen - 1];
        AgreesPop(exec, base, str[..effectiveLen], effectiveLen - 1, undo.Now());
        effectiveLen := effectiveLen - 1;
        undo.Pop(effectiveLen);
      }
    }

    method RubOutWord()
      requires Valid()
      modifies this`effectiveLen, undo
      ensures Valid() && Now() == RubbedOutWord(isStart, old(Now())) && isStart(undo.ed)
    {
      hide Replay, ReplacesProperly, Agrees, RubbedOut;
      RubOut();
      EmptyIsBase(exec, base, str[..effectiveLen], undo.Now());
      while !isStart(undo.ed)
        invariant Valid() && effectiveLen <= old(effectiveLen) && (effectiveLen == 0 ==> isStart(undo.ed))
        invariant RubbedOutWord(isStart, old(Now())) == if isStart(undo.ed) then Now()
            else RubbedOutWord(isStart, Now())
        decreases effectiveLen
      {
        RubOut();
        EmptyIsBase(exec, base, str[..effectiveLen], undo.Now());
      }
    }

    method RubIn(budget: nat) returns (status: Status)
      requires Valid()
      modifies this`str, this`effectiveLen, this`pc, undo
      ensures var r := RubbedIn(exec, old(Now()), budget);
              Now() == r.e && status == r.status && (status != Success ==> pc == r.pc)
      ensures status == Success ==> Valid()
      ensures status == Error ==>
                Failing(exec, base, Line(str, effectiveLen, pc, undo.Now(), [], 0)) && old(effectiveLen) <= pc
      ensures NeverReplaces(exec) ==>
                str == old(str) && effectiveLen == if old(effectiveLen) < |str| then old(effectiveLen) + 1 else |str|
    {
      if |str| == 0 {
        return Success;
      }
      var next := if effectiveLen < |str| then effectiveLen + 1 else effectiveLen;
      status := Insert(str[effectiveLen..next], budget);
    }

    method RubInWord(budget: nat) returns (status: Status)
      requires Valid()
      modifies this`str, this`effectiveLen, this`pc, undo
      ensures var r := RubbedInWord(exec, isStart, old(Now()), budget);
              Now() == r.e && status == r.status && (status == Error ==> pc == r.pc)
      ensures status == Success ==> Valid()
      ensures status == Error ==> Failing(exec, base, Line(str, effectiveLen, pc, undo.Now(), [], 0))
    {
      hide Agrees, Replay, ReplacesProperly, Failing, RubbedIn;
      var left: nat := budget;
      while true
        invariant Valid()
        invariant RubbedInWord(exec, isStart, Now(), left) == RubbedInWord(exec, isStart, old(Now()), budget)
        decreases left
      {
        status := RubIn(left);
        if status != Success || isStart(undo.ed) || effectiveLen >= |str| {
          return;
        }
        if left == 0 {
          return Running;
        }
        left := left - 1;
      }
    }

    method Process(key: Key, budget: nat) returns (status: Status)
      requires Valid()
      modifies this`str, this`effectiveLen, this`pc, undo
      ensures var r := Press(exec, isStart, old(Now()), key, budget);
              Now() == r.e && status == r.status && (status == Error ==> pc == r.pc)
      ensures status == Success ==> Valid()
      ensures status == Error ==> Failing(exec, base, Line(str, effectiveLen, pc, undo.Now(), [], 0))
      ensures status == Error && (key.Type? || key.Rubin?) ==> old(effectiveLen) <= pc
      ensures status == Error ==> !key.Rubout? && !key.RuboutWord?
    {
      hide Agrees, Replay, ReplacesProperly, Failing, Loop;
      status := Success;
      match key {
        case Type(data) => status := Insert(data, budget);
        case Rubout => RubOut();
        case RuboutWord => RubOutWord();
        case Rubin => status := RubIn(budget);
        case RubinWord => status := RubInWord(budget);
      }
    }

    /** Ends the command line: everything done so far can no longer be rubbed out. */
    method Terminate()
      requires Configured()
      modifies this, undo
      ensures Valid() && Now() == Edit([], 0, Snapshot(reset(old(undo.ed)), []))
    {
      undo.Clear();
      undo.ed := reset(undo.ed);
      base := undo.ed;
      str, effectiveLen := [], 0;
      assert Replay(exec, base, []) == Complete(Norm(0, undo.Now()));
    }

    /**
     * Processes key presses as a unit. After an error everything back to the start of the
     * unit is rubbed out; the state is then that of the remaining line exactly if the
     * character that failed lies at or behind that start. Without replacements it does
     * whenever, by the keys alone, the line never gets shorter than it was.
     */
    method KeyPress(keys: seq<Key>, budget: nat) returns (status: KeyStatus)
      requires Valid()
      modifies this, undo
      ensures (Now(), status) == PressAll(exec, isStart, reset, old(Now()), keys, old(effectiveLen), budget)
      ensures status.Handled? ==> Valid()
      ensures status.Refused? ==> effectiveLen == status.start && (Valid() <==> status.start <= status.pc)
      ensures status.Refused? && |keys| == 1 && !keys[0].RubinWord? ==> Valid()
      ensures status.Refused? && NeverReplaces(exec) && StaysAbove(keys, old(effectiveLen), old(effectiveLen)) ==>
                Valid()
    {
      hide Agrees, Replay, ReplacesProperly, Failing, Press, NeverReplaces, RubsOut;
      var start: nat := effectiveLen;
      ghost var low: nat := effectiveLen;
      var i := 0;
      while i < |keys|
        invariant 0 <= i <= |keys| && Valid()
        invariant PressAll(exec, isStart, reset, Now(), keys[i..], start, budget)
               == PressAll(exec, isStart, reset, old(Now()), keys, old(effectiveLen), budget)
        invariant i == 0 ==> start == effectiveLen
        invariant NeverReplaces(exec) && StaysAbove(keys, old(effectiveLen), old(effectiveLen)) ==>
            start == 0 || (low <= effectiveLen && StaysAbove(keys[i..], low, start))
      {
        assert keys[i..][0] == keys[i] && keys[i..][1..] == keys[i + 1..];
        if NeverReplaces(exec) {
          PressGrows(exec, isStart, Now(), keys[i], budget);
        }
        low := Low(keys[i], low);
        var r := Process(keys[i], budget);
        match r {
          case Success =>
          case Error =>
            ghost var l := Line(str, effectiveLen, pc, undo.Now(), [], 0);
            FailureUndoneExact(exec, base, l, start);
            undo.Pop(start);
            effectiveLen := start;
            return Refused(start, pc);
          case Return =>
            Terminate();
            start := 0;
          case _ => return Stuck;
        }
        i := i + 1;
      }
      status := Handled;
    }
  }

  lemma FailingOnly(exec: Exec, base: Editor, l: Line)
    requires Failing(exec, base, l)
    ensures Failing(exec, base, Line(l.str, l.effectiveLen, l.pc, l.s, [], 0))
  {
  }

  lemma EmptyIsBase(exec: Exec, base: Editor, line: seq<char>, s: Snapshot)
    requires Agrees(exec, base, line, s)
    ensures line == [] ==> s.ed == base
  {
  }

  /** Sets a variable and then rejects the character `x`; accepts all others. */
  function Example(): Exec {
    (e, p) => if p != [] && p[|p| - 1] == 'x' then Effect([Assign(0, 1)], Rejected) else Effect([], Accepted)
  }

  /**
   * On the line `a`, rubbing out and then typing `x` as one unit: only what lies behind the
   * start of the unit is undone, so the failed `x` stays in the effective line and the
   * variable keeps its value.
   */
  lemma RefusedNotReplayed(isStart: Editor -> bool, reset: Editor -> Editor)
    ensures var base := Editor(map[0 := 0], map[]);
            var s := Dirty();
            && Agrees(Example(), base, "a", Snapshot(base, []))
            && PressAll(Example(), isStart, reset, Edit("a", 1, Snapshot(base, [])), [Rubout, Type("x")], 1, 1)
               == (Edit("x", 1, s), Refused(1, 0))
            && !Agrees(Example(), base, "x", s)
  {
    hide Loop, ChangeAll, PopTo, Replay;
    var s0 := Snapshot(Editor(map[0 := 0], map[]), []);
    var keys := [Rubout, Type("x")];
    AcceptsA();
    RejectsX();
    assert keys[1..] == [Type("x")] && keys[1..][1..] == [];
    assert RubbedOut(Edit("a", 1, s0)) == Edit("a", 0, s0);
    assert PressAll(Example(), isStart, reset, Edit("a", 0, s0), [Type("x")], 1, 1)
        == (Edit("x", 1, Dirty()), Refused(1, 0));
  }

  /** The state after the failed `x`. */
  function Dirty(): Snapshot {
    Snapshot(Editor(map[0 := 1], map[]), [[RestoreVar(0, 0)]])
  }

  lemma AcceptsA()
    ensures var base := Editor(map[0 := 0], map[]); Agrees(Example(), base, "a", Snapshot(base, []))
  {
    var a, s := "a", Snapshot(Editor(map[0 := 0], map[]), []);
    assert a[..|a| - 1] == [];
    assert Replay(Example(), s.ed, []) == Complete(s);
    assert Norm(1, s).heads == [[]];
  }

  lemma ChangesX()
    ensures ChangeAll([Assign(0, 1)], 0, Snapshot(Editor(map[0 := 0], map[]), [])) == Dirty()
  {
    var s := Snapshot(Editor(map[0 := 0], map[]), []);
    assert map[0 := 0][0 := 1] == map[0 := 1];
    assert Pad([], 1) == [[]] && [RestoreVar(0, 0)] + [] == [RestoreVar(0, 0)];
    assert [Assign(0, 1)][1..] == [] && ChangeAll([], 0, Dirty()) == Dirty();
  }

  lemma RejectsX()
    ensures var s := Snapshot(Editor(map[0 := 0], map[]), []);
            && TypedIn(Example(), Edit("a", 0, s), "x", 1) == Pressed(Edit("x", 1, Dirty()), Error, 0)
            && PopTo(1, Dirty()) == Dirty() && !Agrees(Example(), s.ed, "x", Dirty())
  {
    hide ChangeAll;
    var a, x, s := "a", "x", Snapshot(Editor(map[0 := 0], map[]), []);
    assert a[..0] + x == x && x[..1] == x && x[..|x| - 1] == [];
    var l := Inserted(a, 0, x, s);
    assert l == Line("x", 1, 0, s, [], 0);
    ChangesX();
    assert Iteration(Example(), l) == Outcome(l.(s := Dirty()), Error);
    assert Replay(Example(), s.ed, x).Stopped?;
  }
}
