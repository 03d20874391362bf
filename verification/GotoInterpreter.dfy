/**
 * The interpreter with goto commands as it updates its label table and its search in place,
 * emitting undo tokens.
 */
module GotoInterpreter {
  import opened Options
  import opened Words
  import opened ExpressionSpec
  import opened ExpressionStack
  import opened Rewinding
  import M = MacroMachine
  import I = MacroInterpreter
  import G = GotoSpec
  import L = GotoLaws

  datatype Result = Success | Failure(error: G.Error)

  /** What the tokens for labels and searches revert. */
  datatype Labels = Labels(table: G.Table, skipLabel: Option<string>, backupPc: Option<nat>)

  datatype Token =
    | RemoveLabel(added: string)
    | RestoreSkipLabel(skipLabel: Option<string>)
    | RestoreBackupPc(backupPc: Option<nat>)

  function Revert(t: Token, l: Labels): Labels {
    match t
    case RemoveLabel(name) => l.(table := l.table - {name})
    case RestoreSkipLabel(name) => l.(skipLabel := name)
    case RestoreBackupPc(pc) => l.(backupPc := pc)
  }

  datatype Ending = Done | Broken(error: G.Error) | OutOfBudget

  /** The label that `value` selects among the comma-separated ones. */
  method SelectLabel(str: string, value: Word) returns (target: string)
    ensures target == G.Selected(str, value)
    ensures L.Picks(str, value, target)
  {
    hide G.Fields, G.Comma, AtField, L.Picks;
    L.SelectedPicks(str, value);
    var start: nat, end: nat, left := 0, 0, value;
    var first := true;
    while left >= 0
      invariant -1 <= left <= value || (first && value < 0)
      invariant left <= value && first == (left == value) && start <= end <= |str|
      invariant first || AtField(str, value - left - 1, start, end)
      invariant first || end < |str|
      decreases left
    {
      ghost var before := start;
      start := if first then 0 else end + 1;
      end := FindComma(str, start);
      NextField(str, value - left, before, start, end, first);
      first := false;
      left := left - 1;
      if end == |str| {
        LastField(str, value - left - 1, start, end);
        break;
      }
    }
    if left < 0 && !first {
      FieldAt(str, value, start, end);
      target := str[start..end];
    } else {
      target := [];
    }
  }

  /** The field at index `i` lies between `start` and `end`. */
  ghost predicate AtField(str: string, i: nat, start: nat, end: nat) {
    && start <= end <= |str| && end == G.Comma(str, start)
    && i < |G.Fields(str, 0)| && G.Fields(str, start) == G.Fields(str, 0)[i..]
  }

  /** The fields from `i` on, one step. */
  lemma OneMore(str: string, i: nat)
    requires i <= |str|
    ensures var j := G.Comma(str, i);
            && i <= j <= |str| && |G.Fields(str, i)| > 0
            && (j < |str| ==> G.Fields(str, i)[1..] == G.Fields(str, j + 1))
  {
  }

  lemma NextField(str: string, i: nat, before: nat, start: nat, end: nat, first: bool)
    requires start <= |str| && end == G.Comma(str, start)
    requires if first then i == 0 && start == 0
             else i > 0 && start > 0 && AtField(str, i - 1, before, start - 1) && start - 1 < |str|
    ensures AtField(str, i, start, end)
  {
    hide G.Fields, G.Comma;
    OneMore(str, start);
    if !first {
      OneMore(str, before);
      var all := G.Fields(str, 0);
      assert all[i - 1..][1..] == all[i..];
      assert |all[i..]| > 0;
    } else {
      assert G.Fields(str, 0)[0..] == G.Fields(str, 0);
    }
  }

  lemma LastField(str: string, i: nat, start: nat, end: nat)
    requires AtField(str, i, start, end) && end == |str|
    ensures |G.Fields(str, 0)| == i + 1
  {
    assert G.Fields(str, start) == [str[start..end]] + [];
  }

  lemma FieldAt(str: string, i: nat, start: nat, end: nat)
    requires AtField(str, i, start, end)
    ensures i < |G.Fields(str, 0)| && str[start..end] == G.Fields(str, 0)[i]
  {
    assert G.Fields(str, 0)[i..][0] == G.Fields(str, 0)[i];
  }

  method FindComma(str: string, i: nat) returns (j: nat)
    requires i <= |str|
    ensures j == G.Comma(str, i)
  {
    j := i;
    while j < |str| && str[j] != ','
      invariant i <= j <= |str| && G.Comma(str, j) == G.Comma(str, i)
    {
      j := j + 1;
    }
  }

  class GotoInterpreter<D(!new)> {
    const main: I.Interpreter<D>
    var table: G.Table
    var complete: bool
    var skipLabel: Option<string>
    var backupPc: Option<nat>
    const text: seq<G.Token>
    var log: seq<Token>
    ghost var high: nat  // how far the macro has been parsed

    constructor (main: I.Interpreter<D>, text: seq<G.Token>)
      requires main.macroPc == 0 && |main.loopStack| <= main.env.fp
      ensures this.main == main && this.text == text && Now() == G.Start(main.Now()) && Valid()
    {
      this.main, this.text, high := main, text, 0;
      table, complete, skipLabel, backupPc, log := map[], false, None, None, [];
    }

    function Search(): Labels
      reads this
    {
      Labels(table, skipLabel, backupPc)
    }

    /** The tokens emitted since the earlier state revert everything but the program counter. */
    twostate predicate Undone()
      reads this, main, main.expr
    {
      Undoes(Revert, old(log), old(Search()), log, Search()) && main.Undone()
    }

    method AddLabel(name: string)
      requires name !in table
      modifies this`table, this`log
      ensures table == old(table)[name := main.macroPc] && Undoes(Revert, old(log), old(Search()), log, Search())
    {
      table := table[name := main.macroPc];
      log := log + [RemoveLabel(name)];
      assert table - {name} == old(table);
      UndoesOne(Revert, old(log), old(Search()), RemoveLabel(name), Search());
    }

    /** Begins or ends a search. */
    method SetSearch(target: Option<string>, pc: Option<nat>)
      modifies this`skipLabel, this`backupPc, this`log
      ensures skipLabel == target && backupPc == pc && Undoes(Revert, old(log), old(Search()), log, Search())
    {
      hide Undoes;
      log := log + [RestoreSkipLabel(skipLabel)];
      skipLabel := target;
      UndoesOne(Revert, old(log), old(Search()), RestoreSkipLabel(old(skipLabel)), Search());
      ghost var l, s := log, Search();
      log := log + [RestoreBackupPc(backupPc)];
      backupPc := pc;
      UndoesOne(Revert, l, s, RestoreBackupPc(old(backupPc)), Search());
      UndoesTrans(Revert, old(log), old(Search()), l, s, log, Search());
    }

    function Now(): G.Lazy<D>
      reads this, main, main.expr
    {
      G.Lazy(main.Now(), table, complete, skipLabel, backupPc)
    }

    /** The table holds exactly the first definitions in what has been parsed. */
    ghost predicate Valid()
      reads this, main, main.expr
    {
      G.Consistent(main.env, text, Now(), high)
    }

    ghost predicate Took(r: G.Next<D>, result: Result)
      reads this, main, main.expr
    {
      r == if result.Success? then G.On(Now()) else G.Stop(result.error)
    }

    /** A label definition that the program counter has just passed. */
    method LabelInput(name: string)
      modifies this`table, this`skipLabel, this`backupPc, this`log
      ensures Now() == G.LabelInput(name, old(Now())) && Undone()
    {
      hide Undoes;
      UndoesNothing(Revert, log, Search());
      Untouched();
      if name !in table {
        AddLabel(name);
        if skipLabel == Some(name) {
          ghost var l, s := log, Search();
          SetSearch(None, None);
          UndoesTrans(Revert, old(log), old(Search()), l, s, log, Search());
        }
      }
    }

    /** Nothing has been emitted by the interpreter of the other commands. */
    lemma Untouched()
      ensures Undoes(I.Revert, main.log, main.Controls(), main.log, main.Controls())
      ensures Undoes(RunToken, main.expr.log, main.expr.Now(), main.expr.log, main.expr.Now())
    {
      UndoesNothing(I.Revert, main.log, main.Controls());
      UndoesNothing(RunToken, main.expr.log, main.expr.Now());
    }

    /** A goto command. */
    method GotoDone(labels: string, colon: bool) returns (result: Result)
      modifies this`skipLabel, this`backupPc, this`log, main, main.expr
      ensures Took(G.GotoInput(labels, colon, old(Now())), result) && Undone()
    {
      hide PopNumCalc, PopNumCalcValue, G.Selected, Undoes, Quiet;
      UndoesNothing(Revert, log, Search());
      Untouched();
      if skipLabel.Some? || main.mode != M.Normal {
        return Success;
      }
      if labels == [] {
        return Failure(G.NoLabelsGiven);
      }
      var value, err := main.expr.PopArgument(0);
      QuietUndoes(old(main.expr.log), old(main.expr.Now()), main.expr.log, main.expr.Now());
      if err != NoError {
        return Failure(G.Macro(M.CalculationFailed(err)));
      }
      var target := SelectLabel(labels, value);
      if target != [] {
        if target in table {
          main.macroPc := table[target];
        } else if !complete {
          SetSearch(Some(target), if colon then Some(main.macroPc) else None);
        } else if !colon {
          return Failure(G.LabelNotFound);
        }
      }
      result := Success;
    }

    /** A character of another command. */
    method CharInput(c: char) returns (result: Result)
      modifies main, main.expr
      ensures Took(G.CharInput(main.env, c, old(Now())), result)
      ensures Undone() <==> !(skipLabel.None? && M.Loses(main.env, c, old(main.Now())))
    {
      hide M.Input, M.IsConditionType, M.Loses, Undoes;
      UndoesNothing(Revert, log, Search());
      Untouched();
      result := Success;
      if skipLabel.None? {
        var status := main.Input(c);
        result := if status.Success? then Success else Failure(G.Macro(status.fault));
      } else if main.conditional {
        if !M.IsConditionType(c) {
          return Failure(G.Macro(M.InvalidConditional));
        }
        main.SetConditional(false);
      } else {
        main.SetConditional(c == '"');
      }
    }

    /** Executes one token. */
    method Step() returns (result: Result)
      requires Valid() && main.macroPc < |text|
      modifies this, main, main.expr
      ensures result.Success? ==> Valid()
      ensures high == G.Parsed(old(high), old(main.macroPc) + 1)
      ensures Took(G.TokenInput(main.env, text[old(main.macroPc)], G.Passed(old(Now()))), result)
      ensures var t := text[old(main.macroPc)];
              Undone() <==> !(t.Char? && old(skipLabel).None? && M.Loses(main.env, t.c, old(G.Passed(Now()).m)))
    {
      hide G.FirstDefs, G.LabelInput, G.GotoInput, G.CharInput, G.Consistent, M.Loses, Undoes;
      UndoesNothing(Revert, log, Search());
      Untouched();
      ghost var s := Now();
      G.TableConsistent(main.env, text, s, high);
      var t := text[main.macroPc];
      main.macroPc := main.macroPc + 1;
      high := G.Parsed(high, main.macroPc);
      assert Now() == G.Passed(s);
      result := Success;
      match t {
        case Char(c) =>
          result := CharInput(c);
        case Label(name) =>
          if main.conditional {
            return Failure(G.Macro(M.InvalidConditional));
          }
          LabelInput(name);
        case Goto(labels, colon) =>
          if main.conditional {
            return Failure(G.Macro(M.InvalidConditional));
          }
          result := GotoDone(labels, colon);
      }
    }

    /** Goes on after a goto whose label was not found. */
    method ResumeAfterGoto()
      requires Valid() && main.macroPc >= |text| && backupPc.Some?
      modifies this, main
      ensures Valid() && Now() == G.Resume(old(Now())) && high == old(high)
      ensures Undoes(Revert, old(log), old(Search()), log, Search())
    {
      hide Undoes;
      G.ResumeConsistent(main.env, text, Now(), high);
      main.macroPc := backupPc.value;
      main.conditional := false;
      SetSearch(None, None);
      complete := true;
    }

    /** Executes the macro, for at most `budget` tokens. */
    method Execute(budget: nat) returns (ending: Ending)
      requires Valid()
      modifies this, main, main.expr
      ensures G.LazyRun(main.env, text, old(Now()), budget) ==
              match ending
              case Done => G.Finished(main.Now())
              case Broken(error) => G.Failed(error)
              case OutOfBudget => G.Running
      ensures ending.Done? ==> Valid()
    {
      hide G.TokenInput, Valid;
      var left: nat := budget;
      while true
        invariant Valid()
        invariant G.LazyRun(main.env, text, Now(), left) == G.LazyRun(main.env, text, old(Now()), budget)
        decreases left
      {
        if main.macroPc >= |text| && backupPc.None? {
          break;
        }
        if left == 0 {
          return OutOfBudget;
        }
        left := left - 1;
        if main.macroPc >= |text| {
          ResumeAfterGoto();
        } else {
          var result := Step();
          if result.Failure? {
            return Broken(result.error);
          }
        }
      }
      if skipLabel.Some? {
        return Broken(G.LabelNotFound);
      }
      if |main.loopStack| > main.env.fp {
        return Broken(G.UnterminatedLoop);
      }
      if main.conditional {
        return Broken(G.UnterminatedCommand);
      }
      ending := Done;
    }
  }
}
