/** Which label a goto command selects, and where it leads: without splitting the list and without a table. */
module GotoLaws {
  import opened Words
  import opened ExpressionSpec
  import ExpressionGrammar
  import opened MacroMachine
  import opened GotoSpec
  import StackLaws

  // Selecting.

  function Commas(s: string): nat {
    if s == [] then 0 else (if s[0] == ',' then 1 else 0) + Commas(s[1..])
  }

  /** The stretch between two ends of fields that has `n` commas before it and none within. */
  predicate IsField(s: string, n: int, i: nat, j: nat) {
    && i <= j <= |s| && ',' !in s[i..j]
    && Commas(s[..i]) == n && (i == 0 || s[i - 1] == ',')
    && (j == |s| || s[j] == ',')
  }

  /** The label is the field of that number, or empty if there is none. */
  ghost predicate Picks(s: string, value: Word, target: string) {
    if 0 <= value <= Commas(s) then exists i: nat, j: nat :: IsField(s, value, i, j) && target == s[i..j]
    else target == []
  }

  lemma {:induction false} CommasConcat(a: string, b: string)
    ensures Commas(a + b) == Commas(a) + Commas(b)
  {
    if a == [] {
      assert a + b == b;
    } else {
      assert (a + b)[1..] == a[1..] + b;
      CommasConcat(a[1..], b);
    }
  }

  lemma {:induction false} NoCommas(s: string)
    requires ',' !in s
    ensures Commas(s) == 0
  {
    if s != [] {
      NoCommas(s[1..]);
    }
  }

  lemma {:induction false} CommaIsFirst(s: string, i: nat)
    requires i <= |s|
    ensures ',' !in s[i..Comma(s, i)]
    decreases |s| - i
  {
    if i < |s| && s[i] != ',' {
      CommaIsFirst(s, i + 1);
      assert s[i..Comma(s, i)] == [s[i]] + s[i + 1..Comma(s, i)];
    }
  }

  /** The commas up to the end of a field, and with the comma after it. */
  lemma CommasAround(s: string, i: nat)
    requires i <= |s|
    ensures var j := Comma(s, i);
            && Commas(s[..j]) == Commas(s[..i])
            && (j < |s| ==> Commas(s[..j + 1]) == Commas(s[..i]) + 1)
            && (j == |s| ==> Commas(s) == Commas(s[..i]))
  {
    var j := Comma(s, i);
    CommaIsFirst(s, i);
    NoCommas(s[i..j]);
    assert s[..j] == s[..i] + s[i..j];
    CommasConcat(s[..i], s[i..j]);
    if j < |s| {
      assert s[..j + 1] == s[..j] + [s[j]];
      CommasConcat(s[..j], [s[j]]);
      assert Commas([s[j]]) == 1 + Commas([]);
    } else {
      assert s[..j] == s;
    }
  }

  lemma FieldsStep(s: string, i: nat)
    requires i <= |s|
    ensures var j, r := Comma(s, i), Fields(s, i);
            && r[0] == s[i..j]
            && (if j < |s| then |r| == 1 + |Fields(s, j + 1)| else |r| == 1)
            && forall k :: 0 < k < |r| ==> r[k] == Fields(s, j + 1)[k - 1]
  {
    hide Comma;
  }

  lemma {:induction false} FieldIs(s: string, i: nat, k: nat) returns (a: nat, b: nat)
    requires i <= |s| && k < |Fields(s, i)| && (i == 0 || s[i - 1] == ',')
    ensures IsField(s, Commas(s[..i]) + k, a, b) && Fields(s, i)[k] == s[a..b]
    decreases |s| - i
  {
    hide Comma, Commas, Fields;
    CommaIsFirst(s, i);
    CommasAround(s, i);
    FieldsStep(s, i);
    var j := Comma(s, i);
    if k == 0 {
      a, b := i, j;
    } else {
      a, b := FieldIs(s, j + 1, k - 1);
    }
  }

  lemma {:induction false} FieldsCount(s: string, i: nat)
    requires i <= |s|
    ensures |Fields(s, i)| + Commas(s[..i]) == Commas(s) + 1
    decreases |s| - i
  {
    hide Comma;
    CommasAround(s, i);
    var j := Comma(s, i);
    if j < |s| {
      FieldsCount(s, j + 1);
    }
  }

  lemma SelectedPicks(s: string, value: Word)
    ensures Picks(s, value, Selected(s, value))
  {
    hide Fields, IsField, Commas;
    FieldsCount(s, 0);
    assert s[..0] == [] && Commas([]) == 0 by { NoCommas([]); }
    if 0 <= value <= Commas(s) {
      var i, j := FieldIs(s, 0, value);
    }
  }

  lemma NoCommaWithin(s: string, n: int, i: nat, j: nat)
    requires IsField(s, n, i, j)
    ensures forall k :: i <= k < j ==> s[k] != ','
  {
    forall k | i <= k < j
      ensures s[k] != ','
    {
      assert s[k] == s[i..j][k - i];
    }
  }

  /** Fields that begin at different places have different numbers. */
  lemma FieldsApart(s: string, i: nat, i': nat)
    requires i < i' <= |s| && s[i' - 1] == ','
    ensures Commas(s[..i]) < Commas(s[..i'])
  {
    assert s[..i'] == s[..i] + s[i..i' - 1] + [s[i' - 1]];
    CommasConcat(s[..i], s[i..i' - 1]);
    CommasConcat(s[..i] + s[i..i' - 1], [s[i' - 1]]);
    assert Commas([s[i' - 1]]) == 1 + Commas([]);
  }

  /** There is only one field of a number. */
  lemma FieldUnique(s: string, n: int, i: nat, j: nat, i': nat, j': nat)
    requires IsField(s, n, i, j) && IsField(s, n, i', j')
    ensures i == i' && j == j'
  {
    hide Commas;
    if i < i' {
      FieldsApart(s, i, i');
    } else if i' < i {
      FieldsApart(s, i', i);
    }
    NoCommaWithin(s, n, i, j);
    NoCommaWithin(s, n, i', j');
  }

  lemma PicksOne(s: string, value: Word, t: string, u: string)
    requires Picks(s, value, t) && Picks(s, value, u)
    ensures t == u
  {
    hide Commas;
    if 0 <= value <= Commas(s) {
      var i: nat, j: nat :| IsField(s, value, i, j) && t == s[i..j];
      var k: nat, l: nat :| IsField(s, value, k, l) && u == s[k..l];
      FieldUnique(s, value, i, j, k, l);
    }
  }

  // Going.

  /** A goto without argument takes the first label. */
  lemma FirstByDefault<D>(labels: string, m: Machine<D>)
    requires labels != [] && ExpressionGrammar.Ready(m.es) && !TopIs(m.es, Number)
    ensures exists j: nat :: IsField(labels, 0, 0, j) && Select(labels, m) == Ready(m, labels[..j])
  {
    hide PopNumCalc, PopNumCalcValue, Selected, Fields, Commas, FirstOp;
    StackLaws.ArgumentImplied(m.es, 0);
    SelectedPicks(labels, 0);
    var i: nat, j: nat :| IsField(labels, 0, i, j) && Selected(labels, 0) == labels[i..j];
    BeginsList(labels, i, j);
  }

  lemma CommaCounts(s: string, i: nat)
    requires 0 < i <= |s| && s[i - 1] == ','
    ensures Commas(s[..i]) > 0
  {
    assert s[..i] == s[..i - 1] + [s[i - 1]];
    CommasConcat(s[..i - 1], [s[i - 1]]);
    assert Commas([s[i - 1]]) == 1 + Commas([]);
  }

  lemma BeginsList(s: string, i: nat, j: nat)
    requires IsField(s, 0, i, j)
    ensures i == 0
  {
    hide Commas;
    if i > 0 {
      CommaCounts(s, i);
    }
  }

  /** A macro cannot end in an open loop, or before the type of a conditional. */
  lemma EndRefused<D>(env: Env<D>, text: seq<Token>, m: Machine<D>, fuel: nat)
    requires m.pc == |text|
    ensures EagerRun(env, text, m, fuel) ==
            if |m.loops| > env.fp then Failed(UnterminatedLoop)
            else if m.conditional then Failed(UnterminatedCommand)
            else Finished(m)
  {
  }

  lemma NotBefore(text: seq<Token>, i: nat, t: Token)
    requires i <= |text| && t !in text[..i]
    ensures forall k :: 0 <= k < i ==> text[k] != t
  {
    forall k | 0 <= k < i
      ensures text[k] != t
    {
      assert text[k] == text[..i][k];
    }
  }

  /** A goto leads behind the first definition of its label; without one it fails, or goes on if it has a colon. */
  lemma GotoLeads<D>(env: Env<D>, text: seq<Token>, m: Machine<D>)
    requires m.pc < |text| && text[m.pc].Goto? && m.mode == Normal && !m.conditional
    ensures var t, m' := text[m.pc], m.(pc := m.pc + 1);
            var j := Select(t.labels, m');
            var r := EagerInput(env, text, m);
            j.Ready? && j.target != [] ==>
              && (forall i :: 0 <= i < |text| && text[i] == Label(j.target) && Label(j.target) !in text[..i] ==>
                    r == Going(j.m.(pc := i + 1)))
              && (Label(j.target) !in text ==> r == if t.colon then Going(j.m) else Halt(LabelNotFound))
  {
    hide Select, FirstDefs;
    var j := Select(text[m.pc].labels, m.(pc := m.pc + 1));
    if j.Ready? && j.target != [] {
      var t := j.target;
      NotDefined(text, |text|, t);
      forall i | 0 <= i < |text| && text[i] == Label(t) && Label(t) !in text[..i]
        ensures t in FirstDefs(text, |text|) && FirstDefs(text, |text|)[t] == i + 1
      {
        DefsBounded(text, |text|, t);
        NotBefore(text, i, Label(t));
      }
    }
  }
}
