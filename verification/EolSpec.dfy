/** End-of-line sequences: their kinds, normalisation to LF and expansion, independent of any buffers. */
module EolSpec {
  import opened Options

  datatype Kind = Crlf | Cr | Lf

  function Sequence(k: Kind): string {
    match k
    case Crlf => "\r\n"
    case Cr => "\r"
    case Lf => "\n"
  }

  predicate IsEol(c: char) {
    c == '\r' || c == '\n'
  }

  /** The kind of the sequence at the front of `s`. */
  function FrontKind(s: string): (k: Kind)
    requires s != [] && IsEol(s[0])
    ensures Sequence(k) <= s
  {
    if s[0] == '\n' then Lf
    else if |s| > 1 && s[1] == '\n' then
      assert s[..2] == "\r\n";
      Crlf
    else Cr
  }

  /** Every CRLF, CR and LF becomes one LF. */
  function Normalize(s: string): string {
    if s == [] then []
    else if IsEol(s[0]) then "\n" + Normalize(s[|Sequence(FrontKind(s))|..])
    else [s[0]] + Normalize(s[1..])
  }

  /** The kinds of all sequences, in order. */
  function Kinds(s: string): seq<Kind> {
    if s == [] then []
    else if IsEol(s[0]) then [FrontKind(s)] + Kinds(s[|Sequence(FrontKind(s))|..])
    else Kinds(s[1..])
  }

  /** The definitions, one step. */
  lemma Unfold(s: string)
    requires s != []
    ensures if IsEol(s[0]) then
              var n := |Sequence(FrontKind(s))|;
              Normalize(s) == "\n" + Normalize(s[n..]) && Kinds(s) == [FrontKind(s)] + Kinds(s[n..])
            else Normalize(s) == [s[0]] + Normalize(s[1..]) && Kinds(s) == Kinds(s[1..])
  {
  }

  /**
   * A text up to its first end-of-line sequence, which becomes an LF. A CR counts by itself
   * only if no LF follows it.
   */
  lemma {:induction false} LineIs(line: string, k: Kind, rest: string)
    requires forall i :: 0 <= i < |line| ==> line[i] != '\r' && line[i] != '\n'
    requires k == Cr ==> rest == [] || rest[0] != '\n'
    ensures var eol := match k case Crlf => "\r\n" case Cr => "\r" case Lf => "\n";
            && Normalize(line + eol + rest) == line + "\n" + Normalize(rest)
            && Kinds(line + eol + rest) == [k] + Kinds(rest)
    ensures Normalize(line) == line && Kinds(line) == []
  {
    hide Normalize, Kinds;
    if line == [] {
      SequenceIs(k, rest);
      NothingIs();
      assert line + Sequence(k) + rest == Sequence(k) + rest && line + "\n" + Normalize(rest) == "\n" + Normalize(rest);
    } else {
      var t := line[1..];
      LineIs(t, k, rest);
      CharacterIs(line[0], t);
      CharacterIs(line[0], t + Sequence(k) + rest);
      assert [line[0]] + t == line;
      assert [line[0]] + (t + Sequence(k) + rest) == line + Sequence(k) + rest;
      assert [line[0]] + (t + "\n" + Normalize(rest)) == line + "\n" + Normalize(rest);
    }
  }

  lemma NothingIs()
    ensures Normalize([]) == [] && Kinds([]) == []
  {
  }

  lemma SequenceIs(k: Kind, rest: string)
    requires k == Cr ==> rest == [] || rest[0] != '\n'
    ensures Normalize(Sequence(k) + rest) == "\n" + Normalize(rest) && Kinds(Sequence(k) + rest) == [k] + Kinds(rest)
  {
    var s := Sequence(k) + rest;
    assert s[|Sequence(k)|..] == rest;
    Unfold(s);
  }

  lemma CharacterIs(c: char, rest: string)
    requires c != '\r' && c != '\n'
    ensures Normalize([c] + rest) == [c] + Normalize(rest) && Kinds([c] + rest) == Kinds(rest)
  {
    Unfold([c] + rest);
    assert ([c] + rest)[1..] == rest;
  }

  /** Every LF becomes the sequence `eol`. */
  function Expand(s: string, eol: string): string {
    if s == [] then []
    else (if s[0] == '\n' then eol else [s[0]]) + Expand(s[1..], eol)
  }

  predicate EndsInCr(s: string) {
    s != [] && s[|s| - 1] == '\r'
  }

  function NormalChar(c: char): char {
    if c == '\r' then '\n' else c
  }

  /** The normalised text after one more character: an LF that completes a CRLF adds nothing. */
  function NormalWith(n: string, afterCr: bool, c: char): string {
    if c == '\n' && afterCr then n else n + [NormalChar(c)]
  }

  lemma {:induction false} NormalizeNext(s: string, c: char)
    ensures Normalize(s + [c]) == NormalWith(Normalize(s), EndsInCr(s), c)
    decreases |s|
  {
    var t := s + [c];
    if s == [] {
      assert t[1..] == [];
    } else if IsEol(s[0]) {
      var n := |Sequence(FrontKind(s))|;
      if |Sequence(FrontKind(t))| == n {
        NormalizeNextFront(s, c, n);
        NormalizeNext(s[n..], c);
      } else {
        assert s == "\r" && t == "\r\n";
        assert t[2..] == [] && s[1..] == [];
      }
    } else {
      assert t[1..] == s[1..] + [c];
      NormalizeNext(s[1..], c);
      assert [s[0]] + (Normalize(s[1..]) + [NormalChar(c)]) == Normalize(s) + [NormalChar(c)];
    }
  }

  lemma NormalizeNextFront(s: string, c: char, n: nat)
    requires s != [] && IsEol(s[0]) && n == |Sequence(FrontKind(s))| == |Sequence(FrontKind(s + [c]))|
    ensures Normalize(s + [c]) == "\n" + Normalize(s[n..] + [c])
    ensures "\n" + NormalWith(Normalize(s[n..]), EndsInCr(s[n..]), c) == NormalWith(Normalize(s), EndsInCr(s), c)
  {
    hide Normalize, Kinds, FrontKind, Sequence, NormalWith, EndsInCr;
    var t := s + [c];
    FrontRest(s, c, n);
    Unfold(s);
    Unfold(t);
    NormalWithFront(Normalize(s[n..]), EndsInCr(s[n..]), EndsInCr(s), c);
  }

  lemma NormalWithFront(n: string, a: bool, b: bool, c: char)
    requires c == '\n' ==> a == b
    ensures "\n" + NormalWith(n, a, c) == NormalWith("\n" + n, b, c)
  {
    assert "\n" + (n + [NormalChar(c)]) == "\n" + n + [NormalChar(c)];
  }

  /** What follows the first sequence. */
  lemma FrontRest(s: string, c: char, n: nat)
    requires s != [] && IsEol(s[0]) && n == |Sequence(FrontKind(s))| == |Sequence(FrontKind(s + [c]))|
    ensures n <= |s| && (s + [c])[n..] == s[n..] + [c]
    ensures c == '\n' ==> EndsInCr(s[n..]) == EndsInCr(s)
  {
    FrontEnd(s, c, n);
    if n < |s| {
      assert s[n..][|s[n..]| - 1] == s[|s| - 1];
    }
  }

  /** When only one sequence precedes the new character. */
  lemma FrontEnd(s: string, c: char, n: nat)
    requires s != [] && IsEol(s[0]) && n == |Sequence(FrontKind(s))| == |Sequence(FrontKind(s + [c]))|
    ensures n == |s| && c == '\n' ==> !EndsInCr(s)
  {
    var t := s + [c];
    if |s| == 1 {
      assert t[1] == c;
    }
  }

  /** The sequences that are complete: a CR at the very end may yet become a CRLF. */
  function Complete(s: string): seq<Kind> {
    var ks := Kinds(s);
    if EndsInCr(s) && ks != [] then ks[..|ks| - 1] else ks
  }

  lemma {:induction false} LastKind(s: string)
    requires EndsInCr(s)
    ensures Kinds(s) != [] && Kinds(s)[|Kinds(s)| - 1] == Cr
    decreases |s|
  {
    if IsEol(s[0]) {
      var n := |Sequence(FrontKind(s))|;
      if n < |s| {
        LastKind(s[n..]);
      } else {
        assert s[n..] == [];
      }
    } else {
      LastKind(s[1..]);
    }
  }

  /** The kinds after one more character. */
  function KindsWith(ks: seq<Kind>, afterCr: bool, c: char): seq<Kind> {
    if c == '\n' then if afterCr && ks != [] then ks[..|ks| - 1] + [Crlf] else ks + [Lf]
    else if c == '\r' then ks + [Cr]
    else ks
  }

  lemma KindsWithFront(k: Kind, ks: seq<Kind>, a: bool, b: bool, c: char)
    requires (a ==> ks != []) && (c == '\n' ==> a == b)
    ensures [k] + KindsWith(ks, a, c) == KindsWith([k] + ks, b, c)
  {
    if ks != [] {
      assert ([k] + ks)[..|ks|] == [k] + ks[..|ks| - 1];
    }
  }

  lemma {:induction false} KindsNext(s: string, c: char)
    ensures Kinds(s + [c]) == KindsWith(Kinds(s), EndsInCr(s), c)
    decreases |s|
  {
    var t := s + [c];
    if s == [] {
      assert t[1..] == [];
    } else if IsEol(s[0]) {
      var n := |Sequence(FrontKind(s))|;
      if |Sequence(FrontKind(t))| == n {
        KindsNextFront(s, c, n);
        KindsNext(s[n..], c);
      } else {
        assert s == "\r" && t == "\r\n";
        assert t[2..] == [] && s[1..] == [];
      }
    } else {
      assert t[1..] == s[1..] + [c];
      KindsNext(s[1..], c);
    }
  }

  lemma FrontKindStays(s: string, c: char)
    requires s != [] && IsEol(s[0]) && |Sequence(FrontKind(s))| == |Sequence(FrontKind(s + [c]))|
    ensures FrontKind(s + [c]) == FrontKind(s)
  {
  }

  lemma KindsNextFront(s: string, c: char, n: nat)
    requires s != [] && IsEol(s[0]) && n == |Sequence(FrontKind(s))| == |Sequence(FrontKind(s + [c]))|
    ensures Kinds(s + [c]) == [FrontKind(s)] + Kinds(s[n..] + [c])
    ensures [FrontKind(s)] + KindsWith(Kinds(s[n..]), EndsInCr(s[n..]), c) == KindsWith(Kinds(s), EndsInCr(s), c)
  {
    hide Normalize, Kinds, Sequence, EndsInCr, KindsWith;
    var t := s + [c];
    FrontRest(s, c, n);
    Unfold(s);
    Unfold(t);
    FrontKindStays(s, c);
    if EndsInCr(s[n..]) {
      LastKind(s[n..]);
    }
    KindsWithFront(FrontKind(s), Kinds(s[n..]), EndsInCr(s[n..]), EndsInCr(s), c);
  }

  lemma CompleteNext(s: string, c: char)
    ensures Complete(s + [c]) ==
            if c == '\n' then Complete(s) + [if EndsInCr(s) then Crlf else Lf]
            else if EndsInCr(s) then Complete(s) + [Cr] else Complete(s)
  {
    hide Kinds;
    KindsNext(s, c);
    if EndsInCr(s) {
      LastKind(s);
      var ks := Kinds(s);
      assert ks == ks[..|ks| - 1] + [Cr];
    }
  }

  lemma CompleteEnd(s: string)
    ensures Kinds(s) == Complete(s) + if EndsInCr(s) then [Cr] else []
  {
    if EndsInCr(s) {
      LastKind(s);
    }
  }

  /** The style of a text is the kind of its first sequence. */
  function Style(ks: seq<Kind>): Option<Kind> {
    if ks == [] then None else Some(ks[0])
  }

  predicate Inconsistent(ks: seq<Kind>) {
    exists i :: 0 <= i < |ks| && ks[i] != ks[0]
  }

  lemma InconsistentNext(ks: seq<Kind>, k: Kind)
    ensures Inconsistent(ks + [k]) <==> Inconsistent(ks) || (ks != [] && ks[0] != k)
    ensures Style(ks + [k]) == if ks == [] then Some(k) else Style(ks)
  {
    var s := ks + [k];
    assert s[|ks|] == k;
    forall i | 0 <= i < |ks|
      ensures s[i] == ks[i]
    {
    }
    if Inconsistent(ks) {
      var i :| 0 <= i < |ks| && ks[i] != ks[0];
      assert s[i] != s[0];
    }
  }

  // Round trips.

  lemma {:induction false} ExpandAppend(a: string, b: string, eol: string)
    ensures Expand(a + b, eol) == Expand(a, eol) + Expand(b, eol)
  {
    if a == [] {
      assert a + b == b;
    } else {
      assert (a + b)[1..] == a[1..] + b;
      ExpandAppend(a[1..], b, eol);
    }
  }

  /** Text whose sequences are expanded to CR contains no LF. */
  lemma {:induction false} ExpandedFront(s: string, eol: string)
    requires eol != [] && Expand(s, eol) != []
    ensures Expand(s, eol)[0] == if s[0] == '\n' then eol[0] else s[0]
  {
  }

  ghost predicate AllOf(ks: seq<Kind>, k: Kind) {
    forall i :: 0 <= i < |ks| ==> ks[i] == k
  }

  lemma AllOfFront(k1: Kind, ks: seq<Kind>, k: Kind)
    ensures AllOf([k1] + ks, k) <==> k1 == k && AllOf(ks, k)
  {
    var s := [k1] + ks;
    assert s[0] == k1;
    forall i | 0 <= i < |ks|
      ensures s[i + 1] == ks[i]
    {
    }
  }

  /** Loading and saving in style `k` reproduces a file exactly when all its sequences are of that kind. */
  lemma {:induction false} LoadSave(s: string, k: Kind)
    ensures Expand(Normalize(s), Sequence(k)) == s <==> AllOf(Kinds(s), k)
    decreases |s|
  {
    hide AllOf, Normalize, Kinds, Expand;
    if s == [] {
      LoadSaveEmpty(k);
    } else {
      Unfold(s);
      if IsEol(s[0]) {
        var k1 := FrontKind(s);
        var rest := s[|Sequence(k1)|..];
        LoadSave(rest, k);
        ExpandFront('\n', Normalize(rest), Sequence(k));
        assert s == Sequence(k1) + rest;
        if k1 == k {
          SameFront(Sequence(k), Expand(Normalize(rest), Sequence(k)), rest);
        } else {
          FrontsDiffer(rest, k, k1);
        }
        AllOfFront(k1, Kinds(rest), k);
      } else {
        LoadSave(s[1..], k);
        ExpandFront(s[0], Normalize(s[1..]), Sequence(k));
        assert s == [s[0]] + s[1..];
        SameFront([s[0]], Expand(Normalize(s[1..]), Sequence(k)), s[1..]);
      }
    }
  }

  lemma LoadSaveEmpty(k: Kind)
    ensures Expand(Normalize([]), Sequence(k)) == [] && AllOf(Kinds([]), k)
  {
  }

  lemma ExpandFront(c: char, s: string, eol: string)
    ensures Expand([c] + s, eol) == (if c == '\n' then eol else [c]) + Expand(s, eol)
  {
    assert ([c] + s)[1..] == s;
  }

  lemma SameFront<T>(f: seq<T>, a: seq<T>, b: seq<T>)
    ensures f + a == f + b <==> a == b
  {
    if f + a == f + b {
      assert a == (f + a)[|f|..] == (f + b)[|f|..] == b;
    }
  }

  lemma FrontsDiffer(rest: string, k: Kind, k1: Kind)
    requires k != k1 && (k1 == Cr ==> rest == [] || rest[0] != '\n')
    ensures Sequence(k) + Expand(Normalize(rest), Sequence(k)) != Sequence(k1) + rest
  {
    var n := Normalize(rest);
    var e := Expand(n, Sequence(k));
    var a, b := Sequence(k) + e, Sequence(k1) + rest;
    if k == Cr && k1 == Crlf {
      if e != [] {
        ExpandedFront(n, Sequence(k));
        assert a[1] == e[0] && b[1] == '\n';
      }
    } else if k == Crlf && k1 == Cr {
      assert a[1] == '\n';
      if rest != [] {
        assert b[1] == rest[0];
      }
    } else {
      assert a[0] != b[0];
    }
  }

  /** What is written in any mode is read back normalised; a text comes back exactly if it has no CR. */
  lemma {:induction false} SaveLoad(s: string, k: Kind)
    requires '\r' !in s
    ensures Normalize(Expand(s, Sequence(k))) == s
    decreases |s|
  {
    if s != [] {
      SaveLoad(s[1..], k);
      var e := Expand(s[1..], Sequence(k));
      var t := Expand(s, Sequence(k));
      if s[0] == '\n' {
        if e != [] {
          ExpandedFront(s[1..], Sequence(k));
        }
        assert k == Cr && e != [] ==> t[1] == e[0];
        assert FrontKind(t) == k;
        assert t[|Sequence(k)|..] == e;
      } else {
        assert t[1..] == e;
      }
    }
  }

  lemma {:induction false} NormalHasNoCr(s: string)
    ensures '\r' !in Normalize(s)
    decreases |s|
  {
    if s != [] {
      NormalHasNoCr(s[if IsEol(s[0]) then |Sequence(FrontKind(s))| else 1..]);
    }
  }

  /** Reading back what was written gives the text itself exactly if it has no CR. */
  lemma {:induction false} SaveLoadExact(s: string, k: Kind)
    ensures Normalize(Expand(Normalize(s), Sequence(k))) == s <==> '\r' !in s
  {
    NormalHasNoCr(s);
    SaveLoad(Normalize(s), k);
    if '\r' !in s {
      NormalIsFixed(s);
    }
  }

  lemma {:induction false} NormalIsFixed(s: string)
    requires '\r' !in s
    ensures Normalize(s) == s
  {
    if s != [] {
      NormalIsFixed(s[1..]);
    }
  }
}
