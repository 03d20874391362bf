/**
 * What the operators mean, by laws that do not compute them: subtraction undoes addition, quotient
 * and remainder make up the dividend, and the bitwise operators work on every bit by itself.
 */
module ArithmeticLaws {
  import opened Sequences
  import opened Words
  import opened ExpressionSpec
  import opened ExpressionGrammar

  // Single operations.

  function Halved(n: nat, i: nat): nat {
    if i == 0 then n else Halved(n / 2, i - 1)
  }

  /** The bit of value 2^i in the two's complement of a word. */
  predicate Bit(x: Word, i: nat) {
    Halved(Unsigned(x), i) % 2 == 1
  }

  function Product(xs: seq<Word>): int {
    if xs == [] then 1 else Product(Front(xs)) * Last(xs)
  }

  /** A remainder is smaller than the divisor and has the sign of the dividend. */
  predicate Remains(l: Word, r: Word, m: int) {
    Abs(m) < Abs(r) && (m != 0 ==> (m < 0 <==> l < 0))
  }

  predicate Divides(r: Word, x: int)
    requires r != 0
  {
    x % r == 0
  }

  /** `q` is the quotient of two words; the one that is no word wraps. */
  predicate IsQuotient(l: Word, r: Word, q: Word) {
    if l == INT_MIN && r == -1 then q == INT_MIN else Remains(l, r, l - q * r)
  }

  /** What the operator `op` may make of the words `l` and `r`. */
  ghost predicate Lawful(op: Op, l: Word, r: Word, v: Result<Word>) {
    match op
    case Add => v.Ok? && IsWord(v.value) && Wrap(v.value - r) == l
    case Sub => v.Ok? && IsWord(v.value) && Wrap(v.value + r) == l
    case Mul => v.Ok? && IsWord(v.value) && Divides(MODULUS, v.value - l * r)
    case Div => if r == 0 then v == Err(DivisionByZero) else v.Ok? && IsQuotient(l, r, v.value)
    case Mod =>
      if r == 0 then v == Err(RemainderOfDivisionByZero)
      else v.Ok? && Remains(l, r, v.value) && Divides(r, l - v.value)
    case And => v.Ok? && IsWord(v.value) && forall i :: 0 <= i < 64 ==> Bit(v.value, i) == (Bit(l, i) && Bit(r, i))
    case Xor => v.Ok? && IsWord(v.value) && forall i :: 0 <= i < 64 ==> Bit(v.value, i) == (Bit(l, i) != Bit(r, i))
    case Or => v.Ok? && IsWord(v.value) && forall i :: 0 <= i < 64 ==> Bit(v.value, i) == (Bit(l, i) || Bit(r, i))
    case Pow =>
      if r == 0 then v == Ok(if l < 0 then -1 else 1)
      else if r > 0 then v.Ok? && IsWord(v.value) && Divides(MODULUS, v.value - Product(seq(r, _ => l)))
      else if l == 0 then v == Err(NegativePowerOfZero)
      else v.Ok? && IsQuotient(1, l, v.value)
    case _ => v == Err(NotReached)
  }

  lemma BitwiseStep(f: (bool, bool) -> bool, x: nat, y: nat, n: nat)
    requires n > 0
    ensures var z := Bitwise(f, x, y, n);
            && z / 2 == Bitwise(f, x / 2, y / 2, n - 1)
            && (z % 2 == 1 <==> f(x % 2 == 1, y % 2 == 1))
  {
    LowestBit(if f(x % 2 == 1, y % 2 == 1) then 1 else 0, Bitwise(f, x / 2, y / 2, n - 1));
  }

  lemma LowestBit(bit: nat, rest: nat)
    requires bit < 2
    ensures (bit + 2 * rest) / 2 == rest && (bit + 2 * rest) % 2 == bit
  {
  }

  lemma {:induction false} BitwiseBit(f: (bool, bool) -> bool, x: nat, y: nat, n: nat, i: nat)
    requires i < n
    ensures Halved(Bitwise(f, x, y, n), i) % 2 == 1 <==> f(Halved(x, i) % 2 == 1, Halved(y, i) % 2 == 1)
  {
    hide Bitwise;
    BitwiseStep(f, x, y, n);
    if i > 0 {
      BitwiseBit(f, x / 2, y / 2, n - 1, i - 1);
    }
  }

  lemma {:induction false} BitwiseFits(f: (bool, bool) -> bool, x: nat, y: nat, n: nat)
    ensures Bitwise(f, x, y, n) < Pow2(n)
  {
    if n > 0 {
      BitwiseFits(f, x / 2, y / 2, n - 1);
    }
  }

  lemma UnsignedWrap(z: int)
    requires 0 <= z < MODULUS
    ensures Unsigned(Wrap(z)) == z
  {
    var k := Carry(z);
    assert Wrap(z) == z - k * MODULUS;
    assert k == 0 || k == 1;
  }

  lemma BitsOf(f: (bool, bool) -> bool, l: Word, r: Word)
    ensures var v := Wrap(Bitwise(f, Unsigned(l), Unsigned(r), 64));
            forall i :: 0 <= i < 64 ==> Bit(v, i) == f(Bit(l, i), Bit(r, i))
  {
    hide Wrap, Unsigned, Halved, Bitwise;
    var z := Bitwise(f, Unsigned(l), Unsigned(r), 64);
    BitwiseFits(f, Unsigned(l), Unsigned(r), 64);
    PowerOf64();
    UnsignedWrap(z);
    forall i | 0 <= i < 64
      ensures Bit(Wrap(z), i) == f(Bit(l, i), Bit(r, i))
    {
      BitwiseBit(f, Unsigned(l), Unsigned(r), 64, i);
    }
  }

  /** Quotient and remainder make up the dividend. */
  lemma TruncRemains(l: int, r: int)
    requires r != 0
    ensures Remains(l, r, TruncMod(l, r)) && TruncMod(l, r) == l - TruncDiv(l, r) * r
    ensures Divides(r, l - TruncMod(l, r))
  {
    var q, a := TruncDiv(l, r), if l < 0 then -l else l;
    assert a == r * (a / r) + a % r;
    assert r * -(a / r) == -(r * (a / r));
    assert l - TruncMod(l, r) == r * q;
    MultipleDivides(r, q);
  }

  lemma MultipleDivides(r: int, q: int)
    requires r != 0
    ensures r * q % r == 0
  {
    var x := r * q;
    assert x == r * (x / r) + x % r;
    var d := q - x / r;
    assert r * d == x % r by {
      assert r * d == r * q - r * (x / r);
    }
    SmallMultiple(r, d);
  }

  lemma SmallMultiple(r: int, d: int)
    requires r != 0 && 0 <= r * d < Abs(r)
    ensures d == 0 && r * d == 0
  {
    if d >= 1 {
      MulMono(r, 1, d);
    } else if d <= -1 {
      MulMono(r, d, -1);
    }
  }

  lemma MulMono(r: int, a: int, b: int)
    requires a <= b
    ensures r > 0 ==> r * a <= r * b
    ensures r < 0 ==> r * b <= r * a
  {
  }

  /** A divisor of at least two makes the quotient smaller. */
  lemma QuotientShrinks(a: nat, b: nat)
    requires b >= 2
    ensures 0 <= a / b <= a
  {
    assert a == b * (a / b) + a % b;
    MulMono(a / b, 1, b);
  }

  /** All quotients but one of words are words. */
  lemma QuotientIsWord(l: Word, r: Word)
    requires IsWord(l) && IsWord(r) && r != 0
    ensures if l == INT_MIN && r == -1 then TruncDiv(l, r) == -INT_MIN else IsWord(TruncDiv(l, r))
  {
    var a := if l < 0 then -l else l;
    if r >= 2 {
      QuotientShrinks(a, r);
    } else if r <= -2 {
      QuotientShrinks(a, -r);
      assert a / r == -(a / -r);
    }
  }

  lemma {:induction false} PowerIsProduct(l: Word, r: nat)
    ensures Product(seq(r, _ => l)) == Power(l, r)
  {
    var xs := seq(r, _ => l);
    if r > 0 {
      PowerIsProduct(l, r - 1);
      assert Front(xs) == seq(r - 1, _ => l);
      assert Power(l, r - 1) * l == l * Power(l, r - 1);
    }
  }

  lemma WrapDivides(x: int)
    ensures Divides(MODULUS, Wrap(x) - x)
  {
    var k := Carry(x);
    assert Wrap(x) - x == MODULUS * -k;
    MultipleDivides(MODULUS, -k);
  }

  /** The operation is lawful. */
  lemma ArithLawful(op: Op, l: Word, r: Word)
    requires IsWord(l) && IsWord(r)
    ensures Lawful(op, l, r, Arith(op, l, r))
  {
    hide Wrap, Divides, TruncDiv, TruncMod, Power, Product, Remains, Bit, Bitwise;
    match op
    case Add => WrapAdd(l + r, -r); WordWraps(l);
    case Sub => WrapAdd(l - r, r); WordWraps(l);
    case Mul => WrapDivides(l * r);
    case Div => if r != 0 { DivLawful(l, r); }
    case Mod => if r != 0 { ModLawful(l, r); }
    case And => BitsOf((a, b) => a && b, l, r);
    case Xor => BitsOf((a, b) => a != b, l, r);
    case Or => BitsOf((a, b) => a || b, l, r);
    case Pow =>
      if r > 0 {
        PowerIsProduct(l, r);
        WrapDivides(Power(l, r));
      } else if r < 0 && l != 0 {
        ReciprocalLawful(l);
      }
    case _ =>
  }

  lemma WordWraps(x: int)
    requires IsWord(x)
    ensures Wrap(x) == x
  {
  }

  lemma DivLawful(l: Word, r: Word)
    requires IsWord(l) && IsWord(r) && r != 0
    ensures IsQuotient(l, r, Wrap(TruncDiv(l, r)))
  {
    QuotientIsWord(l, r);
    TruncRemains(l, r);
  }

  lemma ModLawful(l: Word, r: Word)
    requires IsWord(l) && IsWord(r) && r != 0
    ensures Remains(l, r, Wrap(TruncMod(l, r))) && Divides(r, l - Wrap(TruncMod(l, r)))
  {
    TruncRemains(l, r);
  }

  lemma ReciprocalLawful(l: Word)
    requires l != 0
    ensures IsQuotient(1, l, if Abs(l) == 1 then l else 0)
  {
  }

  // The laws leave no choice.

  /** Words congruent modulo 2^64 are equal. */
  lemma CongruentWords(v: Word, w: Word)
    requires IsWord(v) && IsWord(w) && Divides(MODULUS, v - w)
    ensures v == w
  {
  }

  lemma DividesDifference(r: Word, x: int, y: int)
    requires r != 0 && Divides(r, x) && Divides(r, y)
    ensures Divides(r, x - y)
  {
    assert x == r * (x / r) && y == r * (y / r);
    assert x - y == r * (x / r - y / r);
    MultipleDivides(r, x / r - y / r);
  }

  lemma WrapInjective(v: Word, w: Word, d: int)
    requires IsWord(v) && IsWord(w) && Wrap(v + d) == Wrap(w + d)
    ensures v == w
  {
    hide Divides;
    WrapDivides(v + d);
    WrapDivides(w + d);
    DividesDifference(MODULUS, Wrap(w + d) - (w + d), Wrap(v + d) - (v + d));
    CongruentWords(v, w);
  }

  lemma RemainsUnique(l: Word, r: Word, m: int, n: int)
    requires r != 0 && Remains(l, r, m) && Remains(l, r, n) && Divides(r, m - n)
    ensures m == n
  {
    var d := (m - n) / r;
    assert m - n == r * d;
    if m < n {
      assert r * -d == n - m;
      SmallMultiple(r, -d);
    } else {
      SmallMultiple(r, d);
    }
  }

  lemma QuotientUnique(l: Word, r: Word, p: int, q: int)
    requires r != 0 && IsQuotient(l, r, p) && IsQuotient(l, r, q)
    ensures p == q
  {
    if !(l == INT_MIN && r == -1) {
      var m, n := l - p * r, l - q * r;
      assert m - n == r * (q - p);
      MultipleDivides(r, q - p);
      RemainsUnique(l, r, m, n);
      if p < q {
        MulMono(r, 1, q - p);
      } else if q < p {
        MulMono(r, q - p, -1);
      }
    }
  }

  lemma {:induction false} BitsUnique(x: nat, y: nat, n: nat)
    requires x < Pow2(n) && y < Pow2(n)
    requires forall i :: 0 <= i < n ==> Halved(x, i) % 2 == Halved(y, i) % 2
    ensures x == y
  {
    if n > 0 {
      assert Halved(x, 0) % 2 == Halved(y, 0) % 2;
      forall i | 0 <= i < n - 1
        ensures Halved(x / 2, i) % 2 == Halved(y / 2, i) % 2
      {
        assert Halved(x, i + 1) % 2 == Halved(y, i + 1) % 2;
      }
      BitsUnique(x / 2, y / 2, n - 1);
    }
  }

  /** A word is determined by its bits. */
  lemma WordBitsUnique(v: Word, w: Word)
    requires IsWord(v) && IsWord(w) && forall i :: 0 <= i < 64 ==> Bit(v, i) == Bit(w, i)
    ensures v == w
  {
    hide Halved;
    PowerOf64();
    forall i | 0 <= i < 64
      ensures Halved(Unsigned(v), i) % 2 == Halved(Unsigned(w), i) % 2
    {
      assert Bit(v, i) == Bit(w, i);
    }
    BitsUnique(Unsigned(v), Unsigned(w), 64);
  }

  /** At most one result is lawful. */
  lemma LawfulUnique(op: Op, l: Word, r: Word, v: Result<Word>, w: Result<Word>)
    requires IsBinary(op) && Lawful(op, l, r, v) && Lawful(op, l, r, w)
    ensures v == w
  {
    hide Wrap, Divides, Remains, IsQuotient, Product, Bit, IsWord;
    match op
    case Add => WrapInjective(v.value, w.value, -r);
    case Sub => WrapInjective(v.value, w.value, r);
    case Mul => CongruentToSame(v.value, w.value, l * r);
    case Div => if r != 0 { QuotientUnique(l, r, v.value, w.value); }
    case Mod =>
      if r != 0 {
        DividesDifference(r, l - w.value, l - v.value);
        RemainsUnique(l, r, v.value, w.value);
      }
    case And => WordBitsUnique(v.value, w.value);
    case Xor => WordBitsUnique(v.value, w.value);
    case Or => WordBitsUnique(v.value, w.value);
    case Pow =>
      if r > 0 {
        CongruentToSame(v.value, w.value, Product(seq(r, _ => l)));
      } else if r < 0 && l != 0 {
        QuotientUnique(1, l, v.value, w.value);
      }
    case _ =>
  }

  lemma CongruentToSame(v: Word, w: Word, x: int)
    requires IsWord(v) && IsWord(w) && Divides(MODULUS, v - x) && Divides(MODULUS, w - x)
    ensures v == w
  {
    DividesDifference(MODULUS, v - x, w - x);
    CongruentWords(v, w);
  }

  // Precedence.

  /** The binary operators, from those that bind least to those that bind most. */
  const RANKS: seq<set<Op>> := [{Or}, {Xor}, {And}, {Sub, Add}, {Mod, Div, Mul}, {Pow}]

  lemma PrecedenceOrder(a: Op, b: Op, i: nat, j: nat)
    requires i < |RANKS| && a in RANKS[i] && j < |RANKS| && b in RANKS[j]
    ensures Precedence(a) < Precedence(b) <==> i < j
  {
  }

  lemma RanksCover(op: Op)
    ensures IsBinary(op) <==> exists i :: 0 <= i < |RANKS| && op in RANKS[i]
  {
    var ranks := RANKS;
    assert op in ranks[0] + ranks[1] + ranks[2] + ranks[3] + ranks[4] + ranks[5] <==> IsBinary(op);
  }

  /** Of two operators, the first is applied first unless the second binds more. */
  lemma ThreeOperands(x: Operand, a: Op, y: Operand, b: Op, z: Operand, i: nat, j: nat)
    requires i < |RANKS| && a in RANKS[i] && j < |RANKS| && b in RANKS[j]
    ensures TreeOf(Chain(Chain(Single(x), a, y), b, z)) ==
            var l, m, r := OperandTree(x), OperandTree(y), OperandTree(z);
            if i >= j then Bin(b, Bin(a, l, m), r) else Bin(a, l, Bin(b, m, r))
  {
    PrecedenceOrder(a, b, i, j);
    hide RANKS, Code, Attach;
    var l, m, r := OperandTree(x), OperandTree(y), OperandTree(z);
    AttachAtom(l, a, m, x);
    AttachAtom(m, b, r, y);
    AttachBin(a, l, m, b, r);
    assert TreeOf(Chain(Single(x), a, y)) == Attach(TreeOf(Single(x)), a, m);
  }

  lemma AttachAtom(t: Tree, op: Op, x: Tree, o: Operand)
    requires t == OperandTree(o)
    ensures !t.Bin? && Attach(t, op, x) == Bin(op, t, x)
  {
  }

  lemma AttachBin(a: Op, l: Tree, m: Tree, b: Op, r: Tree)
    ensures Attach(Bin(a, l, m), b, r) ==
            if Precedence(a) < Precedence(b) then Bin(a, l, Attach(m, b, r)) else Bin(b, Bin(a, l, m), r)
  {
  }

  // Sentences.

  /** What a tree may mean: its literals, the lawful results of its operators, or the first error. */
  ghost predicate Means(t: Tree, v: Result<Word>) {
    match t
    case Leaf(n) => v == Ok(n)
    case Group(inner) => Means(inner, v)
    case Bin(op, l, r) =>
      exists a :: Means(l, a) &&
        if a.Err? then v == a
        else exists b :: Means(r, b) && if b.Err? then v == b else Lawful(op, a.value, b.value, v)
  }

  lemma ArithIsWord(op: Op, l: Word, r: Word)
    requires IsWord(l) && Arith(op, l, r).Ok?
    ensures IsWord(Arith(op, l, r).value)
  {
  }

  lemma {:induction false} ValueIsWord(t: Tree)
    requires Grammatical(t) && Value(t).Ok?
    ensures IsWord(Value(t).value)
  {
    hide Arith;
    match t
    case Leaf(_) =>
    case Group(inner) => ValueIsWord(inner);
    case Bin(op, l, r) =>
      ValueIsWord(l);
      ArithIsWord(op, Value(l).value, Value(r).value);
  }

  /** Every grammatical tree means exactly its value. */
  lemma {:induction false} ValueMeans(t: Tree, v: Result<Word>)
    requires Grammatical(t)
    ensures Means(t, v) <==> v == Value(t)
    decreases t, 1
  {
    hide Arith, Lawful;
    match t
    case Leaf(_) =>
    case Group(inner) => ValueMeans(inner, v);
    case Bin(op, l, r) => BinMeans(op, l, r, v);
  }

  lemma {:induction false} BinMeans(op: Op, l: Tree, r: Tree, v: Result<Word>)
    requires Grammatical(Bin(op, l, r))
    ensures Means(Bin(op, l, r), v) <==> v == Value(Bin(op, l, r))
    decreases Bin(op, l, r), 0
  {
    hide Arith, Lawful;
    forall a
      ensures Means(l, a) <==> a == Value(l)
    {
      ValueMeans(l, a);
    }
    forall b
      ensures Means(r, b) <==> b == Value(r)
    {
      ValueMeans(r, b);
    }
    if Value(l).Ok? && Value(r).Ok? {
      var x, y := Value(l).value, Value(r).value;
      ValueIsWord(l);
      ValueIsWord(r);
      ArithLawful(op, x, y);
      if Lawful(op, x, y, v) {
        LawfulUnique(op, x, y, v, Arith(op, x, y));
      }
    }
  }

  /** Typing a sentence and resolving it leaves what the sentence means, or stops with the error it means. */
  lemma SentenceMeans(e: Infix, s: Stacks) returns (v: Result<Word>)
    requires Legal(e) && Ready(s) && Below(s, 1)
    ensures Means(TreeOf(e), v) && forall w :: Means(TreeOf(e), w) ==> w == v
    ensures var fed := Feed(Tokens(e), s);
            var o := if fed.err != NoError then fed else Eval(false, fed.s);
            if v.Ok? then o == Outcome(PushInt(s, v.value), NoError) else o.err == v.error
  {
    hide Means, Feed, Eval, Value;
    SentenceEvaluates(e, s);
    v := Value(TreeOf(e));
    ValueMeans(TreeOf(e), v);
    forall w | Means(TreeOf(e), w)
      ensures w == v
    {
      ValueMeans(TreeOf(e), w);
    }
  }
}
