/** Printing numbers into a fixed buffer and reading them back, in any radix. */
module NumberFormat {
  import opened Ascii
  import opened Words

  /** The size of the buffer: a sign, 64 digits and the null at the end. */
  const FORMAT_LEN: nat := 1 + 64 + 1

  /** A `gchar` is a signed byte. */
  type Text = seq<int>

  function Narrow(x: int): int {
    (x + 128) % 256 - 128
  }

  const ZERO := '0' as int
  const NINE := '9' as int
  const LETTER_A := 'A' as int
  const MINUS := '-' as int

  /** The character of a digit; beyond `9` the letters follow. */
  function DigitChar(d: nat): int {
    var c := Narrow(ZERO + d);
    if c > NINE then Narrow(c + (LETTER_A - NINE - 1)) else c
  }

  function Digits(n: nat, radix: nat): Text
    requires radix >= 2
  {
    if n < radix then [DigitChar(n)]
    else
      DivSmaller(n, radix);
      Digits(n / radix, radix) + [DigitChar(n % radix)]
  }

  lemma {:induction false} AtLeastTwice(q: nat, radix: nat)
    requires radix >= 2
    ensures q * radix >= 2 * q
    decreases radix
  {
    if radix > 2 {
      AtLeastTwice(q, radix - 1);
      assert q * radix == q * (radix - 1) + q;
    }
  }

  lemma DivSmaller(n: nat, radix: nat)
    requires radix >= 2
    ensures n / radix <= n / 2 && (n >= radix ==> n / radix < n)
  {
    var q, r := n / radix, n % radix;
    AtLeastTwice(q, radix);
    assert 2 * q <= n;
  }

  /** The printed form of a number. */
  function Printed(number: Word, radix: nat): Text
    requires radix >= 2
  {
    (if number < 0 then [MINUS] else []) + Digits(Abs(number), radix)
  }

  lemma {:induction false} DigitsFit(n: nat, radix: nat, k: nat)
    requires radix >= 2 && n < Pow2(k) && k > 0
    ensures |Digits(n, radix)| <= k
    decreases k
  {
    if n >= radix {
      assert k > 1;
      assert n / radix <= n / 2 by { DivSmaller(n, radix); }
      DigitsFit(n / radix, radix, k - 1);
    }
  }

  /** A word in radix 2 has at most 64 digits. */
  lemma WordFits(number: Word, radix: nat)
    requires IsWord(number) && radix >= 2
    ensures |Digits(Abs(number), radix)| <= 64 && |Printed(number, radix)| < FORMAT_LEN
  {
    assert Pow2(64) == MODULUS by { PowerOf64(); }
    DigitsFit(Abs(number), radix, 64);
  }

  /** The digit of a word, as C computes it. */
  lemma LastDigit(v: Word, radix: nat)
    requires radix >= 2
    ensures Abs(TruncMod(v, radix)) == Abs(v) % radix && Abs(TruncDiv(v, radix)) == Abs(v) / radix
    ensures TruncDiv(v, radix) == 0 <==> Abs(v) < radix
    ensures IsWord(v) ==> IsWord(TruncDiv(v, radix))
  {
    var a := Abs(v);
    var q, r := a / radix, a % radix;
    Quotient(a, radix);
    if v < 0 {
      assert TruncDiv(v, radix) == -q;
      assert radix * -q == -(radix * q);
    } else {
      assert TruncDiv(v, radix) == q;
    }
  }

  lemma Quotient(a: nat, radix: nat)
    requires radix >= 2
    ensures a == radix * (a / radix) + a % radix && a / radix <= a
    ensures a / radix == 0 <==> a < radix
  {
    DivSmaller(a, radix);
  }

  /** Prints backwards into the buffer; the result starts at `p` and ends before the null. */
  method Format(buffer: array<int>, number: Word, radix: nat) returns (p: nat)
    requires buffer.Length == FORMAT_LEN && IsWord(number) && radix >= 2
    modifies buffer
    ensures p < FORMAT_LEN && buffer[p..FORMAT_LEN - 1] == Printed(number, radix) && buffer[FORMAT_LEN - 1] == 0
  {
    hide Digits, TruncMod, TruncDiv, DigitChar;
    WordFits(number, radix);
    p := FORMAT_LEN;
    var v := number;
    p := p - 1;
    buffer[p] := 0;
    ghost var all, done := Digits(Abs(number), radix), [];
    var more := true;
    while more
      invariant more ==> 1 <= p <= FORMAT_LEN - 1 && all == Digits(Abs(v), radix) + done
      invariant !more ==> 1 <= p <= FORMAT_LEN - 1 && all == done
      invariant IsWord(v) && buffer[FORMAT_LEN - 1] == 0 && |done| == FORMAT_LEN - 1 - p
      invariant forall i :: 0 <= i < |done| ==> buffer[p + i] == done[i]
      decreases more, Abs(v)
    {
      LastDigit(v, radix);
      DivSmaller(Abs(v), radix);
      UnfoldDigits(Abs(v), radix, done);
      p := p - 1;
      buffer[p] := Narrow(ZERO + Abs(TruncMod(v, radix)));
      if buffer[p] > NINE {
        buffer[p] := Narrow(buffer[p] + (LETTER_A - NINE - 1));
      }
      assert buffer[p] == DigitChar(Abs(v) % radix) by { DigitCharIs(Abs(v) % radix); }
      done := [buffer[p]] + done;
      v := TruncDiv(v, radix);
      more := v != 0;
    }
    assert buffer[p..FORMAT_LEN - 1] == all;
    if number < 0 {
      p := p - 1;
      buffer[p] := MINUS;
      assert buffer[p..FORMAT_LEN - 1] == [MINUS] + all;
    }
  }

  lemma DigitCharIs(d: nat)
    ensures DigitChar(d) == var c := Narrow(ZERO + d); if c > NINE then Narrow(c + (LETTER_A - NINE - 1)) else c
  {
  }

  /** One digit moves from the number to the buffer. */
  lemma UnfoldDigits(n: nat, radix: nat, done: Text)
    requires radix >= 2
    ensures |Digits(n, radix)| >= 1
    ensures if n < radix then Digits(n, radix) + done == [DigitChar(n % radix)] + done
            else Digits(n, radix) + done == Digits(n / radix, radix) + ([DigitChar(n % radix)] + done)
  {
    if n < radix {
      assert n % radix == n by { SmallMod(n, radix); }
    }
  }

  lemma SmallMod(n: nat, radix: nat)
    requires n < radix
    ensures n % radix == n
  {
  }

  // Reading.

  /** The value of a digit in a radix, or -1. */
  function DigitValue(c: int, radix: nat): int {
    var u := AsciiUpperCode(c);
    if ZERO <= u <= ZERO + (if radix < 10 then radix else 10) - 1 then u - ZERO
    else if LETTER_A <= u <= LETTER_A + (if radix - 10 < 26 then radix - 10 else 26) - 1 then 10 + (u - LETTER_A)
    else -1
  }

  /** The character at a position, or null at the end of the text. */
  function CharAt(text: Text, pos: nat): int {
    if pos < |text| then text[pos] else 0
  }

  /** Where the run of digits ends. */
  function DigitsEnd(text: Text, pos: nat, radix: nat): (end: nat)
    requires pos <= |text|
    ensures pos <= end <= |text|
    decreases |text| - pos
  {
    if DigitValue(CharAt(text, pos), radix) < 0 || pos == |text| then pos else DigitsEnd(text, pos + 1, radix)
  }

  /** The number that a run of digits denotes. */
  function Magnitude(digits: Text, radix: nat): int {
    if digits == [] then 0
    else Magnitude(digits[..|digits| - 1], radix) * radix + DigitValue(digits[|digits| - 1], radix)
  }

  /** What reading at a position gives: the digits there, after an optional sign, modulo 2^64. */
  function Parsed(text: Text, pos: nat, radix: nat): Word
    requires pos <= |text|
  {
    var start := if CharAt(text, pos) == MINUS then pos + 1 else pos;
    var m := Magnitude(text[start..DigitsEnd(text, start, radix)], radix);
    Wrap(if start > pos then -m else m)
  }

  lemma NullIsNoDigit(radix: nat)
    ensures DigitValue(0, radix) < 0
  {
  }

  method Read(text: Text, pos: nat, radix: nat) returns (number: Word)
    requires pos <= |text|
    ensures number == Parsed(text, pos, radix)
  {
    hide Wrap, Magnitude;
    var p, sign, v: Word := pos, 1, 0;
    var c := CharAt(text, p);
    if c == MINUS {
      p := p + 1;
      sign := -1;
    }
    ghost var start := p;
    assert v == Wrap(Magnitude(text[start..p], radix)) by { NoDigits(text[start..p], radix); }
    NullIsNoDigit(radix);
    while true
      invariant start <= p <= |text| && DigitsEnd(text, p, radix) == DigitsEnd(text, start, radix)
      invariant v == Wrap(Magnitude(text[start..p], radix))
      decreases |text| - p
    {
      c := AsciiUpperCode(CharAt(text, p));
      var d;
      if ZERO <= c <= ZERO + (if radix < 10 then radix else 10) - 1 {
        d := c - ZERO;
      } else if LETTER_A <= c <= LETTER_A + (if radix - 10 < 26 then radix - 10 else 26) - 1 {
        d := 10 + (c - LETTER_A);
      } else {
        break;
      }
      OneMoreDigit(text, start, p, radix, d);
      v := Wrap(Wrap(v * radix) + d);
      p := p + 1;
    }
    SignedWrap(sign, Magnitude(text[start..p], radix));
    number := Wrap(sign * v);
  }

  lemma NoDigits(s: Text, radix: nat)
    requires s == []
    ensures Wrap(Magnitude(s, radix)) == 0
  {
  }

  lemma OneMoreDigit(text: Text, start: nat, p: nat, radix: nat, d: int)
    requires start <= p < |text| && d == DigitValue(text[p], radix)
    ensures var m := Magnitude(text[start..p], radix);
            Wrap(Magnitude(text[start..p + 1], radix)) == Wrap(Wrap(Wrap(m) * radix) + d)
  {
    var s, m := text[start..p + 1], Magnitude(text[start..p], radix);
    assert s[..|s| - 1] == text[start..p] && s[|s| - 1] == text[p];
    WrapMul(m, radix);
    WrapAdd(m * radix, d);
  }

  lemma SignedWrap(sign: int, m: int)
    requires sign == 1 || sign == -1
    ensures Wrap(sign * Wrap(m)) == Wrap(if sign < 0 then -m else m)
  {
    WrapMul(m, sign);
    assert m * sign == if sign < 0 then -m else m;
    assert Wrap(m) * sign == sign * Wrap(m);
  }

  // What digits look like.

  const DIGITS := "0123456789ABCDEFGHIJKLMNOPQRSTUVWXYZ"
  const SMALL_DIGITS := "0123456789abcdefghijklmnopqrstuvwxyz"

  lemma TableIs(d: nat)
    requires d < 36
    ensures DIGITS[d] as int == if d < 10 then 48 + d else 55 + d
  {
    if d < 18 {
      assert forall i :: 0 <= i < 18 ==> DIGITS[i] as int == if i < 10 then 48 + i else 55 + i;
    } else {
      assert forall i :: 18 <= i < 36 ==> DIGITS[i] as int == 55 + i;
    }
  }

  /** Digits are printed as the characters of the table. */
  lemma DigitIs(d: nat)
    requires d < 36
    ensures DigitChar(d) == DIGITS[d] as int
  {
    hide DIGITS;
    TableIs(d);
  }

  /** The number without its last `i` digits. */
  function Shortened(n: nat, radix: nat, i: nat): nat
    requires radix >= 2
  {
    if i == 0 then n else Shortened(n / radix, radix, i - 1)
  }

  /** The place before the last `i` shows the last digit of `n`. */
  predicate Shows(s: Text, i: nat, n: nat, radix: nat)
    requires 2 <= radix <= 36
  {
    i < |s| && s[|s| - 1 - i] == DIGITS[n % radix] as int
  }

  lemma LastShows(n: nat, radix: nat, s: Text)
    requires 2 <= radix <= 36
    ensures Shows(s + [DigitChar(n % radix)], 0, n, radix)
  {
    hide DIGITS;
    DigitIs(n % radix);
  }

  lemma EarlierShows(s: Text, i: nat, n: nat, radix: nat, c: int)
    requires 2 <= radix <= 36 && Shows(s, i, n, radix)
    ensures Shows(s + [c], i + 1, n, radix)
  {
    hide DIGITS;
  }

  /** Every place of a printed number shows its digit, and no digit before the first one is missing or 0. */
  lemma {:induction false} DigitsSpell(n: nat, radix: nat)
    requires 2 <= radix <= 36
    ensures var s := Digits(n, radix);
            && s != [] && Shortened(n, radix, |s|) == 0
            && (n > 0 ==> Shortened(n, radix, |s| - 1) > 0) && (n == 0 ==> |s| == 1)
            && forall i :: 0 <= i < |s| ==> Shows(s, i, Shortened(n, radix, i), radix)
  {
    hide DigitChar, Shows;
    SmallShortened(n, radix);
    if n < radix {
      SmallMod(n, radix);
      LastShows(n, radix, []);
      assert [] + [DigitChar(n)] == [DigitChar(n)];
    } else {
      DivSmaller(n, radix);
      DigitsSpell(n / radix, radix);
      var t := Digits(n / radix, radix);
      LastShows(n, radix, t);
      forall i | 0 <= i < |t| + 1
        ensures Shows(Digits(n, radix), i, Shortened(n, radix, i), radix)
      {
        if i > 0 {
          EarlierShows(t, i - 1, Shortened(n / radix, radix, i - 1), radix, DigitChar(n % radix));
        }
      }
    }
  }

  lemma SmallShortened(n: nat, radix: nat)
    requires radix >= 2
    ensures Shortened(n, radix, 0) == n && Shortened(n, radix, 1) == n / radix
    ensures n < radix ==> n / radix == 0
  {
    assert Shortened(n, radix, 1) == Shortened(n / radix, radix, 0);
  }

  /** A sign is printed exactly for negative numbers. */
  lemma SignIs(number: Word, radix: nat)
    requires radix >= 2
    ensures Printed(number, radix) ==
            (if number < 0 then ["-"[0] as int] + Digits(-number, radix) else Digits(number, radix))
  {
    assert [] + Digits(Abs(number), radix) == Digits(Abs(number), radix);
  }

  /** Digits are read in both cases, as far as the radix goes, and nothing else is. */
  lemma DigitRead(c: int, radix: nat, d: nat)
    ensures DigitValue(c, radix) == d <==> d < radix && d < 36 && (c == DIGITS[d] as int || c == SMALL_DIGITS[d] as int)
  {
    hide DIGITS, SMALL_DIGITS;
    if d < 36 {
      TableIs(d);
      SmallIs(d);
    }
  }

  lemma SmallIs(d: nat)
    requires d < 36
    ensures SMALL_DIGITS[d] as int == if d < 10 then 48 + d else 87 + d
  {
    if d < 18 {
      assert forall i :: 0 <= i < 18 ==> SMALL_DIGITS[i] as int == if i < 10 then 48 + i else 87 + i;
    } else {
      assert forall i :: 18 <= i < 36 ==> SMALL_DIGITS[i] as int == 87 + i;
    }
  }

  // Reading back what was printed.

  lemma DigitBack(d: nat, radix: nat)
    requires d < radix <= 36
    ensures DigitValue(DigitChar(d), radix) == d && DigitChar(d) != MINUS
  {
  }

  lemma {:induction false} DigitsBack(n: nat, radix: nat)
    requires 2 <= radix <= 36
    ensures Magnitude(Digits(n, radix), radix) == n
    ensures forall i :: 0 <= i < |Digits(n, radix)| ==> DigitValue(Digits(n, radix)[i], radix) >= 0
    ensures Digits(n, radix) != [] && Digits(n, radix)[0] != MINUS
    decreases n
  {
    hide DigitChar, DigitValue, Magnitude;
    if n < radix {
      DigitBack(n, radix);
      MagnitudeOfOne(DigitChar(n), radix);
    } else {
      DivSmaller(n, radix);
      DigitsBack(n / radix, radix);
      DigitBack(n % radix, radix);
      MagnitudeOfMore(Digits(n / radix, radix), DigitChar(n % radix), radix);
      DivAndMod(n, radix);
    }
  }

  lemma DivAndMod(n: nat, radix: nat)
    requires radix > 0
    ensures n / radix * radix + n % radix == n
  {
  }

  lemma MagnitudeOfOne(c: int, radix: nat)
    ensures Magnitude([c], radix) == DigitValue(c, radix)
  {
    hide DigitValue;
    assert [c][..0] == [];
  }

  lemma MagnitudeOfMore(digits: Text, c: int, radix: nat)
    ensures Magnitude(digits + [c], radix) == Magnitude(digits, radix) * radix + DigitValue(c, radix)
  {
    hide DigitValue;
    assert (digits + [c])[..|digits|] == digits;
  }

  lemma {:induction false} RunEnds(text: Text, pos: nat, end: nat, radix: nat)
    requires pos <= end <= |text| && DigitValue(CharAt(text, end), radix) < 0
    requires forall i :: pos <= i < end ==> DigitValue(text[i], radix) >= 0
    ensures DigitsEnd(text, pos, radix) == end
    decreases end - pos
  {
    if pos < end {
      RunEnds(text, pos + 1, end, radix);
    }
  }

  /** A printed word followed by anything that does not continue it reads back as itself. */
  lemma ReadsBack(number: Word, radix: nat, before: Text, after: Text)
    requires IsWord(number) && 2 <= radix <= 36 && DigitValue(CharAt(after, 0), radix) < 0
    ensures Parsed(before + Printed(number, radix) + after, |before|, radix) == number
  {
    hide DigitValue, Digits, DigitsEnd, Magnitude, Wrap;
    var n := Abs(number);
    var ds := Digits(n, radix);
    var text := before + Printed(number, radix) + after;
    var start := |before| + if number < 0 then 1 else 0;
    var end := start + |ds|;
    DigitsBack(n, radix);
    PrintedWithin(number, radix, before, after);
    forall i | start <= i < end
      ensures DigitValue(text[i], radix) >= 0
    {
      assert text[i] == text[start..end][i - start];
    }
    RunEnds(text, start, end, radix);
    assert Wrap(number) == number;
  }

  /** Where the digits of a printed number are. */
  lemma PrintedWithin(number: Word, radix: nat, before: Text, after: Text)
    requires radix >= 2
    ensures var ds := Digits(Abs(number), radix);
            var text := before + Printed(number, radix) + after;
            var start := |before| + if number < 0 then 1 else 0;
            && start + |ds| <= |text| && text[start..start + |ds|] == ds
            && CharAt(text, start + |ds|) == CharAt(after, 0)
            && (ds != [] ==> CharAt(text, |before|) == if number < 0 then MINUS else ds[0])
  {
    hide Digits;
  }
}
