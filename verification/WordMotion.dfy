/** Moving by words in a document that is stored in two parts with a gap between them. */
module WordMotion {

  /** The characters that are skipped first when moving forwards: word characters, or the others. */
  function First(isWord: char -> bool, endOfWord: bool, c: char): bool {
    isWord(c) != endOfWord
  }

  /** A place where motion stops inside the document. */
  predicate Boundary(doc: string, isWord: char -> bool, endOfWord: bool, r: int) {
    0 < r < |doc| && First(isWord, endOfWord, doc[r]) && !First(isWord, endOfWord, doc[r - 1])
  }

  function SkipForward(doc: string, isWord: char -> bool, word: bool, p: nat): (r: nat)
    requires p <= |doc|
    ensures p <= r <= |doc|
    decreases |doc| - p
  {
    if p < |doc| && isWord(doc[p]) == word then SkipForward(doc, isWord, word, p + 1) else p
  }

  function SkipBackward(doc: string, isWord: char -> bool, word: bool, p: nat): (r: nat)
    requires p <= |doc|
    ensures r <= p
  {
    if p > 0 && isWord(doc[p - 1]) == word then SkipBackward(doc, isWord, word, p - 1) else p
  }

  /** One word forwards, and one backwards. */
  function Onward(doc: string, isWord: char -> bool, endOfWord: bool, p: nat): (r: nat)
    requires p <= |doc|
    ensures p <= r <= |doc|
  {
    SkipForward(doc, isWord, endOfWord, SkipForward(doc, isWord, !endOfWord, p))
  }

  function Back(doc: string, isWord: char -> bool, endOfWord: bool, p: nat): (r: nat)
    requires p <= |doc|
    ensures r <= p
  {
    SkipBackward(doc, isWord, !endOfWord, SkipBackward(doc, isWord, endOfWord, p))
  }

  function OnwardBy(doc: string, isWord: char -> bool, endOfWord: bool, p: nat, n: nat): (r: nat)
    requires p <= |doc|
    ensures p <= r <= |doc|
  {
    if n == 0 then p else Onward(doc, isWord, endOfWord, OnwardBy(doc, isWord, endOfWord, p, n - 1))
  }

  function BackBy(doc: string, isWord: char -> bool, endOfWord: bool, p: nat, n: nat): (r: nat)
    requires p <= |doc|
    ensures r <= p
  {
    if n == 0 then p else Back(doc, isWord, endOfWord, BackBy(doc, isWord, endOfWord, p, n - 1))
  }

  lemma {:induction false} SkipForwardIs(doc: string, isWord: char -> bool, word: bool, p: nat)
    requires p <= |doc|
    ensures var r := SkipForward(doc, isWord, word, p);
            && (forall i :: p <= i < r ==> isWord(doc[i]) == word)
            && (r < |doc| ==> isWord(doc[r]) != word)
    decreases |doc| - p
  {
    if p < |doc| && isWord(doc[p]) == word {
      SkipForwardIs(doc, isWord, word, p + 1);
    }
  }

  lemma {:induction false} SkipBackwardIs(doc: string, isWord: char -> bool, word: bool, p: nat)
    requires p <= |doc|
    ensures var r := SkipBackward(doc, isWord, word, p);
            && (forall i :: r <= i < p ==> isWord(doc[i]) == word)
            && (r > 0 ==> isWord(doc[r - 1]) != word)
  {
    if p > 0 && isWord(doc[p - 1]) == word {
      SkipBackwardIs(doc, isWord, word, p - 1);
    }
  }

  /** One word forwards leads to the next boundary, or to the end of the document. */
  lemma OnwardIsNext(doc: string, isWord: char -> bool, endOfWord: bool, p: nat)
    requires p < |doc|
    ensures var r := Onward(doc, isWord, endOfWord, p);
            && p < r && (r == |doc| || Boundary(doc, isWord, endOfWord, r))
            && (forall q :: p < q < r ==> !Boundary(doc, isWord, endOfWord, q))
            && (r < |doc| ==> isWord(doc[r - 1]) == endOfWord && isWord(doc[r]) == !endOfWord)
  {
    SkipForwardIs(doc, isWord, !endOfWord, p);
    SkipForwardIs(doc, isWord, endOfWord, SkipForward(doc, isWord, !endOfWord, p));
  }

  /** One word backwards leads to the previous boundary, or to the beginning of the document. */
  lemma BackIsPrevious(doc: string, isWord: char -> bool, endOfWord: bool, p: nat)
    requires 0 < p <= |doc|
    ensures var r := Back(doc, isWord, endOfWord, p);
            && r < p && (r == 0 || Boundary(doc, isWord, endOfWord, r))
            && (forall q :: r < q < p ==> !Boundary(doc, isWord, endOfWord, q))
            && (r > 0 ==> isWord(doc[r - 1]) == endOfWord && isWord(doc[r]) == !endOfWord)
  {
    SkipBackwardIs(doc, isWord, endOfWord, p);
    SkipBackwardIs(doc, isWord, !endOfWord, SkipBackward(doc, isWord, endOfWord, p));
  }

  /** A range of the document that does not reach across the gap. */
  predicate OneSide(gap: nat, from: nat, len: nat) {
    from >= gap || from + len <= gap
  }

  /** The characters of a range, which must lie on one side of the gap. */
  function RangePointer(doc: string, gap: nat, from: nat, len: nat): string
    requires from + len <= |doc| && OneSide(gap, from, len)
  {
    doc[from..from + len]
  }

  /** The scanner is at index `p` of a range that ends at the gap or at the end of the document. */
  predicate Ahead(doc: string, gap: nat, buffer: string, p: nat, pos: nat) {
    && p <= |buffer| && p <= pos && pos - p + |buffer| <= |doc|
    && (pos - p + |buffer| == gap || pos - p + |buffer| == |doc|)
    && buffer == doc[pos - p..pos - p + |buffer|]
  }

  lemma AheadNext(doc: string, gap: nat, buffer: string, p: nat, pos: nat)
    requires Ahead(doc, gap, buffer, p, pos) && pos < |doc|
    ensures p == |buffer| ==> pos == gap
    ensures p < |buffer| ==> buffer[p] == doc[pos] && Ahead(doc, gap, buffer, p + 1, pos + 1)
  {
  }

  lemma AheadStart(doc: string, gap: nat, buffer: string, pos: nat, len: nat)
    requires pos + len <= |doc| && (pos + len == gap || pos + len == |doc|) && buffer == doc[pos..pos + len]
    ensures Ahead(doc, gap, buffer, 0, pos)
  {
  }

  /** What one step of the scan does to the word that remains. */
  lemma OnwardStep(doc: string, isWord: char -> bool, endOfWord: bool, pos: nat, second: bool)
    requires pos < |doc|
    ensures var skipped := if second then endOfWord else !endOfWord;
            if isWord(doc[pos]) == skipped then
              Rest(doc, isWord, endOfWord, pos, second) == Rest(doc, isWord, endOfWord, pos + 1, second)
            else if second then Rest(doc, isWord, endOfWord, pos, second) == pos
            else Rest(doc, isWord, endOfWord, pos, second) == Rest(doc, isWord, endOfWord, pos, true)
  {
  }

  /** Where the current word step ends, when `second` tells which run of characters is being skipped. */
  function Rest(doc: string, isWord: char -> bool, endOfWord: bool, pos: nat, second: bool): nat
    requires pos <= |doc|
  {
    if second then SkipForward(doc, isWord, endOfWord, pos) else Onward(doc, isWord, endOfWord, pos)
  }

  method ScanForward(doc: string, isWord: char -> bool, gap: nat, endOfWord: bool, buffer: string, p: nat, pos: nat)
    returns (atEnd: bool, buffer': string, p': nat, pos': nat)
    requires gap <= |doc| && pos <= |doc| && Ahead(doc, gap, buffer, p, pos)
    ensures pos' <= |doc| && pos' == Onward(doc, isWord, endOfWord, pos) && Ahead(doc, gap, buffer', p', pos')
    ensures atEnd <==> pos' == |doc|
  {
    hide Ahead, SkipForward, Onward, Rest;
    buffer', p', pos' := buffer, p, pos;
    var skipWord := !endOfWord;
    RestIs(doc, isWord, endOfWord, pos);
    while true
      invariant pos' <= |doc| && Ahead(doc, gap, buffer', p', pos')
      invariant Rest(doc, isWord, endOfWord, pos', skipWord == endOfWord) == Onward(doc, isWord, endOfWord, pos)
      decreases |doc| - pos', skipWord != endOfWord
    {
      RestIs(doc, isWord, endOfWord, pos');
      if pos' == |doc| {
        return true, buffer', p', pos';
      }
      AheadNext(doc, gap, buffer', p', pos');
      if p' >= |buffer'| {
        AheadBounds(doc, gap, buffer', p', pos');
        assert pos' == gap;
        buffer', p' := RangePointer(doc, gap, gap, |doc| - gap), 0;
        AheadStart(doc, gap, buffer', pos', |doc| - gap);
        AheadNext(doc, gap, buffer', p', pos');
      }
      OnwardStep(doc, isWord, endOfWord, pos', skipWord == endOfWord);
      if !isWord(buffer'[p']) == skipWord {
        if skipWord == endOfWord {
          return false, buffer', p', pos';
        }
        skipWord := !skipWord;
        continue;
      }
      pos' := pos' + 1;
      p' := p' + 1;
    }
  }

  lemma AheadBounds(doc: string, gap: nat, buffer: string, p: nat, pos: nat)
    requires Ahead(doc, gap, buffer, p, pos) && p >= |buffer|
    ensures p == |buffer|
  {
  }

  lemma RestIs(doc: string, isWord: char -> bool, endOfWord: bool, pos: nat)
    requires pos <= |doc|
    ensures Rest(doc, isWord, endOfWord, pos, false) == Onward(doc, isWord, endOfWord, pos)
    ensures pos == |doc| ==> Rest(doc, isWord, endOfWord, pos, false) == Rest(doc, isWord, endOfWord, pos, true) == pos
  {
  }

  method FindForward(doc: string, isWord: char -> bool, gap: nat, start: nat, count: nat, endOfWord: bool)
    returns (ok: bool, pos: nat)
    requires gap <= |doc| && start <= |doc| && count > 0
    ensures ok <==> OnwardBy(doc, isWord, endOfWord, start, count - 1) < |doc|
    ensures ok ==> pos == OnwardBy(doc, isWord, endOfWord, start, count)
  {
    hide Ahead, Onward;
    pos := start;
    var rangeLen := if gap > pos then gap - pos else |doc| - pos;
    StuckAtEnd(doc, isWord, endOfWord, start, count - 1);
    if rangeLen == 0 {
      return false, pos;
    }
    var buffer, p := RangePointer(doc, gap, pos, rangeLen), 0;
    AheadStart(doc, gap, buffer, pos, rangeLen);
    var n := count;
    while n > 0
      invariant n <= count && pos <= |doc| && Ahead(doc, gap, buffer, p, pos)
      invariant pos == OnwardBy(doc, isWord, endOfWord, start, count - n)
      invariant OnwardBy(doc, isWord, endOfWord, start, count - n - if n == 0 then 1 else 0) < |doc|
    {
      n := n - 1;
      var atEnd;
      atEnd, buffer, p, pos := ScanForward(doc, isWord, gap, endOfWord, buffer, p, pos);
      if atEnd {
        if n > 0 {
          AtEndStays(doc, isWord, endOfWord, start, count - n, count - 1);
        }
        return n == 0, pos;
      }
    }
    ok := true;
  }

  /** At the end of the document, no word follows. */
  lemma {:induction false} StuckAtEnd(doc: string, isWord: char -> bool, endOfWord: bool, p: nat, n: nat)
    requires p <= |doc|
    ensures p == |doc| ==> OnwardBy(doc, isWord, endOfWord, p, n) == |doc|
  {
    if n > 0 {
      StuckAtEnd(doc, isWord, endOfWord, p, n - 1);
    }
  }

  lemma {:induction false} AtEndStays(doc: string, isWord: char -> bool, endOfWord: bool, p: nat, n: nat, m: nat)
    requires p <= |doc| && n <= m && OnwardBy(doc, isWord, endOfWord, p, n) == |doc|
    ensures OnwardBy(doc, isWord, endOfWord, p, m) == |doc|
    decreases m
  {
    if n < m {
      AtEndStays(doc, isWord, endOfWord, p, n, m - 1);
    }
  }

  // Backwards.

  /** The scanner is behind index `p` of a range that begins at the gap or at the beginning of the document. */
  predicate Behind(doc: string, gap: nat, buffer: string, p: nat, pos: nat) {
    && p <= |buffer| && p <= pos && pos - p + |buffer| <= |doc|
    && (pos - p == gap || pos - p == 0)
    && buffer == doc[pos - p..pos - p + |buffer|]
  }

  lemma BehindNext(doc: string, gap: nat, buffer: string, p: nat, pos: nat)
    requires Behind(doc, gap, buffer, p, pos) && pos > 0
    ensures p == 0 ==> pos == gap
    ensures pos <= |doc| && p <= |buffer|
    ensures p > 0 ==> buffer[p - 1] == doc[pos - 1] && Behind(doc, gap, buffer, p - 1, pos - 1)
  {
  }

  lemma BehindStart(doc: string, gap: nat, buffer: string, pos: nat)
    requires |buffer| <= pos <= |doc| && (pos - |buffer| == gap || pos == |buffer|)
    requires buffer == doc[pos - |buffer|..pos]
    ensures Behind(doc, gap, buffer, |buffer|, pos)
  {
  }

  /** Where the current word step backwards ends, when `second` tells which run is being skipped. */
  function RestBack(doc: string, isWord: char -> bool, endOfWord: bool, pos: nat, second: bool): nat
    requires pos <= |doc|
  {
    if second then SkipBackward(doc, isWord, !endOfWord, pos) else Back(doc, isWord, endOfWord, pos)
  }

  lemma RestBackIs(doc: string, isWord: char -> bool, endOfWord: bool, pos: nat)
    requires pos <= |doc|
    ensures RestBack(doc, isWord, endOfWord, pos, false) == Back(doc, isWord, endOfWord, pos)
    ensures pos == 0 ==>
              RestBack(doc, isWord, endOfWord, pos, false) == RestBack(doc, isWord, endOfWord, pos, true) == 0
  {
  }

  lemma BackStep(doc: string, isWord: char -> bool, endOfWord: bool, pos: nat, second: bool)
    requires 0 < pos <= |doc|
    ensures var skipped := if second then !endOfWord else endOfWord;
            if isWord(doc[pos - 1]) == skipped then
              RestBack(doc, isWord, endOfWord, pos, second) == RestBack(doc, isWord, endOfWord, pos - 1, second)
            else if second then RestBack(doc, isWord, endOfWord, pos, second) == pos
            else RestBack(doc, isWord, endOfWord, pos, second) == RestBack(doc, isWord, endOfWord, pos, true)
  {
  }

  method ScanBackward(doc: string, isWord: char -> bool, gap: nat, endOfWord: bool, buffer: string, p: nat, pos: nat)
    returns (atBegin: bool, buffer': string, p': nat, pos': nat)
    requires gap <= |doc| && pos <= |doc| && Behind(doc, gap, buffer, p, pos)
    ensures pos' <= |doc| && pos' == Back(doc, isWord, endOfWord, pos) && Behind(doc, gap, buffer', p', pos')
    ensures atBegin <==> pos' == 0
  {
    hide Behind, SkipBackward, Back, RestBack;
    buffer', p', pos' := buffer, p, pos;
    var skipWord := endOfWord;
    RestBackIs(doc, isWord, endOfWord, pos);
    while true
      invariant pos' <= |doc| && Behind(doc, gap, buffer', p', pos')
      invariant RestBack(doc, isWord, endOfWord, pos', skipWord != endOfWord) == Back(doc, isWord, endOfWord, pos)
      decreases pos', skipWord == endOfWord
    {
      RestBackIs(doc, isWord, endOfWord, pos');
      if pos' == 0 {
        return true, buffer', p', pos';
      }
      BehindNext(doc, gap, buffer', p', pos');
      if p' == 0 {
        assert pos' == gap;
        buffer', p' := RangePointer(doc, gap, 0, pos'), pos';
        BehindStart(doc, gap, buffer', pos');
        BehindNext(doc, gap, buffer', p', pos');
      }
      BackStep(doc, isWord, endOfWord, pos', skipWord != endOfWord);
      if !isWord(buffer'[p' - 1]) == skipWord {
        if skipWord != endOfWord {
          return false, buffer', p', pos';
        }
        skipWord := !skipWord;
        continue;
      }
      pos' := pos' - 1;
      p' := p' - 1;
    }
  }

  lemma {:induction false} AtBeginStays(doc: string, isWord: char -> bool, endOfWord: bool, p: nat, n: nat, m: nat)
    requires p <= |doc| && n <= m && BackBy(doc, isWord, endOfWord, p, n) == 0
    ensures BackBy(doc, isWord, endOfWord, p, m) == 0
    decreases m
  {
    if n < m {
      AtBeginStays(doc, isWord, endOfWord, p, n, m - 1);
    }
  }

  method FindBackward(doc: string, isWord: char -> bool, gap: nat, start: nat, count: nat, endOfWord: bool)
    returns (ok: bool, pos: nat)
    requires gap <= |doc| && start <= |doc| && count > 0
    ensures ok <==> BackBy(doc, isWord, endOfWord, start, count - 1) > 0
    ensures ok ==> pos == BackBy(doc, isWord, endOfWord, start, count)
  {
    hide Behind, Back;
    pos := start;
    var rangeLen := if gap < pos then pos - gap else pos;
    if rangeLen == 0 {
      AtBeginStays(doc, isWord, endOfWord, start, 0, count - 1);
      return false, pos;
    }
    var buffer, p: nat := RangePointer(doc, gap, pos - rangeLen, rangeLen), rangeLen;
    BehindStart(doc, gap, buffer, pos);
    var n := count;
    while n > 0
      invariant n <= count && pos <= |doc| && Behind(doc, gap, buffer, p, pos)
      invariant pos == BackBy(doc, isWord, endOfWord, start, count - n)
      invariant BackBy(doc, isWord, endOfWord, start, count - n - if n == 0 then 1 else 0) > 0
    {
      n := n - 1;
      var atBegin;
      atBegin, buffer, p, pos := ScanBackward(doc, isWord, gap, endOfWord, buffer, p, pos);
      if atBegin {
        if n > 0 {
          AtBeginStays(doc, isWord, endOfWord, start, count - n, count - 1);
        }
        return n == 0, pos;
      }
    }
    ok := true;
  }

  /** Moves by `n` words, backwards if negative. The position matters only if there were enough words. */
  method FindWords(doc: string, isWord: char -> bool, gap: nat, start: nat, n: int, endOfWord: bool)
    returns (ok: bool, pos: nat)
    requires gap <= |doc| && start <= |doc|
    ensures n == 0 ==> ok && pos == start
    ensures n > 0 ==> (ok <==> OnwardBy(doc, isWord, endOfWord, start, n - 1) < |doc|)
                      && (ok ==> pos == OnwardBy(doc, isWord, endOfWord, start, n))
    ensures n < 0 ==> (ok <==> BackBy(doc, isWord, endOfWord, start, -n - 1) > 0)
                      && (ok ==> pos == BackBy(doc, isWord, endOfWord, start, -n))
  {
    if n == 0 {
      ok, pos := true, start;
    } else if n > 0 {
      ok, pos := FindForward(doc, isWord, gap, start, n, endOfWord);
    } else {
      ok, pos := FindBackward(doc, isWord, gap, start, -n, endOfWord);
    }
  }
}
