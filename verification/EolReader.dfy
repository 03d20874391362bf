/** The streaming reader: it normalises end-of-line sequences in its buffer across reads. */
module EolReader {
  import opened Options
  import opened EolSpec

  /** What one call of the data source gives. */
  datatype Read = Data(chars: string) | Failed

  datatype Status = Normal | Eof | Error

  /** The characters of all reads together. */
  function Contents(source: seq<Read>): string {
    if source == [] then []
    else (if source[0].Data? then source[0].chars else []) + Contents(source[1..])
  }

  /** What the reader is to return for a text. */
  function Translated(autoEol: bool, s: string): string {
    if autoEol then Normalize(s) else s
  }

  ghost predicate Fit(source: seq<Read>, size: nat) {
    forall i :: 0 <= i < |source| && source[i].Data? ==> |source[i].chars| <= size
  }

  ghost predicate AllRead(source: seq<Read>) {
    forall i :: 0 <= i < |source| ==> source[i].Data?
  }

  class Reader {
    const autoEol: bool
    const buffer: array<char>
    var source: seq<Read>
    var readLen: nat
    var offset: nat
    var blockLen: nat
    var lastChar: int
    var eolStyle: Option<Kind>
    var inconsistent: bool
    ghost const text: string  // the whole text, however it is split into reads
    ghost var seen: string
    ghost var output: string
    ghost var ended: bool

    constructor (autoEol: bool, size: nat, source: seq<Read>)
      requires Fit(source, size)
      ensures Valid() && fresh(buffer) && this.autoEol == autoEol && this.source == source
      ensures text == Contents(source) && output == [] && seen == []
    {
      this.autoEol := autoEol;
      buffer := new char[size];
      this.source := source;
      readLen, offset, blockLen, lastChar := 0, 0, 0, 0;
      eolStyle, inconsistent := None, false;
      text, seen, output, ended := Contents(source), [], [], false;
    }

    function Pos(): nat
      reads this
    {
      offset + blockLen + if lastChar < 0 then 1 else 0
    }

    ghost predicate Bounds()
      reads this
    {
      && Pos() <= readLen <= buffer.Length && Fit(source, buffer.Length)
      && (lastChar >= 0 ==> Pos() == readLen) && (lastChar < 0 ==> autoEol)
    }

    ghost function Known(): seq<Kind>
      reads this`seen, this`ended
    {
      if ended then Kinds(seen) else Complete(seen)
    }

    /** The results so far are those of the text seen so far. */
    ghost predicate Scanned()
      reads this`seen, this`ended, this`lastChar, this`eolStyle, this`inconsistent
    {
      if autoEol then
        && (lastChar == '\r' as int <==> EndsInCr(seen))
        && eolStyle == Style(Known()) && inconsistent == Inconsistent(Known())
      else
        lastChar == 0 && eolStyle == None && !inconsistent
    }

    ghost predicate Valid()
      reads this, buffer
    {
      && Bounds() && Scanned() && output == Translated(autoEol, seen)
      && text == seen + (buffer[Pos()..readLen] + Contents(source))
      && (ended ==> Pos() == readLen && source == [])
    }

    method Note(k: Kind, ghost ks: seq<Kind>)
      requires eolStyle == Style(ks) && inconsistent == Inconsistent(ks)
      modifies this`eolStyle, this`inconsistent
      ensures eolStyle == Style(ks + [k]) && inconsistent == Inconsistent(ks + [k])
    {
      hide Inconsistent;
      InconsistentNext(ks, k);
      if eolStyle.None? {
        assert !Inconsistent(ks) by { NoneConsistent(); }
        eolStyle := Some(k);
      } else if eolStyle != Some(k) {
        inconsistent := true;
      }
    }

    method Fill(chars: string)
      requires |chars| <= buffer.Length
      modifies buffer
      ensures buffer[..|chars|] == chars
    {
      forall i | 0 <= i < |chars| {
        buffer[i] := chars[i];
      }
    }

    /** Scans the character at `i`; stops at the LF of a CRLF, whose CR has already become an LF. */
    method ScanChar(i: nat) returns (stop: bool)
      requires autoEol && !ended && lastChar >= 0 && i < readLen <= buffer.Length && Scanned()
      modifies this`lastChar, this`eolStyle, this`inconsistent, this`seen, buffer
      ensures Scanned() && seen == old(seen) + [old(buffer[i])]
      ensures Normalize(seen) == if stop then Normalize(old(seen)) else Normalize(old(seen)) + [buffer[i]]
      ensures if stop then lastChar == -1 else lastChar >= 0
      ensures forall j :: 0 <= j < buffer.Length && j != i ==> buffer[j] == old(buffer[j])
    {
      hide Normalize, Kinds, Complete, Inconsistent, Style;
      var c := buffer[i];
      ghost var known := Complete(seen);
      NormalizeNext(seen, c);
      CompleteNext(seen, c);
      stop := false;
      match c {
        case '\n' =>
          if lastChar == '\r' as int {
            Note(Crlf, known);
            lastChar := -1;
            stop := true;
          } else {
            Note(Lf, known);
            lastChar := '\n' as int;
          }
        case '\r' =>
          if lastChar == '\r' as int {
            Note(Cr, known);
          }
          buffer[i] := '\n';
          lastChar := '\r' as int;
        case _ =>
          if lastChar == '\r' as int {
            Note(Cr, known);
          }
          lastChar := c as int;
      }
      seen := seen + [c];
    }

    /** The buffer holds `s` at a position. */
    ghost predicate Holds(at: nat, s: string)
      reads buffer
    {
      at + |s| <= buffer.Length && forall j :: 0 <= j < |s| ==> s[j] == buffer[at + j]
    }

    /** Scans the first character of `left`; `block` is what has been scanned since the offset. */
    method ScanOne(i: nat, ghost left: string, ghost block: string) returns (stop: bool, ghost block': string)
      requires autoEol && !ended && lastChar >= 0 && offset <= i < readLen <= buffer.Length && Scanned()
      requires Holds(i, left) && |left| == readLen - i && Holds(offset, block) && |block| == i - offset
      requires Normalize(seen) == output + block
      modifies this`lastChar, this`eolStyle, this`inconsistent, this`seen, buffer
      ensures Scanned() && seen == old(seen) + [left[0]] && seen + left[1..] == old(seen) + left
      ensures if stop then lastChar == -1 else lastChar >= 0
      ensures Holds(i + 1, left[1..]) && Holds(offset, block') && |block'| == |block| + if stop then 0 else 1
      ensures Normalize(seen) == output + block'
    {
      hide Normalize, Kinds, Complete, Inconsistent, Style, Scanned, Known, EndsInCr, NormalChar;
      MoveOne(seen, left);
      stop := ScanChar(i);
      block' := if stop then block else block + [buffer[i]];
      assert output + (block + [buffer[i]]) == output + block + [buffer[i]];
    }

    /** Scans the characters from the offset on, up to the end or the next CRLF. */
    method Scan()
      requires autoEol && !ended && lastChar >= 0 && offset <= readLen <= buffer.Length
      requires Scanned() && output == Normalize(seen)
      modifies this`blockLen, this`lastChar, this`eolStyle, this`inconsistent, this`seen, this`output, buffer
      ensures Pos() <= readLen && (lastChar >= 0 ==> Pos() == readLen) && Scanned() && output == Normalize(seen)
      ensures seen + buffer[Pos()..readLen] == old(seen + buffer[offset..readLen])
      ensures output == old(output) + buffer[offset..offset + blockLen]
      ensures |seen| >= old(|seen|) && (offset < readLen ==> |seen| > old(|seen|))
    {
      hide Normalize, Kinds, Complete, Inconsistent, Style, Scanned, Known, EndsInCr, NormalChar, Holds;
      ghost var left, block := buffer[offset..readLen], [];
      assert Holds(offset, left) && Holds(offset, block) by { HoldsSlice(); }
      var i := offset;
      while i < readLen
        invariant offset <= i <= readLen && lastChar >= 0 && Scanned()
        invariant |block| == i - offset && |left| == readLen - i && Holds(i, left) && Holds(offset, block)
        invariant seen + left == old(seen + buffer[offset..readLen]) && output == old(output)
        invariant Normalize(seen) == output + block
      {
        var stop;
        stop, block := ScanOne(i, left, block);
        left := left[1..];
        i := i + 1;
        if stop {
          Return(i - 1, left, block);
          return;
        }
      }
      Return(readLen, left, block);
    }

    lemma HoldsSlice()
      requires offset <= readLen <= buffer.Length
      ensures Holds(offset, buffer[offset..readLen]) && Holds(offset, [])
    {
    }

    /** Gives out the block up to `i`. */
    method Return(i: nat, ghost left: string, ghost block: string)
      requires offset <= i <= readLen <= buffer.Length && |block| == i - offset && (lastChar < 0 ==> i < readLen)
      requires |left| == readLen - i - if lastChar < 0 then 1 else 0
      requires Holds(offset, block) && Holds(readLen - |left|, left)
      requires Normalize(seen) == output + block && Scanned()
      modifies this`blockLen, this`output
      ensures blockLen == i - offset && output == Normalize(seen) && output == old(output) + buffer[offset..i]
      ensures Pos() == readLen - |left| && buffer[Pos()..readLen] == left && Scanned()
    {
      hide Normalize, Scanned;
      blockLen := i - offset;
      assert buffer[offset..i] == block;
      output := output + buffer[offset..i];
    }

    /** At the end of the text, a CR that came last was a sequence of its own. */
    method Finish()
      requires Scanned() && lastChar >= 0
      modifies this`eolStyle, this`inconsistent, this`ended
      ensures Scanned() && ended
    {
      hide Normalize, Kinds, Complete, Inconsistent, Style;
      CompleteEnd(seen);
      if lastChar == '\r' as int {
        ghost var known := Known();
        Note(Cr, known);
        NoteAgain(Complete(seen), Cr);
      } else {
        assert Complete(seen) + [] == Complete(seen);
      }
      ended := true;
    }

    /** Reads on after everything read so far was returned. */
    method Refill() returns (status: Status)
      requires Scanned() && Fit(source, buffer.Length) && lastChar >= 0 && (ended ==> source == [])
      requires blockLen == 0 && output == Translated(autoEol, seen) && text == seen + Contents(source)
      modifies this`source, this`readLen, this`offset, this`eolStyle, this`inconsistent, this`ended, buffer
      ensures Fit(source, buffer.Length) && Scanned() && offset == 0 && readLen <= buffer.Length
      ensures text == seen + (buffer[..readLen] + Contents(source))
      ensures status != Normal ==> Valid() && readLen == 0
      ensures status == Eof ==> ended && source == old(source) == [] && seen == text
      ensures status != Eof ==> ended == old(ended) && old(source) != [] && source == old(source)[1..]
      ensures status == Error ==> old(source)[0].Failed?
      ensures status == Normal ==> old(source)[0].Data?
    {
      hide Normalize, Kinds, Complete, Inconsistent, Style, Scanned, Translated, Contents, Fit;
      offset, readLen := 0, 0;
      UnfoldContents(source);
      assert buffer[..0] == [] == buffer[0..0];
      EmptyFront(Contents(source));
      if source == [] {
        Finish();
        return Eof;
      }
      var r := source[0];
      FitFront(source, buffer.Length);
      source := source[1..];
      EmptyFront(Contents(source));
      if r.Failed? {
        return Error;
      }
      Fill(r.chars);
      readLen := |r.chars|;
      status := Normal;
    }

    /** The next chunk of normalised text, a slice of the buffer. */
    method Convert() returns (status: Status, start: nat, len: nat)
      requires Valid()
      modifies this, buffer
      ensures Valid()
      ensures status == Normal ==> start + len <= buffer.Length && output == old(output) + buffer[start..start + len]
      ensures status != Normal ==> output == old(output)
      ensures status == Normal ==> |source| - |seen| < old(|source| - |seen|)
      ensures status == Eof ==> ended && seen == text && source == old(source)
      ensures if status == Error then old(source) != [] && old(source)[0].Failed? && source == old(source)[1..]
              else source == old(source) || (old(source) != [] && old(source)[0].Data? && source == old(source)[1..])
    {
      hide Normalize, Kinds, Complete, Inconsistent, Style, Fit, Contents, Scanned, Valid, Pos, Known;
      status, start, len := Normal, 0, 0;
      Advance();
      if offset >= readLen {
        status := Refill();
        if status != Normal {
          return;
        }
        if !autoEol {
          Pass();
          len := readLen;
          return;
        }
      }
      ScanBlock();
      start, len := offset, blockLen;
    }

    /** Scans a block of the text. */
    method ScanBlock()
      requires autoEol && !ended && lastChar >= 0 && offset <= readLen <= buffer.Length && Fit(source, buffer.Length)
      requires Scanned() && output == Translated(autoEol, seen)
      requires text == seen + (buffer[offset..readLen] + Contents(source))
      modifies this`blockLen, this`lastChar, this`eolStyle, this`inconsistent, this`seen, this`output, buffer
      ensures Valid() && offset + blockLen <= buffer.Length && output == old(output) + buffer[offset..offset + blockLen]
      ensures |seen| >= old(|seen|) && (offset < readLen ==> |seen| > old(|seen|))
    {
      hide Normalize, Fit, Contents, Scanned, Known;
      ghost var before, block := seen, buffer[offset..readLen];
      Scan();
      Regroup(seen, buffer[Pos()..readLen], before, block, Contents(source));
    }

    /**
     * Reads everything: whatever the reads are, the result is the normalised text, the style is
     * the kind of its first sequence, and it is inconsistent exactly if another kind occurs.
     */
    method ConvertAll() returns (status: Status, str: string)
      requires Valid()
      modifies this, buffer
      ensures Valid() && status != Eof && (status == Normal <==> AllRead(old(source)))
      ensures status == Normal ==> old(output) + str == Translated(autoEol, text)
      ensures status == Normal && autoEol ==>
                eolStyle == Style(Kinds(text)) && inconsistent == Inconsistent(Kinds(text))
    {
      hide Translated, AllRead, Kinds, Style, Inconsistent, Normalize, Contents, Bounds, Valid, Known;
      str := [];
      EmptyEnd(output);
      while true
        invariant Valid() && output == old(output) + str
        invariant AllRead(source) <==> AllRead(old(source))
        decreases |source| - |seen| + |text|
      {
        Seen();
        label Before:
        ghost var before := source;
        var start, len;
        status, start, len := Convert();
        ReadFront(before);
        Seen();
        if status == Error {
          return;
        }
        if status == Eof {
          break;
        }
        AppendBoth(old(output), str, buffer[start..start + len]);
        str := str + buffer[start..start + len];
      }
      Results();
      status := Normal;
    }

    lemma Seen()
      requires Valid()
      ensures |seen| <= |text|
    {
    }

    lemma Results()
      requires Valid() && ended && seen == text
      ensures output == Translated(autoEol, text) && AllRead(source)
      ensures autoEol ==> eolStyle == Style(Kinds(text)) && inconsistent == Inconsistent(Kinds(text))
    {
    }

    /** Without translation, the whole buffer is given out. */
    method Pass()
      requires !autoEol && Scanned() && offset == 0 && readLen <= buffer.Length && !ended
      requires output == Translated(autoEol, seen)
      requires Fit(source, buffer.Length) && lastChar >= 0 && text == seen + (buffer[..readLen] + Contents(source))
      modifies this`blockLen, this`seen, this`output
      ensures Valid() && blockLen == readLen && output == old(output) + buffer[0..readLen]
          && |seen| == |old(seen)| + readLen
    {
      hide Contents, Fit;
      blockLen := readLen;
      seen := seen + buffer[..readLen];
      output := output + buffer[..readLen];
    }

    /** Skips the block that was returned last, and the LF of a CRLF after it. */
    method Advance()
      requires Valid()
      modifies this`offset, this`blockLen, this`lastChar
      ensures Scanned() && lastChar >= 0 && blockLen == 0 && offset <= readLen <= buffer.Length
      ensures Fit(source, buffer.Length) && (ended ==> source == []) && (ended || !autoEol ==> offset == readLen)
      ensures output == Translated(autoEol, seen) && text == seen + (buffer[offset..readLen] + Contents(source))
      ensures offset == readLen ==> text == seen + Contents(source)
    {
      hide Normalize, Kinds, Complete, Inconsistent, Style, Fit, Contents;
      if lastChar < 0 {
        blockLen := blockLen + 1;
        lastChar := '\n' as int;
      }
      offset := offset + blockLen;
      blockLen := 0;
    }
  }

  lemma Regroup(a: string, b: string, c: string, d: string, rest: string)
    requires a + b == c + d
    ensures a + (b + rest) == c + (d + rest)
  {
    assert a + (b + rest) == (a + b) + rest;
    assert c + (d + rest) == (c + d) + rest;
  }

  lemma UnfoldContents(source: seq<Read>)
    ensures source == [] ==> Contents(source) == []
    ensures source != [] ==>
              Contents(source) == (if source[0].Data? then source[0].chars else []) + Contents(source[1..])
  {
  }

  lemma EmptyEnd(s: string)
    ensures s + [] == s
  {
  }

  lemma AppendBoth(a: string, b: string, c: string)
    ensures a + b + c == a + (b + c)
  {
  }

  lemma ReadFront(source: seq<Read>)
    ensures source != [] && source[0].Failed? ==> !AllRead(source)
    ensures source != [] && source[0].Data? ==> (AllRead(source[1..]) <==> AllRead(source))
  {
    if source != [] && source[0].Data? && AllRead(source[1..]) {
      forall i | 0 <= i < |source|
        ensures source[i].Data?
      {
        if i > 0 {
          assert source[i] == source[1..][i - 1];
        }
      }
    }
  }

  lemma EmptyFront(s: string)
    ensures [] + s == s
  {
  }

  lemma FitFront(source: seq<Read>, size: nat)
    requires Fit(source, size) && source != []
    ensures Fit(source[1..], size) && (source[0].Data? ==> |source[0].chars| <= size)
  {
  }

  lemma NoteAgain(ks: seq<Kind>, k: Kind)
    ensures Style(ks + [k] + [k]) == Style(ks + [k])
    ensures Inconsistent(ks + [k] + [k]) <==> Inconsistent(ks + [k])
  {
    InconsistentNext(ks + [k], k);
    InconsistentNext(ks, k);
  }

  /** One more character is seen. */
  lemma MoveOne(seen: string, left: string)
    requires left != []
    ensures seen + [left[0]] + left[1..] == seen + left
  {
  }

  lemma NoneConsistent()
    ensures !Inconsistent([])
  {
  }
}
