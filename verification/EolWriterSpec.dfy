/**
 * What the streaming writer does for any data sink: it may be called again with what it did not
 * consume, even in the middle of a CRLF.
 */
module EolWriterSpec {
  import opened EolSpec

  /** What a sink does with one write: fail, take at most `n` characters, or take all. */
  datatype Accept = Fail | UpTo(n: nat) | All

  /** What a sink does with its k-th write. */
  type Sink = nat -> Accept

  datatype Writer = Writer(out: string, calls: nat, writeLf: bool, lastC: char)

  /** The writer afterwards and the number of characters consumed, or -1. */
  datatype Outcome = Outcome(w: Writer, n: int)

  const START := Writer([], 0, false, '\0')

  function Put(sink: Sink, w: Writer, data: string): Outcome {
    var w' := w.(calls := w.calls + 1);
    match sink(w.calls)
    case Fail => Outcome(w', -1)
    case UpTo(n) => var k := if n < |data| then n else |data|; Outcome(w'.(out := w.out + data[..k]), k)
    case All => Outcome(w'.(out := w.out + data), |data|)
  }

  /** The loop over the buffer from `i` on, with the unwritten block from `blockStart` to `i`. */
  function Scan(sink: Sink, eol: string, w: Writer, buffer: string, i: nat, blockStart: nat, written: nat): (o: Outcome)
    requires written <= blockStart <= i <= |buffer|
    ensures o.n <= |buffer| && (o.w.writeLf ==> w.writeLf || o.n < |buffer|)
    decreases |buffer| - i
  {
    if i == |buffer| then
      var p := Put(sink, w, buffer[blockStart..]);
      if p.n < 0 then p else p.(n := written + p.n)
    else
      var c := buffer[i];
      if c == '\n' && w.lastC == '\r' then
        Scan(sink, eol, w.(lastC := c), buffer, i + 1, i + 1, written + 1)
      else if IsEol(c) then
        var p := Put(sink, w, buffer[blockStart..i]);
        if p.n < 0 then p
        else if p.n < i - blockStart then p.(n := written + p.n)
        else
          var q := Put(sink, p.w, eol);
          if q.n < 0 then q
          else if q.n == 0 then q.(n := written + p.n)
          else if q.n < |eol| then Outcome(q.w.(writeLf := true), written + p.n)
          else Scan(sink, eol, q.w.(lastC := c), buffer, i + 1, i + 1, written + p.n + 1)
      else Scan(sink, eol, w.(lastC := c), buffer, i + 1, blockStart, written)
  }

  /** One call of the writer with end-of-line translation. */
  function Convert(sink: Sink, eol: string, w: Writer, buffer: string): (o: Outcome)
    requires w.writeLf ==> buffer != []
    ensures o.n <= |buffer| && (o.n >= 0 && o.w.writeLf ==> o.n < |buffer|)
  {
    if w.writeLf then
      var p := Put(sink, w, "\n");
      if p.n < 1 then p else Scan(sink, eol, p.w.(writeLf := false), buffer, 1, 1, 1)
    else Scan(sink, eol, w, buffer, 0, 0, 0)
  }

  /** The translated document. */
  function Translate(doc: string, eol: string): string {
    Expand(Normalize(doc), eol)
  }

  lemma TranslateNext(s: string, c: char, eol: string)
    ensures Translate(s + [c], eol) ==
            if IsEol(c) then if c == '\n' && EndsInCr(s) then Translate(s, eol) else Translate(s, eol) + eol
            else Translate(s, eol) + [c]
  {
    hide Normalize, Expand;
    NormalizeNext(s, c);
    ExpandAppend(Normalize(s), [NormalChar(c)], eol);
    ExpandOne(NormalChar(c), eol);
  }

  lemma ExpandOne(c: char, eol: string)
    ensures Expand([c], eol) == if c == '\n' then eol else [c]
  {
    assert Expand([c], eol) == (if c == '\n' then eol else [c]) + Expand([], eol);
  }

  predicate NoEol(s: string) {
    forall i :: 0 <= i < |s| ==> !IsEol(s[i])
  }

  lemma {:induction false} TranslateBlock(s: string, block: string, eol: string)
    requires NoEol(block)
    ensures Translate(s + block, eol) == Translate(s, eol) + block
    decreases |block|
  {
    hide Translate;
    if block == [] {
      assert s + block == s;
    } else {
      var c := block[0];
      assert s + block == s + [c] + block[1..];
      TranslateNext(s, c, eol);
      TranslateBlock(s + [c], block[1..], eol);
      assert Translate(s, eol) + block == Translate(s, eol) + [c] + block[1..];
    }
  }

  lemma {:induction false} TranslatePrefix(s: string, t: string, eol: string)
    ensures Translate(s, eol) <= Translate(s + t, eol)
    decreases |t|
  {
    hide Translate;
    if t == [] {
      assert s + t == s;
    } else {
      assert s + t == s + [t[0]] + t[1..];
      TranslateNext(s, t[0], eol);
      TranslatePrefix(s + [t[0]], t[1..], eol);
    }
  }

  predicate CrBefore(doc: string, p: nat)
    requires p <= |doc|
  {
    p > 0 && doc[p - 1] == '\r'
  }

  /** If an LF comes next, the writer knows whether it completes a CRLF. */
  predicate LfKnown(w: Writer, doc: string, p: nat)
    requires p <= |doc|
  {
    p < |doc| && doc[p] == '\n' ==> (w.lastC == '\r' <==> CrBefore(doc, p))
  }

  /**
   * The writer has consumed the first `p` characters: it has written their translation, plus the
   * CR of a CRLF it has begun, and knows what it needs to go on.
   */
  predicate Resumes(eol: string, w: Writer, doc: string, p: nat) {
    p <= |doc| &&
    if w.writeLf then
      && eol == "\r\n" && p < |doc| && IsEol(doc[p]) && !(doc[p] == '\n' && CrBefore(doc, p))
      && w.out == Translate(doc[..p], eol) + "\r" && LfKnown(w, doc, p + 1)
    else w.out == Translate(doc[..p], eol) && LfKnown(w, doc, p)
  }

  /** No CR is followed by an LF. */
  predicate NoPair(s: string) {
    forall i :: 0 < i < |s| && s[i] == '\n' ==> s[i - 1] != '\r'
  }

  /** The sink never takes just one character of several. */
  ghost predicate NeverOne(sink: Sink) {
    forall k :: sink(k) != UpTo(1)
  }

  /** No CRLF that stands for a CR LF pair is ever written by half. */
  ghost predicate Resumable(sink: Sink, eol: string, doc: string) {
    eol != "\r\n" || NoPair(doc) || NeverOne(sink)
  }

  lemma TranslateStep(doc: string, p: nat, eol: string)
    requires p < |doc|
    ensures Translate(doc[..p + 1], eol) ==
            if IsEol(doc[p]) then
              if doc[p] == '\n' && CrBefore(doc, p) then Translate(doc[..p], eol) else Translate(doc[..p], eol) + eol
            else Translate(doc[..p], eol) + [doc[p]]
  {
    hide Translate;
    assert doc[..p + 1] == doc[..p] + [doc[p]];
    TranslateNext(doc[..p], doc[p], eol);
  }

  lemma TranslateTo(doc: string, p: nat, eol: string)
    requires p <= |doc|
    ensures Translate(doc[..p], eol) <= Translate(doc, eol)
  {
    hide Translate;
    assert doc == doc[..p] + doc[p..];
    TranslatePrefix(doc[..p], doc[p..], eol);
  }

  lemma TranslateSpan(doc: string, p: nat, q: nat, eol: string)
    requires p <= q <= |doc| && NoEol(doc[p..q])
    ensures Translate(doc[..q], eol) == Translate(doc[..p], eol) + doc[p..q]
  {
    hide Translate;
    assert doc[..q] == doc[..p] + doc[p..q];
    TranslateBlock(doc[..p], doc[p..q], eol);
  }

  /** What has been written is always a prefix of the translated document. */
  lemma WrittenPrefix(eol: string, w: Writer, doc: string, p: nat)
    requires Resumes(eol, w, doc, p)
    ensures w.out <= Translate(doc, eol)
  {
    hide Translate;
    TranslateTo(doc, p, eol);
    if w.writeLf {
      TranslateStep(doc, p, eol);
      TranslateTo(doc, p + 1, eol);
    }
  }

  /** A write accepts some prefix of the data. */
  lemma PutFacts(sink: Sink, w: Writer, data: string)
    ensures var p := Put(sink, w, data);
            && p.w.writeLf == w.writeLf && p.w.lastC == w.lastC && -1 <= p.n <= |data|
            && (if p.n < 0 then p.w.out == w.out else p.w.out == w.out + data[..p.n])
    ensures NeverOne(sink) && |data| == 2 ==> Put(sink, w, data).n != 1
  {
    assert data[..|data|] == data;
  }

  ghost predicate IsSequence(eol: string) {
    exists k: Kind :: eol == Sequence(k)
  }

  /** The situation in the loop: the block from `b` to `p` is unwritten. */
  ghost predicate Scanning(sink: Sink, eol: string, w: Writer, doc: string, b: nat, p: nat) {
    && b <= p <= |doc| && !w.writeLf && IsSequence(eol) && Resumable(sink, eol, doc)
    && w.out == Translate(doc[..b], eol) && NoEol(doc[b..p])
    && LfKnown(w, doc, p)
  }

  ghost predicate Kept(eol: string, o: Outcome, doc: string, base: nat, end: nat) {
    if o.n < 0 then o.w.out <= Translate(doc, eol)
    else base + o.n <= end && Resumes(eol, o.w, doc, base + o.n)
  }

  lemma BlockWritten(sink: Sink, eol: string, w: Writer, doc: string, b: nat, p: nat)
    requires Scanning(sink, eol, w, doc, b, p)
    ensures var o := Put(sink, w, doc[b..p]);
            if o.n < 0 then o.w.out <= Translate(doc, eol)
            else
              && o.n <= p - b && o.w.out == Translate(doc[..b + o.n], eol) && !o.w.writeLf
              && o.w.lastC == w.lastC && Resumes(eol, o.w, doc, b + o.n)
  {
    hide Translate, Put;
    PutFacts(sink, w, doc[b..p]);
    var o := Put(sink, w, doc[b..p]);
    if o.n < 0 {
      TranslateTo(doc, b, eol);
    } else {
      assert doc[b..b + o.n] == doc[b..p][..o.n];
      TranslateSpan(doc, b, b + o.n, eol);
      if o.n < p - b {
        assert doc[b + o.n] == doc[b..p][o.n];
      }
    }
  }

  /** What one more character needs in the loop, when it is no new end of line. */
  lemma CharScanned(sink: Sink, eol: string, w: Writer, doc: string, b: nat, p: nat)
    requires Scanning(sink, eol, w, doc, b, p) && p < |doc|
    ensures !IsEol(doc[p]) ==> Scanning(sink, eol, w.(lastC := doc[p]), doc, b, p + 1)
    ensures doc[p] == '\n' ==> (w.lastC == '\r' <==> CrBefore(doc, p))
    ensures doc[p] == '\n' && w.lastC == '\r' ==> b == p && Scanning(sink, eol, w.(lastC := doc[p]), doc, p + 1, p + 1)
  {
    hide Translate;
    TranslateStep(doc, p, eol);
    if b < p {
      assert doc[b..p][p - 1 - b] == doc[p - 1];
    }
    assert doc[b..p + 1] == doc[b..p] + [doc[p]];
  }

  /** Writing a sequence, wholly, by half or not at all. */
  lemma SequenceWritten(sink: Sink, eol: string, w: Writer, doc: string, p: nat)
    requires Scanning(sink, eol, w, doc, p, p) && p < |doc| && IsEol(doc[p]) && !(doc[p] == '\n' && CrBefore(doc, p))
    ensures var o := Put(sink, w, eol);
            if o.n < 0 then o.w.out <= Translate(doc, eol)
            else if o.n == 0 then Resumes(eol, o.w, doc, p)
            else if o.n < |eol| then Resumes(eol, o.w.(writeLf := true), doc, p)
            else Scanning(sink, eol, o.w.(lastC := doc[p]), doc, p + 1, p + 1)
  {
    hide Translate, Put, NeverOne;
    var o := Put(sink, w, eol);
    PutFacts(sink, w, eol);
    TranslateTo(doc, p, eol);
    TranslateStep(doc, p, eol);
    assert eol[..|eol|] == eol;
    if 0 < o.n < |eol| {
      assert eol == "\r\n" && eol[..1] == "\r";
      assert NoPair(doc);
    }
  }

  lemma SliceOfSlice(doc: string, base: nat, len: nat, i: nat, j: nat)
    requires base + len <= |doc| && i <= j <= len
    ensures doc[base..base + len][i..j] == doc[base + i..base + j]
  {
    var a, b := doc[base..base + len][i..j], doc[base + i..base + j];
    assert |a| == |b|;
    forall k | 0 <= k < |a|
      ensures a[k] == b[k]
    {
      assert doc[base..base + len][i + k] == doc[base + i + k];
    }
  }

  lemma {:induction false} ScanKeeps(sink: Sink, eol: string, w: Writer, doc: string, base: nat, buffer: string,
      i: nat, blockStart: nat)
    requires blockStart <= i <= |buffer| && base + |buffer| <= |doc| && buffer == doc[base..base + |buffer|]
    requires Scanning(sink, eol, w, doc, base + blockStart, base + i)
    ensures Kept(eol, Scan(sink, eol, w, buffer, i, blockStart, blockStart), doc, base, base + |buffer|)
    decreases |buffer| - i
  {
    hide Translate, Put, Scanning, Resumes, Resumable, LfKnown, NoEol;
    var b, p := base + blockStart, base + i;
    SliceOfSlice(doc, base, |buffer|, blockStart, i);
    BlockWritten(sink, eol, w, doc, b, p);
    if i == |buffer| {
      assert buffer[blockStart..] == buffer[blockStart..i];
    } else {
      var c := buffer[i];
      assert c == doc[p];
      CharScanned(sink, eol, w, doc, b, p);
      if c == '\n' && w.lastC == '\r' {
        ScanKeeps(sink, eol, w.(lastC := c), doc, base, buffer, i + 1, i + 1);
      } else if IsEol(c) {
        var o := Put(sink, w, doc[b..p]);
        if o.n == i - blockStart {
          BlockDone(sink, eol, w, doc, b, p);
          SequenceWritten(sink, eol, o.w, doc, p);
          var q := Put(sink, o.w, eol);
          if q.n >= |eol| {
            SequenceSize(sink, eol, w, doc, b, p);
            ScanKeeps(sink, eol, q.w.(lastC := c), doc, base, buffer, i + 1, i + 1);
          }
        }
      } else {
        ScanKeeps(sink, eol, w.(lastC := c), doc, base, buffer, i + 1, blockStart);
      }
    }
  }

  lemma SequenceSize(sink: Sink, eol: string, w: Writer, doc: string, b: nat, p: nat)
    requires Scanning(sink, eol, w, doc, b, p)
    ensures |eol| > 0
  {
  }

  lemma BlockDone(sink: Sink, eol: string, w: Writer, doc: string, b: nat, p: nat)
    requires Scanning(sink, eol, w, doc, b, p) && Put(sink, w, doc[b..p]).n == p - b
    ensures Scanning(sink, eol, Put(sink, w, doc[b..p]).w, doc, p, p)
  {
    hide Translate, Put, Resumable;
    BlockWritten(sink, eol, w, doc, b, p);
  }

  /**
   * One call of the writer on any part of what it has not consumed: it consumes some of it and
   * can be called again, or the sink fails.
   */
  lemma ConvertKeeps(sink: Sink, eol: string, w: Writer, doc: string, base: nat, buffer: string)
    requires IsSequence(eol) && Resumable(sink, eol, doc) && Resumes(eol, w, doc, base)
    requires base + |buffer| <= |doc| && buffer == doc[base..base + |buffer|] && (w.writeLf ==> buffer != [])
    ensures Kept(eol, Convert(sink, eol, w, buffer), doc, base, base + |buffer|)
  {
    hide Translate, Put, Resumable, Scan, Scanning;
    if w.writeLf {
      LfWritten(sink, eol, w, doc, base);
      var p := Put(sink, w, "\n");
      if p.n >= 1 {
        ScanKeeps(sink, eol, p.w.(writeLf := false), doc, base, buffer, 1, 1);
      }
    } else {
      assert Scanning(sink, eol, w, doc, base, base) by { ScanStarts(sink, eol, w, doc, base); }
      ScanKeeps(sink, eol, w, doc, base, buffer, 0, 0);
    }
  }

  lemma ScanStarts(sink: Sink, eol: string, w: Writer, doc: string, base: nat)
    requires IsSequence(eol) && Resumable(sink, eol, doc) && Resumes(eol, w, doc, base) && !w.writeLf
    ensures Scanning(sink, eol, w, doc, base, base)
  {
    hide Translate, Resumable;
  }

  /** The LF of a sequence of which only the CR was written. */
  lemma LfWritten(sink: Sink, eol: string, w: Writer, doc: string, base: nat)
    requires IsSequence(eol) && Resumable(sink, eol, doc) && Resumes(eol, w, doc, base) && w.writeLf && base < |doc|
    ensures var p := Put(sink, w, "\n");
            if p.n >= 1 then Scanning(sink, eol, p.w.(writeLf := false), doc, base + 1, base + 1)
            else if p.n == 0 then Resumes(eol, p.w, doc, base)
            else p.w.out <= Translate(doc, eol)
  {
    hide Translate, Put, Resumable;
    var p := Put(sink, w, "\n");
    PutFacts(sink, w, "\n");
    WrittenPrefix(eol, w, doc, base);
    TranslateStep(doc, base, eol);
    if p.n >= 1 {
      assert "\n"[..1] == "\n";
      assert Translate(doc[..base], eol) + "\r" + "\n" == Translate(doc[..base], eol) + "\r\n";
    } else {
      assert w.out + [] == w.out;
    }
  }

  // Whole runs: the writer is called again with what is left.

  datatype Progress = Progress(w: Writer, p: nat, failed: bool)

  function Pump(sink: Sink, eol: string, w: Writer, doc: string, p: nat, times: nat): (r: Progress)
    requires p <= |doc| && (w.writeLf ==> p < |doc|)
    ensures r.p <= |doc|
    decreases times
  {
    if times == 0 || p == |doc| then Progress(w, p, false)
    else
      var o := Convert(sink, eol, w, doc[p..]);
      if o.n < 0 then Progress(o.w, p, true) else Pump(sink, eol, o.w, doc, p + o.n, times - 1)
  }

  lemma {:induction false} PumpKeeps(sink: Sink, eol: string, w: Writer, doc: string, p: nat, times: nat)
    requires IsSequence(eol) && Resumable(sink, eol, doc) && Resumes(eol, w, doc, p)
    ensures p <= |doc| && (w.writeLf ==> p < |doc|)
    ensures var r := Pump(sink, eol, w, doc, p, times);
            r.w.out <= Translate(doc, eol) && (!r.failed ==> Resumes(eol, r.w, doc, r.p))
    decreases times
  {
    hide Translate, Convert, Resumable, LfKnown;
    WrittenPrefix(eol, w, doc, p);
    if times > 0 && p < |doc| {
      assert doc[p..] == doc[p..p + |doc[p..]|];
      ConvertKeeps(sink, eol, w, doc, p, doc[p..]);
      var o := Convert(sink, eol, w, doc[p..]);
      if o.n >= 0 {
        PumpKeeps(sink, eol, o.w, doc, p + o.n, times - 1);
      }
    }
  }

  /**
   * However often the writer is called, what it has written is a prefix of the translated
   * document, and all of it once everything is consumed.
   */
  ghost predicate WritesRight(sink: Sink, eol: string, doc: string) {
    forall times :: var r := Pump(sink, eol, START, doc, 0, times);
                    && r.w.out <= Translate(doc, eol)
                    && (!r.failed && r.p == |doc| ==> r.w.out == Translate(doc, eol))
  }

  lemma ResumableIsRight(sink: Sink, eol: string, doc: string)
    requires IsSequence(eol) && Resumable(sink, eol, doc)
    ensures WritesRight(sink, eol, doc)
  {
    hide Resumable, Pump, LfKnown;
    assert Resumes(eol, START, doc, 0) by { StartResumes(eol, doc); }
    forall times: nat
      ensures var r := Pump(sink, eol, START, doc, 0, times);
              && r.w.out <= Translate(doc, eol)
              && (!r.failed && r.p == |doc| ==> r.w.out == Translate(doc, eol))
    {
      PumpKeeps(sink, eol, START, doc, 0, times);
      assert doc[..|doc|] == doc;
    }
  }

  lemma StartResumes(eol: string, doc: string)
    ensures Resumes(eol, START, doc, 0)
  {
    assert doc[..0] == [];
  }

  // A sink that takes one character at a time writes every CRLF by half.

  function OneByOne(): Sink {
    (k: nat) => UpTo(1)
  }

  /** Every CR and every LF on its own becomes a CRLF. */
  function Each(s: string): string {
    if s == [] then []
    else
      var c := s[|s| - 1];
      Each(s[..|s| - 1]) + if IsEol(c) then "\r\n" else [c]
  }

  lemma EachStep(doc: string, p: nat)
    requires p < |doc|
    ensures Each(doc[..p + 1]) == Each(doc[..p]) + if IsEol(doc[p]) then "\r\n" else [doc[p]]
  {
    assert doc[..p + 1][..p] == doc[..p];
  }

  lemma {:induction false} EachLonger(doc: string, p: nat)
    requires p <= |doc|
    ensures |Each(doc[..p])| >= |Translate(doc[..p], "\r\n")|
    ensures !NoPair(doc[..p]) ==> |Each(doc[..p])| > |Translate(doc[..p], "\r\n")|
  {
    hide Translate, Each;
    if p == 0 {
      assert doc[..0] == [];
      assert Translate([], "\r\n") == [] by { TranslateNone(); }
    } else {
      EachLonger(doc, p - 1);
      EachStep(doc, p - 1);
      TranslateStep(doc, p - 1, "\r\n");
      PairStep(doc, p - 1);
    }
  }

  lemma TranslateNone()
    ensures Translate([], "\r\n") == []
  {
  }

  lemma PairStep(doc: string, p: nat)
    requires p < |doc|
    ensures NoPair(doc[..p + 1]) <==> NoPair(doc[..p]) && !(doc[p] == '\n' && CrBefore(doc, p))
  {
    var s, t := doc[..p + 1], doc[..p];
    assert forall i :: 0 <= i < p ==> s[i] == t[i];
    assert s[p] == doc[p];
    if p > 0 {
      assert s[p - 1] == doc[p - 1];
    }
  }

  predicate EachWritten(w: Writer, doc: string, p: nat) {
    && p <= |doc| && w.lastC != '\r'
    && (w.writeLf ==> p < |doc| && IsEol(doc[p]))
    && w.out == Each(doc[..p]) + if w.writeLf then "\r" else ""
  }

  function Steps(w: Writer, p: nat): nat {
    2 * p + if w.writeLf then 1 else 0
  }

  /** The first character of a block, if any, is written. */
  lemma OneByOnePut(w: Writer, doc: string, b: nat, p: nat)
    requires b <= p <= |doc| && NoEol(doc[b..p]) && w.out == Each(doc[..b])
    ensures var o := Put(OneByOne(), w, doc[b..p]);
            && o.n == (if b < p then 1 else 0) && o.w.out == Each(doc[..b + o.n])
            && o.w.lastC == w.lastC && o.w.writeLf == w.writeLf
  {
    hide Each;
    if b < p {
      EachStep(doc, b);
      assert doc[b..p][0] == doc[b] && doc[b..p][..1] == [doc[b]];
    } else {
      assert doc[b..p][..0] == [] && w.out + [] == w.out;
    }
  }

  lemma OneByOneSequence(w: Writer)
    ensures Put(OneByOne(), w, "\r\n") == Outcome(w.(out := w.out + "\r", calls := w.calls + 1), 1)
    ensures Put(OneByOne(), w, "\n") == Outcome(w.(out := w.out + "\n", calls := w.calls + 1), 1)
  {
    assert "\r\n"[..1] == "\r" && "\n"[..1] == "\n";
  }

  lemma {:induction false} OneByOneScan(w: Writer, doc: string, base: nat, buffer: string, i: nat, b: nat)
    requires base <= |doc| && buffer == doc[base..] && b <= i <= |buffer| && NoEol(buffer[b..i])
    requires !w.writeLf && w.lastC != '\r' && w.out == Each(doc[..base + b])
    ensures var o := Scan(OneByOne(), "\r\n", w, buffer, i, b, b);
            && b <= o.n <= |buffer| && EachWritten(o.w, doc, base + o.n)
            && (b < |buffer| ==> Steps(o.w, o.n) > 2 * b)
    decreases |buffer| - i
  {
    hide Each, Put, OneByOne, NoEol;
    assert buffer[b..i] == doc[base + b..base + i];
    OneByOnePut(w, doc, base + b, base + i);
    if i == |buffer| {
      assert buffer[b..] == buffer[b..i];
    } else {
      var c := buffer[i];
      if IsEol(c) {
        assert !(c == '\n' && w.lastC == '\r');
        var p := Put(OneByOne(), w, buffer[b..i]);
        if p.n == i - b {
          OneByOneSequence(p.w);
        }
      } else {
        NoEolNext(buffer, b, i);
        OneByOneScan(w.(lastC := c), doc, base, buffer, i + 1, b);
      }
    }
  }

  lemma NoEolNext(s: string, b: nat, i: nat)
    requires b <= i < |s| && NoEol(s[b..i]) && !IsEol(s[i])
    ensures NoEol(s[b..i + 1])
  {
    assert s[b..i + 1] == s[b..i] + [s[i]];
  }

  lemma OneByOneConvert(w: Writer, doc: string, p: nat)
    requires EachWritten(w, doc, p) && p < |doc|
    ensures var o := Convert(OneByOne(), "\r\n", w, doc[p..]);
            && 0 <= o.n <= |doc| - p && EachWritten(o.w, doc, p + o.n)
            && Steps(o.w, p + o.n) > Steps(w, p)
  {
    hide Each, Put, OneByOne, Scan;
    if w.writeLf {
      OneByOneSequence(w);
      EachStep(doc, p);
      var w' := Put(OneByOne(), w, "\n").w.(writeLf := false);
      assert Each(doc[..p]) + "\r" + "\n" == Each(doc[..p]) + "\r\n";
      OneByOneScan(w', doc, p, doc[p..], 1, 1);
    } else {
      assert Each(doc[..p]) + "" == Each(doc[..p]);
      OneByOneScan(w, doc, p, doc[p..], 0, 0);
    }
  }

  lemma {:induction false} OneByOnePump(w: Writer, doc: string, p: nat, times: nat)
    requires EachWritten(w, doc, p) && times + Steps(w, p) >= 2 * |doc|
    ensures var r := Pump(OneByOne(), "\r\n", w, doc, p, times);
            !r.failed && r.p == |doc| && r.w.out == Each(doc)
    decreases times
  {
    hide Each, Convert, OneByOne;
    assert doc[..|doc|] == doc && Each(doc) + "" == Each(doc);
    if times > 0 && p < |doc| {
      OneByOneConvert(w, doc, p);
      var o := Convert(OneByOne(), "\r\n", w, doc[p..]);
      OneByOnePump(o.w, doc, p + o.n, times - 1);
    }
  }

  lemma OneByOneWrong(doc: string)
    requires !NoPair(doc)
    ensures !WritesRight(OneByOne(), "\r\n", doc)
  {
    hide Each, Convert, OneByOne, Pump, Translate, NoPair;
    assert doc[..0] == [] && doc[..|doc|] == doc;
    assert Each([]) == [] by { EachNone(); }
    OneByOnePump(START, doc, 0, 2 * |doc|);
    EachLonger(doc, |doc|);
    var r := Pump(OneByOne(), "\r\n", START, doc, 0, 2 * |doc|);
    assert r.w.out != Translate(doc, "\r\n");
  }

  lemma EachNone()
    ensures Each([]) == []
  {
  }

  /**
   * Resuming is right for every sink exactly if the document has no CR LF pair or ends of lines
   * are single characters.
   */
  lemma WriterExact(eol: string, doc: string)
    requires IsSequence(eol)
    ensures (forall sink: Sink :: WritesRight(sink, eol, doc)) <==> eol != "\r\n" || NoPair(doc)
  {
    hide WritesRight, IsSequence, NoPair;
    if eol != "\r\n" || NoPair(doc) {
      forall sink: Sink
        ensures WritesRight(sink, eol, doc)
      {
        ResumableIsRight(sink, eol, doc);
      }
    } else {
      OneByOneWrong(doc);
    }
  }

  // A sink that takes everything.

  ghost predicate TakesAll(sink: Sink) {
    forall k :: sink(k) == All
  }

  lemma {:induction false} ScanAll(sink: Sink, eol: string, w: Writer, buffer: string, i: nat, b: nat)
    requires TakesAll(sink) && b <= i <= |buffer| && !w.writeLf && (b < i ==> w.lastC != '\r') && |eol| > 0
    ensures var o := Scan(sink, eol, w, buffer, i, b, b); o.n == |buffer| && !o.w.writeLf
    decreases |buffer| - i
  {
    if i < |buffer| {
      var c := buffer[i];
      if c == '\n' && w.lastC == '\r' {
        ScanAll(sink, eol, w.(lastC := c), buffer, i + 1, i + 1);
      } else if IsEol(c) {
        var q := Put(sink, Put(sink, w, buffer[b..i]).w, eol);
        ScanAll(sink, eol, q.w.(lastC := c), buffer, i + 1, i + 1);
      } else {
        ScanAll(sink, eol, w.(lastC := c), buffer, i + 1, b);
      }
    }
  }

  /** Writing a document in chunks. */
  function WriteChunks(sink: Sink, eol: string, w: Writer, chunks: seq<string>): Writer
    decreases |chunks|
  {
    if chunks == [] || w.writeLf then w
    else WriteChunks(sink, eol, Convert(sink, eol, w, chunks[0]).w, chunks[1..])
  }

  function Concat(chunks: seq<string>): string {
    if chunks == [] then [] else chunks[0] + Concat(chunks[1..])
  }

  lemma {:induction false} ChunksKeep(sink: Sink, eol: string, w: Writer, doc: string, p: nat, chunks: seq<string>)
    requires TakesAll(sink) && IsSequence(eol) && !w.writeLf && Resumes(eol, w, doc, p)
    requires doc[p..] == Concat(chunks)
    ensures WriteChunks(sink, eol, w, chunks).out == Translate(doc, eol)
    decreases |chunks|
  {
    hide Translate, Convert, TakesAll, LfKnown, IsSequence;
    if chunks == [] {
      assert doc[..p] == doc;
    } else {
      var c := chunks[0];
      assert doc[p..p + |c|] == doc[p..][..|c|] == c;
      AllResumable(sink, eol, doc);
      ConvertKeeps(sink, eol, w, doc, p, c);
      ConvertAll(sink, eol, w, c);
      assert doc[p + |c|..] == doc[p..][|c|..] == Concat(chunks[1..]);
      ChunksKeep(sink, eol, Convert(sink, eol, w, c).w, doc, p + |c|, chunks[1..]);
    }
  }

  lemma AllResumable(sink: Sink, eol: string, doc: string)
    requires TakesAll(sink)
    ensures Resumable(sink, eol, doc)
  {
  }

  lemma ConvertAll(sink: Sink, eol: string, w: Writer, buffer: string)
    requires TakesAll(sink) && IsSequence(eol) && !w.writeLf
    ensures var o := Convert(sink, eol, w, buffer); o.n == |buffer| && !o.w.writeLf
  {
    ScanAll(sink, eol, w, buffer, 0, 0);
  }

  /** With a sink that takes everything, chunks make no difference, whatever the document. */
  lemma ChunksTranslate(sink: Sink, eol: string, chunks: seq<string>)
    requires TakesAll(sink) && IsSequence(eol)
    ensures WriteChunks(sink, eol, START, chunks).out == Translate(Concat(chunks), eol)
  {
    hide Translate, Convert, TakesAll;
    var doc := Concat(chunks);
    StartResumes(eol, doc);
    assert doc[0..] == doc;
    ChunksKeep(sink, eol, START, doc, 0, chunks);
  }
}
