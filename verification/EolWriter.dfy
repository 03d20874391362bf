/** The streaming writer, and loading and saving of documents. */
module EolWriter {
  import opened EolSpec
  import opened EolReader
  import Spec = EolWriterSpec

  class EolWriter {
    const autoEol: bool
    const eol: string
    const sink: Spec.Sink
    var out: string
    var calls: nat
    var writeLf: bool
    var lastC: char

    constructor (autoEol: bool, mode: Kind, sink: Spec.Sink)
      ensures Now() == Spec.START && eol == Sequence(mode) && this.sink == sink && this.autoEol == autoEol
    {
      this.autoEol, eol, this.sink := autoEol, Sequence(mode), sink;
      out, calls, writeLf, lastC := [], 0, false, '\0';
    }

    function Now(): Spec.Writer
      reads this
    {
      Spec.Writer(out, calls, writeLf, lastC)
    }

    method Write(data: string) returns (n: int)
      modifies this`out, this`calls
      ensures Spec.Outcome(Now(), n) == Spec.Put(sink, old(Now()), data)
    {
      var accept := sink(calls);
      calls := calls + 1;
      match accept {
        case Fail =>
          n := -1;
        case UpTo(m) =>
          n := if m < |data| then m else |data|;
          out := out + data[..n];
        case All =>
          n := |data|;
          out := out + data;
      }
    }

    /** The number of characters of the buffer that were consumed, or -1. */
    method Convert(buffer: string) returns (n: int)
      requires writeLf ==> buffer != []
      modifies this
      ensures Spec.Outcome(Now(), n) ==
              if autoEol then Spec.Convert(sink, eol, old(Now()), buffer) else Spec.Put(sink, old(Now()), buffer)
    {
      hide Spec.Put;
      if !autoEol {
        n := Write(buffer);
        return;
      }
      var i, bytesWritten := 0, 0;
      if writeLf {
        var rc := Write("\n");
        if rc < 1 {
          return rc;
        }
        writeLf := false;
        bytesWritten := bytesWritten + 1;
        i := i + 1;
      }
      var blockStart := i;
      while i < |buffer|
        invariant bytesWritten <= blockStart <= i <= |buffer|
        invariant Spec.Scan(sink, eol, Now(), buffer, i, blockStart, bytesWritten)
               == Spec.Convert(sink, eol, old(Now()), buffer)
      {
        var c := buffer[i];
        if c == '\n' && lastC == '\r' {
          bytesWritten := bytesWritten + 1;
          blockStart := i + 1;
        } else if IsEol(c) {
          Spec.PutFacts(sink, Now(), buffer[blockStart..i]);
          var blockWritten := Write(buffer[blockStart..i]);
          if blockWritten < 0 {
            return -1;
          }
          bytesWritten := bytesWritten + blockWritten;
          if blockWritten < i - blockStart {
            return bytesWritten;
          }
          Spec.PutFacts(sink, Now(), eol);
          blockWritten := Write(eol);
          if blockWritten < 0 {
            return -1;
          }
          if blockWritten == 0 {
            return bytesWritten;
          }
          if blockWritten < |eol| {
            writeLf := true;
            return bytesWritten;
          }
          bytesWritten := bytesWritten + 1;
          blockStart := i + 1;
        }
        lastC := c;
        i := i + 1;
      }
      Spec.PutFacts(sink, Now(), buffer[blockStart..]);
      var rc := Write(buffer[blockStart..]);
      n := if rc < 0 then -1 else bytesWritten + rc;
    }
  }

  /** The part of the document before the gap of the editor's buffer is written first, then the rest. */
  method Save(doc: string, gap: nat, autoEol: bool, mode: Kind, sink: Spec.Sink) returns (out: string)
    requires gap <= |doc| && Spec.TakesAll(sink)
    ensures out == if autoEol then Spec.Translate(doc, Sequence(mode)) else doc
  {
    hide Spec.Translate, Spec.Convert;
    var writer := new EolWriter(autoEol, mode, sink);
    ghost var before, after := doc[..gap], doc[gap..];
    assert before + after == doc;
    SavedTwice(sink, Sequence(mode), before, after);
    if gap > 0 {
      var n := writer.Convert(doc[..gap]);
      assert n == gap;
    }
    var size := |doc| - gap;
    if size > 0 {
      var n := writer.Convert(doc[gap..]);
      assert n == size;
    }
    out := writer.out;
  }

  /** Two writes, of which an empty one is left out. */
  lemma SavedTwice(sink: Spec.Sink, eol: string, a: string, b: string)
    requires Spec.TakesAll(sink) && Spec.IsSequence(eol)
    ensures var w := if a == [] then Spec.START else Spec.Convert(sink, eol, Spec.START, a).w;
            && !w.writeLf && (a != [] ==> Spec.Convert(sink, eol, Spec.START, a).n == |a|)
            && (b != [] ==> Spec.Convert(sink, eol, w, b).n == |b|)
            && (if b == [] then w else Spec.Convert(sink, eol, w, b).w).out == Spec.Translate(a + b, eol)
  {
    hide Spec.Translate, Spec.Convert, Spec.TakesAll, Spec.IsSequence;
    Spec.ConvertAll(sink, eol, Spec.START, a);
    var w := if a == [] then Spec.START else Spec.Convert(sink, eol, Spec.START, a).w;
    Spec.ConvertAll(sink, eol, w, b);
    var last := if b == [] then [] else [b];
    OneMore(sink, eol, w, b, []);
    OneMore(sink, eol, Spec.Convert(sink, eol, w, b).w, b, []);
    assert [b] + [] == [b] && b + [] == b && Spec.Concat(last) == b;
    if a == [] {
      assert a + b == b;
      Spec.ChunksTranslate(sink, eol, last);
    } else {
      OneMore(sink, eol, Spec.START, a, last);
      Spec.ChunksTranslate(sink, eol, [a] + last);
    }
  }

  lemma OneMore(sink: Spec.Sink, eol: string, w: Spec.Writer, a: string, chunks: seq<string>)
    requires !w.writeLf
    ensures Spec.WriteChunks(sink, eol, w, [a] + chunks)
         == Spec.WriteChunks(sink, eol, Spec.Convert(sink, eol, w, a).w, chunks)
    ensures Spec.Concat([a] + chunks) == a + Spec.Concat(chunks)
    ensures Spec.WriteChunks(sink, eol, w, []) == w && Spec.Concat([]) == []
  {
    hide Spec.Convert;
    assert ([a] + chunks)[1..] == chunks;
  }

  /**
   * Loading a file by any reads and saving it again in the style found, or in the platform's
   * style if there was none, gives the file back exactly if no inconsistency was reported.
   */
  method LoadSave(source: seq<Read>, size: nat, gap: nat, platform: Kind, sink: Spec.Sink)
    returns (inconsistent: bool, out: string)
    requires Fit(source, size) && AllRead(source) && Spec.TakesAll(sink)
    ensures inconsistent == Inconsistent(Kinds(Contents(source)))
    ensures !inconsistent <==> out == Contents(source)
  {
    hide Inconsistent, Kinds, Contents, Spec.TakesAll, Fit, AllRead;
    var reader := new Reader(true, size, source);
    var status, doc := reader.ConvertAll();
    inconsistent := reader.inconsistent;
    var mode := if reader.eolStyle.Some? then reader.eolStyle.value else platform;
    out := Save(doc, if gap <= |doc| then gap else |doc|, true, mode, sink);
    assert [] + doc == doc;
    NormalHasNoCr(Contents(source));
    NormalIsFixed(doc);
    EolSpec.LoadSave(Contents(source), mode);
    Consistent(Kinds(Contents(source)), mode);
  }

  lemma Consistent(ks: seq<Kind>, mode: Kind)
    requires ks != [] ==> mode == ks[0]
    ensures AllOf(ks, mode) <==> !Inconsistent(ks)
  {
  }

  /** A text in reads of at most `size` characters. */
  function Split(s: string, size: nat): seq<Read>
    requires size > 0
  {
    if |s| <= size then [Data(s)] else [Data(s[..size])] + Split(s[size..], size)
  }

  lemma {:induction false} SplitFacts(s: string, size: nat)
    requires size > 0
    ensures Contents(Split(s, size)) == s && Fit(Split(s, size), size) && AllRead(Split(s, size))
  {
    if |s| <= size {
      assert [Data(s)][1..] == [] && s + [] == s;
    } else {
      SplitFacts(s[size..], size);
      var rest := Split(s[size..], size);
      assert ([Data(s[..size])] + rest)[1..] == rest;
      assert s[..size] + s[size..] == s;
    }
  }

  /**
   * Saving a document in any mode and loading it again gives the document back exactly if it
   * has no CR.
   */
  method SaveLoad(doc: string, gap: nat, mode: Kind, sink: Spec.Sink, size: nat) returns (doc': string)
    requires gap <= |doc| && Spec.TakesAll(sink) && size > 0
    ensures doc' == doc <==> '\r' !in doc
    ensures doc' == Normalize(doc)
  {
    hide Normalize, Contents, Spec.TakesAll, Fit, AllRead, Split;
    var out := Save(doc, gap, true, mode, sink);
    SplitFacts(out, size);
    var reader := new Reader(true, size, Split(out, size));
    var status;
    status, doc' := reader.ConvertAll();
    assert [] + doc' == doc';
    SaveLoadExact(doc, mode);
    NormalHasNoCr(doc);
    EolSpec.SaveLoad(Normalize(doc), mode);
  }
}
