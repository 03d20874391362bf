/** Counted searches in a buffer, and on through the ring of buffers. */
module Search {
  import opened Options

  // One range.

  /** How many matches are still to be found after all of `total`. */
  function Residual(count: int, total: int): int {
    if count > 0 then if total >= count then 0 else count - total
    else if count < 0 then if total >= -count then 0 else count + total
    else -total
  }

  /** The n-th match, or the |n|-th last one. */
  function Hit<R>(found: seq<R>, count: int): Option<R> {
    if 0 < count <= |found| then Some(found[count - 1])
    else if count < 0 && -count <= |found| then Some(found[|found| + count])
    else None
  }

  /** Counts the matches in a range, which the regular expression engine gives one by one. */
  method DoSearch<R>(found: seq<R>, count: int) returns (left: int, hit: Option<R>)
    ensures left == Residual(count, |found|) && hit == Hit(found, count)
  {
    left, hit := count, None;
    if left >= 0 {
      var m := 0;
      while m < |found|
        invariant 0 <= m <= |found| && left == count - m && (count > 0 ==> left > 0)
      {
        left := left - 1;
        if left == 0 {
          break;
        }
        m := m + 1;
      }
      if left == 0 && m < |found| {
        hit := Some(found[m]);
      }
    } else {
      var size := -left;
      var matched := new Option<R>[size](_ => None);
      var total, i := 0, 0;
      while total < |found|
        invariant 0 <= total <= |found| && i == total % size
        invariant forall j :: 0 <= j < total && total - size <= j ==> matched[j % size] == Some(found[j])
      {
        KeepsLast(matched[..], found, size, total);
        matched[i] := Some(found[total]);
        total := total + 1;
        i := total % size;
      }
      left := if left + total < 0 then left + total else 0;
      if left == 0 {
        Oldest(size, total);
        hit := matched[i];
      }
    }
  }

  /** Storing one more match overwrites only one that is too old. */
  lemma KeepsLast<R>(matched: seq<Option<R>>, found: seq<R>, size: nat, total: nat)
    requires size > 0 && |matched| == size && total < |found|
    requires forall j :: 0 <= j < total && total - size <= j ==> matched[j % size] == Some(found[j])
    ensures var m := matched[total % size := Some(found[total])];
            forall j :: 0 <= j < total + 1 && total + 1 - size <= j ==> m[j % size] == Some(found[j])
  {
    forall j | 0 <= j < total && total + 1 - size <= j
      ensures j % size != total % size
    {
      ModDiffer(j, total, size);
    }
  }

  lemma ModDiffer(a: nat, b: nat, size: nat)
    requires a < b < a + size
    ensures a % size != b % size
  {
    var q, p := a / size, b / size;
    assert b - a == size * (p - q) + (b % size - a % size);
    MulBound(size, p - q);
  }

  lemma MulBound(m: nat, k: int)
    requires m > 0
    ensures k >= 1 ==> m * k >= m
    ensures k <= 0 ==> m * k <= 0
    ensures k <= -1 ==> m * k <= 0 - m
  {
  }

  lemma ModUnique(x: int, m: nat, q: int, r: nat)
    requires r < m && x == m * q + r
    ensures x % m == r
  {
    var k := x / m - q;
    assert m * k == m * (x / m) - m * q;
    MulBound(m, k);
  }

  /** The place of the oldest of the last `size` matches. */
  lemma Oldest(size: nat, total: nat)
    requires size > 0
    ensures total >= size ==> (total - size) % size == total % size
  {
    var q := total / size;
    assert size * (q - 1) == size * q - size;
    ModUnique(total - size, size, q - 1, total % size);
  }

  // The ring.

  /** The buffers in ring order, with their lengths and the matches between two positions. */
  datatype Buffers<!R> = Buffers(size: nat, length: nat -> nat, matches: (nat, nat, nat) -> seq<R>)

  /** Where a search goes: which buffer ends it, and at which position it began. */
  datatype Course = Course(forward: bool, toBuffer: nat, dot: nat)

  function Step(size: nat, b: nat, forward: bool): (n: nat)
    requires b < size
    ensures n < size
  {
    if forward then if b + 1 < size then b + 1 else 0
    else if b > 0 then b - 1 else size - 1
  }

  /** How many steps it takes to reach the last buffer, at least one. */
  function Distance(size: nat, b: nat, c: Course): (d: nat)
    requires b < size && c.toBuffer < size
    ensures d >= 1
    ensures Step(size, b, c.forward) != c.toBuffer ==> Distance(size, Step(size, b, c.forward), c) == d - 1
    decreases if c.forward then if c.toBuffer > b then c.toBuffer - b else c.toBuffer - b + size
              else if c.toBuffer < b then b - c.toBuffer else b - c.toBuffer + size
  {
    if Step(size, b, c.forward) == c.toBuffer then 1 else 1 + Distance(size, Step(size, b, c.forward), c)
  }

  function Tag<R>(b: nat, s: seq<R>): (t: seq<(nat, R)>)
    ensures |t| == |s|
  {
    if s == [] then [] else [(b, s[0])] + Tag(b, s[1..])
  }

  lemma {:induction false} TagAt<R>(b: nat, s: seq<R>, i: nat)
    requires i < |s|
    ensures Tag(b, s)[i] == (b, s[i])
  {
    if i > 0 {
      TagAt(b, s[1..], i - 1);
    }
  }

  /** The matches that a search considers in a buffer it comes to. */
  function Segment<R>(bs: Buffers<R>, b: nat, c: Course): seq<R> {
    if b != c.toBuffer then bs.matches(b, 0, bs.length(b))
    else if c.forward then bs.matches(b, 0, c.dot) else bs.matches(b, c.dot, bs.length(b))
  }

  /** The matches seen so far with those of one more buffer, in ring order. */
  function Extended<R>(seen: seq<(nat, R)>, b: nat, segment: seq<R>, forward: bool): seq<(nat, R)> {
    if forward then seen + Tag(b, segment) else Tag(b, segment) + seen
  }

  /** All matches on the way from `b` to the last buffer, in ring order, after those already seen. */
  function AllFrom<R>(bs: Buffers<R>, seen: seq<(nat, R)>, b: nat, c: Course): seq<(nat, R)>
    requires b < bs.size && c.toBuffer < bs.size
    decreases Distance(bs.size, b, c)
  {
    var n := Step(bs.size, b, c.forward);
    var seen' := Extended(seen, n, Segment(bs, n, c), c.forward);
    if n == c.toBuffer then seen' else AllFrom(bs, seen', n, c)
  }

  /** Counting goes on with the residual count in the next buffer. */
  lemma CountOn<R>(seen: seq<(nat, R)>, b: nat, segment: seq<R>, count: int)
    requires count != 0
    ensures var all, left := Extended(seen, b, segment, count > 0), Residual(count, |seen|);
            if left == 0 then Residual(count, |all|) == 0 && Hit(all, count) == Hit(seen, count)
            else
              && Residual(count, |all|) == Residual(left, |segment|)
              && Hit(all, count) ==
                 (var h := Hit(segment, left); if h.Some? then Some((b, h.value)) else None)
  {
    var left := Residual(count, |seen|);
    var h := Hit(segment, left);
    if h.Some? {
      TagAt(b, segment, if left > 0 then left - 1 else |segment| + left);
    }
  }

  /** Once the match is found, the buffers that come later do not matter. */
  lemma {:induction false} FoundStays<R>(bs: Buffers<R>, seen: seq<(nat, R)>, b: nat, c: Course, count: int)
    requires b < bs.size && c.toBuffer < bs.size && count != 0 && c.forward == (count > 0)
    requires Residual(count, |seen|) == 0
    ensures var all := AllFrom(bs, seen, b, c);
            Residual(count, |all|) == 0 && Hit(all, count) == Hit(seen, count)
    decreases Distance(bs.size, b, c)
  {
    hide Hit, Residual, Extended, Segment;
    var n := Step(bs.size, b, c.forward);
    CountOn(seen, n, Segment(bs, n, c), count);
    if n != c.toBuffer {
      FoundStays(bs, Extended(seen, n, Segment(bs, n, c), c.forward), n, c, count);
    }
  }

  /** All matches a search considers, in ring order. */
  function Considered<R>(bs: Buffers<R>, fromBuffer: nat, toBuffer: Option<nat>, from: nat, to: nat, dot: nat,
      forward: bool)
    : seq<(nat, R)>
    requires fromBuffer < bs.size && (toBuffer.Some? ==> toBuffer.value < bs.size)
  {
    var first := Tag(fromBuffer, bs.matches(fromBuffer, from, to));
    if toBuffer.None? then first else AllFrom(bs, first, fromBuffer, Course(forward, toBuffer.value, dot))
  }

  /**
   * Selects the n-th match in ring order, or the |n|-th going backwards; otherwise `left` is what
   * is missing and the original position is to be restored.
   */
  method SearchRing<R>(bs: Buffers<R>, fromBuffer: nat, toBuffer: Option<nat>, from: nat, to: nat, dot: nat, count: int)
    returns (left: int, hit: Option<(nat, R)>, current: nat, restoreDot: bool)
    requires fromBuffer < bs.size && (toBuffer.Some? ==> toBuffer.value < bs.size) && count != 0
    ensures var all := Considered(bs, fromBuffer, toBuffer, from, to, dot, count > 0);
            left == Residual(count, |all|) && hit == Hit(all, count)
    ensures restoreDot <==> hit.None?
    ensures current == if hit.Some? then hit.value.0 else if toBuffer.Some? then toBuffer.value else fromBuffer
  {
    hide Hit, Residual, Extended, Segment, AllFrom, Distance;
    var h;
    left, h := DoSearch(bs.matches(fromBuffer, from, to), count);
    ghost var seen := Tag(fromBuffer, bs.matches(fromBuffer, from, to));
    StartCount(fromBuffer, bs.matches(fromBuffer, from, to), count);
    hit := if h.Some? then Some((fromBuffer, h.value)) else None;
    current := fromBuffer;
    if toBuffer.Some? {
      var c := Course(count > 0, toBuffer.value, dot);
      if left == 0 {
        FoundStays(bs, seen, fromBuffer, c, count);
      } else {
        var more := true;
        while more
          invariant current < bs.size && (more ==> left != 0)
          invariant left == Residual(count, |seen|) && hit == Hit(seen, count)
          invariant if more then
                      AllFrom(bs, seen, current, c)
                      == AllFrom(bs, Tag(fromBuffer, bs.matches(fromBuffer, from, to)), fromBuffer, c)
                    else
                      var all := AllFrom(bs, Tag(fromBuffer, bs.matches(fromBuffer, from, to)), fromBuffer, c);
                      left == Residual(count, |all|) && hit == Hit(all, count)
          invariant hit.Some? ==> current == hit.value.0
          invariant !more && hit.None? ==> current == c.toBuffer
          decreases more, if more then Distance(bs.size, current, c) else 0
        {
          LeftSign(count, |seen|);
          NextBuffer(bs, seen, current, c);
          current := Step(bs.size, current, c.forward);
          ghost var segment := Segment(bs, current, c);
          CountOn(seen, current, segment, count);
          if current == c.toBuffer {
            assert segment == bs.matches(current, if c.forward then 0 else dot,
                                         if c.forward then dot else bs.length(current)) by {
              SegmentIs(bs, current, c);
            }
            left, h := DoSearch(
              bs.matches(current, if c.forward then 0 else dot, if c.forward then dot else bs.length(current)), left);
            more := false;
          } else {
            assert segment == bs.matches(current, 0, bs.length(current)) by { SegmentIs(bs, current, c); }
            left, h := DoSearch(bs.matches(current, 0, bs.length(current)), left);
            more := left != 0;
          }
          seen := Extended(seen, current, segment, c.forward);
          hit := if h.Some? then Some((current, h.value)) else None;
          HitIff(seen, count);
          if !more && current != c.toBuffer {
            FoundStays(bs, seen, current, c, count);
          }
        }
      }
    }
    restoreDot := left != 0;
    HitIff(Considered(bs, fromBuffer, toBuffer, from, to, dot, count > 0), count);
  }

  lemma SegmentIs<R>(bs: Buffers<R>, b: nat, c: Course)
    ensures Segment(bs, b, c) ==
            if b != c.toBuffer then bs.matches(b, 0, bs.length(b))
            else bs.matches(b, if c.forward then 0 else c.dot, if c.forward then c.dot else bs.length(b))
  {
  }

  lemma StartCount<R>(b: nat, segment: seq<R>, count: int)
    requires count != 0
    ensures Residual(count, |Tag(b, segment)|) == Residual(count, |segment|)
    ensures Hit(Tag(b, segment), count) == (var h := Hit(segment, count); if h.Some? then Some((b, h.value)) else None)
  {
    var h := Hit(segment, count);
    if h.Some? {
      TagAt(b, segment, if count > 0 then count - 1 else |segment| + count);
    }
  }

  lemma HitIff<R>(all: seq<(nat, R)>, count: int)
    requires count != 0
    ensures Hit(all, count).Some? <==> Residual(count, |all|) == 0
  {
  }

  lemma LeftSign(count: int, total: nat)
    requires count != 0
    ensures var left := Residual(count, total);
            left != 0 ==> (left > 0 <==> count > 0)
  {
  }

  lemma NextBuffer<R>(bs: Buffers<R>, seen: seq<(nat, R)>, b: nat, c: Course)
    requires b < bs.size && c.toBuffer < bs.size
    ensures var n := Step(bs.size, b, c.forward);
            var seen' := Extended(seen, n, Segment(bs, n, c), c.forward);
            && AllFrom(bs, seen, b, c) == (if n == c.toBuffer then seen' else AllFrom(bs, seen', n, c))
            && (n != c.toBuffer ==> Distance(bs.size, n, c) < Distance(bs.size, b, c))
  {
  }

  /** The matches in the whole of the buffers from `a` up to `z`. */
  function Span<R>(bs: Buffers<R>, a: nat, z: nat): seq<(nat, R)>
    decreases z - a
  {
    if a >= z then [] else Tag(a, bs.matches(a, 0, bs.length(a))) + Span(bs, a + 1, z)
  }

  lemma {:induction false} SpanLast<R>(bs: Buffers<R>, a: nat, z: nat)
    requires a < z
    ensures Span(bs, a, z) == Span(bs, a, z - 1) + Tag(z - 1, bs.matches(z - 1, 0, bs.length(z - 1)))
    decreases z - a
  {
    hide Tag;
    if a + 1 < z {
      SpanLast(bs, a + 1, z);
    }
  }

  /** The buffers between `b` and the last one, going forwards, and going backwards. */
  function Ahead<R>(bs: Buffers<R>, b: nat, to: nat): seq<(nat, R)> {
    if b < to then Span(bs, b + 1, to) else Span(bs, b + 1, bs.size) + Span(bs, 0, to)
  }

  function Behind<R>(bs: Buffers<R>, b: nat, to: nat): seq<(nat, R)> {
    if to < b then Span(bs, to + 1, b) else Span(bs, to + 1, bs.size) + Span(bs, 0, b)
  }

  lemma AheadNext<R>(bs: Buffers<R>, b: nat, to: nat)
    requires b < bs.size && to < bs.size
    ensures var n := Step(bs.size, b, true);
            Ahead(bs, b, to) == if n == to then [] else Tag(n, bs.matches(n, 0, bs.length(n))) + Ahead(bs, n, to)
  {
    hide Tag;
  }

  lemma BehindNext<R>(bs: Buffers<R>, b: nat, to: nat)
    requires b < bs.size && to < bs.size
    ensures var n := Step(bs.size, b, false);
            Behind(bs, b, to) == if n == to then [] else Behind(bs, n, to) + Tag(n, bs.matches(n, 0, bs.length(n)))
  {
    hide Tag;
    if b > 0 && b - 1 != to {
      SpanLast(bs, if to < b then to + 1 else 0, b);
    } else if b == 0 && bs.size - 1 != to {
      SpanLast(bs, to + 1, bs.size);
    }
  }

  /**
   * A forward search considers what is left of the first buffer, the buffers behind it, around the
   * end of the ring if need be, and the last buffer up to the position where the search began.
   */
  lemma {:induction false} ForwardIs<R>(bs: Buffers<R>, seen: seq<(nat, R)>, b: nat, c: Course)
    requires b < bs.size && c.toBuffer < bs.size && c.forward
    ensures var to := c.toBuffer;
            AllFrom(bs, seen, b, c) == seen + (Ahead(bs, b, to) + Tag(to, bs.matches(to, 0, c.dot)))
    decreases Distance(bs.size, b, c)
  {
    hide Tag, Distance, Span, Ahead, AllFrom, Step;
    var n := Step(bs.size, b, true);
    NextBuffer(bs, seen, b, c);
    SegmentIs(bs, n, c);
    AheadNext(bs, b, c.toBuffer);
    if n != c.toBuffer {
      var segment := Tag(n, Segment(bs, n, c));
      ForwardIs(bs, seen + segment, n, c);
      ConcatThree(seen, segment, Ahead(bs, n, c.toBuffer) + Tag(c.toBuffer, bs.matches(c.toBuffer, 0, c.dot)));
      ConcatThree(segment, Ahead(bs, n, c.toBuffer), Tag(c.toBuffer, bs.matches(c.toBuffer, 0, c.dot)));
    } else {
      ConcatNothing(Tag(n, bs.matches(n, 0, c.dot)));
    }
  }

  lemma ConcatThree<T>(a: seq<T>, b: seq<T>, c: seq<T>)
    ensures (a + b) + c == a + (b + c)
  {
  }

  lemma ConcatNothing<T>(a: seq<T>)
    ensures [] + a == a + [] == a
  {
  }

  /** A backward search does so in the other direction, down to the position where it began. */
  lemma {:induction false} BackwardIs<R>(bs: Buffers<R>, seen: seq<(nat, R)>, b: nat, c: Course)
    requires b < bs.size && c.toBuffer < bs.size && !c.forward
    ensures var to := c.toBuffer;
            AllFrom(bs, seen, b, c) == (Tag(to, bs.matches(to, c.dot, bs.length(to))) + Behind(bs, b, to)) + seen
    decreases Distance(bs.size, b, c)
  {
    hide Tag, Distance, Span, Behind, AllFrom, Step;
    var n := Step(bs.size, b, false);
    NextBuffer(bs, seen, b, c);
    SegmentIs(bs, n, c);
    BehindNext(bs, b, c.toBuffer);
    var last := Tag(c.toBuffer, bs.matches(c.toBuffer, c.dot, bs.length(c.toBuffer)));
    if n != c.toBuffer {
      var segment := Tag(n, Segment(bs, n, c));
      BackwardIs(bs, segment + seen, n, c);
      ConcatThree(last + Behind(bs, n, c.toBuffer), segment, seen);
      ConcatThree(last, Behind(bs, n, c.toBuffer), segment);
    } else {
      ConcatNothing(last);
    }
  }

  /** A search that ends in the buffer where it began comes through the whole ring once. */
  lemma {:induction false} DistanceIs(size: nat, b: nat, c: Course)
    requires b < size && c.toBuffer < size
    ensures Distance(size, b, c) ==
            if c.forward then if c.toBuffer > b then c.toBuffer - b else c.toBuffer - b + size
            else if c.toBuffer < b then b - c.toBuffer else b - c.toBuffer + size
    ensures c.toBuffer == b ==> Distance(size, b, c) == size
    decreases Distance(size, b, c)
  {
    var n := Step(size, b, c.forward);
    if n != c.toBuffer {
      DistanceIs(size, n, c);
    }
  }
}
