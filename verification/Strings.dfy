/** Comparing byte strings: the length of the common prefix, and the order of the keys of an index. */
module Strings {
  type Key = seq<int>

  function Diff<C(==)>(a: seq<C>, b: seq<C>): (n: nat)
    ensures n <= |a| && n <= |b| && a[..n] == b[..n]
    ensures n < |a| && n < |b| ==> a[n] != b[n]
  {
    if a == [] || b == [] || a[0] != b[0] then 0
    else
      var n := Diff(a[1..], b[1..]);
      assert a[..n + 1] == [a[0]] + a[1..][..n] && b[..n + 1] == [b[0]] + b[1..][..n];
      n + 1
  }

  /** The common prefix ends where the strings differ or one of them ends. */
  lemma {:induction false} DiffUnique<C>(a: seq<C>, b: seq<C>, n: nat)
    requires n <= |a| && n <= |b| && a[..n] == b[..n]
    requires n < |a| && n < |b| ==> a[n] != b[n]
    ensures Diff(a, b) == n
  {
    forall i | 0 <= i < n
      ensures a[i] == b[i]
    {
      assert a[i] == a[..n][i] && b[i] == b[..n][i];
    }
    var m := Diff(a, b);
    forall i | 0 <= i < m
      ensures a[i] == b[i]
    {
      assert a[i] == a[..m][i] && b[i] == b[..m][i];
    }
  }

  method StringDiff<C(==)>(a: seq<C>, b: seq<C>) returns (len: nat)
    ensures len == Diff(a, b)
  {
    len := 0;
    while len < |a| && len < |b| && a[len] == b[len]
      invariant len <= |a| && len <= |b| && a[..len] == b[..len]
    {
      assert a[..len + 1] == a[..len] + [a[len]] && b[..len + 1] == b[..len] + [b[len]];
      len := len + 1;
    }
    DiffUnique(a, b, len);
  }

  predicate Less(a: Key, b: Key) {
    var n := Diff(a, b);
    n < |b| && (n == |a| || a[n] < b[n])
  }

  method StringCmp(a: Key, b: Key) returns (r: int)
    ensures r < 0 <==> Less(a, b)
    ensures r > 0 <==> Less(b, a)
    ensures r == 0 <==> a == b
  {
    for i := 0 to |a|
      invariant i <= |b| && a[..i] == b[..i]
    {
      if i == |b| {
        DiffUnique(a, b, i);
        DiffUnique(b, a, i);
        return 1;
      }
      var ret := a[i] - b[i];
      if ret != 0 {
        DiffUnique(a, b, i);
        DiffUnique(b, a, i);
        return ret;
      }
      assert a[..i + 1] == a[..i] + [a[i]] && b[..i + 1] == b[..i] + [b[i]];
    }
    assert a[..|a|] == a;
    DiffUnique(a, b, |a|);
    DiffUnique(b, a, |a|);
    r := if |a| == |b| then 0 else -1;
    if |a| == |b| {
      assert b[..|b|] == b;
    }
  }

  lemma {:induction false} LessTransitive(a: Key, b: Key, c: Key)
    requires Less(a, b) && Less(b, c)
    ensures Less(a, c)
  {
    var n, m := Diff(a, b), Diff(b, c);
    var k := if n < m then n else m;
    assert a[..n][..k] == a[..k] && b[..n][..k] == b[..k] && b[..m][..k] == b[..k] && c[..m][..k] == c[..k];
    if n < m {
      assert b[n] == b[..m][n] == c[..m][n] == c[n];
    } else if m < n {
      assert b[m] == b[..n][m] == a[..n][m] == a[m];
    }
    DiffUnique(a, c, k);
  }

  /** The order is total. */
  lemma {:induction false} LessTotal(a: Key, b: Key)
    ensures Less(a, b) || Less(b, a) || a == b
    ensures !(Less(a, b) && Less(b, a)) && !Less(a, a)
  {
    var n := Diff(a, b);
    DiffUnique(b, a, n);
    DiffUnique(a, a, |a|);
    if n == |a| && n == |b| {
      assert a == a[..n] && b == b[..n];
    }
  }

  // The order is that of the bytes.

  /** The bytes of a key are of one range of 256 values, signed or not. */
  ghost predicate Bytes(k: Key, lo: int) {
    forall i :: 0 <= i < |k| ==> lo <= k[i] < lo + 256
  }

  /** The number that the bytes spell to the base 256. */
  function Number(k: Key, lo: int): int {
    if k == [] then 0 else Number(k[..|k| - 1], lo) * 256 + (k[|k| - 1] - lo)
  }

  lemma LessAppend(a: Key, b: Key, x: int, y: int)
    requires |a| == |b|
    ensures Less(a + [x], b + [y]) <==> Less(a, b) || (a == b && x < y)
  {
    var n := Diff(a, b);
    if n == |a| {
      assert a[..n] == a && b[..n] == b;
      var m := if x == y then n + 1 else n;
      assert (a + [x])[..n] == a && (b + [y])[..n] == b;
      DiffUnique(a + [x], b + [y], m);
    } else {
      assert (a + [x])[..n] == a[..n] && (b + [y])[..n] == b[..n];
      DiffUnique(a + [x], b + [y], n);
    }
  }

  /** Keys of one length compare as the numbers they spell. */
  lemma {:induction false} NumbersCompare(a: Key, b: Key, lo: int)
    requires |a| == |b| && Bytes(a, lo) && Bytes(b, lo)
    ensures Less(a, b) <==> Number(a, lo) < Number(b, lo)
    decreases |a|
  {
    hide Less;
    if a == [] {
      LessTotal(a, b);
    } else {
      var n := |a| - 1;
      assert a == a[..n] + [a[n]] && b == b[..n] + [b[n]];
      LessAppend(a[..n], b[..n], a[n], b[n]);
      NumbersCompare(a[..n], b[..n], lo);
      NumbersCompare(b[..n], a[..n], lo);
      LessTotal(a[..n], b[..n]);
    }
  }

  /** Keys compare as numbers as far as both reach, and a proper prefix comes first. */
  lemma LessExact(a: Key, b: Key, lo: int)
    requires Bytes(a, lo) && Bytes(b, lo)
    ensures var n := if |a| < |b| then |a| else |b|;
            Less(a, b) <==>
            Number(a[..n], lo) < Number(b[..n], lo) || (a[..n] == b[..n] && |a| < |b|)
  {
    hide Number;
    var n := if |a| < |b| then |a| else |b|;
    NumbersCompare(a[..n], b[..n], lo);
    var m := Diff(a, b);
    assert a[..n][..m] == a[..m] && b[..n][..m] == b[..m];
    DiffUnique(a[..n], b[..n], m);
    if m == n {
      assert a[..n] == b[..n];
    }
  }

  /** Being a prefix, as the loops test it. */
  lemma PrefixDiff(a: Key, b: Key)
    ensures |a| >= |b| && Diff(a, b) == |b| <==> b <= a
  {
    assert b[..|b|] == b;
    if b <= a {
      assert a[..|b|] == b;
      DiffUnique(a, b, |b|);
    }
  }

  /** The strings with a given prefix are neighbours in the order. */
  lemma {:induction false} PrefixConvex(str: Key, a: Key, b: Key)
    requires !Less(a, str) && !(str <= a) && Less(a, b)
    ensures !(str <= b)
  {
    LessTotal(a, str);
    assert Less(str, a);
    if str <= b {
      var n := Diff(str, a);
      DiffUnique(a, str, n);
      assert str[..|str|] == str;
      assert b[..|str|] == str;
      assert b[..n] == str[..n] && b[n] == str[n];
      DiffUnique(b, a, n);
      DiffUnique(a, b, n);
    }
  }
}
