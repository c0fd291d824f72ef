/** Sequence helpers shared by the models: optional values, sums and flattening. */
module Seqs {

  /** A value that may be absent; the C code's NULL. */
  datatype Option<+T> = None | Some(value: T) {
    function GetOr(default: T): T {
      if None? then default else value
    }
  }

  function Min(a: int, b: int): int {
    if a < b then a else b
  }

  function SliceOf<T>(s: seq<T>, from: nat, to: nat): seq<T> {
    var end := Min(to, |s|);
    if from < end then s[from..end] else []
  }

  /** The sum of a sequence of counts. */
  function Sum(s: seq<nat>): nat {
    if s == [] then 0 else s[0] + Sum(s[1..])
  }

  lemma {:induction false} SumConcat(a: seq<nat>, b: seq<nat>)
    ensures Sum(a + b) == Sum(a) + Sum(b)
  {
    if a == [] {
      assert a + b == b;
    } else {
      assert (a + b)[1..] == a[1..] + b;
      SumConcat(a[1..], b);
    }
  }

  lemma SumSnoc(a: seq<nat>, x: nat)
    ensures Sum(a + [x]) == Sum(a) + x
  {
    SumConcat(a, [x]);
  }

  /** A prefix of counts extended by its next count. */
  lemma SumPrefix(s: seq<nat>, i: nat)
    requires i < |s|
    ensures Sum(s[..i + 1]) == Sum(s[..i]) + s[i]
  {
    assert s[..i + 1] == s[..i] + [s[i]];
    SumSnoc(s[..i], s[i]);
  }

  lemma SumSplit(s: seq<nat>, i: nat)
    requires i <= |s|
    ensures Sum(s) == Sum(s[..i]) + Sum(s[i..])
  {
    assert s == s[..i] + s[i..];
    SumConcat(s[..i], s[i..]);
  }

  /** The sum split at one count. */
  lemma SumAt(s: seq<nat>, i: nat)
    requires i < |s|
    ensures Sum(s) == Sum(s[..i]) + s[i] + Sum(s[i + 1..])
    ensures i == 0 ==> Sum(s) == s[0] + Sum(s[1..])
  {
    SumSplit(s, i);
    assert s[i..][1..] == s[i + 1..];
  }

  /** Every count between 1 and `hi` bounds the sum from both sides. */
  lemma {:induction false} SumBounds(s: seq<nat>, lo: nat, hi: nat)
    requires forall k :: 0 <= k < |s| ==> lo <= s[k] <= hi
    ensures lo * |s| <= Sum(s) <= hi * |s|
  {
    if s != [] {
      SumBounds(s[1..], lo, hi);
      assert lo * |s| == lo * (|s| - 1) + lo;
      assert hi * |s| == hi * (|s| - 1) + hi;
    }
  }

  /** The concatenation of a sequence of sequences. */
  function Flatten<X>(ss: seq<seq<X>>): seq<X> {
    if ss == [] then [] else ss[0] + Flatten(ss[1..])
  }

  lemma {:induction false} FlattenConcat<X>(a: seq<seq<X>>, b: seq<seq<X>>)
    ensures Flatten(a + b) == Flatten(a) + Flatten(b)
  {
    if a == [] {
      assert a + b == b;
    } else {
      assert (a + b)[1..] == a[1..] + b;
      FlattenConcat(a[1..], b);
    }
  }

  lemma FlattenSnoc<X>(a: seq<seq<X>>, x: seq<X>)
    ensures Flatten(a + [x]) == Flatten(a) + x
  {
    FlattenConcat(a, [x]);
    assert Flatten([x]) == x + Flatten([]);
  }

  /** The lengths of the parts. */
  function Lengths<X>(ss: seq<seq<X>>): (r: seq<nat>) {
    seq(|ss|, k requires 0 <= k < |ss| => |ss[k]|)
  }

  lemma {:induction false} FlattenLength<X>(ss: seq<seq<X>>)
    ensures |Flatten(ss)| == Sum(Lengths(ss))
  {
    if ss != [] {
      FlattenLength(ss[1..]);
      assert Lengths(ss)[1..] == Lengths(ss[1..]);
    }
  }

  lemma SliceOfSlice<X>(s: seq<X>, a: nat, b: nat, c: nat, d: nat)
    requires a <= b <= |s| && c <= d <= b - a
    ensures s[a..b][c..d] == s[a + c..a + d]
  {
    forall k | 0 <= k < d - c
      ensures s[a..b][c..d][k] == s[a + c..a + d][k]
    {}
  }

  lemma SliceAt<X>(s: seq<X>, a: nat, b: nat, k: nat)
    requires a <= b <= |s| && k < b - a
    ensures s[a..b][k] == s[a + k]
  {}
}
