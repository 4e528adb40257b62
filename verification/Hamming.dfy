/** Hamming distance between bit strings, counted position by position, with its set view. */
module Hamming {

  function Bit(b: bool): nat { if b then 1 else 0 }

  /** Number of positions below n where a and b differ. */
  function DistanceUpTo(a: seq<bool>, b: seq<bool>, n: nat): nat
    requires n <= |a| && n <= |b|
  {
    if n == 0 then 0 else DistanceUpTo(a, b, n - 1) + Bit(a[n - 1] != b[n - 1])
  }

  function Distance(a: seq<bool>, b: seq<bool>): nat
    requires |a| == |b|
  {
    DistanceUpTo(a, b, |a|)
  }

  function Differing(a: seq<bool>, b: seq<bool>, n: nat): set<nat>
    requires n <= |a| && n <= |b|
  {
    set i: nat | i < n && a[i] != b[i]
  }

  lemma {:induction false} DistanceIsCardinality(a: seq<bool>, b: seq<bool>, n: nat)
    requires n <= |a| && n <= |b|
    ensures DistanceUpTo(a, b, n) == |Differing(a, b, n)|
  {
    if n > 0 {
      DistanceIsCardinality(a, b, n - 1);
      var rest := Differing(a, b, n - 1);
      assert Differing(a, b, n) == if a[n - 1] != b[n - 1] then rest + {n - 1} else rest;
    }
  }

  lemma {:induction false} TriangleUpTo(a: seq<bool>, b: seq<bool>, c: seq<bool>, n: nat)
    requires n <= |a| && n <= |b| && n <= |c|
    ensures DistanceUpTo(a, c, n) <= DistanceUpTo(a, b, n) + DistanceUpTo(b, c, n)
    ensures DistanceUpTo(a, b, n) == DistanceUpTo(b, a, n)
  {
    if n > 0 {
      TriangleUpTo(a, b, c, n - 1);
    }
  }

  lemma {:induction false} InjectiveImageCardinality(s: set<nat>, f: nat -> nat)
    requires forall x, y :: x in s && y in s && f(x) == f(y) ==> x == y
    ensures |set x | x in s :: f(x)| == |s|
  {
    if s != {} {
      var x :| x in s;
      var rest := s - {x};
      InjectiveImageCardinality(rest, f);
      assert (set y | y in s :: f(y)) == (set y | y in rest :: f(y)) + {f(x)};
    }
  }

  /** Rearranging both strings by one bijection f of positions, with inverse g, keeps their distance. */
  lemma RearrangementKeepsDistance(a: seq<bool>, b: seq<bool>, a': seq<bool>, b': seq<bool>, f: nat -> nat, g: nat -> nat)
    requires |a| == |b| == |a'| == |b'|
    requires forall i: nat :: i < |a| ==> f(i) < |a| && g(f(i)) == i && a'[f(i)] == a[i] && b'[f(i)] == b[i]
    requires forall k: nat :: k < |a| ==> g(k) < |a| && f(g(k)) == k
    ensures Distance(a', b') == Distance(a, b)
  {
    var d, d' := Differing(a, b, |a|), Differing(a', b', |a|);
    var image := set i | i in d :: f(i);
    forall k: nat ensures k in d' <==> k in image
    {
      if k < |a| && g(k) in d { assert f(g(k)) in image; }
    }
    assert d' == image;
    InjectiveImageCardinality(d, f);
    DistanceIsCardinality(a, b, |a|);
    DistanceIsCardinality(a', b', |a|);
  }
}
