/** The median of eight values by bubble sort. */
module Median {

  predicate Sorted(s: seq<int>) {
    forall k, l :: 0 <= k < l < |s| ==> s[k] <= s[l]
  }

  /** v is the mean, rounded down, of the two middle values of s in order. */
  ghost predicate IsMedian(s: seq<int>, v: int) {
    exists t :: SortOf(t, s) && |t| == 8 && v == (t[3] + t[4]) / 2
  }

  ghost predicate SortOf(t: seq<int>, s: seq<int>) {
    Sorted(t) && multiset(t) == multiset(s)
  }

  lemma SwapKeepsAll(s: seq<int>, k: int, l: int)
    requires 0 <= k < |s| && 0 <= l < |s|
    ensures multiset(s[k := s[l]][l := s[k]]) == multiset(s)
  {
  }

  /** Exchange two neighbouring values that are out of order. */
  method Order(p0: seq<int>, l: nat) returns (p: seq<int>)
    requires l + 1 < |p0|
    ensures |p| == |p0| && multiset(p) == multiset(p0) && p[l] <= p[l + 1]
    ensures p[l] in {p0[l], p0[l + 1]} && p0[l] <= p[l + 1] && p[l + 1] in {p0[l], p0[l + 1]}
    ensures forall k :: 0 <= k < |p| && k != l && k != l + 1 ==> p[k] == p0[k]
  {
    p := p0;
    if p[l] > p[l + 1] {
      SwapKeepsAll(p, l, l + 1);
      p := p[l := p[l + 1]][l + 1 := p[l]];
    }
  }

  /** One bubble pass: the highest of the first n + 1 values moves to place n. */
  method BubblePass(p0: seq<int>, n: nat) returns (p: seq<int>)
    requires n < |p0| && (forall l, m :: n < m < |p0| && 0 <= l < m ==> p0[l] <= p0[m])
    ensures |p| == |p0| && multiset(p) == multiset(p0)
    ensures forall l, m :: n <= m < |p| && 0 <= l < m ==> p[l] <= p[m]
  {
    p := p0;
    var l := 0;
    while l < n
      invariant 0 <= l <= n && |p| == |p0| && multiset(p) == multiset(p0)
      invariant forall k :: 0 <= k < l ==> p[k] <= p[l]
      invariant forall k, m :: n < m < |p| && 0 <= k < m ==> p[k] <= p[m]
    {
      p := Order(p, l);
      l := l + 1;
    }
  }

  method MedianOf8(s: seq<int>) returns (v: int)
    requires |s| == 8
    ensures IsMedian(s, v)
  {
    var p := s;
    var k := 0;
    while k < 7
      invariant 0 <= k <= 7 && |p| == 8 && multiset(p) == multiset(s)
      invariant forall l, m :: 7 - k < m < 8 && 0 <= l < m ==> p[l] <= p[m]
    {
      p := BubblePass(p, 7 - k);
      k := k + 1;
    }
    assert SortOf(p, s);
    v := (p[3] + p[4]) / 2;
  }

  lemma SortedMember(t: seq<int>, s: seq<int>, x: int)
    requires multiset(t) == multiset(s)
    ensures x in t <==> x in s
  {
    assert x in t <==> x in multiset(t);
    assert x in s <==> x in multiset(s);
  }

  /** The median lies between any bounds of the values. */
  lemma MedianWithin(s: seq<int>, v: int, lo: int, hi: int)
    requires IsMedian(s, v) && (forall k :: 0 <= k < |s| ==> lo <= s[k] <= hi)
    ensures lo <= v <= hi
  {
    var t :| SortOf(t, s) && |t| == 8 && v == (t[3] + t[4]) / 2;
    SortedMember(t, s, t[3]);
    SortedMember(t, s, t[4]);
  }

  lemma TailContents(t: seq<int>)
    requires |t| > 0
    ensures multiset(t[1..]) == multiset(t) - multiset{t[0]}
  {
    assert t == [t[0]] + t[1..];
  }

  lemma SameFirst(t: seq<int>, u: seq<int>)
    requires Sorted(t) && Sorted(u) && multiset(t) == multiset(u) && |t| > 0 && |u| > 0
    ensures t[0] == u[0]
  {
    SortedMember(t, u, t[0]);
    SortedMember(t, u, u[0]);
  }

  /** A sorted arrangement is unique, so the median is one value. */
  lemma {:induction false} SortUnique(t: seq<int>, u: seq<int>)
    requires Sorted(t) && Sorted(u) && multiset(t) == multiset(u)
    ensures t == u
  {
    assert |u| == |multiset(u)| == |multiset(t)| == |t|;
    if |t| > 0 {
      SameFirst(t, u);
      TailContents(t);
      TailContents(u);
      SortUnique(t[1..], u[1..]);
      assert t == [t[0]] + t[1..] && u == [u[0]] + u[1..];
    }
  }

  lemma MedianUnique(s: seq<int>, v: int, w: int)
    requires IsMedian(s, v) && IsMedian(s, w)
    ensures v == w
  {
    var t :| SortOf(t, s) && |t| == 8 && v == (t[3] + t[4]) / 2;
    var u :| SortOf(u, s) && |u| == 8 && w == (u[3] + u[4]) / 2;
    SortUnique(t, u);
  }

  /** Half of the values lie at or below a, half at or above b, and the median is between these two. */
  lemma MedianSplits(s: seq<int>, v: int) returns (lower: seq<int>, upper: seq<int>, a: int, b: int)
    requires IsMedian(s, v)
    ensures |lower| == |upper| == 4 && multiset(lower) + multiset(upper) == multiset(s)
    ensures a in lower && (forall x :: x in lower ==> x <= a)
    ensures b in upper && (forall x :: x in upper ==> b <= x)
    ensures a <= b && v == (a + b) / 2
  {
    var t :| SortOf(t, s) && |t| == 8 && v == (t[3] + t[4]) / 2;
    lower, upper, a, b := t[..4], t[4..], t[3], t[4];
    assert t == lower + upper;
    assert lower[3] == a && upper[0] == b;
  }
}
