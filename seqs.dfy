/** Sequence operations shared by the model: order-preserving selection and the latest of a list of times. */
module Seqs {

  /** The elements of `s` that satisfy `p`, in their original order. */
  function Filter<T>(s: seq<T>, p: T -> bool): (r: seq<T>)
    ensures |r| <= |s|
    ensures forall i :: 0 <= i < |r| ==> r[i] in s && p(r[i])
    ensures forall i :: 0 <= i < |s| && p(s[i]) ==> s[i] in r
  {
    if s == [] then []
    else
      assert s == s[..|s| - 1] + [s[|s| - 1]];
      Filter(s[..|s| - 1], p) + (if p(s[|s| - 1]) then [s[|s| - 1]] else [])
  }

  /** Selecting from a concatenation selects from each part and concatenates the results:
      what has been selected from a prefix never changes when more elements follow. */
  lemma {:induction false} FilterConcat<T>(a: seq<T>, b: seq<T>, p: T -> bool)
    ensures Filter(a + b, p) == Filter(a, p) + Filter(b, p)
    decreases |b|
  {
    if b == [] {
      assert a + b == a;
    } else {
      var b' := b[..|b| - 1];
      assert (a + b)[..|a + b| - 1] == a + b';
      assert (a + b)[|a + b| - 1] == b[|b| - 1];
      FilterConcat(a, b', p);
    }
  }

  /** An element kept by the selection lands at the position given by the number
      of kept elements before it. */
  lemma FilterAt<T>(s: seq<T>, i: int, p: T -> bool)
    requires 0 <= i < |s| && p(s[i])
    ensures |Filter(s[..i], p)| < |Filter(s, p)|
    ensures Filter(s, p)[|Filter(s[..i], p)|] == s[i]
  {
    assert s == s[..i] + ([s[i]] + s[i + 1..]);
    FilterConcat(s[..i], [s[i]] + s[i + 1..], p);
    FilterConcat([s[i]], s[i + 1..], p);
    assert Filter([s[i]], p) == [s[i]] by {
      assert [s[i]][..0] == [];
    }
  }

  /** Selecting by a weaker condition first and then by a stronger one is the same as
      selecting by the stronger one alone. */
  lemma {:induction false} FilterFilter<T>(s: seq<T>, p: T -> bool, q: T -> bool)
    requires forall x :: q(x) ==> p(x)
    ensures Filter(Filter(s, p), q) == Filter(s, q)
    decreases |s|
  {
    if s != [] {
      var s', x := s[..|s| - 1], s[|s| - 1];
      FilterFilter(s', p, q);
      FilterConcat(Filter(s', p), if p(x) then [x] else [], q);
      assert Filter([x], q) == (if q(x) then [x] else []) by {
        assert [x][..0] == [];
      }
    }
  }

  /** The largest of a list of times, and 0 for the empty list (music21's `highestTime`
      of an empty stream). */
  function Latest(xs: seq<real>): (r: real)
    ensures xs == [] ==> r == 0.0
    ensures forall i :: 0 <= i < |xs| ==> xs[i] <= r
    ensures xs != [] ==> exists i :: 0 <= i < |xs| && xs[i] == r
  {
    if |xs| == 0 then 0.0
    else if |xs| == 1 then xs[0]
    else
      var m := Latest(xs[..|xs| - 1]);
      assert forall i :: 0 <= i < |xs| - 1 ==> xs[..|xs| - 1][i] == xs[i];
      if m < xs[|xs| - 1] then xs[|xs| - 1] else m
  }

  /** The latest of two lists of times together bounds both and is found in one of them. */
  lemma LatestOfConcat(a: seq<real>, b: seq<real>)
    ensures forall i :: 0 <= i < |a| ==> a[i] <= Latest(a + b)
    ensures forall j :: 0 <= j < |b| ==> b[j] <= Latest(a + b)
    ensures a + b != [] ==>
      (exists i :: 0 <= i < |a| && a[i] == Latest(a + b)) || (exists j :: 0 <= j < |b| && b[j] == Latest(a + b))
  {
    var c := a + b;
    forall j | 0 <= j < |b|
      ensures b[j] <= Latest(c)
    {
      assert c[|a| + j] == b[j];
    }
    forall i | 0 <= i < |a|
      ensures a[i] <= Latest(c)
    {
      assert c[i] == a[i];
    }
    if c != [] {
      var k :| 0 <= k < |c| && c[k] == Latest(c);
      if k >= |a| {
        assert b[k - |a|] == Latest(c);
      } else {
        assert a[k] == Latest(c);
      }
    }
  }

  /** `f` applied to every element of `s`, in order. */
  function Map<A, B>(s: seq<A>, f: A -> B): (r: seq<B>)
    ensures |r| == |s|
    ensures forall i :: 0 <= i < |s| ==> r[i] == f(s[i])
  {
    if s == [] then [] else Map(s[..|s| - 1], f) + [f(s[|s| - 1])]
  }

  /** Mapping one more element adds its image at the end. */
  lemma MapStep<A, B>(s: seq<A>, f: A -> B, i: int)
    requires 0 <= i < |s|
    ensures Map(s[..i + 1], f) == Map(s[..i], f) + [f(s[i])]
  {
    assert s[..i + 1][..i] == s[..i];
  }
}
