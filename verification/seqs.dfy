/** Generic sequence operations. Every record-wise stage of the pipeline is
    one of these: a `FlatMap` of a per-record function, or a `Filter`. */
module Seqs {

  /** `a` is obtained from `b` by deleting some elements, keeping the order of
      the rest. */
  ghost predicate IsSubseq<T>(a: seq<T>, b: seq<T>)
    decreases |b|
  {
    if a == [] then true
    else if b == [] then false
    else (a[0] == b[0] && IsSubseq(a[1..], b[1..])) || IsSubseq(a, b[1..])
  }

  /** The concatenation, in order, of `f(x)` for every `x` of `s`. */
  function FlatMap<A, B>(s: seq<A>, f: A -> seq<B>): seq<B> {
    if s == [] then [] else f(s[0]) + FlatMap(s[1..], f)
  }

  /** An element is in the concatenation exactly when some element of `s`
      produced it. */
  lemma {:induction false} FlatMapMembers<A, B>(s: seq<A>, f: A -> seq<B>)
    ensures forall x, y :: x in s && y in f(x) ==> y in FlatMap(s, f)
    ensures forall y :: y in FlatMap(s, f) ==> exists x :: x in s && y in f(x)
    decreases |s|
  {
    if s != [] {
      FlatMapMembers(s[1..], f);
      assert forall x :: x in s[1..] ==> x in s;
      assert forall x :: x in s ==> x == s[0] || x in s[1..];
    }
  }

  /** Applies `f` to every element, in place. */
  function Map<A, B>(s: seq<A>, f: A -> B): (r: seq<B>)
    ensures |r| == |s|
    ensures forall i :: 0 <= i < |s| ==> r[i] == f(s[i])
  {
    seq(|s|, i requires 0 <= i < |s| => f(s[i]))
  }

  /** The elements of `s` satisfying `p`, in their original order. */
  function Filter<T>(s: seq<T>, p: T -> bool): (r: seq<T>)
    ensures |r| <= |s|
  {
    if s == [] then []
    else if p(s[0]) then [s[0]] + Filter(s[1..], p)
    else Filter(s[1..], p)
  }

  /** What pins `Filter` down completely: an order-preserving subsequence
      that holds every satisfying element as often as `s` does and nothing
      else. */
  lemma {:induction false} FilterFacts<T(!new)>(s: seq<T>, p: T -> bool)
    ensures forall x :: x in Filter(s, p) <==> x in s && p(x)
    ensures forall x :: multiset(Filter(s, p))[x] == if p(x) then multiset(s)[x] else 0
    ensures IsSubseq(Filter(s, p), s)
    decreases |s|
  {
    if s != [] {
      FilterFacts(s[1..], p);
      assert s == [s[0]] + s[1..];
      var rest := Filter(s[1..], p);
      if p(s[0]) {
        assert ([s[0]] + rest)[1..] == rest;
      }
    }
  }

  lemma {:induction false} FlatMapAppend<A, B>(a: seq<A>, b: seq<A>, f: A -> seq<B>)
    ensures FlatMap(a + b, f) == FlatMap(a, f) + FlatMap(b, f)
    decreases |a|
  {
    if a == [] {
      assert a + b == b;
    } else {
      assert (a + b)[1..] == a[1..] + b;
      FlatMapAppend(a[1..], b, f);
    }
  }

  lemma {:induction false} FilterAppend<T>(a: seq<T>, b: seq<T>, p: T -> bool)
    ensures Filter(a + b, p) == Filter(a, p) + Filter(b, p)
    decreases |a|
  {
    if a == [] {
      assert a + b == b;
    } else {
      assert (a + b)[1..] == a[1..] + b;
      FilterAppend(a[1..], b, p);
    }
  }

  lemma FlatMapSingle<A, B>(x: A, f: A -> seq<B>)
    ensures FlatMap([x], f) == f(x)
  {
  }

  lemma FilterSingle<T>(x: T, p: T -> bool)
    ensures Filter([x], p) == if p(x) then [x] else []
  {
  }

  /** Filtering with a predicate every element meets changes nothing. */
  lemma {:induction false} FilterKeepsAll<T>(s: seq<T>, p: T -> bool)
    requires forall i :: 0 <= i < |s| ==> p(s[i])
    ensures Filter(s, p) == s
    decreases |s|
  {
    if s != [] {
      FilterKeepsAll(s[1..], p);
    }
  }

  lemma MapAppend<A, B>(a: seq<A>, b: seq<A>, f: A -> B)
    ensures Map(a + b, f) == Map(a, f) + Map(b, f)
  {
  }

  /** When every element yields at least one output, nothing shrinks. */
  lemma {:induction false} FlatMapLengthAtLeast<A, B>(s: seq<A>, f: A -> seq<B>)
    requires forall x :: x in s ==> |f(x)| >= 1
    ensures |FlatMap(s, f)| >= |s|
    decreases |s|
  {
    if s != [] {
      assert forall x :: x in s[1..] ==> x in s;
      FlatMapLengthAtLeast(s[1..], f);
    }
  }

  /** If every element yields something and one yields two or more, the
      concatenation is strictly longer than `s`. */
  lemma {:induction false} FlatMapLengthAbove<A, B>(s: seq<A>, f: A -> seq<B>, x0: A)
    requires forall x :: x in s ==> |f(x)| >= 1
    requires x0 in s && |f(x0)| >= 2
    ensures |FlatMap(s, f)| > |s|
    decreases |s|
  {
    assert forall x :: x in s[1..] ==> x in s;
    if s[0] == x0 {
      FlatMapLengthAtLeast(s[1..], f);
    } else {
      assert s == [s[0]] + s[1..];
      assert x0 in s[1..];
      FlatMapLengthAbove(s[1..], f, x0);
    }
  }

  /** A subsequence stays one when anything is put in front of the larger
      sequence. */
  lemma {:induction false} SubseqPrefix<T>(a: seq<T>, c: seq<T>, b: seq<T>)
    requires IsSubseq(a, b)
    ensures IsSubseq(a, c + b)
    decreases |c|
  {
    if c == [] {
      assert c + b == b;
    } else {
      SubseqPrefix(a, c[1..], b);
      assert (c + b)[1..] == c[1..] + b;
      assert a == [] || IsSubseq(a, (c + b)[1..]);
    }
  }
}
