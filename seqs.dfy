/**
 * Sequence helpers shared by the store, the simulator and the client:
 * the order-preserving filter behind JavaScript's `Array.prototype.filter`,
 * sub-sequences, and integer ranges.
 */
module Seqs {

  /** `sub` is obtained from `s` by deleting elements, keeping the order of the rest. */
  predicate IsSubsequence<T(==)>(sub: seq<T>, s: seq<T>)
    decreases |s|
  {
    sub == [] ||
    (s != [] &&
      ((sub[0] == s[0] && IsSubsequence(sub[1..], s[1..])) || IsSubsequence(sub, s[1..])))
  }

  /** No element occurs twice. */
  predicate Distinct<T(==)>(s: seq<T>) {
    forall i, j :: 0 <= i < j < |s| ==> s[i] != s[j]
  }

  /** `Array.prototype.filter`: the elements of `s` satisfying `p`, in their original order. */
  function Filter<T(==,!new)>(s: seq<T>, p: T -> bool): (r: seq<T>)
    ensures forall x :: x in r <==> x in s && p(x)
    ensures |r| <= |s|
    ensures IsSubsequence(r, s)
  {
    if s == [] then []
    else if p(s[0]) then [s[0]] + Filter(s[1..], p)
    else Filter(s[1..], p)
  }

  /** The integers lo, lo + 1, ..., hi - 1. */
  function Range(lo: int, hi: int): (r: seq<int>)
    decreases hi - lo
    ensures |r| == if lo <= hi then hi - lo else 0
    ensures forall i :: 0 <= i < |r| ==> r[i] == lo + i
  {
    if hi <= lo then [] else [lo] + Range(lo + 1, hi)
  }

  lemma RangeSnoc(lo: int, hi: int)
    requires lo <= hi
    ensures Range(lo, hi + 1) == Range(lo, hi) + [hi]
  {
  }

  /** When every element satisfies `p`, filtering keeps the whole sequence. */
  lemma {:induction false} FilterAll<T(!new)>(s: seq<T>, p: T -> bool)
    requires forall i :: 0 <= i < |s| ==> p(s[i])
    ensures Filter(s, p) == s
  {
    if s != [] {
      FilterAll(s[1..], p);
      assert s == [s[0]] + s[1..];
    }
  }

  lemma {:induction false} SubsequenceMembers<T>(sub: seq<T>, s: seq<T>, x: T)
    requires IsSubsequence(sub, s) && x in sub
    ensures x in s
    decreases |s|
  {
    if sub[0] == s[0] && IsSubsequence(sub[1..], s[1..]) {
      if x != sub[0] {
        SubsequenceMembers(sub[1..], s[1..], x);
      }
    } else {
      SubsequenceMembers(sub, s[1..], x);
    }
  }

  /** A stronger predicate selects a sub-sequence of what a weaker one selects. */
  lemma {:induction false} FilterMonotone<T(!new)>(s: seq<T>, p: T -> bool, q: T -> bool)
    requires forall x :: p(x) ==> q(x)
    ensures IsSubsequence(Filter(s, p), Filter(s, q))
  {
    if s != [] {
      FilterMonotone(s[1..], p, q);
      if p(s[0]) {
        assert Filter(s, p) == [s[0]] + Filter(s[1..], p);
        assert Filter(s, q) == [s[0]] + Filter(s[1..], q);
        assert ([s[0]] + Filter(s[1..], p))[1..] == Filter(s[1..], p);
        assert ([s[0]] + Filter(s[1..], q))[1..] == Filter(s[1..], q);
      } else if q(s[0]) {
        assert ([s[0]] + Filter(s[1..], q))[1..] == Filter(s[1..], q);
      }
    }
  }

  /**
   * Over a sequence without repetitions, "a sub-sequence holding exactly the
   * elements that satisfy `p`" determines the result: it is `Filter(s, p)`.
   */
  lemma {:induction false} FilterUnique<T(!new)>(s: seq<T>, p: T -> bool, r: seq<T>)
    requires Distinct(s)
    requires IsSubsequence(r, s)
    requires forall x :: x in r <==> x in s && p(x)
    ensures r == Filter(s, p)
  {
    if s != [] {
      var t := s[1..];
      assert Distinct(t);
      assert forall j :: 0 <= j < |t| ==> t[j] == s[j + 1] != s[0];
      if r != [] && r[0] == s[0] && IsSubsequence(r[1..], t) {
        assert s[0] !in r[1..] by {
          if s[0] in r[1..] { SubsequenceMembers(r[1..], t, s[0]); }
        }
        forall x
          ensures x in r[1..] <==> x in t && p(x)
        {
          if x in r[1..] { SubsequenceMembers(r[1..], t, x); }
          if x in t && p(x) { assert x in r; assert x != s[0]; assert r == [r[0]] + r[1..]; }
        }
        FilterUnique(t, p, r[1..]);
        assert r == [r[0]] + r[1..];
      } else {
        assert r != [] ==> IsSubsequence(r, t);
        forall x
          ensures x in r <==> x in t && p(x)
        {
          if x in r { SubsequenceMembers(r, t, x); }
        }
        assert !p(s[0]);
        FilterUnique(t, p, r);
      }
    }
  }
}
