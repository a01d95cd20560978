/** JavaScript's `Array.prototype.filter` and what it preserves: membership, multiplicity and order. */
module Seqs {

  /** `s.filter(p)`: the elements of `s` that satisfy `p`, in their original order. */
  function Filter<T>(s: seq<T>, p: T -> bool): (r: seq<T>)
    ensures |r| <= |s|
    ensures forall i :: 0 <= i < |r| ==> p(r[i])
    ensures multiset(r) <= multiset(s)
    ensures forall x | x in r :: x in s && p(x)
    ensures forall x | x in s && p(x) :: x in r
  {
    if s == [] then []
    else
      var rest := Filter(s[1..], p);
      assert s == [s[0]] + s[1..];
      if p(s[0]) then [s[0]] + rest else rest
  }

  /** `filter` keeps every occurrence of an element that satisfies `p` and none of one that does
      not: each element appears in the result exactly as often as in `s`, or not at all. */
  lemma {:induction false} FilterCounts<T>(s: seq<T>, p: T -> bool)
    ensures forall x | x in s :: multiset(Filter(s, p))[x] == if p(x) then multiset(s)[x] else 0
  {
    if s != [] {
      FilterCounts(s[1..], p);
      assert s == [s[0]] + s[1..];
      assert multiset(s) == multiset([s[0]]) + multiset(s[1..]);
      forall x | x in s ensures multiset(Filter(s, p))[x] == if p(x) then multiset(s)[x] else 0 {
        if x !in s[1..] {
          assert multiset(s[1..])[x] == 0;
          assert multiset(Filter(s[1..], p))[x] == 0;
        }
      }
    }
  }

  /** `a` is `b` with some elements left out and the rest kept in order. */
  predicate IsSubsequence<T(==)>(a: seq<T>, b: seq<T>)
    decreases |b|
  {
    if a == [] then true
    else if b == [] then false
    else (a[0] == b[0] && IsSubsequence(a[1..], b[1..])) || IsSubsequence(a, b[1..])
  }

  lemma {:induction false} FilterIsSubsequence<T>(s: seq<T>, p: T -> bool)
    ensures IsSubsequence(Filter(s, p), s)
  {
    if s != [] {
      FilterIsSubsequence(s[1..], p);
      var rest := Filter(s[1..], p);
      if p(s[0]) {
        assert ([s[0]] + rest)[1..] == rest;
      }
    }
  }

  /** Every pair of elements of a subsequence appears, in the same order, in the whole. */
  lemma {:induction false} SubsequenceKeepsOrder<T>(a: seq<T>, b: seq<T>, i: nat, j: nat)
    requires IsSubsequence(a, b) && i < j < |a|
    ensures exists k, l :: 0 <= k < l < |b| && b[k] == a[i] && b[l] == a[j]
    decreases |b|
  {
    if a[0] == b[0] && IsSubsequence(a[1..], b[1..]) {
      if i == 0 {
        var l := SubsequenceHas(a[1..], b[1..], j - 1);
        assert b[0] == a[i] && b[l + 1] == a[j];
      } else {
        SubsequenceKeepsOrder(a[1..], b[1..], i - 1, j - 1);
        var k, l :| 0 <= k < l < |b| - 1 && b[1..][k] == a[1..][i - 1] && b[1..][l] == a[1..][j - 1];
        assert b[k + 1] == a[i] && b[l + 1] == a[j];
      }
    } else {
      SubsequenceKeepsOrder(a, b[1..], i, j);
      var k, l :| 0 <= k < l < |b| - 1 && b[1..][k] == a[i] && b[1..][l] == a[j];
      assert b[k + 1] == a[i] && b[l + 1] == a[j];
    }
  }

  /** Every element of a subsequence is an element of the whole. */
  lemma {:induction false} SubsequenceHas<T>(a: seq<T>, b: seq<T>, i: nat) returns (k: nat)
    requires IsSubsequence(a, b) && i < |a|
    ensures k < |b| && b[k] == a[i]
    decreases |b|
  {
    if a[0] == b[0] && IsSubsequence(a[1..], b[1..]) {
      if i == 0 {
        k := 0;
      } else {
        k := SubsequenceHas(a[1..], b[1..], i - 1);
        k := k + 1;
      }
    } else {
      k := SubsequenceHas(a, b[1..], i);
      k := k + 1;
    }
  }

  /** Filtering by two predicates that never hold together splits the elements that satisfy
      `either` of them, each exactly as often as in the input. */
  lemma {:induction false} FilterDisjoint<T>(s: seq<T>, p: T -> bool, q: T -> bool, either: T -> bool)
    requires forall x :: !(p(x) && q(x))
    requires forall x :: either(x) == (p(x) || q(x))
    ensures multiset(Filter(s, p)) + multiset(Filter(s, q)) == multiset(Filter(s, either))
  {
    if s != [] {
      FilterDisjoint(s[1..], p, q, either);
    }
  }

  /** Filtering by a predicate every element satisfies changes nothing. */
  lemma {:induction false} FilterAll<T>(s: seq<T>, p: T -> bool)
    requires forall i :: 0 <= i < |s| ==> p(s[i])
    ensures Filter(s, p) == s
  {
    if s != [] {
      FilterAll(s[1..], p);
      assert [s[0]] + s[1..] == s;
    }
  }

  /** When `q` implies `p`, filtering by `p` first changes nothing about filtering by `q`. */
  lemma {:induction false} FilterImplied<T>(s: seq<T>, p: T -> bool, q: T -> bool)
    requires forall x :: q(x) ==> p(x)
    ensures Filter(Filter(s, p), q) == Filter(s, q)
  {
    if s != [] {
      FilterImplied(s[1..], p, q);
      var rest := Filter(s[1..], p);
      if p(s[0]) {
        assert ([s[0]] + rest)[1..] == rest;
      }
    }
  }
}
