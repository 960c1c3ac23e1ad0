/** Generic sequence operations that the catalog view-model is built from:
    an order-preserving filter (JavaScript's Array.prototype.filter) and the
    construction of the distinct elements in first-seen order that turning
    a JavaScript Set back into an array performs. */
module Seqs {

  /** `a` is obtained from `b` by deleting elements: `idx` says, for each
      element of `a`, the position of `b` it comes from, and the positions
      strictly increase (so the relative order of `b` is kept). */
  ghost predicate Embedding<T>(idx: seq<nat>, a: seq<T>, b: seq<T>)
  {
    && |idx| == |a|
    && (forall k :: 0 <= k < |idx| ==> idx[k] < |b| && b[idx[k]] == a[k])
    && (forall k, l :: 0 <= k < l < |idx| ==> idx[k] < idx[l])
  }

  ghost predicate IsSubsequence<T>(a: seq<T>, b: seq<T>)
  {
    exists idx :: Embedding(idx, a, b)
  }

  /** No element occurs twice. */
  predicate NoDuplicates<T(==)>(s: seq<T>)
  {
    forall i, j :: 0 <= i < j < |s| ==> s[i] != s[j]
  }

  /** Dropping the first element keeps a list duplicate-free, and that
      element does not occur again. */
  lemma NoDuplicatesTail<T>(s: seq<T>)
    requires s != [] && NoDuplicates(s)
    ensures NoDuplicates(s[1..]) && s[0] !in s[1..]
  {
    var t := s[1..];
    forall i, j | 0 <= i < j < |t| ensures t[i] != t[j] {
      assert t[i] == s[i + 1] && t[j] == s[j + 1];
    }
    forall i | 0 <= i < |t| ensures t[i] != s[0] {
      assert t[i] == s[i + 1];
    }
  }

  /** The position of the first occurrence of `x` in `s`. */
  function FirstIndex<T(==)>(s: seq<T>, x: T): (i: nat)
    requires x in s
    ensures i < |s| && s[i] == x
    ensures forall j :: 0 <= j < i ==> s[j] != x
  {
    if s[0] == x then 0 else 1 + FirstIndex(s[1..], x)
  }

  // ---------------------------------------------------------------------
  // Filter
  // ---------------------------------------------------------------------

  /** The elements of `s` that satisfy `p`, in the order of `s`: no longer
      than `s`, and every element kept satisfies `p`. */
  function FilterBy<T>(s: seq<T>, p: T -> bool): (r: seq<T>)
    ensures |r| <= |s|
    ensures forall x :: x in r ==> p(x)
  {
    if s == [] then [] else (if p(s[0]) then [s[0]] else []) + FilterBy(s[1..], p)
  }

  /** An element is kept if and only if it is in the input and satisfies `p`. */
  lemma {:induction false} FilterByMembership<T>(s: seq<T>, p: T -> bool, x: T)
    ensures x in FilterBy(s, p) <==> x in s && p(x)
  {
    if s != [] {
      FilterByMembership(s[1..], p, x);
      assert s == [s[0]] + s[1..];
    }
  }

  /** Each element of the input is kept exactly as many times as it occurs
      when it satisfies `p`, and not at all otherwise. */
  lemma {:induction false} FilterByMultiset<T>(s: seq<T>, p: T -> bool, x: T)
    ensures multiset(FilterBy(s, p))[x] == if p(x) then multiset(s)[x] else 0
  {
    if s != [] {
      FilterByMultiset(s[1..], p, x);
      assert s == [s[0]] + s[1..];
    }
  }

  /** Positions in the tail of `b`, moved one place on, are positions in `b`. */
  function Shift(idx: seq<nat>): (r: seq<nat>)
    ensures |r| == |idx| && forall k :: 0 <= k < |idx| ==> r[k] == idx[k] + 1
  {
    seq(|idx|, k requires 0 <= k < |idx| => idx[k] + 1)
  }

  lemma ShiftEmbedding<T>(idx: seq<nat>, a: seq<T>, b: seq<T>)
    requires b != [] && Embedding(idx, a, b[1..])
    ensures Embedding(Shift(idx), a, b)
    ensures Embedding([0] + Shift(idx), [b[0]] + a, b)
  {
    var r := Shift(idx);
    forall k | 0 <= k < |r| ensures r[k] < |b| && b[r[k]] == a[k] {
      assert b[r[k]] == b[1..][idx[k]];
    }
    var r0 := [0] + r;
    var a0 := [b[0]] + a;
    forall k | 0 < k < |r0| ensures r0[k] < |b| && b[r0[k]] == a0[k] {
      assert r0[k] == r[k - 1] && a0[k] == a[k - 1];
    }
  }

  /** The filter keeps the input's relative order: its result is a
      subsequence of the input. */
  lemma {:induction false} FilterBySubsequence<T>(s: seq<T>, p: T -> bool) returns (idx: seq<nat>)
    ensures Embedding(idx, FilterBy(s, p), s)
    ensures IsSubsequence(FilterBy(s, p), s)
  {
    if s == [] {
      idx := [];
    } else {
      var rest := FilterBySubsequence(s[1..], p);
      ShiftEmbedding(rest, FilterBy(s[1..], p), s);
      idx := if p(s[0]) then [0] + Shift(rest) else Shift(rest);
    }
    assert Embedding(idx, FilterBy(s, p), s);
  }

  /** A predicate that holds of every element keeps the whole input. */
  lemma {:induction false} FilterByAll<T>(s: seq<T>, p: T -> bool)
    requires forall x :: x in s ==> p(x)
    ensures FilterBy(s, p) == s
  {
    if s != [] {
      assert s[0] in s;
      forall x | x in s[1..] ensures p(x) {
        assert x in s;
      }
      FilterByAll(s[1..], p);
      assert s == [s[0]] + s[1..];
    }
  }

  // ---------------------------------------------------------------------
  // Distinct elements in first-seen order
  // ---------------------------------------------------------------------

  /** The array of a Set built from `xs`: each element of `xs` is inserted in turn and
      kept only the first time it is seen, so the result lists the distinct
      elements in order of first occurrence. It is never longer than `xs`
      and holds only elements of `xs`. */
  function Distinct<T(==)>(xs: seq<T>): (r: seq<T>)
    ensures |r| <= |xs|
    ensures forall x :: x in r ==> x in xs
    decreases |xs|
  {
    if xs == [] then []
    else
      var r := Distinct(xs[..|xs| - 1]);
      var x := xs[|xs| - 1];
      if x in r then r else r + [x]
  }

  /** The distinct elements are exactly the elements of the input. */
  lemma {:induction false} DistinctElements<T>(xs: seq<T>, x: T)
    ensures x in Distinct(xs) <==> x in xs
    decreases |xs|
  {
    if xs != [] {
      var init := xs[..|xs| - 1];
      DistinctElements(init, x);
      DistinctElements(init, xs[|xs| - 1]);
      assert xs == init + [xs[|xs| - 1]];
    }
  }

  /** No element is listed twice. */
  lemma {:induction false} DistinctNoDuplicates<T>(xs: seq<T>)
    ensures NoDuplicates(Distinct(xs))
    decreases |xs|
  {
    if xs != [] {
      DistinctNoDuplicates(xs[..|xs| - 1]);
    }
  }

  /** The first occurrence of an element of a prefix lies in that prefix. */
  lemma FirstIndexExtend<T>(init: seq<T>, x: T, y: T)
    requires y in init
    ensures FirstIndex(init + [x], y) == FirstIndex(init, y)
  {
    var s := init + [x];
    var i := FirstIndex(init, y);
    assert s[i] == y;
    assert FirstIndex(s, y) <= i;
  }

  /** The elements are listed in order of their first occurrence in `xs`. */
  lemma {:induction false} DistinctFirstSeenOrder<T>(xs: seq<T>)
    ensures forall x :: x in Distinct(xs) ==> x in xs
    ensures forall i, j :: 0 <= i < j < |Distinct(xs)| ==>
              FirstIndex(xs, Distinct(xs)[i]) < FirstIndex(xs, Distinct(xs)[j])
    decreases |xs|
  {
    forall x | x in Distinct(xs) ensures x in xs {
      DistinctElements(xs, x);
    }
    if xs != [] {
      var init := xs[..|xs| - 1];
      var x := xs[|xs| - 1];
      assert xs == init + [x];
      var r := Distinct(init);
      DistinctFirstSeenOrder(init);
      forall i | 0 <= i < |r| ensures FirstIndex(xs, r[i]) == FirstIndex(init, r[i]) {
        FirstIndexExtend(init, x, r[i]);
      }
      if x !in r {
        DistinctElements(init, x);
        assert x !in init;
        assert FirstIndex(xs, x) == |xs| - 1;
        forall i | 0 <= i < |r| ensures FirstIndex(xs, r[i]) < |xs| - 1 {
        }
      }
    }
  }
}
