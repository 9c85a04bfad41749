/** Order-preserving selection from a sequence, the specification that both
    line filters are proved against. */
module Sequences {

  /** The elements of `xs` that satisfy `p`, in their original order, each
      occurrence kept separately. Defined on the last element so that it
      follows a loop that appends as it walks forward. */
  function Filter<T>(xs: seq<T>, p: T -> bool): (r: seq<T>)
    ensures |r| <= |xs|
    decreases |xs|
  {
    if xs == [] then []
    else
      var kept := Filter(xs[..|xs| - 1], p);
      if p(xs[|xs| - 1]) then kept + [xs[|xs| - 1]] else kept
  }

  /** `a` is obtained from `b` by deleting elements, without reordering. */
  ghost predicate IsSubsequence<T>(a: seq<T>, b: seq<T>)
    decreases |b|
  {
    if a == [] then true
    else if b == [] then false
    else (a[|a| - 1] == b[|b| - 1] && IsSubsequence(a[..|a| - 1], b[..|b| - 1]))
         || IsSubsequence(a, b[..|b| - 1])
  }

  /** Filtering one more element is filtering the prefix, then deciding on it. */
  lemma FilterSnoc<T>(xs: seq<T>, x: T, p: T -> bool)
    ensures Filter(xs + [x], p) == if p(x) then Filter(xs, p) + [x] else Filter(xs, p)
  {
    assert (xs + [x])[..|xs|] == xs;
  }

  /** An element is in the result exactly when it is in the input and satisfies `p`. */
  lemma {:induction false} FilterMembers<T>(xs: seq<T>, p: T -> bool)
    ensures forall x :: x in Filter(xs, p) <==> x in xs && p(x)
    decreases |xs|
  {
    if xs != [] {
      var init := xs[..|xs| - 1];
      FilterMembers(init, p);
      assert xs == init + [xs[|xs| - 1]];
    }
  }

  /** Every occurrence of a satisfying element is kept, every other one dropped:
      duplicates are neither merged nor lost. */
  lemma {:induction false} FilterCounts<T>(xs: seq<T>, p: T -> bool)
    ensures forall x :: multiset(Filter(xs, p))[x] == if p(x) then multiset(xs)[x] else 0
    decreases |xs|
  {
    if xs != [] {
      var init := xs[..|xs| - 1];
      FilterCounts(init, p);
      assert xs == init + [xs[|xs| - 1]];
    }
  }

  /** The result keeps the input's order. */
  lemma {:induction false} FilterIsSubsequence<T>(xs: seq<T>, p: T -> bool)
    ensures IsSubsequence(Filter(xs, p), xs)
    decreases |xs|
  {
    if xs != [] {
      var init := xs[..|xs| - 1];
      var kept := Filter(init, p);
      FilterIsSubsequence(init, p);
      if p(xs[|xs| - 1]) {
        var r := kept + [xs[|xs| - 1]];
        assert r[..|r| - 1] == kept;
      } else if kept != [] {
        assert IsSubsequence(kept, xs[..|xs| - 1]);
      }
    }
  }

  /** When every element satisfies `p`, nothing is dropped. */
  lemma {:induction false} FilterKeepsAll<T>(xs: seq<T>, p: T -> bool)
    requires forall x :: x in xs ==> p(x)
    ensures Filter(xs, p) == xs
    decreases |xs|
  {
    if xs != [] {
      var init := xs[..|xs| - 1];
      assert forall x :: x in init ==> x in xs;
      FilterKeepsAll(init, p);
      assert init + [xs[|xs| - 1]] == xs;
    }
  }

  /** A weaker test keeps at least the same elements, in the same order. */
  lemma {:induction false} FilterWeaker<T>(xs: seq<T>, p: T -> bool, q: T -> bool)
    requires forall x :: x in xs && p(x) ==> q(x)
    ensures IsSubsequence(Filter(xs, p), Filter(xs, q))
    decreases |xs|
  {
    if xs != [] {
      var init, last := xs[..|xs| - 1], xs[|xs| - 1];
      assert forall x :: x in init ==> x in xs;
      FilterWeaker(init, p, q);
      var a, b := Filter(init, p), Filter(init, q);
      if p(last) {
        var a', b' := a + [last], b + [last];
        assert a'[..|a'| - 1] == a && b'[..|b'| - 1] == b;
      } else if q(last) && a != [] {
        var b' := b + [last];
        assert b'[..|b'| - 1] == b;
      }
    }
  }
}
