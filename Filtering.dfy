/** The filtering logic behind `where`: the predicate-filtered subsequence of a
    sequence, and the forward scan a WhereIterator performs to reach the next
    element that satisfies the predicate. Iterator positions are indices
    0..|s|, with |s| standing for the end iterator. */
module Filtering {

  /** The elements of `s` that satisfy `p`, in source order. */
  function Filter<T>(s: seq<T>, p: T -> bool): (r: seq<T>)
    ensures |r| <= |s|
    ensures forall i :: 0 <= i < |r| ==> p(r[i])
    ensures forall i :: 0 <= i < |r| ==> r[i] in s
    ensures forall i :: 0 <= i < |s| && p(s[i]) ==> s[i] in r
  {
    if s == [] then []
    else
      var rest := Filter(s[..|s| - 1], p);
      assert s == s[..|s| - 1] + [s[|s| - 1]];
      if p(s[|s| - 1]) then rest + [s[|s| - 1]] else rest
  }

  /** The first position at or after `i` whose element satisfies `p`, or |s|
      (the end position) when there is none. */
  function NextMatch<T>(s: seq<T>, p: T -> bool, i: nat): (r: nat)
    requires i <= |s|
    ensures i <= r <= |s|
    ensures r < |s| ==> p(s[r])
    ensures forall k :: i <= k < r ==> !p(s[k])
    decreases |s| - i
  {
    if i == |s| || p(s[i]) then i else NextMatch(s, p, i + 1)
  }

  /** Filtering a sequence extended by one element. */
  lemma {:induction false} FilterSnoc<T>(s: seq<T>, x: T, p: T -> bool)
    ensures Filter(s + [x], p) == Filter(s, p) + (if p(x) then [x] else [])
  {
    assert (s + [x])[..|s + [x]| - 1] == s;
  }

  /** Filtering a concatenation filters each part. */
  lemma {:induction false} FilterConcat<T>(a: seq<T>, b: seq<T>, p: T -> bool)
    ensures Filter(a + b, p) == Filter(a, p) + Filter(b, p)
    decreases |b|
  {
    if b == [] {
      assert a + b == a;
    } else {
      var init, last := b[..|b| - 1], b[|b| - 1];
      assert b == init + [last];
      assert a + b == (a + init) + [last];
      FilterConcat(a, init, p);
      FilterSnoc(a + init, last, p);
      FilterSnoc(init, last, p);
    }
  }

  /** Extending a prefix by one position adds that element exactly when it
      satisfies the predicate. */
  lemma FilterPrefixStep<T>(s: seq<T>, i: nat, p: T -> bool)
    requires i < |s|
    ensures Filter(s[..i + 1], p) == Filter(s[..i], p) + (if p(s[i]) then [s[i]] else [])
  {
    assert s[..i + 1] == s[..i] + [s[i]];
    FilterSnoc(s[..i], s[i], p);
  }

  /** Positions whose elements all fail the predicate add nothing to the
      filtered prefix: the scan of a WhereIterator loses no element. */
  lemma {:induction false} FilterSkipsRejected<T>(s: seq<T>, p: T -> bool, i: nat, j: nat)
    requires i <= j <= |s|
    requires forall k :: i <= k < j ==> !p(s[k])
    ensures Filter(s[..j], p) == Filter(s[..i], p)
    decreases j - i
  {
    if i < j {
      FilterPrefixStep(s, j - 1, p);
      FilterSkipsRejected(s, p, i, j - 1);
    }
  }

  /** Filtering twice keeps the elements that satisfy both predicates, in
      order: `where(p).where(q)` is `where(p && q)`. */
  lemma {:induction false} FilterFilter<T>(s: seq<T>, p: T -> bool, q: T -> bool)
    ensures Filter(Filter(s, p), q) == Filter(s, x => p(x) && q(x))
    decreases |s|
  {
    if s != [] {
      var init, last := s[..|s| - 1], s[|s| - 1];
      assert s == init + [last];
      FilterFilter(init, p, q);
      FilterSnoc(init, last, p);
      FilterSnoc(Filter(init, p), last, q);
      FilterSnoc(init, last, x => p(x) && q(x));
    }
  }

  /** A predicate every element satisfies filters nothing out. */
  lemma {:induction false} FilterKeepsAll<T>(s: seq<T>, p: T -> bool)
    requires forall i :: 0 <= i < |s| ==> p(s[i])
    ensures Filter(s, p) == s
    decreases |s|
  {
    if s != [] {
      var init := s[..|s| - 1];
      FilterKeepsAll(init, p);
      assert s == init + [s[|s| - 1]];
    }
  }
}
