/** The composition root: `from(v)` gives a view over a backing sequence and
    the chain calls `where`, `skip` and `take` wrap the receiver in a new view
    value, leaving the receiver as it was. A view is a description; what it
    yields is computed against the backing sequence by `Elems` at traversal
    time, so a lazy view sees changes made to the backing sequence after it
    was built. */
module Views {
  import opened Filtering

  /** A chain of lazy adapters. `Base` is `from(container)`; each other
      constructor is the enumerable the matching chain call wraps around its
      receiver. Skip and Take count positions of the view directly inside
      them, because their iterator type is that view's iterator. */
  datatype View<!T> =
    | Base
    | Where(inner: View<T>, pred: T -> bool)
    | Skip(inner: View<T>, count: int)
    | Take(inner: View<T>, count: int)

  /** The position a count-down loop of `count` steps reaches from position
      0 of a range of `len` positions: min(max(count, 0), len). */
  function Clamp(count: int, len: nat): (r: nat)
    ensures r <= len
    ensures count <= 0 ==> r == 0
    ensures 0 <= count <= len ==> r == count
    ensures len <= count ==> r == len
  {
    if count <= 0 then 0 else if count < len then count else len
  }

  /** The elements a full traversal of `v` yields over backing sequence `s`. */
  function Elems<T>(v: View<T>, s: seq<T>): (r: seq<T>)
    ensures |r| <= |s|
    decreases v
  {
    match v
    case Base => s
    case Where(u, p) => Filter(Elems(u, s), p)
    case Skip(u, n) =>
      var e := Elems(u, s);
      e[Clamp(n, |e|)..]
    case Take(u, n) =>
      var e := Elems(u, s);
      e[..Clamp(n, |e|)]
  }

  /** Every element a view yields is an element of the backing sequence:
      no adapter invents elements. */
  lemma {:induction false} ElemsFromSource<T>(v: View<T>, s: seq<T>, i: nat)
    requires i < |Elems(v, s)|
    ensures Elems(v, s)[i] in s
    decreases v
  {
    match v
    case Base =>
    case Where(u, p) =>
      var e := Elems(u, s);
      var j :| 0 <= j < |e| && e[j] == Elems(v, s)[i];
      ElemsFromSource(u, s, j);
    case Skip(u, n) =>
      ElemsFromSource(u, s, Clamp(n, |Elems(u, s)|) + i);
    case Take(u, n) =>
      ElemsFromSource(u, s, i);
  }

  /** `skip(n)` drops the first n elements of the view it wraps, and a count
      beyond the length leaves an empty range. */
  lemma SkipElems<T>(v: View<T>, n: int, s: seq<T>)
    ensures var e := Elems(v, s);
      |Elems(Skip(v, n), s)| == |e| - Clamp(n, |e|) &&
      (|e| <= n ==> Elems(Skip(v, n), s) == []) &&
      (n <= 0 ==> Elems(Skip(v, n), s) == e) &&
      forall i :: 0 <= i < |Elems(Skip(v, n), s)| ==> Elems(Skip(v, n), s)[i] == e[Clamp(n, |e|) + i]
  {
    var e := Elems(v, s);
    assert Elems(Skip(v, n), s) == e[Clamp(n, |e|)..];
  }

  /** `take(n)` keeps the first n elements of the view it wraps; a count of
      zero or less gives an empty range and a count beyond the length keeps
      everything. */
  lemma TakeElems<T>(v: View<T>, n: int, s: seq<T>)
    ensures var e := Elems(v, s);
      |Elems(Take(v, n), s)| == Clamp(n, |e|) &&
      (n <= 0 ==> Elems(Take(v, n), s) == []) &&
      (|e| <= n ==> Elems(Take(v, n), s) == e) &&
      forall i :: 0 <= i < |Elems(Take(v, n), s)| ==> Elems(Take(v, n), s)[i] == e[i]
  {
    var e := Elems(v, s);
    assert Elems(Take(v, n), s) == e[..Clamp(n, |e|)];
  }

  /** `take(n)` and `skip(n)` over the same view split it in two. */
  lemma TakeThenSkip<T>(v: View<T>, n: int, s: seq<T>)
    ensures Elems(Take(v, n), s) + Elems(Skip(v, n), s) == Elems(v, s)
  {
    var e := Elems(v, s);
    assert e[..Clamp(n, |e|)] + e[Clamp(n, |e|)..] == e;
  }

  /** Two skips skip the sum of their counts, a negative count skipping
      nothing. */
  lemma SkipSkip<T>(v: View<T>, a: int, b: int, s: seq<T>)
    ensures Elems(Skip(Skip(v, a), b), s)
         == Elems(Skip(v, (if a < 0 then 0 else a) + (if b < 0 then 0 else b)), s)
  {
  }

  /** Two takes keep the shorter prefix. */
  lemma TakeTake<T>(v: View<T>, a: int, b: int, s: seq<T>)
    ensures Elems(Take(Take(v, a), b), s) == Elems(Take(v, if a < b then a else b), s)
  {
  }

  /** `where(p).where(q)` yields the elements satisfying both predicates, in
      order. */
  lemma WhereWhere<T>(v: View<T>, p: T -> bool, q: T -> bool, s: seq<T>)
    ensures Elems(Where(Where(v, p), q), s) == Elems(Where(v, x => p(x) && q(x)), s)
  {
    FilterFilter(Elems(v, s), p, q);
  }

  /** The chain `from(v).skip(1).skip(1).take(5)`: over [1,2,3,4,5] it yields
      [3,4,5], and the same view after `push_back(10)` yields [3,4,5,10]. */
  lemma ChainSeesAppend()
    ensures Elems(Take(Skip(Skip(Base, 1), 1), 5), [1, 2, 3, 4, 5]) == [3, 4, 5]
    ensures Elems(Take(Skip(Skip(Base, 1), 1), 5), [1, 2, 3, 4, 5, 10]) == [3, 4, 5, 10]
  {
    var s, t := [1, 2, 3, 4, 5], [1, 2, 3, 4, 5, 10];
    assert Elems(Skip(Skip(Base, 1), 1), s) == [3, 4, 5];
    assert Elems(Skip(Skip(Base, 1), 1), t) == [3, 4, 5, 10];
  }

  /** The predicates of the examples below. */
  predicate IsEven(x: int) { x % 2 == 0 }
  predicate IsMultipleOf3(x: int) { x % 3 == 0 }

  /** Filtering [1, 2, 3, 4] by evenness keeps [2, 4]. */
  lemma EvensOf1To4()
    ensures Filter([1, 2, 3, 4], IsEven) == [2, 4]
  {
    assert [1] == [] + [1];
    FilterSnoc([], 1, IsEven);
    assert Filter([1], IsEven) == [];
    assert [1, 2] == [1] + [2];
    FilterSnoc([1], 2, IsEven);
    assert Filter([1, 2], IsEven) == [2];
    assert [1, 2, 3] == [1, 2] + [3];
    FilterSnoc([1, 2], 3, IsEven);
    assert Filter([1, 2, 3], IsEven) == [2];
    assert [1, 2, 3, 4] == [1, 2, 3] + [4];
    FilterSnoc([1, 2, 3], 4, IsEven);
  }

  /** Skip over a filtered view counts filtered positions, not positions of
      the backing sequence: `where(even).skip(1)` over [1,2,3,4] drops 2,
      the first even element, and yields [4]. */
  lemma SkipCountsFilteredPositions()
    ensures Elems(Skip(Where(Base, IsEven), 1), [1, 2, 3, 4]) == [4]
  {
    EvensOf1To4();
    var s := [1, 2, 3, 4];
    var e := Elems(Where(Base, IsEven), s);
    assert e == Filter(Elems(Base, s), IsEven);
    assert e == [2, 4];
    assert Elems(Skip(Where(Base, IsEven), 1), s) == e[1..];
  }

  /** Filtering [1..6] keeps 3 and 6. */
  lemma MultiplesOf3Low()
    ensures Filter([1, 2, 3, 4, 5, 6], IsMultipleOf3) == [3, 6]
  {
    assert [1] == [] + [1];
    FilterSnoc([], 1, IsMultipleOf3);
    assert Filter([1], IsMultipleOf3) == [];
    assert [1, 2] == [1] + [2];
    FilterSnoc([1], 2, IsMultipleOf3);
    assert Filter([1, 2], IsMultipleOf3) == [];
    assert [1, 2, 3] == [1, 2] + [3];
    FilterSnoc([1, 2], 3, IsMultipleOf3);
    assert Filter([1, 2, 3], IsMultipleOf3) == [3];
    assert [1, 2, 3, 4] == [1, 2, 3] + [4];
    FilterSnoc([1, 2, 3], 4, IsMultipleOf3);
    assert Filter([1, 2, 3, 4], IsMultipleOf3) == [3];
    assert [1, 2, 3, 4, 5] == [1, 2, 3, 4] + [5];
    FilterSnoc([1, 2, 3, 4], 5, IsMultipleOf3);
    assert Filter([1, 2, 3, 4, 5], IsMultipleOf3) == [3];
    assert [1, 2, 3, 4, 5, 6] == [1, 2, 3, 4, 5] + [6];
    FilterSnoc([1, 2, 3, 4, 5], 6, IsMultipleOf3);
    assert Filter([1, 2, 3, 4, 5, 6], IsMultipleOf3) == [3, 6];
  }

  /** Filtering [7, 8, 9, 29, 100] keeps 9. */
  lemma MultiplesOf3High()
    ensures Filter([7, 8, 9, 29, 100], IsMultipleOf3) == [9]
  {
    assert [7] == [] + [7];
    FilterSnoc([], 7, IsMultipleOf3);
    assert Filter([7], IsMultipleOf3) == [];
    assert [7, 8] == [7] + [8];
    FilterSnoc([7], 8, IsMultipleOf3);
    assert Filter([7, 8], IsMultipleOf3) == [];
    assert [7, 8, 9] == [7, 8] + [9];
    FilterSnoc([7, 8], 9, IsMultipleOf3);
    assert Filter([7, 8, 9], IsMultipleOf3) == [9];
    assert [7, 8, 9, 29] == [7, 8, 9] + [29];
    FilterSnoc([7, 8, 9], 29, IsMultipleOf3);
    assert Filter([7, 8, 9, 29], IsMultipleOf3) == [9];
    assert [7, 8, 9, 29, 100] == [7, 8, 9, 29] + [100];
    FilterSnoc([7, 8, 9, 29], 100, IsMultipleOf3);
    assert Filter([7, 8, 9, 29, 100], IsMultipleOf3) == [9];
  }

  /** `where(x % 3 == 0)` over [1..9, 29, 100] yields [3,6,9]. */
  lemma WhereExample()
    ensures Elems(Where(Base, IsMultipleOf3), [1, 2, 3, 4, 5, 6, 7, 8, 9, 29, 100]) == [3, 6, 9]
  {
    var a, b := [1, 2, 3, 4, 5, 6], [7, 8, 9, 29, 100];
    FilterConcat(a, b, IsMultipleOf3);
    assert a + b == [1, 2, 3, 4, 5, 6, 7, 8, 9, 29, 100];
    MultiplesOf3Low();
    MultiplesOf3High();
  }

  /** Filtering [3, 6, 9] by evenness keeps [6]. */
  lemma EvensOf369()
    ensures Filter([3, 6, 9], IsEven) == [6]
  {
    assert [3] == [] + [3];
    FilterSnoc([], 3, IsEven);
    assert Filter([3], IsEven) == [];
    assert [3, 6] == [3] + [6];
    FilterSnoc([3], 6, IsEven);
    assert Filter([3, 6], IsEven) == [6];
    assert [3, 6, 9] == [3, 6] + [9];
    FilterSnoc([3, 6], 9, IsEven);
  }

  /** Chaining `where(x % 2 == 0)` on the view of WhereExample yields [6]. */
  lemma WhereWhereExample()
    ensures Elems(Where(Where(Base, IsMultipleOf3), IsEven), [1, 2, 3, 4, 5, 6, 7, 8, 9, 29, 100]) == [6]
  {
    WhereExample();
    EvensOf369();
  }
}
