/** The filter adapter: WhereIterator walks the positions of the view it
    wraps and stops only on elements that satisfy the predicate; a
    WhereEnumerable hands out the begin and end iterators. Positions are the
    indices 0..|items| of the wrapped view's elements, |items| being that
    view's end iterator. */
module WhereIter {
  import opened Filtering
  import opened Views
  import opened Containers

  class WhereIterator<T> {
    /** The elements of the wrapped view; |items| is `m_iterator_end`. */
    const items: seq<T>
    const pred: T -> bool
    /** `m_iterator`: the wrapped view's cursor. */
    var cursor: nat

    ghost predicate Valid()
      reads this
    {
      cursor <= |items|
    }

    /** The state every constructor and prefix `++` leaves behind: the cursor
        is at end or on an element that satisfies the predicate. */
    ghost predicate OnMatch()
      reads this
    {
      Valid() && (cursor < |items| ==> pred(items[cursor]))
    }

    /** Starts at `start` and, unless that is end or already a match, scans
        forward to the first match or to end. */
    constructor (items: seq<T>, start: nat, pred: T -> bool)
      requires start <= |items|
      ensures this.items == items && this.pred == pred
      ensures cursor == NextMatch(items, pred, start)
      ensures OnMatch()
    {
      this.items := items;
      this.pred := pred;
      cursor := start;
      new;
      if cursor != |items| && !pred(items[cursor]) {
        Increment();
      }
    }

    /** The copy `WhereIterator tmp = *this`. */
    constructor Copy(other: WhereIterator<T>)
      ensures items == other.items && pred == other.pred && cursor == other.cursor
    {
      items := other.items;
      pred := other.pred;
      cursor := other.cursor;
    }

    /** `==` compares the wrapped cursors only, not the predicates; so an
        iterator equals the (end, end) iterator over the same elements
        exactly when its cursor has run off the end. */
    function Equals(other: WhereIterator<T>): (r: bool)
      reads this, other
      requires other.items == items
      ensures r <==> cursor == other.cursor
      ensures other.cursor == |items| ==> (r <==> cursor == |items|)
    {
      cursor == other.cursor
    }

    /** `*`: the element under the cursor; end is never dereferenced, and an
        iterator left by a constructor or prefix `++` yields only matches. */
    function Current(): (x: T)
      reads this
      requires Valid() && cursor < |items|
      ensures x == items[cursor] && x in items
      ensures OnMatch() ==> pred(x)
    {
      items[cursor]
    }

    /** Prefix `++`: a do-while scan that steps at least once and stops on
        the next match or at end. */
    method Increment()
      requires Valid() && cursor < |items|
      modifies this
      ensures cursor == NextMatch(items, pred, old(cursor) + 1)
      ensures old(cursor) < cursor && OnMatch()
    {
      cursor := cursor + 1;
      while cursor != |items| && !pred(items[cursor])
        invariant old(cursor) < cursor <= |items|
        invariant NextMatch(items, pred, old(cursor) + 1) == NextMatch(items, pred, cursor)
        decreases |items| - cursor
      {
        cursor := cursor + 1;
      }
    }

    /** Postfix `++` as written: returns a copy of the old iterator and steps
        the wrapped cursor once, without consulting the predicate, so the
        iterator may come to rest on an element the filter rejects. */
    method PostIncrement() returns (tmp: WhereIterator<T>)
      requires Valid() && cursor < |items|
      modifies this
      ensures fresh(tmp) && tmp.items == items && tmp.pred == pred && tmp.cursor == old(cursor)
      ensures cursor == old(cursor) + 1 && Valid()
    {
      tmp := new WhereIterator.Copy(this);
      cursor := cursor + 1;
    }

    /** Postfix `++` as a filter iterator evidently intends it: returns a copy
        of the old iterator and advances like prefix `++`. */
    method PostIncrementFixed() returns (tmp: WhereIterator<T>)
      requires Valid() && cursor < |items|
      modifies this
      ensures fresh(tmp) && tmp.items == items && tmp.pred == pred && tmp.cursor == old(cursor)
      ensures cursor == NextMatch(items, pred, old(cursor) + 1) && OnMatch()
    {
      tmp := new WhereIterator.Copy(this);
      Increment();
    }
  }

  /** `where(pred)` over the view `inner` of a referenced container. */
  class WhereEnumerable<T> {
    const source: Container<T>
    const inner: View<T>
    const pred: T -> bool

    constructor (source: Container<T>, inner: View<T>, pred: T -> bool)
      ensures this.source == source && this.inner == inner && this.pred == pred
    {
      this.source := source;
      this.inner := inner;
      this.pred := pred;
    }

    /** `begin()`: an iterator built from (inner begin, inner end), which
        lands on the first match. */
    method Begin() returns (it: WhereIterator<T>)
      ensures fresh(it) && it.items == Elems(inner, source.elems) && it.pred == pred
      ensures it.cursor == NextMatch(it.items, pred, 0) && it.OnMatch()
    {
      it := new WhereIterator(Elems(inner, source.elems), 0, pred);
    }

    /** `end()`: the iterator built from (inner end, inner end). */
    method End() returns (it: WhereIterator<T>)
      ensures fresh(it) && it.items == Elems(inner, source.elems) && it.pred == pred
      ensures it.cursor == |it.items|
    {
      it := new WhereIterator(Elems(inner, source.elems), |Elems(inner, source.elems)|, pred);
    }

    /** A range-for over the view: iterate from `begin()` until the
        iterator compares equal to `end()`. It yields exactly the wrapped
        view's elements that satisfy the predicate, in order. */
    method Traverse() returns (out: seq<T>)
      ensures out == Filter(Elems(inner, source.elems), pred)
      ensures out == Elems(Where(inner, pred), source.elems)
    {
      var it := Begin();
      var stop := End();
      out := Drain(it, stop);
    }
  }

  /** The range-for loop over a where view: dereference and prefix-`++` the
      `begin()` iterator until it compares equal to the `end()` iterator. */
  method Drain<T>(it: WhereIterator<T>, stop: WhereIterator<T>) returns (out: seq<T>)
    requires it != stop && stop.items == it.items
    requires it.cursor == NextMatch(it.items, it.pred, 0)
    requires stop.cursor == |it.items|
    modifies it
    ensures out == Filter(it.items, it.pred)
  {
    ghost var items := it.items;
    ghost var pred := it.pred;
    FilterSkipsRejected(items, pred, 0, it.cursor);
    out := [];
    while !it.Equals(stop)
      invariant it.items == items && it.pred == pred && it.OnMatch()
      invariant stop.cursor == |items|
      invariant out == Filter(items[..it.cursor], pred)
      decreases |items| - it.cursor
    {
      var c := it.cursor;
      out := out + [it.Current()];
      it.Increment();
      FilterScanStep(items, pred, c, it.cursor);
    }
    assert items[..it.cursor] == items;
  }

  /** One prefix `++` from a match at `c` adds exactly that match to the
      elements seen. */
  lemma FilterScanStep<T>(items: seq<T>, pred: T -> bool, c: nat, next: nat)
    requires c < |items| && pred(items[c])
    requires next == NextMatch(items, pred, c + 1)
    ensures Filter(items[..next], pred) == Filter(items[..c], pred) + [items[c]]
  {
    FilterPrefixStep(items, c, pred);
    FilterSkipsRejected(items, pred, c + 1, next);
  }

  /** A `where(even)` iterator over [2, 1, 4] starts on 2; postfix `++` as
      written moves it onto 1, an element the filter rejects. */
  method PostIncrementLandsOnReject() returns (x: int)
    ensures x == 1 && !IsEven(x)
  {
    var it := new WhereIterator([2, 1, 4], 0, IsEven);
    var previous := it.PostIncrement();
    x := it.Current();
  }

  /** The same iterator under the corrected postfix `++` moves on to 4, the
      next even element. */
  method PostIncrementFixedSkipsReject() returns (x: int)
    ensures x == 4 && IsEven(x)
  {
    var it := new WhereIterator([2, 1, 4], 0, IsEven);
    var previous := it.PostIncrementFixed();
    x := it.Current();
  }
}
