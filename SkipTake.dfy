/** The `skip` and `take` adapters. Neither has an iterator of its own: both
    hand out iterators of the view they wrap, so a position here is an index
    0..len into that view's elements, len being its end iterator. Both run
    the same count-down loop, Skip to find its begin and Take to find its
    end. */
module SkipTake {
  import opened Views
  import opened Containers

  /** Copies the elements from position `first` up to, not including,
      position `last`: what a range-for over [first, last) sees. */
  method Collect<T>(items: seq<T>, first: nat, last: nat) returns (out: seq<T>)
    requires first <= last <= |items|
    ensures out == items[first..last]
  {
    out := [];
    var it := first;
    while it != last
      invariant first <= it <= last
      invariant out == items[first..it]
      decreases last - it
    {
      out := out + [items[it]];
      it := it + 1;
    }
  }

  /** `skip(count)` over the view `inner` of a referenced container. */
  class SkipEnumerable<T> {
    const source: Container<T>
    const inner: View<T>
    const count: int

    constructor (source: Container<T>, inner: View<T>, count: int)
      ensures this.source == source && this.inner == inner && this.count == count
    {
      this.source := source;
      this.inner := inner;
      this.count := count;
    }

    /** `begin()`: steps from the inner begin while the count is positive and
        end is not reached, landing on min(max(count, 0), len); a count of
        zero or less does not move, a count past the length stops at end. */
    method Begin() returns (pos: nat)
      ensures pos == Clamp(count, |Elems(inner, source.elems)|)
      ensures count <= 0 ==> pos == 0
      ensures |Elems(inner, source.elems)| <= count ==> pos == |Elems(inner, source.elems)|
    {
      var end := |Elems(inner, source.elems)|;
      var it := 0;
      var left := count;
      while left > 0 && it != end
        invariant 0 <= it <= end
        invariant count <= 0 ==> it == 0 && left == count
        invariant 0 < count ==> 0 <= left && it == count - left
      {
        left := left - 1;
        it := it + 1;
      }
      pos := it;
    }

    /** `end()`: the inner end. */
    method End() returns (pos: nat)
      ensures pos == |Elems(inner, source.elems)|
    {
      pos := |Elems(inner, source.elems)|;
    }

    /** A range-for over the view: the wrapped view's elements from position
        `count` on, or nothing when the count reaches past the end. */
    method Traverse() returns (out: seq<T>)
      ensures out == Elems(Skip(inner, count), source.elems)
      ensures count <= 0 ==> out == Elems(inner, source.elems)
      ensures |Elems(inner, source.elems)| <= count ==> out == []
    {
      var first := Begin();
      var last := End();
      out := Collect(Elems(inner, source.elems), first, last);
    }
  }

  /** `take(count)` over the view `inner` of a referenced container. */
  class TakeEnumerable<T> {
    const source: Container<T>
    const inner: View<T>
    const count: int

    constructor (source: Container<T>, inner: View<T>, count: int)
      ensures this.source == source && this.inner == inner && this.count == count
    {
      this.source := source;
      this.inner := inner;
      this.count := count;
    }

    /** `begin()`: the inner begin. */
    method Begin() returns (pos: nat)
      ensures pos == 0
    {
      pos := 0;
    }

    /** `end()`: steps from `begin()` while the count is positive and end is
        not reached, landing on min(max(count, 0), len); a count of zero or
        less gives begin == end, a count past the length gives the inner
        end. */
    method End() returns (pos: nat)
      ensures pos == Clamp(count, |Elems(inner, source.elems)|)
      ensures count <= 0 ==> pos == 0
      ensures |Elems(inner, source.elems)| <= count ==> pos == |Elems(inner, source.elems)|
    {
      var end := |Elems(inner, source.elems)|;
      var it := Begin();
      var left := count;
      while left > 0 && it != end
        invariant 0 <= it <= end
        invariant count <= 0 ==> it == 0 && left == count
        invariant 0 < count ==> 0 <= left && it == count - left
      {
        left := left - 1;
        it := it + 1;
      }
      pos := it;
    }

    /** A range-for over the view: the first `count` elements of the wrapped
        view, nothing for a count of zero or less, everything for a count
        past the length. */
    method Traverse() returns (out: seq<T>)
      ensures out == Elems(Take(inner, count), source.elems)
      ensures count <= 0 ==> out == []
      ensures |Elems(inner, source.elems)| <= count ==> out == Elems(inner, source.elems)
    {
      var first := Begin();
      var last := End();
      out := Collect(Elems(inner, source.elems), first, last);
    }
  }

  /** The demo driver's chain `from(v).skip(1).skip(1).take(5)` over
      v = [1,2,3,4,5], traversed, then traversed again after
      `v.push_back(10)`: the lazy view sees the appended element. */
  method ChainAfterPushBack() returns (before: seq<int>, after: seq<int>)
    ensures before == [3, 4, 5]
    ensures after == [3, 4, 5, 10]
  {
    var v := new Container([1, 2, 3, 4, 5]);
    var range := new TakeEnumerable(v, Skip(Skip(Base, 1), 1), 5);
    ChainSeesAppend();
    before := range.Traverse();
    v.PushBack(10);
    after := range.Traverse();
  }
}
