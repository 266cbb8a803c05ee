/** The `group` adapter, available on a view built with `from`: a
    GroupEnumerable owns the bucket map, rebuilds it from the referenced
    container on every `begin()`, and hands out GroupIterators that walk the
    map in ascending key order. Unlike the lazy adapters, the map is a
    snapshot: a change to the container shows only after the next
    `begin()`. */
module Groups {
  import opened Grouping
  import opened Containers

  class GroupEnumerable<T> {
    /** The referenced container (`m_container`, a RefRange). */
    const source: Container<T>
    /** The key function (`m_group_function`). */
    const key: T -> int
    /** The bucket map (`m_map`). */
    var buckets: BucketMap<T>

    constructor (source: Container<T>, key: T -> int)
      ensures this.source == source && this.key == key && buckets == []
    {
      this.source := source;
      this.key := key;
      buckets := [];
    }

    /** `begin()`: clears the map, appends every element of the container to
        the bucket of its key, and returns an iterator on the first (smallest)
        key, which is the end iterator when the container is empty. */
    method Begin() returns (it: GroupIterator<T>)
      modifies this
      ensures buckets == GroupBy(source.elems, key)
      ensures GroupedBy(buckets, source.elems, key)
      ensures fresh(it) && it.owner == this && it.index == 0
      ensures it.index == |buckets| <==> source.elems == []
    {
      buckets := [];
      var i := 0;
      while i < |source.elems|
        invariant 0 <= i <= |source.elems|
        invariant buckets == GroupBy(source.elems[..i], key)
      {
        var item := source.elems[i];
        buckets := Insert(buckets, key(item), item);
        assert source.elems[..i + 1][..i] == source.elems[..i];
        i := i + 1;
      }
      assert source.elems[..i] == source.elems;
      GroupByCorrect(source.elems, key);
      GroupByEmpty(source.elems, key);
      it := new GroupIterator(this, 0);
    }

    /** `end()`: the iterator past the last key of the current map. */
    method End() returns (it: GroupIterator<T>)
      ensures fresh(it) && it.owner == this && it.index == |buckets|
    {
      it := new GroupIterator(this, |buckets|);
    }

    /** A range-for over the grouping: from `begin()`, read `key()` and `*`
        and prefix-`++` until the iterator compares equal to `end()`. It
        sees every (key, bucket) entry of the freshly rebuilt map, in
        ascending key order. */
    method Traverse() returns (groups: BucketMap<T>)
      modifies this
      ensures buckets == GroupBy(source.elems, key)
      ensures groups == buckets && GroupedBy(groups, source.elems, key)
    {
      var it := Begin();
      groups := Visit(it);
    }

    /** The loop of Traverse: walks `it` from the first entry to `end()`,
        collecting each entry's `key()` and `*`. */
    method Visit(it: GroupIterator<T>) returns (groups: BucketMap<T>)
      requires it.owner == this && it.index == 0
      modifies it
      ensures groups == buckets
    {
      var stop := End();
      groups := [];
      while !it.Equals(stop)
        invariant it.owner == this && it.Valid()
        invariant stop.index == |buckets|
        invariant groups == buckets[..it.index]
        decreases |buckets| - it.index
      {
        var entry := (it.Key(), it.Current());
        assert entry == buckets[it.index];
        groups := groups + [entry];
        it.Increment();
      }
      assert buckets[..it.index] == buckets;
    }
  }

  class GroupIterator<T> {
    /** The enumerable whose map this iterator walks. */
    const owner: GroupEnumerable<T>
    /** `m_iterator`: the position in the map, |owner.buckets| being end. */
    var index: nat

    ghost predicate Valid()
      reads this, owner
    {
      index <= |owner.buckets|
    }

    constructor (owner: GroupEnumerable<T>, index: nat)
      ensures this.owner == owner && this.index == index
    {
      this.owner := owner;
      this.index := index;
    }

    /** `==` compares the map positions only; so an iterator equals the
        `end()` iterator of its enumerable exactly when it is past the last
        bucket. */
    function Equals(other: GroupIterator<T>): (r: bool)
      reads this, other
      requires other.owner == owner
      ensures r <==> index == other.index
      ensures other.index == |owner.buckets| ==> (r <==> index == |owner.buckets|)
    {
      index == other.index
    }

    /** `key()`: the key of the current entry. */
    function Key(): (k: int)
      reads this, owner
      requires Valid() && index < |owner.buckets|
      ensures k in KeySet(owner.buckets)
      ensures k == owner.buckets[index].0
    {
      owner.buckets[index].0
    }

    /** `*`: the bucket of the current entry; for a map built by `begin()`,
        the container's elements with that key, in container order. */
    function Current(): (b: seq<T>)
      reads this, owner, owner.source
      requires Valid() && index < |owner.buckets|
      ensures b == owner.buckets[index].1
      ensures GroupedBy(owner.buckets, owner.source.elems, owner.key) ==>
                b == Members(owner.source.elems, owner.key, Key()) && b != []
    {
      GroupedEntry(owner.buckets, owner.source.elems, owner.key, index);
      owner.buckets[index].1
    }

    /** Prefix `++`: the next entry, whose key is larger. */
    method Increment()
      requires Valid() && index < |owner.buckets|
      modifies this
      ensures index == old(index) + 1 && Valid()
      ensures KeysAscending(owner.buckets) && index < |owner.buckets| ==> old(Key()) < Key()
    {
      index := index + 1;
    }

    /** Postfix `++`: a copy of the old iterator, and the next entry. */
    method PostIncrement() returns (tmp: GroupIterator<T>)
      requires Valid() && index < |owner.buckets|
      modifies this
      ensures fresh(tmp) && tmp.owner == owner && tmp.index == old(index)
      ensures index == old(index) + 1 && Valid()
    {
      tmp := new GroupIterator(owner, index);
      index := index + 1;
    }
  }

  /** The decade of a number: the key of the example below. */
  function Decade(x: int): int { x / 10 }

  /** The first four elements: keys 30, 30, 20, 20. */
  lemma DecadeGroupingPrefix()
    ensures GroupBy([301, 302, 201, 202], Decade) == [(20, [201, 202]), (30, [301, 302])]
  {
    assert [301] == [] + [301];
    GroupBySnoc([], 301, Decade);
    assert GroupBy([301], Decade) == [(30, [301])];
    assert [301, 302] == [301] + [302];
    GroupBySnoc([301], 302, Decade);
    assert GroupBy([301, 302], Decade) == [(30, [301, 302])];
    assert [301, 302, 201] == [301, 302] + [201];
    GroupBySnoc([301, 302], 201, Decade);
    assert GroupBy([301, 302, 201], Decade) == [(20, [201]), (30, [301, 302])];
    assert [301, 302, 201, 202] == [301, 302, 201] + [202];
    GroupBySnoc([301, 302, 201], 202, Decade);
    var m3: BucketMap<int> := [(20, [201]), (30, [301, 302])];
    assert m3[1..] == [(30, [301, 302])];
    assert Insert(m3, 20, 202) == [(20, [201] + [202])] + m3[1..];
    assert [201] + [202] == [201, 202] && Decade(202) == 20;
  }

  /** The first five elements: keys 30, 30, 20, 20, 35. */
  lemma DecadeGroupingFive()
    ensures GroupBy([301, 302, 201, 202, 351], Decade) ==
      [(20, [201, 202]), (30, [301, 302]), (35, [351])]
  {
    DecadeGroupingPrefix();
    assert [301, 302, 201, 202, 351] == [301, 302, 201, 202] + [351];
    GroupBySnoc([301, 302, 201, 202], 351, Decade);
    var m4: BucketMap<int> := [(20, [201, 202]), (30, [301, 302])];
    assert m4[1..] == [(30, [301, 302])];
    assert m4[1..][1..] == [];
    assert Insert(m4[1..], 35, 351) == [(30, [301, 302])] + Insert([], 35, 351);
    assert Insert(m4, 35, 351) == [m4[0]] + Insert(m4[1..], 35, 351);
  }

  /** Grouping [301, 302, 201, 202, 351] by decade (keys 30, 30, 20, 20, 35)
      gives the buckets in ascending key order, each in source order. */
  lemma DecadeGrouping()
    ensures GroupBy([301, 302, 201, 202, 351], Decade) ==
      [(20, [201, 202]), (30, [301, 302]), (35, [351])]
    ensures GroupBy([301, 302, 201, 202, 351, 203], Decade) ==
      [(20, [201, 202, 203]), (30, [301, 302]), (35, [351])]
  {
    DecadeGroupingFive();
    assert [301, 302, 201, 202, 351, 203] == [301, 302, 201, 202, 351] + [203];
    GroupBySnoc([301, 302, 201, 202, 351], 203, Decade);
    var m5: BucketMap<int> := [(20, [201, 202]), (30, [301, 302]), (35, [351])];
    assert m5[1..] == [(30, [301, 302]), (35, [351])];
    assert Insert(m5, 20, 203) == [(20, [201, 202] + [203])] + m5[1..];
    assert [201, 202] + [203] == [201, 202, 203] && Decade(203) == 20;
  }

  /** The grouping is a snapshot: after `push_back(203)` the map keeps its
      old buckets until the next `begin()` rebuilds it. */
  method GroupSnapshot() returns (first: BucketMap<int>, stale: BucketMap<int>, rebuilt: BucketMap<int>)
    ensures first == [(20, [201, 202]), (30, [301, 302]), (35, [351])]
    ensures stale == first
    ensures rebuilt == [(20, [201, 202, 203]), (30, [301, 302]), (35, [351])]
  {
    DecadeGrouping();
    var v := new Container([301, 302, 201, 202, 351]);
    var groups := new GroupEnumerable(v, Decade);
    first := groups.Traverse();
    v.PushBack(203);
    assert v.elems == [301, 302, 201, 202, 351, 203];
    stale := groups.buckets;
    rebuilt := groups.Traverse();
  }
}
