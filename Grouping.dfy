/** The bucket map behind `group`: an ordered `std::map<Key, vector<T>>`
    modelled as a sequence of (key, bucket) entries with strictly ascending
    keys, and the pass that fills it by appending each element to the bucket
    of its key. Keys are integers. */
module Grouping {
  import opened Filtering

  type BucketMap<T> = seq<(int, seq<T>)>

  /** Map order: keys strictly ascending, hence unique. */
  predicate KeysAscending<T>(m: BucketMap<T>)
  {
    forall i, j :: 0 <= i < j < |m| ==> m[i].0 < m[j].0
  }

  function KeySet<T>(m: BucketMap<T>): set<int>
  {
    set i | 0 <= i < |m| :: m[i].0
  }

  /** The bucket of key `k`, or the empty bucket when `k` has none. */
  function Lookup<T>(m: BucketMap<T>, k: int): seq<T>
  {
    if m == [] then [] else if m[0].0 == k then m[0].1 else Lookup(m[1..], k)
  }

  /** The buckets' members, bucket after bucket. */
  function Flatten<T>(m: BucketMap<T>): seq<T>
  {
    if m == [] then [] else m[0].1 + Flatten(m[1..])
  }

  /** The sum of the bucket sizes. */
  function TotalSize<T>(m: BucketMap<T>): nat
  {
    if m == [] then 0 else |m[0].1| + TotalSize(m[1..])
  }

  /** The test "has key `k`" that selects one bucket's elements. */
  function HasKey<T>(key: T -> int, k: int): T -> bool
  {
    x => key(x) == k
  }

  /** The elements of `s` whose key is `k`, in source order: `s` filtered
      by `HasKey(key, k)`. */
  function Members<T>(s: seq<T>, key: T -> int, k: int): (r: seq<T>)
    ensures |r| <= |s|
    ensures forall i :: 0 <= i < |r| ==> key(r[i]) == k
    ensures forall i :: 0 <= i < |s| && key(s[i]) == k ==> s[i] in r
  {
    Filter(s, HasKey(key, k))
  }

  /** `m[k].push_back(x)`: appends `x` to the bucket of `k`, creating that
      bucket in key order when it is missing. */
  function Insert<T>(m: BucketMap<T>, k: int, x: T): (r: BucketMap<T>)
    ensures TotalSize(r) == TotalSize(m) + 1
    ensures |m| <= |r| <= |m| + 1
  {
    if m == [] then [(k, [x])]
    else if k < m[0].0 then [(k, [x])] + m
    else if k == m[0].0 then [(k, m[0].1 + [x])] + m[1..]
    else [m[0]] + Insert(m[1..], k, x)
  }

  /** The map the grouping pass builds from an empty map: every element, in
      source order, inserted under its key. */
  function GroupBy<T>(s: seq<T>, key: T -> int): (r: BucketMap<T>)
    ensures TotalSize(r) == |s|
    ensures |r| <= |s|
  {
    if s == [] then []
    else Insert(GroupBy(s[..|s| - 1], key), key(s[|s| - 1]), s[|s| - 1])
  }

  /** What a finished grouping of `s` is, independent of how it is built:
      ascending unique keys, exactly the keys that occur in `s`, and each
      key's bucket holding that key's elements of `s` in source order. */
  ghost predicate GroupedBy<T>(m: BucketMap<T>, s: seq<T>, key: T -> int)
  {
    KeysAscending(m) &&
    (forall k :: Lookup(m, k) == Members(s, key, k)) &&
    (forall k :: k in KeySet(m) <==> Members(s, key, k) != [])
  }

  lemma {:induction false} LookupAbsent<T>(m: BucketMap<T>, k: int)
    requires k !in KeySet(m)
    ensures Lookup(m, k) == []
    decreases |m|
  {
    if m != [] {
      assert m[0].0 in KeySet(m);
      assert KeySet(m[1..]) <= KeySet(m) by {
        forall j | j in KeySet(m[1..]) ensures j in KeySet(m) {
          var i :| 0 <= i < |m[1..]| && m[1..][i].0 == j;
          assert m[i + 1].0 == j;
        }
      }
      LookupAbsent(m[1..], k);
    }
  }

  /** In a map with ascending keys, looking up an entry's key finds that
      entry's bucket. */
  lemma {:induction false} LookupAt<T>(m: BucketMap<T>, i: nat)
    requires KeysAscending(m) && i < |m|
    ensures Lookup(m, m[i].0) == m[i].1
    decreases i
  {
    if i > 0 {
      assert m[0].0 < m[i].0;
      assert m[1..][i - 1] == m[i];
      LookupAt(m[1..], i - 1);
    }
  }

  lemma KeySetCons<T>(e: (int, seq<T>), m: BucketMap<T>)
    ensures KeySet([e] + m) == {e.0} + KeySet(m)
  {
    var r := [e] + m;
    forall j | j in KeySet(r) ensures j in {e.0} + KeySet(m) {
      var i :| 0 <= i < |r| && r[i].0 == j;
      if i > 0 { assert m[i - 1].0 == j; }
    }
    forall j | j in KeySet(m) ensures j in KeySet(r) {
      var i :| 0 <= i < |m| && m[i].0 == j;
      assert r[i + 1].0 == j;
    }
    assert r[0].0 == e.0;
  }

  /** Insert adds `k` to the keys of the map. */
  lemma {:induction false} InsertKeySet<T>(m: BucketMap<T>, k: int, x: T)
    ensures KeySet(Insert(m, k, x)) == KeySet(m) + {k}
    decreases |m|
  {
    var r := Insert(m, k, x);
    if m == [] {
      KeySetCons((k, [x]), []);
      assert r == [(k, [x])] + [];
    } else if k < m[0].0 {
      KeySetCons((k, [x]), m);
    } else if k == m[0].0 {
      KeySetCons(m[0], m[1..]);
      KeySetCons((k, m[0].1 + [x]), m[1..]);
      assert m == [m[0]] + m[1..];
    } else {
      InsertKeySet(m[1..], k, x);
      KeySetCons(m[0], m[1..]);
      KeySetCons(m[0], Insert(m[1..], k, x));
      assert m == [m[0]] + m[1..];
    }
  }

  /** An entry whose key lies below every key of an ascending map can be
      put in front of it. */
  lemma AscendingCons<T>(e: (int, seq<T>), m: BucketMap<T>)
    requires KeysAscending(m)
    requires forall k :: k in KeySet(m) ==> e.0 < k
    ensures KeysAscending([e] + m)
  {
    var r := [e] + m;
    forall i, j | 0 <= i < j < |r| ensures r[i].0 < r[j].0 {
      assert r[j] == m[j - 1];
      assert m[j - 1].0 in KeySet(m);
      if i > 0 {
        assert r[i] == m[i - 1];
      }
    }
  }

  /** In an ascending map, the first key lies below every later key. */
  lemma HeadBelowRest<T>(m: BucketMap<T>)
    requires KeysAscending(m) && m != []
    ensures forall j :: j in KeySet(m[1..]) ==> m[0].0 < j
  {
    forall j | j in KeySet(m[1..]) ensures m[0].0 < j {
      var l :| 0 <= l < |m[1..]| && m[1..][l].0 == j;
      assert m[l + 1].0 == j;
    }
  }

  /** Insert keeps the keys strictly ascending. */
  lemma {:induction false} InsertAscending<T>(m: BucketMap<T>, k: int, x: T)
    requires KeysAscending(m)
    ensures KeysAscending(Insert(m, k, x))
    decreases |m|
  {
    if m == [] {
    } else if k < m[0].0 {
      forall j | j in KeySet(m) ensures k < j {
        var l :| 0 <= l < |m| && m[l].0 == j;
      }
      AscendingCons((k, [x]), m);
    } else if k == m[0].0 {
      assert Insert(m, k, x) == [(k, m[0].1 + [x])] + m[1..];
      HeadBelowRest(m);
      AscendingCons((k, m[0].1 + [x]), m[1..]);
    } else {
      var tail := Insert(m[1..], k, x);
      InsertAscending(m[1..], k, x);
      InsertKeySet(m[1..], k, x);
      HeadBelowRest(m);
      AscendingCons(m[0], tail);
      assert Insert(m, k, x) == [m[0]] + tail;
    }
  }

  /** Insert appends `x` to the bucket of `k` and leaves every other bucket
      as it was. */
  lemma {:induction false} InsertLookup<T>(m: BucketMap<T>, k: int, x: T, j: int)
    requires KeysAscending(m)
    ensures Lookup(Insert(m, k, x), j) == if j == k then Lookup(m, k) + [x] else Lookup(m, j)
    decreases |m|
  {
    if m != [] {
      if k < m[0].0 {
        assert k !in KeySet(m);
        LookupAbsent(m, k);
        assert Insert(m, k, x)[1..] == m;
      } else if k == m[0].0 {
        assert Insert(m, k, x)[1..] == m[1..];
      } else {
        assert KeysAscending(m[1..]);
        InsertLookup(m[1..], k, x, j);
        assert Insert(m, k, x)[1..] == Insert(m[1..], k, x);
      }
    }
  }

  /** Insert adds exactly `x` to the members of the map. */
  lemma {:induction false} InsertMembers<T>(m: BucketMap<T>, k: int, x: T)
    ensures multiset(Flatten(Insert(m, k, x))) == multiset(Flatten(m)) + multiset{x}
    ensures TotalSize(Insert(m, k, x)) == TotalSize(m) + 1
    decreases |m|
  {
    var r := Insert(m, k, x);
    if m == [] {
      assert Flatten(r) == [x] + Flatten([]);
    } else if k < m[0].0 {
      assert r[1..] == m;
    } else if k == m[0].0 {
      assert r[1..] == m[1..];
    } else {
      InsertMembers(m[1..], k, x);
      assert r[1..] == Insert(m[1..], k, x);
    }
  }

  lemma {:induction false} MembersSnoc<T>(s: seq<T>, x: T, key: T -> int, k: int)
    ensures Members(s + [x], key, k) == Members(s, key, k) + (if key(x) == k then [x] else [])
  {
    FilterSnoc(s, x, HasKey(key, k));
  }

  /** Grouping a sequence extended by one element inserts that element
      into the grouping of the rest. */
  lemma GroupBySnoc<T>(s: seq<T>, x: T, key: T -> int)
    ensures GroupBy(s + [x], key) == Insert(GroupBy(s, key), key(x), x)
  {
    assert (s + [x])[..|s + [x]| - 1] == s;
  }

  /** The grouping pass meets the characterisation: keys unique, ascending
      and exactly those of the source; each bucket the source's elements of
      its key in source order; the buckets together a permutation of the
      source whose sizes sum to its length. */
  lemma {:induction false} GroupByCorrect<T>(s: seq<T>, key: T -> int)
    ensures GroupedBy(GroupBy(s, key), s, key)
    ensures multiset(Flatten(GroupBy(s, key))) == multiset(s)
    ensures TotalSize(GroupBy(s, key)) == |s|
    decreases |s|
  {
    if s != [] {
      var init, x := s[..|s| - 1], s[|s| - 1];
      assert s == init + [x];
      var m := GroupBy(init, key);
      GroupByCorrect(init, key);
      InsertKeySet(m, key(x), x);
      InsertAscending(m, key(x), x);
      InsertMembers(m, key(x), x);
      forall k ensures Lookup(GroupBy(s, key), k) == Members(s, key, k) {
        MembersSnoc(init, x, key, k);
        InsertLookup(m, key(x), x, k);
      }
    }
  }

  lemma KeySetEmpty<T>(m: BucketMap<T>)
    ensures KeySet(m) == {} <==> m == []
  {
    if m != [] {
      assert m[0].0 in KeySet(m);
    }
  }

  /** Two maps with ascending keys, the same keys and the same bucket for
      every key are the same map. */
  lemma {:induction false} SameEntries<T>(m1: BucketMap<T>, m2: BucketMap<T>)
    requires KeysAscending(m1) && KeysAscending(m2)
    requires KeySet(m1) == KeySet(m2)
    requires forall k :: Lookup(m1, k) == Lookup(m2, k)
    ensures m1 == m2
    decreases |m1|
  {
    KeySetEmpty(m1);
    KeySetEmpty(m2);
    if m1 != [] && m2 != [] {
      var h1, h2 := m1[0].0, m2[0].0;
      assert h1 in KeySet(m2);
      assert h2 in KeySet(m1);
      var a :| 0 <= a < |m2| && m2[a].0 == h1;
      var b :| 0 <= b < |m1| && m1[b].0 == h2;
      assert h2 <= h1 && h1 <= h2;
      LookupAt(m1, 0);
      LookupAt(m2, 0);
      assert m1[0] == m2[0];
      var t1, t2 := m1[1..], m2[1..];
      assert m1 == [m1[0]] + t1 && m2 == [m2[0]] + t2;
      KeySetCons(m1[0], t1);
      KeySetCons(m2[0], t2);
      assert h1 !in KeySet(t1);
      assert h1 !in KeySet(t2);
      assert KeySet(t1) == KeySet(t2);
      forall k ensures Lookup(t1, k) == Lookup(t2, k) {
        if k == h1 {
          LookupAbsent(t1, k);
          LookupAbsent(t2, k);
        } else {
          assert Lookup(m1, k) == Lookup(t1, k);
          assert Lookup(m2, k) == Lookup(t2, k);
        }
      }
      assert KeysAscending(t1) && KeysAscending(t2);
      SameEntries(t1, t2);
    }
  }

  /** There is only one grouping of `s`: any map meeting the
      characterisation is the one the grouping pass builds. */
  lemma GroupingIsUnique<T>(m: BucketMap<T>, s: seq<T>, key: T -> int)
    requires GroupedBy(m, s, key)
    ensures m == GroupBy(s, key)
  {
    GroupByCorrect(s, key);
    var g := GroupBy(s, key);
    assert KeySet(m) == KeySet(g);
    SameEntries(m, g);
  }

  /** In any map that groups `s`, every entry holds a non-empty bucket
      equal to the elements of `s` with that entry's key, in source order. */
  lemma GroupedEntry<T>(m: BucketMap<T>, s: seq<T>, key: T -> int, i: nat)
    requires i < |m|
    ensures GroupedBy(m, s, key) ==>
      m[i].1 == Members(s, key, m[i].0) && m[i].1 != [] &&
      forall j :: 0 <= j < |m[i].1| ==> key(m[i].1[j]) == m[i].0
  {
    if GroupedBy(m, s, key) {
      LookupAt(m, i);
      assert m[i].0 in KeySet(m);
    }
  }

  /** Every entry of the grouping of `s` holds a non-empty bucket equal to
      the elements of `s` with that entry's key, in source order. */
  lemma BucketIsMembers<T>(s: seq<T>, key: T -> int, i: nat)
    requires i < |GroupBy(s, key)|
    ensures var e := GroupBy(s, key)[i];
      e.1 == Members(s, key, e.0) && e.1 != [] &&
      forall j :: 0 <= j < |e.1| ==> key(e.1[j]) == e.0
  {
    GroupByCorrect(s, key);
    GroupedEntry(GroupBy(s, key), s, key, i);
  }

  /** The grouping has no entry exactly when the source is empty. */
  lemma GroupByEmpty<T>(s: seq<T>, key: T -> int)
    ensures GroupBy(s, key) == [] <==> s == []
  {
    if s != [] {
      GroupByCorrect(s, key);
      var m := GroupBy(s, key);
      assert s[0] in Members(s, key, key(s[0]));
      assert key(s[0]) in KeySet(m);
    }
  }
}
