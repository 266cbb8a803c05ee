# cpp-range: lazy range adapters, modelled in Dafny

This project models the lazy adapter engine of a small LINQ-style C++ range
library (`src/range.h`, and its earlier draft `src/where.h`). `from(v)` wraps
a referenced container. `where`, `skip` and `take` wrap the receiver in a new
lazy view, and `group` buckets the container's elements by key into an
ordered map. The model proves what each iterator and each begin/end position
computes, and what a full traversal yields.

- The container is a `seq<T>` (class `Containers.Container`, with
  `push_back`). An iterator position is an index `0..|items|` into the
  elements of the view it walks, and `|items|` is that view's end iterator.
- `Views.View` is the chain of adapters built by `from`/`where`/`skip`/`take`.
  `Views.Elems(v, s)` is what traversing `v` yields over backing sequence `s`.
  A chain call builds a new value and leaves the receiver as it is.
- `WhereIter` holds `WhereIterator` (constructor scan, prefix and postfix
  `++`, `*`, `==`) and `WhereEnumerable` (`begin`/`end`). Its `Traverse` is
  a range-for loop. It is proved to yield exactly the elements of the wrapped
  view that satisfy the predicate, in order.
- `SkipTake` holds `SkipEnumerable` and `TakeEnumerable`. Their count-down
  loops are proved to reach `min(max(count, 0), len)`, and their traversals
  are proved to yield the denotation.
- `Grouping` is the ordered bucket map as a sequence of `(key, bucket)`
  entries with strictly ascending `int` keys. The grouping pass `GroupBy` is
  proved to meet an independent characterisation, `GroupedBy`, and to be the
  only map that does.
- `Groups` holds `GroupEnumerable` (it rebuilds the map on each `begin()`) and
  `GroupIterator` (`key()`, `*`, `++`, `==`).

Where the library's stated intent and its code differ, the model follows the code:
- Group iterators compare map positions of one enumerable's map, and where
  iterators compare cursors over one sequence of elements. Comparing
  iterators of two different maps or sequences is undefined in C++, so
  `Equals` requires a shared owner or shared elements.
- `group` exists only on `RefRange` (`src/range.h:363-367`), so its source is
  always the base container.
- Skip and Take count positions of the view they directly wrap
  (`Views.SkipCountsFilteredPositions`), because their iterator type is that
  view's iterator.

## Model

| member | source | states |
|---|---|---|
| Filtering.Filter | src/range.h:119-127 | the filtered elements all satisfy the predicate, all come from the source, and every satisfying source element is among them |
| Filtering.NextMatch | src/range.h:83-90 | the scan from position i stops at the first position whose element satisfies the predicate, or at end; every position it passes fails the predicate |
| Filtering.FilterSkipsRejected | src/range.h:83-90 | positions the scan passes over add nothing to the filtered prefix, so no satisfying element is lost |
| Filtering.FilterPrefixStep | src/range.h:81-90 | extending a prefix by one position adds that element exactly when it satisfies the predicate |
| Filtering.FilterFilter | src/where.h:183-186 | where(p) followed by where(q) yields the elements satisfying both, in source order |
| Filtering.FilterKeepsAll | src/range.h:119-127 | a predicate that every element satisfies filters nothing out |
| Filtering.FilterConcat | src/range.h:119-127 | filtering a concatenation filters each part |
| Views.Elems | src/range.h:348-361 | the elements a chain built by `RefRange::where`/`skip`/`take` and then `Range::where`/`skip`/`take` (src/range.h:298-311) yields over the container: never more elements than the container holds |
| Views.Clamp | src/range.h:185-196 | the count-down loop's landing position: 0 for a count of zero or less, the count when it fits, the length when it does not |
| Views.ElemsFromSource | src/range.h:298-311 | every element any chain of views yields is an element of the backing container |
| Views.SkipElems | src/range.h:185-201 | skip(n) yields the wrapped view's elements from position n on, all of them for n of zero or less, none when n reaches the length |
| Views.TakeElems | src/range.h:148-164 | take(n) yields the first min(max(n,0),len) elements: none for n of zero or less, all when n reaches the length |
| Views.TakeThenSkip | src/range.h:148-201 | take(n) and skip(n) of the same view concatenate back to that view |
| Views.SkipSkip | src/range.h:303-306 | skip(a).skip(b) is skip(a'+b') where a negative count counts as zero, for every pair of counts |
| Views.TakeTake | src/range.h:308-311 | take(a).take(b) keeps the shorter prefix |
| Views.WhereWhere | src/range.h:298-301 | where(q) on the Range that where(p) returned wraps that view again, and yields the elements satisfying both, in order (same for `Range::where` in src/where.h:183-186) |
| Views.ChainSeesAppend | src/main.cpp:12-19 | from(v).skip(1).skip(1).take(5) yields [3,4,5] over [1,2,3,4,5] and [3,4,5,10] after push_back(10) |
| Views.SkipCountsFilteredPositions | src/range.h:303-306 | skip over a where view counts filtered positions: where(even).skip(1) over [1,2,3,4] yields [4] |
| Views.MultiplesOf3Low | src/range.h:83-90 | filtering [1..6] by divisibility by 3 keeps [3,6] |
| Views.MultiplesOf3High | src/range.h:83-90 | filtering [7,8,9,29,100] by divisibility by 3 keeps [9] |
| Views.WhereExample | src/range.h:348-351 | where(x % 3 == 0) over [1..9,29,100] yields [3,6,9] |
| Views.WhereWhereExample | src/where.h:183-186 | chaining where(x % 2 == 0) on that view, through `Range::where`, yields [6] |
| Containers.Container.constructor | src/main.cpp:12 | the container starts with exactly the given elements |
| Containers.Container.PushBack | src/main.cpp:18 | push_back appends one element at the end of the backing container |
| WhereIter.WhereIterator.constructor | src/range.h:61-69 | a new iterator sits at the first satisfying position at or after its start, or at end, and is never dereferenced at end to get there |
| WhereIter.WhereIterator.Equals | src/range.h:71-79 | == and != compare the wrapped cursors of two iterators over the same elements, ignoring the predicate, so an iterator equals end() exactly when its cursor is at the end (same in src/where.h:27-35) |
| WhereIter.WhereIterator.Copy | src/range.h:94 | the copy has the same cursor, elements and predicate |
| WhereIter.WhereIterator.Current | src/range.h:81 | dereference is only allowed before end; it yields the element under the cursor, and one that satisfies the predicate whenever the iterator was left by a constructor or prefix ++ |
| WhereIter.WhereIterator.Increment | src/range.h:83-90 | prefix ++ moves strictly forward to the next satisfying position or to end (same in src/where.h:39-46) |
| WhereIter.WhereIterator.PostIncrement | src/range.h:92-97 | postfix ++ returns a copy at the old position and moves exactly one position without testing the predicate (same in src/where.h:48-53) |
| WhereIter.WhereIterator.PostIncrementFixed | src/range.h:92-97 | corrected postfix ++: returns a copy at the old position and advances like prefix ++, so it rests on a match or end |
| WhereIter.WhereEnumerable.constructor | src/range.h:114-117 | the enumerable keeps its container, the view it wraps and its predicate |
| WhereIter.WhereEnumerable.Begin | src/range.h:119-122 | begin() is built from (inner begin, inner end) over the wrapped view's current elements and lands on the first match |
| WhereIter.WhereEnumerable.End | src/range.h:124-127 | end() is built from (inner end, inner end), so its cursor is the end position |
| WhereIter.WhereEnumerable.Traverse | src/range.h:119-127 | iterating from begin() with ++ until the iterator compares equal (same cursor) to end() yields exactly the wrapped view's satisfying elements, in order |
| WhereIter.Drain | src/print.h:10-13 | the range-for loop over a where view, from the begin() iterator until it equals the end() iterator, yields exactly the satisfying elements in order |
| WhereIter.FilterScanStep | src/range.h:83-90 | one prefix ++ from a match adds exactly that match to the elements seen |
| WhereIter.PostIncrementLandsOnReject | src/where.h:48-53 | a where(even) iterator over [2,1,4] moved by postfix ++ dereferences 1, an element the filter rejects |
| WhereIter.PostIncrementFixedSkipsReject | src/where.h:39-46 | the same iterator moved by the corrected postfix ++ dereferences 4, the next even element |
| SkipTake.Collect | src/print.h:10-13 | a range-for over positions [first, last) sees exactly those elements, in order |
| SkipTake.SkipEnumerable.constructor | src/range.h:180-183 | the enumerable keeps its container, wrapped view and count |
| SkipTake.SkipEnumerable.Begin | src/range.h:185-196 | skip's begin is at min(max(count,0), len): a count of zero or less does not move, a count past the length stops at end (same in src/where.h:139-150) |
| SkipTake.SkipEnumerable.End | src/range.h:198-201 | skip's end is the inner end |
| SkipTake.SkipEnumerable.Traverse | src/where.h:139-155 | traversing skip(count) yields its denotation: everything for a count of zero or less, nothing for a count past the length |
| SkipTake.TakeEnumerable.constructor | src/range.h:143-146 | the enumerable keeps its container, wrapped view and count |
| SkipTake.TakeEnumerable.Begin | src/range.h:148-151 | take's begin is the inner begin |
| SkipTake.TakeEnumerable.End | src/range.h:153-164 | take's end is at min(max(count,0), len): begin == end for a count of zero or less, the inner end for a count past the length (same in src/where.h:108-119) |
| SkipTake.TakeEnumerable.Traverse | src/where.h:103-119 | traversing take(count) yields its denotation: nothing for a count of zero or less, everything for a count past the length |
| SkipTake.ChainAfterPushBack | src/main.cpp:12-19 | the demo chain, traversed before and after push_back(10), yields [3,4,5] and then [3,4,5,10] |
| Grouping.Insert | src/range.h:229 | m[k].push_back(x) adds one element to the buckets in total and at most one new entry |
| Grouping.InsertKeySet | src/range.h:229 | m[k].push_back(x) adds k to the map's keys and no other key |
| Grouping.InsertAscending | src/range.h:229 | inserting keeps the map's keys strictly ascending |
| Grouping.InsertLookup | src/range.h:229 | inserting appends x to the bucket of k and leaves every other bucket unchanged |
| Grouping.InsertMembers | src/range.h:229 | inserting adds exactly x to the map's members and one to the total bucket size |
| Grouping.GroupBy | src/range.h:225-230 | the pass that fills the map from empty: its buckets together hold as many elements as the source, in no more entries than the source has elements |
| Grouping.GroupBySnoc | src/range.h:226-230 | grouping a sequence extended by one element inserts that element into the grouping of the rest |
| Grouping.GroupByCorrect | src/range.h:223-233 | the rebuilt map has unique ascending keys, exactly the keys occurring in the source, each bucket the source's elements of that key in source order, all buckets together a permutation of the source, and sizes summing to the source length |
| Grouping.GroupingIsUnique | src/range.h:225-230 | any map with that characterisation is the map the pass builds |
| Grouping.SameEntries | src/range.h:244 | two ordered maps with the same keys and the same bucket per key are equal |
| Grouping.LookupAt | src/range.h:36 | in an ordered map, looking up an entry's key finds that entry's bucket |
| Grouping.LookupAbsent | src/range.h:229 | a key with no entry has an empty bucket |
| Grouping.GroupedEntry | src/range.h:34-36 | in a map that groups the source, every entry's bucket is non-empty, equals the source's elements of its key in source order, and every member maps to that key |
| Grouping.BucketIsMembers | src/range.h:226-230 | the same holds of every entry of the map the pass builds |
| Grouping.GroupByEmpty | src/range.h:232-238 | the map is empty, so begin() == end(), exactly when the source is empty |
| Groups.GroupEnumerable.constructor | src/range.h:218-221 | group starts with an empty map over its container and key function |
| Groups.GroupEnumerable.Begin | src/range.h:223-233 | begin() discards the old map, rebuilds it from the container's current elements, and returns an iterator on the smallest key, which equals end exactly when the container is empty |
| Groups.GroupEnumerable.End | src/range.h:235-238 | end() is the position past the last key of the current map |
| Groups.GroupEnumerable.Traverse | src/range.h:223-238 | iterating from begin() with key(), * and ++ until the iterator equals end() sees every rebuilt (key, bucket) entry in ascending key order |
| Groups.GroupEnumerable.Visit | src/print.h:10-13 | the range-for loop over a group iterator, from the first entry until it equals end(), collects exactly the map's entries in order |
| Groups.GroupIterator.constructor | src/range.h:18-22 | a group iterator is a position in its enumerable's map |
| Groups.GroupIterator.Equals | src/range.h:24-32 | == and != compare positions in one enumerable's map, so an iterator equals that enumerable's end() exactly when it is past the last entry |
| Groups.GroupIterator.Key | src/range.h:34 | key() is the current entry's key, one of the map's keys |
| Groups.GroupIterator.Current | src/range.h:36 | * is the current entry's bucket: for a rebuilt map, the container's elements with that key, in container order, never empty |
| Groups.GroupIterator.Increment | src/range.h:38-42 | ++ moves to the next entry, whose key is larger |
| Groups.GroupIterator.PostIncrement | src/range.h:44-49 | postfix ++ returns a copy at the old entry and moves to the next |
| Groups.DecadeGrouping | src/range.h:226-230 | grouping elements with keys [30,30,20,20,35] yields buckets 20, 30, 35 in that order, each in source order |
| Groups.GroupSnapshot | src/range.h:223-233 | the map is a snapshot: after push_back it keeps its old buckets until the next begin() rebuilds it |

## Findings

| source | as written | input that shows it | evidently intended | confidence | as-written member | corrected member |
|---|---|---|---|---|---|---|
| src/range.h:92-97 (also src/where.h:48-53) | postfix `++` on a WhereIterator advances the wrapped cursor one position without testing the predicate | `where(even)` over [2,1,4]: the iterator starts on 2, and after `it++` the expression `*it` yields 1 | return a copy of the old iterator and advance to the next match, as prefix `++` does | not executed | WhereIter.WhereIterator.PostIncrement (shown by WhereIter.PostIncrementLandsOnReject) | WhereIter.WhereIterator.PostIncrementFixed (shown by WhereIter.PostIncrementFixedSkipsReject) |

## Left out

- `AsFunction`/`toFunction` (`src/range.h:247-274`) only convert callables at compile time and do nothing at run time. Predicates and key functions are Dafny function values.
- `std::function` type erasure and the `std::iterator` base classes are C++ type plumbing and are not modelled.
- Ownership is not modelled: `Range` stores its container by value, `RefRange` by reference, and a view may outlive its container. Every view here re-reads one referenced `Container`. A by-value `Range` over a copied vector would not see later `push_back`s, and the model does not capture that.
- Iterators over nested views are abstracted. A position is an index into the wrapped view's elements, and one `++` of the wrapped iterator is one step.
- Incrementing past end and dereferencing end are undefined behaviour in C++. Here they are preconditions.
- Groups.GroupEnumerable.Begin: the key function takes `value_type&` but is applied to a loop-local copy (`src/range.h:226-229`). The key function is treated as pure.
- Group keys are `int`. The source accepts any key type with `operator<`.
- `begin()` rebuilds the map, which invalidates earlier group iterators in C++. The model does not capture that invalidation: an old iterator keeps reading the rebuilt map.
- Skip and take counts are C++ `int`. The loops only decrement a positive count towards zero, so no wrap-around can occur, and counts are unbounded integers here.
- `src/print.h` writes to the console. Only its range-for loop is modelled (`Collect` and the `Traverse` methods). `src/main.cpp` serves only as the example in `ChainAfterPushBack`.
- `RefRange::begin`/`end` (`src/range.h:338-346`) forward to the referenced container, and so do `Range::begin`/`end` (`src/range.h:288-296`) of a `Range` that holds a container. Both are the `Base` case of `Views.Elems`. `Range::begin`/`end` of a `Range` that holds an adapter forward to that adapter's `begin`/`end`, which is the `Where`, `Skip` or `Take` case wrapping it. The chain calls `where`/`skip`/`take` and `from` are the `View` constructors and the enumerable constructors.
- Writing through a view is not modelled. `*` on a where iterator returns a reference to the container's element (`src/range.h:81`, `src/where.h:37`), and skip and take hand out the wrapped view's own iterators, so `*it = x` would change the container. The model reads elements by value, and the only mutation it has is `push_back`.
- Skip and take over a group view are not modelled, because `Views.View` has no group case and `group` is modelled by its own enumerable only. `from(v).group(f).skip(n)` compiles through `src/range.h:303-306` and skips whole buckets: `SkipEnumerable::end` (`src/range.h:198-201`) does not call `begin()`, so the map is built once. `from(v).group(f).take(n)` compiles through `src/range.h:308-311`, but its traversal is undefined behaviour. `TakeEnumerable::end` calls `begin()` (`src/range.h:156`), which runs `GroupEnumerable::begin` again. That call clears and rebuilds the map (`src/range.h:223-230`), so the iterator the range-for took from `begin()` just before points into map nodes that no longer exist.
- Exceptions are not modelled. A predicate or key function that throws propagates out of `++`, `begin()` or the traversal. In `GroupEnumerable::begin` (`src/range.h:225-230`) that leaves the map half built. Predicates and key functions here are total Dafny functions.
- `src/where.h` repeats the where/skip/take logic of `src/range.h` with `const` members, and the model covers both at once.
