/** The caller's backing store (a `std::vector` in the demo driver), held by
    reference by every view built with `from`. Views re-read it whenever they
    produce a begin or end position. */
module Containers {

  class Container<T> {
    var elems: seq<T>

    constructor (init: seq<T>)
      ensures elems == init
    {
      elems := init;
    }

    /** `push_back`: appends one element at the end. */
    method PushBack(x: T)
      modifies this
      ensures elems == old(elems) + [x]
    {
      elems := elems + [x];
    }
  }
}
