/** Growable buffers: a buffer is a sequence as long as the memory allocated for it.  Memory that has not been
    written holds arbitrary values. */
module Heap {
  method Malloc<T(0)>(size: nat) returns (b: seq<T>)
    ensures |b| == size
  {
    var block := new T[size];
    b := block[..];
  }

  // The old contents stay in front.
  method Realloc<T(0)>(a: seq<T>, size: nat) returns (b: seq<T>)
    requires |a| <= size
    ensures |b| == size && a <= b
  {
    var more := Malloc(size - |a|);
    b := a + more;
  }
}
