/** A fixed slab of cells with a stack of free indices. A pointer into the slab is the index of its cell. */
module SlabPool {

  class MemoryPool<T(0)> {
    const buffer: array<T>
    const alive: array<bool>
    var freeList: seq<nat>

    /** A cell is on the free list, once, exactly when it is not alive. */
    ghost predicate Valid()
      reads this, alive
    {
      alive.Length == buffer.Length && buffer as object != alive
      && (forall i :: 0 <= i < |freeList| ==> freeList[i] < buffer.Length && !alive[freeList[i]])
      && (forall i, j :: 0 <= i < j < |freeList| ==> freeList[i] != freeList[j])
      && (forall c :: 0 <= c < alive.Length && !alive[c] ==> c in freeList)
    }

    constructor (capacity: nat)
      ensures Valid() && buffer.Length == capacity && |freeList| == capacity
      ensures fresh(buffer) && fresh(alive) && forall c :: 0 <= c < capacity ==> !alive[c]
    {
      buffer := new T[capacity];
      alive := new bool[capacity](_ => false);
      freeList := [];
      new;
      var i := capacity;
      while i > 0
        invariant 0 <= i <= capacity && |freeList| == capacity - i
        invariant forall k :: 0 <= k < |freeList| ==> freeList[k] == capacity - 1 - k
        invariant forall c :: 0 <= c < capacity ==> !alive[c]
      {
        i := i - 1;
        freeList := freeList + [i];
      }
      forall c | 0 <= c < capacity ensures c in freeList {
        assert freeList[capacity - 1 - c] == c;
      }
    }

    /** Takes the most recently freed cell; null is -1. */
    method Acquire(value: T) returns (p: int)
      requires Valid()
      modifies this`freeList, buffer, alive
      ensures Valid()
      ensures if old(freeList) == [] then p == -1 && unchanged(buffer) && unchanged(alive) && freeList == []
              else p == old(freeList[|freeList| - 1]) && freeList == old(freeList[..|freeList| - 1])
                   && buffer[..] == old(buffer[..])[p := value] && alive[..] == old(alive[..])[p := true]
                   && !old(alive[p])
    {
      if freeList == [] { return -1; }
      var idx := freeList[|freeList| - 1];
      freeList := freeList[..|freeList| - 1];
      buffer[idx] := value;
      alive[idx] := true;
      forall c | 0 <= c < alive.Length && !alive[c] ensures c in freeList {
        assert c in old(freeList);
        var k :| 0 <= k < |old(freeList)| && old(freeList)[k] == c;
        assert freeList[k] == c;
      }
      p := idx;
    }

    method Release(p: int)
      requires Valid() && (p == -1 || (0 <= p < buffer.Length && alive[p]))
      modifies this`freeList, alive
      ensures Valid() && buffer[..] == old(buffer[..])
      ensures if p == -1 then unchanged(this) && unchanged(alive)
              else freeList == old(freeList) + [p] && alive[..] == old(alive[..])[p := false]
    {
      if p == -1 { return; }
      assert forall i :: 0 <= i < |freeList| ==> freeList[i] != p;
      alive[p] := false;
      freeList := freeList + [p];
      forall c | 0 <= c < alive.Length && !alive[c] ensures c in freeList {
        if c == p { assert freeList[|freeList| - 1] == p; } else { assert c in old(freeList); }
      }
    }

    function InUse(): int
      reads this
    {
      buffer.Length - |freeList|
    }
  }
}
