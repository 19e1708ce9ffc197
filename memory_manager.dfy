/**
  The reference-counting records of a block allocator and the guard that
  creates its backing buffer.
*/
module MemoryManager {
  import opened Wrappers

  /** The largest buffer, in ints, that may be requested. */
  const MaxBlocks := 10000000

  /** The record of one allocated block: where it starts, its size and how many references it has. */
  class Registry {
    var memoryIndex: int
    var blockSize: int
    var referenceCount: int

    /** A record for a block just handed out, with one reference. */
    constructor (index: int, size: int)
      ensures memoryIndex == index && blockSize == size && referenceCount == 1
    {
      memoryIndex := index;
      blockSize := size;
      referenceCount := 1;
    }

    /** One more reference to the block ("operator++"). */
    method Increment()
      modifies this`referenceCount
      ensures referenceCount == old(referenceCount) + 1
    {
      referenceCount := referenceCount + 1;
    }

    /** One reference fewer ("operator--"); the count is not kept from going below zero. */
    method Decrement()
      modifies this`referenceCount
      ensures referenceCount == old(referenceCount) - 1
    {
      referenceCount := referenceCount - 1;
    }
  }

  /** Taking and dropping a reference leaves the record as it was. */
  method IncrementThenDecrement(r: Registry)
    modifies r
    ensures r.referenceCount == old(r.referenceCount)
    ensures r.memoryIndex == old(r.memoryIndex) && r.blockSize == old(r.blockSize)
  {
    r.Increment();
    r.Decrement();
  }

  /** Dropping the only reference of a fresh record brings the count to zero, and a second drop below it. */
  method DecrementFromFresh(index: int, size: int) returns (r: Registry)
    ensures fresh(r) && r.referenceCount == -1
    ensures r.memoryIndex == index && r.blockSize == size
  {
    r := new Registry(index, size);
    r.Decrement();
    assert r.referenceCount == 0;
    r.Decrement();
  }

  datatype BufferError =
    | TooLarge          // more than MaxBlocks ints requested: the program aborts
    | AllocationFailed  // the allocation of the buffer fails: the program aborts

  /** The program's single buffer, absent until it is created. */
  class Memory {
    var buffer: array?<int>

    constructor ()
      ensures buffer == null
    {
      buffer := null;
    }

    /**
      Creates a buffer of `size` ints; a request above MaxBlocks is refused
      before any allocation.  A negative size converts to a huge unsigned
      request, which cannot be met.
    */
    method CreateBuffer(size: int) returns (error: Option<BufferError>)
      modifies this
      ensures size > MaxBlocks ==> error == Some(TooLarge) && buffer == old(buffer)
      ensures size < 0 ==> error == Some(AllocationFailed) && buffer == null
      ensures 0 <= size <= MaxBlocks ==>
        error == None && buffer != null && fresh(buffer) && buffer.Length == size
    {
      if size > MaxBlocks {
        return Some(TooLarge);
      }
      if size < 0 {
        buffer := null;
        return Some(AllocationFailed);
      }
      buffer := new int[size];
      return None;
    }
  }
}
