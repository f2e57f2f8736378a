/**
 The heap as the list of its blocks: what vm_alloc and vm_free compute.
 */
module Heap {
  import opened Common
  import opened Words

  datatype Block = Block(begin: uint64, size: uint64, free: bool)

  const FRESH_HEAP: seq<Block> := [Block(HEAP_BASE, STACK_BASE - HEAP_BASE, true)]

  predicate Fits(b: Block, size: uint64) {
    b.free && b.size >= size
  }

  /** Index of the first free block, at or after i, of at least `size` bytes; or |h|. */
  function FirstFit(h: seq<Block>, size: uint64, i: nat := 0): (k: nat)
    requires i <= |h|
    ensures i <= k <= |h|
    ensures k < |h| ==> Fits(h[k], size)
    ensures forall j :: i <= j < k ==> !Fits(h[j], size)
    decreases |h| - i
  {
    if i == |h| || Fits(h[i], size) then i else FirstFit(h, size, i + 1)
  }

  /** Index of the first block, at or after i, that begins at addr; or |h|. */
  function FirstAt(h: seq<Block>, addr: uint64, i: nat := 0): (k: nat)
    requires i <= |h|
    ensures i <= k <= |h|
    ensures k < |h| ==> h[k].begin == addr
    ensures forall j :: i <= j < k ==> h[j].begin != addr
    decreases |h| - i
  {
    if i == |h| || h[i].begin == addr then i else FirstAt(h, addr, i + 1)
  }

  /** Block k cut in two: an allocated head of `size` bytes and a free rest. */
  function Split(h: seq<Block>, k: nat, size: uint64): seq<Block>
    requires k < |h| && h[k].size >= size
  {
    h[..k] + [Block(h[k].begin, size, false), Block(WrapU(h[k].begin + size), h[k].size - size, true)] + h[k + 1..]
  }

  /** Block k marked free and merged with its successor when that one is free. */
  function Release(h: seq<Block>, k: nat): seq<Block>
    requires k < |h|
  {
    if k + 1 < |h| && h[k + 1].free
    then h[..k] + [Block(h[k].begin, WrapU(h[k].size + h[k + 1].size), true)] + h[k + 2..]
    else h[k := h[k].(free := true)]
  }

  datatype Allocation = Allocated(heap: seq<Block>, addr: uint64) | OutOfMemory

  function Alloc(h: seq<Block>, size: uint64): Allocation {
    var k := FirstFit(h, size);
    if k == |h| then OutOfMemory else Allocated(Split(h, k, size), h[k].begin)
  }

  datatype Freeing = Freeing(status: VMError, heap: seq<Block>)

  function Free(h: seq<Block>, addr: uint64): Freeing {
    if addr < HEAP_BASE || addr >= STACK_BASE then Freeing(VM_FREE_OUT_OF_THE_HEAP, h)
    else
      var k := FirstAt(h, addr);
      if k == |h| then Freeing(VM_MEM_ALREADY_FREE, h) else Freeing(VM_OK, Release(h, k))
  }
}
