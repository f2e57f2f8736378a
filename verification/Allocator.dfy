/**
 First-fit allocation on the linked list of heap nodes, proved against module Heap.
 */
module Allocator {
  import opened Common
  import opened Words
  import opened Heap
  import opened Vm

  /** The list after `rest` has been linked in behind node k. */
  ghost function Linked(nodes: seq<MemNode>, k: nat, rest: MemNode): seq<MemNode>
    requires k < |nodes|
  {
    nodes[..k + 1] + [rest] + nodes[k + 1..]
  }

  /** Chain, except for what node k points to. */
  ghost predicate ChainBut(nodes: seq<MemNode>, k: nat)
    reads nodes`next
  {
    && k < |nodes| && Distinct(nodes)
    && (forall i, j :: 0 <= i < j < |nodes| && j == i + 1 && i != k ==> nodes[i].next == nodes[j])
    && (k != |nodes| - 1 ==> nodes[|nodes| - 1].next == null)
  }

  lemma LinkedIsChain(nodes: seq<MemNode>, k: nat, rest: MemNode)
    requires ChainBut(nodes, k) && rest !in nodes
    requires nodes[k].next == rest && rest.next == if k + 1 < |nodes| then nodes[k + 1] else null
    ensures Chain(Linked(nodes, k, rest))
  {
    var after := Linked(nodes, k, rest);
    forall j | 0 <= j < |after| - 1
      ensures after[j].next == after[j + 1]
    {
      if j > k + 1 { assert after[j] == nodes[j - 1]; }
    }
    assert after[|after| - 1].next == null;
  }

  lemma UnlinkedIsChain(nodes: seq<MemNode>, k: nat)
    requires ChainBut(nodes, k) && k + 1 < |nodes|
    requires nodes[k].next == if k + 2 < |nodes| then nodes[k + 2] else null
    ensures Chain(nodes[..k + 1] + nodes[k + 2..])
  {
    var after := nodes[..k + 1] + nodes[k + 2..];
    forall j | 0 <= j < |after| - 1
      ensures after[j].next == after[j + 1]
    {
      if j > k { assert after[j] == nodes[j + 1]; }
    }
    assert after[|after| - 1].next == null;
  }

  lemma LinkedRecords(nodes: seq<MemNode>, h: seq<Block>, k: nat, rest: MemNode, size: uint64)
    requires k < |nodes| == |h| && h[k].size >= size
    requires forall j :: 0 <= j < |nodes| && j != k ==> RecordsBlock(nodes[j], h[j])
    requires RecordsBlock(nodes[k], Split(h, k, size)[k]) && RecordsBlock(rest, Split(h, k, size)[k + 1])
    ensures Records(Linked(nodes, k, rest), Split(h, k, size))
  {
    var after, blocks := Linked(nodes, k, rest), Split(h, k, size);
    forall j | 0 <= j < |after|
      ensures RecordsBlock(after[j], blocks[j])
    {
      if j > k + 1 { assert after[j] == nodes[j - 1] && blocks[j] == h[j - 1]; }
    }
  }

  lemma UnlinkedRecords(nodes: seq<MemNode>, h: seq<Block>, k: nat)
    requires k + 1 < |nodes| == |h| && h[k + 1].free
    requires forall j :: 0 <= j < |nodes| && j != k ==> RecordsBlock(nodes[j], h[j])
    requires RecordsBlock(nodes[k], Release(h, k)[k])
    ensures Records(nodes[..k + 1] + nodes[k + 2..], Release(h, k))
  {
    var after, blocks := nodes[..k + 1] + nodes[k + 2..], Release(h, k);
    forall j | 0 <= j < |after|
      ensures RecordsBlock(after[j], blocks[j])
    {
      if j > k { assert after[j] == nodes[j + 1] && blocks[j] == h[j + 1]; }
    }
  }

  /** Links a free node for what is left behind node k, and gives node k `size` bytes. */
  method CutNode(ghost nodes: seq<MemNode>, ghost h: seq<Block>, ghost k: nat, node: MemNode, size: uint64)
    returns (ghost after: seq<MemNode>)
    requires Chain(nodes) && Records(nodes, h) && k < |nodes| && nodes[k] == node && node.size >= size
    modifies node
    ensures Chain(after) && Records(after, Split(h, k, size)) && after[0] == nodes[0]
    ensures forall n :: n in after ==> n in nodes || fresh(n)
  {
    var suiv := node.next;
    var rest := new MemNode(WrapU(node.begin + size), node.size - size, suiv, true);
    after := Linked(nodes, k, rest);
    node.next := rest;
    LinkedIsChain(nodes, k, rest);
    node.size := size;
    node.free := false;
    LinkedRecords(nodes, h, k, rest, size);
  }

  lemma MarkedRecords(nodes: seq<MemNode>, h: seq<Block>, k: nat)
    requires k < |nodes| == |h| && (k + 1 < |h| ==> !h[k + 1].free)
    requires forall j :: 0 <= j < |nodes| && j != k ==> RecordsBlock(nodes[j], h[j])
    requires RecordsBlock(nodes[k], h[k].(free := true))
    ensures Records(nodes, Release(h, k))
  {
    var blocks := Release(h, k);
    forall j | 0 <= j < |nodes|
      ensures RecordsBlock(nodes[j], blocks[j])
    {
    }
  }

  /** Takes the node behind node k off the list and adds its bytes to node k, which is free already. */
  method AbsorbNext(ghost nodes: seq<MemNode>, ghost h: seq<Block>, ghost k: nat, node: MemNode, next: MemNode)
    returns (ghost after: seq<MemNode>)
    requires Chain(nodes) && k + 1 < |nodes| == |h| && nodes[k] == node && nodes[k + 1] == next
    requires forall j :: 0 <= j < |nodes| && j != k ==> RecordsBlock(nodes[j], h[j])
    requires RecordsBlock(node, h[k].(free := true)) && h[k + 1].free
    modifies node
    ensures Chain(after) && Records(after, Release(h, k)) && after[0] == nodes[0]
    ensures forall n :: n in after ==> n in nodes
  {
    node.size := WrapU(node.size + next.size);
    var suiv := next.next;
    node.next := suiv;
    UnlinkedIsChain(nodes, k);
    UnlinkedRecords(nodes, h, k);
    after := nodes[..k + 1] + nodes[k + 2..];
  }

  /** Marks node k free and merges the node behind it when that one is free. */
  method ReleaseNode(ghost nodes: seq<MemNode>, ghost h: seq<Block>, ghost k: nat, node: MemNode)
    returns (ghost after: seq<MemNode>)
    requires Chain(nodes) && Records(nodes, h) && k < |nodes| && nodes[k] == node
    modifies node
    ensures Chain(after) && Records(after, Release(h, k)) && after[0] == nodes[0]
    ensures forall n :: n in after ==> n in nodes
  {
    hide Release;
    after := nodes;
    node.free := true;
    assert forall j :: 0 <= j < |nodes| && j != k ==> RecordsBlock(nodes[j], h[j]);
    if node.next != null && node.next.free {
      after := AbsorbNext(nodes, h, k, node, node.next);
    } else {
      MarkedRecords(nodes, h, k);
    }
  }

  method FindFit(vm: VM, size: uint64) returns (node: MemNode?, ghost k: nat)
    requires vm.Valid()
    ensures k == FirstFit(vm.blocks, size)
    ensures node == if k < |vm.nodes| then vm.nodes[k] else null
  {
    node, k := vm.memblocks, 0;
    while node != null && (node.size < size || !node.free)
      invariant k <= |vm.nodes| && node == if k < |vm.nodes| then vm.nodes[k] else null
      invariant FirstFit(vm.blocks, size, k) == FirstFit(vm.blocks, size)
      decreases |vm.nodes| - k
    {
      node, k := node.next, k + 1;
    }
  }

  method FindAt(vm: VM, addr: uint64) returns (node: MemNode?, ghost k: nat)
    requires vm.Valid()
    ensures k == FirstAt(vm.blocks, addr)
    ensures node == if k < |vm.nodes| then vm.nodes[k] else null
  {
    node, k := vm.memblocks, 0;
    while node != null && addr != node.begin
      invariant k <= |vm.nodes| && node == if k < |vm.nodes| then vm.nodes[k] else null
      invariant FirstAt(vm.blocks, addr, k) == FirstAt(vm.blocks, addr)
      decreases |vm.nodes| - k
    {
      node, k := node.next, k + 1;
    }
  }

  method VmAlloc(vm: VM, size: uint64, before: uint64) returns (status: VMError, addr: uint64)
    requires vm.Valid()
    modifies vm`nodes, vm`blocks, vm.nodes
    ensures vm.Valid() && vm.NodesKnown()
    ensures status == VM_OK ==> Alloc(old(vm.blocks), size) == Allocated(vm.blocks, addr)
    ensures status != VM_OK ==> Alloc(old(vm.blocks), size) == OutOfMemory
    ensures status != VM_OK ==>
              status == VM_HEAP_OUT_OF_MEMORY && addr == before && vm.blocks == old(vm.blocks)
  {
    hide Split;
    ghost var k;
    var node;
    node, k := FindFit(vm, size);
    if node == null {
      return VM_HEAP_OUT_OF_MEMORY, before;
    }
    addr := node.begin;
    vm.nodes := CutNode(vm.nodes, vm.blocks, k, node, size);
    vm.blocks := Split(vm.blocks, k, size);
    return VM_OK, addr;
  }

  method VmFree(vm: VM, addr: uint64) returns (status: VMError)
    requires vm.Valid()
    modifies vm`nodes, vm`blocks, vm.nodes
    ensures vm.Valid() && vm.NodesKnown()
    ensures Free(old(vm.blocks), addr) == Freeing(status, vm.blocks)
  {
    if addr < HEAP_BASE || addr >= STACK_BASE {
      return VM_FREE_OUT_OF_THE_HEAP;
    }
    ghost var k;
    var node;
    node, k := FindAt(vm, addr);
    if node == null {
      return VM_MEM_ALREADY_FREE;
    }
    vm.nodes := ReleaseNode(vm.nodes, vm.blocks, k, node);
    vm.blocks := Release(vm.blocks, k);
    return VM_OK;
  }
}
