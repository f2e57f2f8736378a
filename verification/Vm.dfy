/**
 The virtual machine object: register file and memory as arrays updated in place, the heap
 as a linked list of MemNode. `View` is the value of the machine as module Machine sees it.
 */
module Vm {
  import opened Common
  import opened Words
  import opened Heap
  import opened Machine

  class MemNode {
    var begin: uint64
    var size: uint64
    var next: MemNode?
    var free: bool

    constructor (begin: uint64, size: uint64, next: MemNode?, free: bool)
      ensures this.begin == begin && this.size == size && this.next == next && this.free == free
    {
      this.begin, this.size, this.next, this.free := begin, size, next, free;
    }
  }

  /** Node k records block k. */
  ghost predicate Records(nodes: seq<MemNode>, blocks: seq<Block>)
    reads nodes`begin, nodes`size, nodes`free
  {
    |nodes| == |blocks| &&
    forall k :: 0 <= k < |nodes| ==> RecordsBlock(nodes[k], blocks[k])
  }

  ghost predicate RecordsBlock(node: MemNode, b: Block)
    reads node`begin, node`size, node`free
  {
    node.begin == b.begin && node.size == b.size && node.free == b.free
  }

  /** The nodes are distinct and each one's `next` is its successor. */
  ghost predicate Chain(nodes: seq<MemNode>)
    reads nodes`next
  {
    && nodes != []
    && nodes[|nodes| - 1].next == null
    && (forall j, k :: 0 <= j < k < |nodes| && k == j + 1 ==> nodes[j].next == nodes[k])
    && Distinct(nodes)
  }

  ghost predicate Distinct(nodes: seq<MemNode>) {
    forall j, k :: 0 <= j < k < |nodes| ==> nodes[j] != nodes[k]
  }

  class VM {
    const registers: array<int64>
    var sp: uint64
    var pc: uint64
    var sr: bv8
    const memory: array<byte>
    var running: bool
    var memblocks: MemNode?

    ghost var nodes: seq<MemNode>  // the list that starts at memblocks
    ghost var blocks: seq<Block>   // and what its nodes record

    /** The buffers have the sizes their declarations give them. */
    ghost predicate Shaped() {
      registers.Length == N_REG && memory.Length == MEM_SIZE
    }

    ghost predicate Valid()
      reads this`memblocks, this`nodes, this`blocks, nodes
    {
      && Shaped()
      && Chain(nodes)
      && Records(nodes, blocks)
      && memblocks == nodes[0]
    }

    /** Every node of the list was on it before or is new. */
    twostate predicate NodesKnown()
      reads this`nodes
    {
      forall k :: 0 <= k < |nodes| ==> nodes[k] in old(nodes) || fresh(nodes[k])
    }

    ghost function View(): State
      requires Shaped()
      reads this`sp, this`pc, this`sr, this`running, this`blocks, registers, memory
    {
      State(registers[..], sp, pc, sr, memory[..], running, blocks)
    }

    constructor ()
      ensures Valid() && View() == Initial()
      ensures fresh(registers) && fresh(memory) && forall k :: 0 <= k < |nodes| ==> fresh(nodes[k])
    {
      registers := new int64[N_REG](_ => 0);
      memory := new byte[MEM_SIZE](_ => 0);
      new;
      InitVM();
    }

    /** Puts every field back to its initial value and starts a heap of one free block. */
    method InitVM()
      requires Shaped()
      modifies this, registers, memory
      ensures Valid() && View() == Initial()
      ensures forall k :: 0 <= k < |nodes| ==> fresh(nodes[k])
    {
      forall k | 0 <= k < N_REG { registers[k] := 0; }
      forall k | 0 <= k < MEM_SIZE { memory[k] := 0; }
      sp := MEM_SIZE;
      pc := 0;
      sr := 0x10;
      running := true;
      memblocks := new MemNode(HEAP_BASE, STACK_BASE - HEAP_BASE, null, true);
      nodes := [memblocks];
      blocks := FRESH_HEAP;
      assert registers[..] == [0, 0];
      assert memory[..] == Zeros();
    }

    // Flag setters and getters

    method SetSROF(value: bool)
      modifies this`sr
      ensures FlagsOf(sr) == FlagsOf(old(sr)).(o := value) && sr & 0xF0 == old(sr) & 0xF0
    {
      if value {
        sr := sr | M_OVERFLOW;
        return;
      }
      sr := sr & !M_OVERFLOW;
    }

    method SetSRNF(value: bool)
      modifies this`sr
      ensures FlagsOf(sr) == FlagsOf(old(sr)).(n := value) && sr & 0xF0 == old(sr) & 0xF0
    {
      if value {
        sr := sr | M_NEGATIVE;
        return;
      }
      sr := sr & !M_NEGATIVE;
    }

    method SetSRZF(value: bool)
      modifies this`sr
      ensures FlagsOf(sr) == FlagsOf(old(sr)).(z := value) && sr & 0xF0 == old(sr) & 0xF0
    {
      if value {
        sr := sr | M_ZERO;
        return;
      }
      sr := sr & !M_ZERO;
    }

    method SetSRCF(value: bool)
      modifies this`sr
      ensures FlagsOf(sr) == FlagsOf(old(sr)).(c := value) && sr & 0xF0 == old(sr) & 0xF0
    {
      if value {
        sr := sr | M_CARRY;
        return;
      }
      sr := sr & !M_CARRY;
    }

    function GetSROF(): bv8
      reads this
    {
      sr & M_OVERFLOW
    }

    function GetSRNF(): bv8
      reads this
    {
      sr & M_NEGATIVE
    }

    function GetSRZF(): bv8
      reads this
    {
      sr & M_ZERO
    }

    function GetSRCF(): bv8
      reads this
    {
      sr & M_CARRY
    }
  }
}
