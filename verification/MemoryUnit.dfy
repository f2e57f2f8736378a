/**
 64-bit little-endian access to the machine's memory, byte by byte.
 */
module MemoryUnit {
  import opened Common
  import opened Words
  import opened Machine
  import opened Vm

  /** Assembles eight bytes; `value` is the out-parameter, left alone when the guard refuses. */
  method MemRead64(vm: VM, addr: uint64, before: int64) returns (status: VMError, value: int64)
    requires vm.memory.Length == MEM_SIZE && addr + 7 < TWO64
    ensures status == VM_OK <==> Bounds(addr) == Inside
    ensures status == VM_OK ==> value == Load64(vm.memory[..], addr)
    ensures status != VM_OK ==> Bounds(addr) == Fault(status) && value == before
  {
    if WrapU(addr + 7) >= MEM_SIZE {
      return VM_ILL_MEM_ACCESS, before;
    }
    var at := addr;
    var out: uint64 := 0;
    ghost var bytes: seq<byte> := vm.memory[addr..addr + 8];
    for i := 0 to 8
      invariant at == addr + i
      invariant out == LittleEndian(bytes[..i])
    {
      assert bytes[..i] + [bytes[i]] == bytes[..i + 1];
      OrNextByte(bytes[..i], bytes[i], i);
      assert vm.memory[at] == bytes[i];
      out := Or64(out, ShiftByte(vm.memory[at], i));
      at := at + 1;
    }
    assert bytes[..8] == bytes;
    assert bytes == vm.memory[..][addr..addr + 8];
    return VM_OK, ToS(out);
  }

  /** x | y on 64-bit patterns. */
  function Or64(x: uint64, y: uint64): (r: uint64)
    ensures r == Bitwise(Or, x, y, 64)
  {
    Pow2Words();
    Bitwise(Or, x, y, 64)
  }

  /** One more byte in place. */
  lemma ByteStored(before: seq<byte>, m: seq<byte>, addr: nat, bytes: seq<byte>, i: nat)
    requires i < |bytes| && addr + |bytes| <= |before|
    requires m == before[..addr] + bytes[..i] + before[addr + i..]
    ensures m[addr + i := bytes[i]] == before[..addr] + bytes[..i + 1] + before[addr + i + 1..]
  {
  }

  /** Stores the eight bytes of value from addr on. */
  method MemWrite64(vm: VM, addr: uint64, value: int64) returns (status: VMError)
    requires vm.memory.Length == MEM_SIZE && addr + 7 < TWO64
    modifies vm.memory
    ensures status == VM_OK <==> Bounds(addr) == Inside
    ensures status == VM_OK ==> vm.memory[..] == Store64(old(vm.memory[..]), addr, value)
    ensures status != VM_OK ==> Bounds(addr) == Fault(status) && vm.memory[..] == old(vm.memory[..])
  {
    if WrapU(addr + 7) >= MEM_SIZE {
      return VM_ILL_MEM_ACCESS;
    }
    hide Bytes, Asr, ToU;
    var at := addr;
    ghost var bytes := Bytes(ToU(value), 8);
    ghost var before := vm.memory[..];
    assert before == before[..addr] + bytes[..0] + before[addr..];
    for i := 0 to 8
      invariant at == addr + i
      invariant vm.memory[..] == before[..addr] + bytes[..i] + before[at..]
    {
      SignedByteAt(value, i);
      ByteStored(before, vm.memory[..], addr, bytes, i);
      ghost var m := vm.memory[..];
      vm.memory[at] := Asr(value, 8 * i) % 256;
      assert vm.memory[..] == m[at := bytes[i]];
      at := at + 1;
    }
    assert bytes[..8] == bytes;
    return VM_OK;
  }
}
