/**
 The syscalls that stay inside the machine: EXIT, MALLOC, FREE and MEMSET.
 */
module Syscalls {
  import opened Common
  import opened Words
  import opened Isa
  import opened Heap
  import opened Machine
  import opened Vm
  import opened Allocator
  import opened DataHandlers

  const POP_R0 := Instruction(POP, REGU, 0, 0, 0)

  method SyscallEXIT(vm: VM) returns (status: VMError)
    requires vm.Shaped() && SysExit(vm.View()).Done?
    modifies vm`sp, vm`running, vm.registers
    ensures SysExit(old(vm.View())) == Done(status, vm.View())
  {
    hide ExecPop;
    status := InstrPOP(vm, POP_R0);
    if status != VM_OK {
      return status;
    }
    vm.running := false;
    return VM_OK;
  }

  /** On failure the address is an uninitialised local of the C function, here 0. */
  method SyscallMALLOC(vm: VM) returns (status: VMError)
    requires vm.Valid() && SysMalloc(vm.View()).Done?
    modifies vm`sp, vm`nodes, vm`blocks, vm.registers, vm.nodes
    ensures vm.Valid() && SysMalloc(old(vm.View())) == Done(status, vm.View())
    ensures vm.NodesKnown()
  {
    hide ExecPop, Alloc, Free, Chain, Records;
    status := InstrPOP(vm, POP_R0);
    if status != VM_OK {
      return status;
    }
    var size := ToU(vm.registers[0]);
    var ptr;
    status, ptr := VmAlloc(vm, size, 0);
    vm.registers[0] := ToS(ptr);
  }

  method SyscallFREE(vm: VM) returns (status: VMError)
    requires vm.Valid() && SysFree(vm.View()).Done?
    modifies vm`sp, vm`nodes, vm`blocks, vm.registers, vm.nodes
    ensures vm.Valid() && SysFree(old(vm.View())) == Done(status, vm.View())
    ensures vm.NodesKnown()
  {
    hide ExecPop, Alloc, Free, Chain, Records;
    status := InstrPOP(vm, POP_R0);
    if status != VM_OK {
      return status;
    }
    var ptr := ToU(vm.registers[0]);
    status := VmFree(vm, ptr);
  }

  method SyscallMEMSET(vm: VM) returns (status: VMError)
    requires vm.Shaped() && SysMemset(vm.View()).Done?
    modifies vm`sp, vm.registers, vm.memory
    ensures SysMemset(old(vm.View())) == Done(status, vm.View())
  {
    hide ExecPop;
    status := InstrPOP(vm, POP_R0);
    if status != VM_OK {
      return status;
    }
    var ptr := ToU(vm.registers[0]);
    status := InstrPOP(vm, POP_R0);
    if status != VM_OK {
      return status;
    }
    var value: byte := ToU(vm.registers[0]) % 256;
    status := InstrPOP(vm, POP_R0);
    if status != VM_OK {
      return status;
    }
    var size := ToU(vm.registers[0]);
    status := MemsetRange(vm, ptr, value, size);
  }

  /** The guarded memset that ends the syscall. */
  method MemsetRange(vm: VM, ptr: uint64, value: byte, size: uint64) returns (status: VMError)
    requires vm.Shaped() && FillHeap(vm.View(), ptr, value, size).Done?
    modifies vm.registers, vm.memory
    ensures FillHeap(old(vm.View()), ptr, value, size) == Done(status, vm.View())
  {
    if ptr < HEAP_BASE || WrapU(ptr + size) >= MEM_SIZE {
      return VM_ILL_MEM_ACCESS;
    }
    forall k | ptr <= k < ptr + size {
      vm.memory[k] := value;
    }
    vm.registers[0] := 0;
    return VM_OK;
  }
}
