/**
 Loads, stores, swaps, the stack and fetch-and-set.
 */
module DataHandlers {
  import opened Common
  import opened Words
  import opened Isa
  import opened Machine
  import opened Vm
  import opened MemoryUnit

  // ST R0, [x]: MEM[x] = R0
  method InstrSTD(vm: VM, instr: Instruction) returns (status: VMError)
    requires instr.op == ST && instr.mode == DIR
    requires vm.Shaped() && ExecStore(instr, vm.View()).Done?
    modifies vm.memory
    ensures ExecStore(instr, old(vm.View())) == Done(status, vm.View())
  {
    hide HasHandler, Load64, Store64;
    if instr.a >= N_REG {
      return VM_ILL_REGISTER;
    }
    var addr := ToU(instr.arg);
    if addr < DATA_BASE {
      return VM_ILL_MEM_ACCESS;
    }
    status := MemWrite64(vm, addr, vm.registers[instr.a]);
  }

  // ST R0, [R1]: MEM[R1] = R0
  method InstrSTI(vm: VM, instr: Instruction) returns (status: VMError)
    requires instr.op == ST && instr.mode == IND
    requires vm.Shaped() && ExecStore(instr, vm.View()).Done?
    modifies vm.memory
    ensures ExecStore(instr, old(vm.View())) == Done(status, vm.View())
  {
    hide HasHandler, Load64, Store64;
    if instr.a >= N_REG || instr.b >= N_REG {
      return VM_ILL_REGISTER;
    }
    var addr := ToU(vm.registers[instr.b]);
    if addr < DATA_BASE {
      return VM_ILL_MEM_ACCESS;
    }
    status := MemWrite64(vm, addr, vm.registers[instr.a]);
  }

  // ST R0, [R1+x]: MEM[R1+x] = R0
  method InstrSTX(vm: VM, instr: Instruction) returns (status: VMError)
    requires instr.op == ST && instr.mode == IDX
    requires vm.Shaped() && ExecStore(instr, vm.View()).Done?
    modifies vm.memory
    ensures ExecStore(instr, old(vm.View())) == Done(status, vm.View())
  {
    hide HasHandler, Load64, Store64;
    if instr.a >= N_REG || instr.b >= N_REG {
      return VM_ILL_REGISTER;
    }
    var addr := ToU(Add64(vm.registers[instr.b], instr.arg));
    if addr < DATA_BASE {
      return VM_ILL_MEM_ACCESS;
    }
    status := MemWrite64(vm, addr, vm.registers[instr.a]);
  }

  // LD R0, x: R0 = x
  method InstrLD(vm: VM, instr: Instruction) returns (status: VMError)
    requires instr.op == LD && instr.mode == IMM
    requires vm.Shaped() && ExecLoad(instr, vm.View()).Done?
    modifies vm.registers
    ensures ExecLoad(instr, old(vm.View())) == Done(status, vm.View())
  {
    hide HasHandler, Load64, Store64;
    if instr.a >= N_REG {
      return VM_ILL_REGISTER;
    }
    vm.registers[instr.a] := instr.arg;
    return VM_OK;
  }

  // LD R0, R1: R0 = R1
  method InstrLDR(vm: VM, instr: Instruction) returns (status: VMError)
    requires instr.op == LD && instr.mode == REG
    requires vm.Shaped() && ExecLoad(instr, vm.View()).Done?
    modifies vm.registers
    ensures ExecLoad(instr, old(vm.View())) == Done(status, vm.View())
  {
    hide HasHandler, Load64, Store64;
    if instr.a >= N_REG || instr.b >= N_REG {
      return VM_ILL_REGISTER;
    }
    vm.registers[instr.a] := vm.registers[instr.b];
    return VM_OK;
  }

  // LD R0, [x]: R0 = MEM[x]
  method InstrLDD(vm: VM, instr: Instruction) returns (status: VMError)
    requires instr.op == LD && instr.mode == DIR
    requires vm.Shaped() && ExecLoad(instr, vm.View()).Done?
    modifies vm.registers
    ensures ExecLoad(instr, old(vm.View())) == Done(status, vm.View())
  {
    hide HasHandler, Load64, Store64;
    if instr.a >= N_REG {
      return VM_ILL_REGISTER;
    }
    var addr := ToU(instr.arg);
    if addr < DATA_BASE {
      return VM_ILL_MEM_ACCESS;
    }
    var value;
    status, value := MemRead64(vm, addr, vm.registers[instr.a]);
    vm.registers[instr.a] := value;
  }

  // LD R0, [R1]: R0 = MEM[R1]
  method InstrLDI(vm: VM, instr: Instruction) returns (status: VMError)
    requires instr.op == LD && instr.mode == IND
    requires vm.Shaped() && ExecLoad(instr, vm.View()).Done?
    modifies vm.registers
    ensures ExecLoad(instr, old(vm.View())) == Done(status, vm.View())
  {
    hide HasHandler, Load64, Store64;
    if instr.a >= N_REG || instr.b >= N_REG {
      return VM_ILL_REGISTER;
    }
    var addr := ToU(vm.registers[instr.b]);
    if addr < DATA_BASE {
      return VM_ILL_MEM_ACCESS;
    }
    var value;
    status, value := MemRead64(vm, addr, vm.registers[instr.a]);
    vm.registers[instr.a] := value;
  }

  // LD R0, [R1+x]: R0 = MEM[R1+x]
  method InstrLDX(vm: VM, instr: Instruction) returns (status: VMError)
    requires instr.op == LD && instr.mode == IDX
    requires vm.Shaped() && ExecLoad(instr, vm.View()).Done?
    modifies vm.registers
    ensures ExecLoad(instr, old(vm.View())) == Done(status, vm.View())
  {
    hide HasHandler, Load64, Store64;
    if instr.a >= N_REG || instr.b >= N_REG {
      return VM_ILL_REGISTER;
    }
    var addr := ToU(Add64(vm.registers[instr.b], instr.arg));
    if addr < DATA_BASE {
      return VM_ILL_MEM_ACCESS;
    }
    var value;
    status, value := MemRead64(vm, addr, vm.registers[instr.a]);
    vm.registers[instr.a] := value;
  }

  // SWP R0, R1: R0 <-> R1
  method InstrSWPR(vm: VM, instr: Instruction) returns (status: VMError)
    requires instr.op == SWP && instr.mode == REG
    requires vm.Shaped() && ExecSwap(instr, vm.View()).Done?
    modifies vm.registers
    ensures ExecSwap(instr, old(vm.View())) == Done(status, vm.View())
  {
    hide HasHandler, Load64, Store64;
    if instr.a >= N_REG || instr.b >= N_REG {
      return VM_ILL_REGISTER;
    }
    var tmp := vm.registers[instr.a];
    vm.registers[instr.a] := vm.registers[instr.b];
    vm.registers[instr.b] := tmp;
    return VM_OK;
  }

  // SWP R0, [x]: R0 <-> MEM[x]
  method InstrSWPD(vm: VM, instr: Instruction) returns (status: VMError)
    requires instr.op == SWP && instr.mode == DIR
    requires vm.Shaped() && ExecSwap(instr, vm.View()).Done?
    modifies vm.registers, vm.memory
    ensures ExecSwap(instr, old(vm.View())) == Done(status, vm.View())
  {
    hide HasHandler, Load64, Store64;
    if instr.a >= N_REG {
      return VM_ILL_REGISTER;
    }
    var addr := ToU(instr.arg);
    if addr < DATA_BASE {
      return VM_ILL_MEM_ACCESS;
    }
    var tmp;
    status, tmp := MemRead64(vm, addr, 0);
    if status == VM_OK {
      status := MemWrite64(vm, addr, vm.registers[instr.a]);
      if status == VM_OK {
        vm.registers[instr.a] := tmp;
      }
    }
  }

  // SWP R0, [R1]: R0 <-> MEM[R1]
  method InstrSWPI(vm: VM, instr: Instruction) returns (status: VMError)
    requires instr.op == SWP && instr.mode == IND
    requires vm.Shaped() && ExecSwap(instr, vm.View()).Done?
    modifies vm.registers, vm.memory
    ensures ExecSwap(instr, old(vm.View())) == Done(status, vm.View())
  {
    hide HasHandler, Load64, Store64;
    if instr.a >= N_REG || instr.b >= N_REG {
      return VM_ILL_REGISTER;
    }
    var addr := ToU(vm.registers[instr.b]);
    if addr < DATA_BASE {
      return VM_ILL_MEM_ACCESS;
    }
    var tmp;
    status, tmp := MemRead64(vm, addr, 0);
    if status == VM_OK {
      status := MemWrite64(vm, addr, vm.registers[instr.a]);
      if status == VM_OK {
        vm.registers[instr.a] := tmp;
      }
    }
  }

  // SWP R0, [R1+x]: R0 <-> MEM[R1+x]
  method InstrSWPX(vm: VM, instr: Instruction) returns (status: VMError)
    requires instr.op == SWP && instr.mode == IDX
    requires vm.Shaped() && ExecSwap(instr, vm.View()).Done?
    modifies vm.registers, vm.memory
    ensures ExecSwap(instr, old(vm.View())) == Done(status, vm.View())
  {
    hide HasHandler, Load64, Store64;
    if instr.a >= N_REG || instr.b >= N_REG {
      return VM_ILL_REGISTER;
    }
    var addr := ToU(Add64(vm.registers[instr.b], instr.arg));
    if addr < DATA_BASE {
      return VM_ILL_MEM_ACCESS;
    }
    var tmp;
    status, tmp := MemRead64(vm, addr, 0);
    if status == VM_OK {
      status := MemWrite64(vm, addr, vm.registers[instr.a]);
      if status == VM_OK {
        vm.registers[instr.a] := tmp;
      }
    }
  }

  // PUSH x: SP = SP - 8 and MEM[SP] = x; SP is put back when the store fails
  method InstrPUSH(vm: VM, instr: Instruction) returns (status: VMError)
    requires instr.op == PUSH && instr.mode == IMM
    requires vm.Shaped() && ExecPush(instr, vm.View()).Done?
    modifies vm`sp, vm.memory
    ensures ExecPush(instr, old(vm.View())) == Done(status, vm.View())
  {
    hide HasHandler, Load64, Store64;
    if vm.sp <= STACK_BASE {
      return VM_STACK_OVERFLOW;
    }
    if instr.a >= N_REG {
      return VM_ILL_REGISTER;
    }
    vm.sp := vm.sp - 8;
    status := MemWrite64(vm, vm.sp, instr.arg);
    if status != VM_OK {
      vm.sp := vm.sp + 8;
    }
  }

  // PUSH R0
  method InstrPUSHR(vm: VM, instr: Instruction) returns (status: VMError)
    requires instr.op == PUSH && instr.mode == REGU
    requires vm.Shaped() && ExecPush(instr, vm.View()).Done?
    modifies vm`sp, vm.memory
    ensures ExecPush(instr, old(vm.View())) == Done(status, vm.View())
  {
    hide HasHandler, Load64, Store64;
    if vm.sp <= STACK_BASE {
      return VM_STACK_OVERFLOW;
    }
    if instr.a >= N_REG {
      return VM_ILL_REGISTER;
    }
    vm.sp := vm.sp - 8;
    status := MemWrite64(vm, vm.sp, vm.registers[instr.a]);
    if status != VM_OK {
      vm.sp := vm.sp + 8;
    }
  }

  // POP R0: R0 = MEM[SP] and SP = SP + 8
  method InstrPOP(vm: VM, instr: Instruction) returns (status: VMError)
    requires instr.op == POP && instr.mode == REGU
    requires vm.Shaped() && ExecPop(instr.a, vm.View()).Done?
    modifies vm`sp, vm.registers
    ensures ExecPop(instr.a, old(vm.View())) == Done(status, vm.View())
  {
    if vm.sp >= MEM_SIZE {
      return VM_STACK_UNDERFLOW;
    }
    if instr.a >= N_REG {
      return VM_ILL_REGISTER;
    }
    var value;
    status, value := MemRead64(vm, vm.sp, vm.registers[instr.a]);
    vm.registers[instr.a] := value;
    if status == VM_OK {
      vm.sp := vm.sp + 8;
    }
  }

  // FAS R0, [x]: R0 = MEM[x] and MEM[x] = 1
  method InstrFASD(vm: VM, instr: Instruction) returns (status: VMError)
    requires instr.op == FAS && instr.mode == DIR
    requires vm.Shaped() && ExecFas(instr, vm.View()).Done?
    modifies vm.registers, vm.memory
    ensures ExecFas(instr, old(vm.View())) == Done(status, vm.View())
  {
    hide HasHandler, Load64, Store64;
    if instr.a >= N_REG {
      return VM_ILL_REGISTER;
    }
    var addr := ToU(instr.arg);
    if addr < DATA_BASE {
      return VM_ILL_MEM_ACCESS;
    }
    var value;
    status, value := MemRead64(vm, addr, 0);
    if status == VM_OK {
      vm.registers[instr.a] := value;
      status := MemWrite64(vm, addr, 1);
    }
  }

  // FAS R0, [R1]: the store goes to the address equal to the register's number
  method InstrFASI(vm: VM, instr: Instruction) returns (status: VMError)
    requires instr.op == FAS && instr.mode == IND
    requires vm.Shaped() && ExecFas(instr, vm.View()).Done?
    modifies vm.registers, vm.memory
    ensures ExecFas(instr, old(vm.View())) == Done(status, vm.View())
  {
    hide HasHandler, Load64, Store64;
    if instr.a >= N_REG && instr.b >= N_REG {
      return VM_ILL_REGISTER;
    }
    var addr := ToU(vm.registers[instr.b]);
    if addr < DATA_BASE {
      return VM_ILL_MEM_ACCESS;
    }
    var value;
    status, value := MemRead64(vm, addr, 0);
    if status == VM_OK {
      vm.registers[instr.a] := value;
      status := MemWrite64(vm, instr.b, 1);
    }
  }

  // FAS R0, [R1+x]: the store's address is computed again after R0 was loaded
  method InstrFASX(vm: VM, instr: Instruction) returns (status: VMError)
    requires instr.op == FAS && instr.mode == IDX
    requires vm.Shaped() && ExecFas(instr, vm.View()).Done?
    modifies vm.registers, vm.memory
    ensures ExecFas(instr, old(vm.View())) == Done(status, vm.View())
  {
    hide HasHandler, Load64, Store64;
    if instr.a >= N_REG && instr.b >= N_REG {
      return VM_ILL_REGISTER;
    }
    var addr := ToU(Add64(vm.registers[instr.b], instr.arg));
    if addr < DATA_BASE {
      return VM_ILL_MEM_ACCESS;
    }
    var value;
    status, value := MemRead64(vm, addr, 0);
    if status == VM_OK {
      vm.registers[instr.a] := value;
      status := MemWrite64(vm, ToU(Add64(vm.registers[instr.b], instr.arg)), 1);
    }
  }
}
