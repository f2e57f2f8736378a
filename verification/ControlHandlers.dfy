/**
 Calls, returns, jumps and machine control.
 */
module ControlHandlers {
  import opened Common
  import opened Words
  import opened Isa
  import opened Machine
  import opened Vm
  import opened MemoryUnit

  function ReturnAddress(vm: VM, mode: Mode): int64
    reads vm`pc
  {
    ToS(WrapU(vm.pc + ModeSize(mode)))
  }

  // CALL x: push the return address, PC = x
  method InstrCALL(vm: VM, instr: Instruction) returns (status: VMError)
    requires instr.op == CALL && instr.mode == IMM
    requires vm.Shaped() && ExecCall(instr, vm.View()).Done?
    modifies vm`sp, vm`pc, vm.memory
    ensures ExecCall(instr, old(vm.View())) == Done(status, vm.View())
  {
    hide HasHandler, Load64, Store64, Wrap, WrapU, Add64, ToS, ToU;
    if vm.sp <= STACK_BASE {
      return VM_STACK_OVERFLOW;
    }
    if ToU(instr.arg) >= DATA_BASE {
      return VM_INVALID_JMP;
    }
    vm.sp := vm.sp - 8;
    status := MemWrite64(vm, vm.sp, ReturnAddress(vm, instr.mode));
    if status == VM_OK {
      vm.pc := ToU(instr.arg);
      return VM_OK;
    }
    vm.sp := vm.sp + 8;
  }

  // CALL R0: the range test is signed, so negative targets pass it
  method InstrCALLR(vm: VM, instr: Instruction) returns (status: VMError)
    requires instr.op == CALL && instr.mode == REGU
    requires vm.Shaped() && ExecCall(instr, vm.View()).Done?
    modifies vm`sp, vm`pc, vm.memory
    ensures ExecCall(instr, old(vm.View())) == Done(status, vm.View())
  {
    hide HasHandler, Load64, Store64, Wrap, WrapU, Add64, ToS, ToU;
    if instr.a >= N_REG {
      return VM_ILL_REGISTER;
    }
    if vm.sp <= STACK_BASE {
      return VM_STACK_OVERFLOW;
    }
    if vm.registers[instr.a] >= DATA_BASE {
      return VM_INVALID_JMP;
    }
    vm.sp := vm.sp - 8;
    status := MemWrite64(vm, vm.sp, ReturnAddress(vm, instr.mode));
    if status == VM_OK {
      vm.pc := ToU(vm.registers[instr.a]);
      return VM_OK;
    }
    vm.sp := vm.sp + 8;
  }

  // CALL [x]
  method InstrCALLD(vm: VM, instr: Instruction) returns (status: VMError)
    requires instr.op == CALL && instr.mode == DIR
    requires vm.Shaped() && ExecCall(instr, vm.View()).Done?
    modifies vm`sp, vm`pc, vm.memory
    ensures ExecCall(instr, old(vm.View())) == Done(status, vm.View())
  {
    hide HasHandler, Load64, Store64, Wrap, WrapU, Add64, ToS, ToU;
    if vm.sp <= STACK_BASE {
      return VM_STACK_OVERFLOW;
    }
    var addr;
    status, addr := MemRead64(vm, ToU(instr.arg), 0);
    if status != VM_OK {
      return status;
    }
    if addr >= DATA_BASE {
      return VM_INVALID_JMP;
    }
    vm.sp := vm.sp - 8;
    status := MemWrite64(vm, vm.sp, ReturnAddress(vm, instr.mode));
    if status == VM_OK {
      vm.pc := ToU(addr);
      return VM_OK;
    }
    vm.sp := vm.sp + 8;
  }

  // CALL [R0]
  method InstrCALLI(vm: VM, instr: Instruction) returns (status: VMError)
    requires instr.op == CALL && instr.mode == IND
    requires vm.Shaped() && ExecCall(instr, vm.View()).Done?
    modifies vm`sp, vm`pc, vm.memory
    ensures ExecCall(instr, old(vm.View())) == Done(status, vm.View())
  {
    hide HasHandler, Load64, Store64, Wrap, WrapU, Add64, ToS, ToU;
    if vm.sp <= STACK_BASE {
      return VM_STACK_OVERFLOW;
    }
    if instr.a >= N_REG {
      return VM_ILL_REGISTER;
    }
    var addr;
    status, addr := MemRead64(vm, ToU(vm.registers[instr.a]), 0);
    if status != VM_OK {
      return status;
    }
    if addr >= DATA_BASE {
      return VM_INVALID_JMP;
    }
    vm.sp := vm.sp - 8;
    status := MemWrite64(vm, vm.sp, ReturnAddress(vm, instr.mode));
    if status == VM_OK {
      vm.pc := ToU(addr);
      return VM_OK;
    }
    vm.sp := vm.sp + 8;
  }

  // CALL [R0+x]
  method InstrCALLX(vm: VM, instr: Instruction) returns (status: VMError)
    requires instr.op == CALL && instr.mode == IDX
    requires vm.Shaped() && ExecCall(instr, vm.View()).Done?
    modifies vm`sp, vm`pc, vm.memory
    ensures ExecCall(instr, old(vm.View())) == Done(status, vm.View())
  {
    hide HasHandler, Load64, Store64, Wrap, WrapU, Add64, ToS, ToU;
    if vm.sp <= STACK_BASE {
      return VM_STACK_OVERFLOW;
    }
    if instr.a >= N_REG {
      return VM_ILL_REGISTER;
    }
    var addr;
    status, addr := MemRead64(vm, ToU(Add64(vm.registers[instr.a], instr.arg)), 0);
    if status != VM_OK {
      return status;
    }
    if addr >= DATA_BASE {
      return VM_INVALID_JMP;
    }
    vm.sp := vm.sp - 8;
    status := MemWrite64(vm, vm.sp, ReturnAddress(vm, instr.mode));
    if status == VM_OK {
      vm.pc := ToU(addr);
      return VM_OK;
    }
    vm.sp := vm.sp + 8;
  }

  // RTN: pop PC
  method InstrRTN(vm: VM, instr: Instruction) returns (status: VMError)
    requires instr.op == RTN && instr.mode == NONE
    requires vm.Shaped() && ExecReturn(vm.View()).Done?
    modifies vm`sp, vm`pc
    ensures ExecReturn(old(vm.View())) == Done(status, vm.View())
  {
    if vm.sp >= MEM_SIZE {
      return VM_STACK_UNDERFLOW;
    }
    var value;
    status, value := MemRead64(vm, vm.sp, 0);
    if value >= DATA_BASE {
      return VM_INVALID_JMP;
    }
    if status == VM_OK {
      vm.pc := ToU(value);
      vm.sp := vm.sp + 8;
    }
  }

  // NOP
  method InstrNOP(vm: VM, instr: Instruction) returns (status: VMError)
    ensures status == VM_OK
  {
    return VM_OK;
  }

  // RST: back to the initial machine
  method InstrRST(vm: VM, instr: Instruction) returns (status: VMError)
    requires vm.Shaped()
    modifies vm, vm.registers, vm.memory
    ensures status == VM_OK && vm.Valid() && vm.View() == Initial()
    ensures vm.NodesKnown()
  {
    vm.InitVM();
    return VM_OK;
  }

  // HALT: stop after this instruction
  method InstrHALT(vm: VM, instr: Instruction) returns (status: VMError)
    modifies vm`running
    ensures status == VM_OK && !vm.running
  {
    vm.running := false;
    return VM_OK;
  }

  /** What a taken jump does. */
  function Transfer(i: Instruction, s: State): Outcome
    requires HasHandler(JMP, i.mode)
  {
    ExecJump(i.(op := JMP), s)
  }

  method Jump(vm: VM, instr: Instruction) returns (status: VMError)
    requires instr.mode == IMM && vm.Shaped()
    modifies vm`pc
    ensures Transfer(instr, old(vm.View())) == Done(status, vm.View())
  {
    if ToU(instr.arg) >= DATA_BASE {
      return VM_INVALID_JMP;
    }
    vm.pc := ToU(instr.arg);
    return VM_OK;
  }

  method JumpR(vm: VM, instr: Instruction) returns (status: VMError)
    requires instr.mode == REGU && vm.Shaped() && Transfer(instr, vm.View()).Done?
    modifies vm`pc
    ensures Transfer(instr, old(vm.View())) == Done(status, vm.View())
  {
    if instr.a > N_REG {
      return VM_ILL_REGISTER;
    }
    var addr := ToU(vm.registers[instr.a]);
    if addr >= DATA_BASE {
      return VM_INVALID_JMP;
    }
    vm.pc := addr;
    return VM_OK;
  }

  method JumpD(vm: VM, instr: Instruction) returns (status: VMError)
    requires instr.mode == DIR && vm.Shaped() && Transfer(instr, vm.View()).Done?
    modifies vm`pc
    ensures Transfer(instr, old(vm.View())) == Done(status, vm.View())
  {
    if ToU(instr.arg) >= DATA_BASE {
      return VM_INVALID_JMP;
    }
    var value;
    status, value := MemRead64(vm, ToU(instr.arg), 0);
    if status == VM_OK {
      if ToU(value) >= DATA_BASE {
        return VM_INVALID_JMP;
      }
      vm.pc := ToU(value);
    }
  }

  method JumpI(vm: VM, instr: Instruction) returns (status: VMError)
    requires instr.mode == IND && vm.Shaped() && Transfer(instr, vm.View()).Done?
    modifies vm`pc
    ensures Transfer(instr, old(vm.View())) == Done(status, vm.View())
  {
    if instr.a > N_REG {
      return VM_ILL_REGISTER;
    }
    var addr := ToU(vm.registers[instr.a]);
    if addr < DATA_BASE {
      return VM_ILL_MEM_ACCESS;
    }
    var value;
    status, value := MemRead64(vm, addr, 0);
    if status == VM_OK {
      if ToU(value) >= DATA_BASE {
        return VM_INVALID_JMP;
      }
      vm.pc := ToU(value);
    }
  }

  method JumpX(vm: VM, instr: Instruction) returns (status: VMError)
    requires instr.mode == IDX && vm.Shaped() && Transfer(instr, vm.View()).Done?
    modifies vm`pc
    ensures Transfer(instr, old(vm.View())) == Done(status, vm.View())
  {
    if instr.a > N_REG {
      return VM_ILL_REGISTER;
    }
    var addr := ToU(Add64(vm.registers[instr.a], instr.arg));
    if addr < DATA_BASE {
      return VM_ILL_MEM_ACCESS;
    }
    var value;
    status, value := MemRead64(vm, addr, 0);
    if status == VM_OK {
      if ToU(value) >= DATA_BASE {
        return VM_INVALID_JMP;
      }
      vm.pc := ToU(value);
    }
  }

  /** Both set or both clear. */
  predicate EqLog(a: bv8, b: bv8) {
    (a != 0 && b != 0) || (a == 0 && b == 0)
  }

  // JMP: PC = target always
  method InstrJMP(vm: VM, instr: Instruction) returns (status: VMError)
    requires instr.op == JMP && instr.mode == IMM
    requires vm.Shaped() && ExecJump(instr, vm.View()).Done?
    modifies vm`pc
    ensures ExecJump(instr, old(vm.View())) == Done(status, vm.View())
  {
    status := Jump(vm, instr);
  }

  method InstrJMPR(vm: VM, instr: Instruction) returns (status: VMError)
    requires instr.op == JMP && instr.mode == REGU
    requires vm.Shaped() && ExecJump(instr, vm.View()).Done?
    modifies vm`pc
    ensures ExecJump(instr, old(vm.View())) == Done(status, vm.View())
  {
    status := JumpR(vm, instr);
  }

  method InstrJMPD(vm: VM, instr: Instruction) returns (status: VMError)
    requires instr.op == JMP && instr.mode == DIR
    requires vm.Shaped() && ExecJump(instr, vm.View()).Done?
    modifies vm`pc
    ensures ExecJump(instr, old(vm.View())) == Done(status, vm.View())
  {
    status := JumpD(vm, instr);
  }

  method InstrJMPI(vm: VM, instr: Instruction) returns (status: VMError)
    requires instr.op == JMP && instr.mode == IND
    requires vm.Shaped() && ExecJump(instr, vm.View()).Done?
    modifies vm`pc
    ensures ExecJump(instr, old(vm.View())) == Done(status, vm.View())
  {
    status := JumpI(vm, instr);
  }

  method InstrJMPX(vm: VM, instr: Instruction) returns (status: VMError)
    requires instr.op == JMP && instr.mode == IDX
    requires vm.Shaped() && ExecJump(instr, vm.View()).Done?
    modifies vm`pc
    ensures ExecJump(instr, old(vm.View())) == Done(status, vm.View())
  {
    status := JumpX(vm, instr);
  }

  // JEQ: PC = target if Z
  method InstrJEQ(vm: VM, instr: Instruction) returns (status: VMError)
    requires instr.op == JEQ && instr.mode == IMM
    requires vm.Shaped() && ExecJump(instr, vm.View()).Done?
    modifies vm`pc
    ensures ExecJump(instr, old(vm.View())) == Done(status, vm.View())
  {
    if vm.GetSRZF() == 0 {
      return VM_OK;
    }
    status := Jump(vm, instr);
  }

  method InstrJEQR(vm: VM, instr: Instruction) returns (status: VMError)
    requires instr.op == JEQ && instr.mode == REGU
    requires vm.Shaped() && ExecJump(instr, vm.View()).Done?
    modifies vm`pc
    ensures ExecJump(instr, old(vm.View())) == Done(status, vm.View())
  {
    if vm.GetSRZF() == 0 {
      return VM_OK;
    }
    status := JumpR(vm, instr);
  }

  method InstrJEQD(vm: VM, instr: Instruction) returns (status: VMError)
    requires instr.op == JEQ && instr.mode == DIR
    requires vm.Shaped() && ExecJump(instr, vm.View()).Done?
    modifies vm`pc
    ensures ExecJump(instr, old(vm.View())) == Done(status, vm.View())
  {
    if vm.GetSRZF() == 0 {
      return VM_OK;
    }
    status := JumpD(vm, instr);
  }

  method InstrJEQI(vm: VM, instr: Instruction) returns (status: VMError)
    requires instr.op == JEQ && instr.mode == IND
    requires vm.Shaped() && ExecJump(instr, vm.View()).Done?
    modifies vm`pc
    ensures ExecJump(instr, old(vm.View())) == Done(status, vm.View())
  {
    if vm.GetSRZF() == 0 {
      return VM_OK;
    }
    status := JumpI(vm, instr);
  }

  method InstrJEQX(vm: VM, instr: Instruction) returns (status: VMError)
    requires instr.op == JEQ && instr.mode == IDX
    requires vm.Shaped() && ExecJump(instr, vm.View()).Done?
    modifies vm`pc
    ensures ExecJump(instr, old(vm.View())) == Done(status, vm.View())
  {
    if vm.GetSRZF() == 0 {
      return VM_OK;
    }
    status := JumpX(vm, instr);
  }

  // JNE: PC = target if !Z (the indirect form tests Z)
  method InstrJNE(vm: VM, instr: Instruction) returns (status: VMError)
    requires instr.op == JNE && instr.mode == IMM
    requires vm.Shaped() && ExecJump(instr, vm.View()).Done?
    modifies vm`pc
    ensures ExecJump(instr, old(vm.View())) == Done(status, vm.View())
  {
    if vm.GetSRZF() != 0 {
      return VM_OK;
    }
    status := Jump(vm, instr);
  }

  method InstrJNER(vm: VM, instr: Instruction) returns (status: VMError)
    requires instr.op == JNE && instr.mode == REGU
    requires vm.Shaped() && ExecJump(instr, vm.View()).Done?
    modifies vm`pc
    ensures ExecJump(instr, old(vm.View())) == Done(status, vm.View())
  {
    if vm.GetSRZF() != 0 {
      return VM_OK;
    }
    status := JumpR(vm, instr);
  }

  method InstrJNED(vm: VM, instr: Instruction) returns (status: VMError)
    requires instr.op == JNE && instr.mode == DIR
    requires vm.Shaped() && ExecJump(instr, vm.View()).Done?
    modifies vm`pc
    ensures ExecJump(instr, old(vm.View())) == Done(status, vm.View())
  {
    if vm.GetSRZF() != 0 {
      return VM_OK;
    }
    status := JumpD(vm, instr);
  }

  method InstrJNEI(vm: VM, instr: Instruction) returns (status: VMError)
    requires instr.op == JNE && instr.mode == IND
    requires vm.Shaped() && ExecJump(instr, vm.View()).Done?
    modifies vm`pc
    ensures ExecJump(instr, old(vm.View())) == Done(status, vm.View())
  {
    if vm.GetSRZF() == 0 {
      return VM_OK;
    }
    status := JumpI(vm, instr);
  }

  method InstrJNEX(vm: VM, instr: Instruction) returns (status: VMError)
    requires instr.op == JNE && instr.mode == IDX
    requires vm.Shaped() && ExecJump(instr, vm.View()).Done?
    modifies vm`pc
    ensures ExecJump(instr, old(vm.View())) == Done(status, vm.View())
  {
    if vm.GetSRZF() != 0 {
      return VM_OK;
    }
    status := JumpX(vm, instr);
  }

  // JLE: PC = target if Z or N != O
  method InstrJLE(vm: VM, instr: Instruction) returns (status: VMError)
    requires instr.op == JLE && instr.mode == IMM
    requires vm.Shaped() && ExecJump(instr, vm.View()).Done?
    modifies vm`pc
    ensures ExecJump(instr, old(vm.View())) == Done(status, vm.View())
  {
    if vm.GetSRZF() == 0 && EqLog(vm.GetSRNF(), vm.GetSROF()) {
      return VM_OK;
    }
    status := Jump(vm, instr);
  }

  method InstrJLER(vm: VM, instr: Instruction) returns (status: VMError)
    requires instr.op == JLE && instr.mode == REGU
    requires vm.Shaped() && ExecJump(instr, vm.View()).Done?
    modifies vm`pc
    ensures ExecJump(instr, old(vm.View())) == Done(status, vm.View())
  {
    if vm.GetSRZF() == 0 && EqLog(vm.GetSRNF(), vm.GetSROF()) {
      return VM_OK;
    }
    status := JumpR(vm, instr);
  }

  method InstrJLED(vm: VM, instr: Instruction) returns (status: VMError)
    requires instr.op == JLE && instr.mode == DIR
    requires vm.Shaped() && ExecJump(instr, vm.View()).Done?
    modifies vm`pc
    ensures ExecJump(instr, old(vm.View())) == Done(status, vm.View())
  {
    if vm.GetSRZF() == 0 && EqLog(vm.GetSRNF(), vm.GetSROF()) {
      return VM_OK;
    }
    status := JumpD(vm, instr);
  }

  method InstrJLEI(vm: VM, instr: Instruction) returns (status: VMError)
    requires instr.op == JLE && instr.mode == IND
    requires vm.Shaped() && ExecJump(instr, vm.View()).Done?
    modifies vm`pc
    ensures ExecJump(instr, old(vm.View())) == Done(status, vm.View())
  {
    if vm.GetSRZF() == 0 && EqLog(vm.GetSRNF(), vm.GetSROF()) {
      return VM_OK;
    }
    status := JumpI(vm, instr);
  }

  method InstrJLEX(vm: VM, instr: Instruction) returns (status: VMError)
    requires instr.op == JLE && instr.mode == IDX
    requires vm.Shaped() && ExecJump(instr, vm.View()).Done?
    modifies vm`pc
    ensures ExecJump(instr, old(vm.View())) == Done(status, vm.View())
  {
    if vm.GetSRZF() == 0 && EqLog(vm.GetSRNF(), vm.GetSROF()) {
      return VM_OK;
    }
    status := JumpX(vm, instr);
  }

  // JLT: PC = target if N != O
  method InstrJLT(vm: VM, instr: Instruction) returns (status: VMError)
    requires instr.op == JLT && instr.mode == IMM
    requires vm.Shaped() && ExecJump(instr, vm.View()).Done?
    modifies vm`pc
    ensures ExecJump(instr, old(vm.View())) == Done(status, vm.View())
  {
    if EqLog(vm.GetSRNF(), vm.GetSROF()) {
      return VM_OK;
    }
    status := Jump(vm, instr);
  }

  method InstrJLTR(vm: VM, instr: Instruction) returns (status: VMError)
    requires instr.op == JLT && instr.mode == REGU
    requires vm.Shaped() && ExecJump(instr, vm.View()).Done?
    modifies vm`pc
    ensures ExecJump(instr, old(vm.View())) == Done(status, vm.View())
  {
    if EqLog(vm.GetSRNF(), vm.GetSROF()) {
      return VM_OK;
    }
    status := JumpR(vm, instr);
  }

  method InstrJLTD(vm: VM, instr: Instruction) returns (status: VMError)
    requires instr.op == JLT && instr.mode == DIR
    requires vm.Shaped() && ExecJump(instr, vm.View()).Done?
    modifies vm`pc
    ensures ExecJump(instr, old(vm.View())) == Done(status, vm.View())
  {
    if EqLog(vm.GetSRNF(), vm.GetSROF()) {
      return VM_OK;
    }
    status := JumpD(vm, instr);
  }

  method InstrJLTI(vm: VM, instr: Instruction) returns (status: VMError)
    requires instr.op == JLT && instr.mode == IND
    requires vm.Shaped() && ExecJump(instr, vm.View()).Done?
    modifies vm`pc
    ensures ExecJump(instr, old(vm.View())) == Done(status, vm.View())
  {
    if EqLog(vm.GetSRNF(), vm.GetSROF()) {
      return VM_OK;
    }
    status := JumpI(vm, instr);
  }

  method InstrJLTX(vm: VM, instr: Instruction) returns (status: VMError)
    requires instr.op == JLT && instr.mode == IDX
    requires vm.Shaped() && ExecJump(instr, vm.View()).Done?
    modifies vm`pc
    ensures ExecJump(instr, old(vm.View())) == Done(status, vm.View())
  {
    if EqLog(vm.GetSRNF(), vm.GetSROF()) {
      return VM_OK;
    }
    status := JumpX(vm, instr);
  }

  // JGE: PC = target if N = O
  method InstrJGE(vm: VM, instr: Instruction) returns (status: VMError)
    requires instr.op == JGE && instr.mode == IMM
    requires vm.Shaped() && ExecJump(instr, vm.View()).Done?
    modifies vm`pc
    ensures ExecJump(instr, old(vm.View())) == Done(status, vm.View())
  {
    if !EqLog(vm.GetSRNF(), vm.GetSROF()) {
      return VM_OK;
    }
    status := Jump(vm, instr);
  }

  method InstrJGER(vm: VM, instr: Instruction) returns (status: VMError)
    requires instr.op == JGE && instr.mode == REGU
    requires vm.Shaped() && ExecJump(instr, vm.View()).Done?
    modifies vm`pc
    ensures ExecJump(instr, old(vm.View())) == Done(status, vm.View())
  {
    if !EqLog(vm.GetSRNF(), vm.GetSROF()) {
      return VM_OK;
    }
    status := JumpR(vm, instr);
  }

  method InstrJGED(vm: VM, instr: Instruction) returns (status: VMError)
    requires instr.op == JGE && instr.mode == DIR
    requires vm.Shaped() && ExecJump(instr, vm.View()).Done?
    modifies vm`pc
    ensures ExecJump(instr, old(vm.View())) == Done(status, vm.View())
  {
    if !EqLog(vm.GetSRNF(), vm.GetSROF()) {
      return VM_OK;
    }
    status := JumpD(vm, instr);
  }

  method InstrJGEI(vm: VM, instr: Instruction) returns (status: VMError)
    requires instr.op == JGE && instr.mode == IND
    requires vm.Shaped() && ExecJump(instr, vm.View()).Done?
    modifies vm`pc
    ensures ExecJump(instr, old(vm.View())) == Done(status, vm.View())
  {
    if !EqLog(vm.GetSRNF(), vm.GetSROF()) {
      return VM_OK;
    }
    status := JumpI(vm, instr);
  }

  method InstrJGEX(vm: VM, instr: Instruction) returns (status: VMError)
    requires instr.op == JGE && instr.mode == IDX
    requires vm.Shaped() && ExecJump(instr, vm.View()).Done?
    modifies vm`pc
    ensures ExecJump(instr, old(vm.View())) == Done(status, vm.View())
  {
    if !EqLog(vm.GetSRNF(), vm.GetSROF()) {
      return VM_OK;
    }
    status := JumpX(vm, instr);
  }

  // JGT: PC = target if !Z and N = O
  method InstrJGT(vm: VM, instr: Instruction) returns (status: VMError)
    requires instr.op == JGT && instr.mode == IMM
    requires vm.Shaped() && ExecJump(instr, vm.View()).Done?
    modifies vm`pc
    ensures ExecJump(instr, old(vm.View())) == Done(status, vm.View())
  {
    if vm.GetSRZF() != 0 || !EqLog(vm.GetSRNF(), vm.GetSROF()) {
      return VM_OK;
    }
    status := Jump(vm, instr);
  }

  method InstrJGTR(vm: VM, instr: Instruction) returns (status: VMError)
    requires instr.op == JGT && instr.mode == REGU
    requires vm.Shaped() && ExecJump(instr, vm.View()).Done?
    modifies vm`pc
    ensures ExecJump(instr, old(vm.View())) == Done(status, vm.View())
  {
    if vm.GetSRZF() != 0 || !EqLog(vm.GetSRNF(), vm.GetSROF()) {
      return VM_OK;
    }
    status := JumpR(vm, instr);
  }

  method InstrJGTD(vm: VM, instr: Instruction) returns (status: VMError)
    requires instr.op == JGT && instr.mode == DIR
    requires vm.Shaped() && ExecJump(instr, vm.View()).Done?
    modifies vm`pc
    ensures ExecJump(instr, old(vm.View())) == Done(status, vm.View())
  {
    if vm.GetSRZF() != 0 || !EqLog(vm.GetSRNF(), vm.GetSROF()) {
      return VM_OK;
    }
    status := JumpD(vm, instr);
  }

  method InstrJGTI(vm: VM, instr: Instruction) returns (status: VMError)
    requires instr.op == JGT && instr.mode == IND
    requires vm.Shaped() && ExecJump(instr, vm.View()).Done?
    modifies vm`pc
    ensures ExecJump(instr, old(vm.View())) == Done(status, vm.View())
  {
    if vm.GetSRZF() != 0 || !EqLog(vm.GetSRNF(), vm.GetSROF()) {
      return VM_OK;
    }
    status := JumpI(vm, instr);
  }

  method InstrJGTX(vm: VM, instr: Instruction) returns (status: VMError)
    requires instr.op == JGT && instr.mode == IDX
    requires vm.Shaped() && ExecJump(instr, vm.View()).Done?
    modifies vm`pc
    ensures ExecJump(instr, old(vm.View())) == Done(status, vm.View())
  {
    if vm.GetSRZF() != 0 || !EqLog(vm.GetSRNF(), vm.GetSROF()) {
      return VM_OK;
    }
    status := JumpX(vm, instr);
  }
}
