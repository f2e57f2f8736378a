/**
 The dispatch tables: one method per operation's table, and the table of tables.
 */
module Dispatch {
  import opened Common
  import opened Isa
  import opened Machine
  import opened Vm
  import opened AluHandlers
  import opened DataHandlers
  import opened ControlHandlers
  import opened Syscalls

  method DispatchADD(vm: VM, instr: Instruction) returns (status: VMError)
    requires instr.op == ADD && HasHandler(ADD, instr.mode)
    requires vm.Shaped() && ExecAlu(instr, vm.View()).Done?
    modifies vm`sr, vm.registers
    ensures ExecAlu(instr, old(vm.View())) == Done(status, vm.View())
  {
    if instr.mode == IMM {
      status := InstrADD(vm, instr);
    } else if instr.mode == REG {
      status := InstrADDR(vm, instr);
    } else if instr.mode == DIR {
      status := InstrADDD(vm, instr);
    } else if instr.mode == IND {
      status := InstrADDI(vm, instr);
    } else {
      status := InstrADDX(vm, instr);
    }
  }

  method DispatchSUB(vm: VM, instr: Instruction) returns (status: VMError)
    requires instr.op == SUB && HasHandler(SUB, instr.mode)
    requires vm.Shaped() && ExecAlu(instr, vm.View()).Done?
    modifies vm`sr, vm.registers
    ensures ExecAlu(instr, old(vm.View())) == Done(status, vm.View())
  {
    if instr.mode == IMM {
      status := InstrSUB(vm, instr);
    } else if instr.mode == REG {
      status := InstrSUBR(vm, instr);
    } else if instr.mode == DIR {
      status := InstrSUBD(vm, instr);
    } else if instr.mode == IND {
      status := InstrSUBI(vm, instr);
    } else {
      status := InstrSUBX(vm, instr);
    }
  }

  method DispatchMUL(vm: VM, instr: Instruction) returns (status: VMError)
    requires instr.op == MUL && HasHandler(MUL, instr.mode)
    requires vm.Shaped() && ExecAlu(instr, vm.View()).Done?
    modifies vm`sr, vm.registers
    ensures ExecAlu(instr, old(vm.View())) == Done(status, vm.View())
  {
    if instr.mode == IMM {
      status := InstrMUL(vm, instr);
    } else if instr.mode == REG {
      status := InstrMULR(vm, instr);
    } else if instr.mode == DIR {
      status := InstrMULD(vm, instr);
    } else if instr.mode == IND {
      status := InstrMULI(vm, instr);
    } else {
      status := InstrMULX(vm, instr);
    }
  }

  method DispatchDIV(vm: VM, instr: Instruction) returns (status: VMError)
    requires instr.op == DIV && HasHandler(DIV, instr.mode)
    requires vm.Shaped() && ExecAlu(instr, vm.View()).Done?
    modifies vm`sr, vm.registers
    ensures ExecAlu(instr, old(vm.View())) == Done(status, vm.View())
  {
    if instr.mode == IMM {
      status := InstrDIV(vm, instr);
    } else if instr.mode == REG {
      status := InstrDIVR(vm, instr);
    } else if instr.mode == DIR {
      status := InstrDIVD(vm, instr);
    } else if instr.mode == IND {
      status := InstrDIVI(vm, instr);
    } else {
      status := InstrDIVX(vm, instr);
    }
  }

  method DispatchCMP(vm: VM, instr: Instruction) returns (status: VMError)
    requires instr.op == CMP && HasHandler(CMP, instr.mode)
    requires vm.Shaped() && ExecAlu(instr, vm.View()).Done?
    modifies vm`sr, vm.registers
    ensures ExecAlu(instr, old(vm.View())) == Done(status, vm.View())
  {
    if instr.mode == IMM {
      status := InstrCMP(vm, instr);
    } else if instr.mode == REG {
      status := InstrCMPR(vm, instr);
    } else if instr.mode == DIR {
      status := InstrCMPD(vm, instr);
    } else if instr.mode == IND {
      status := InstrCMPI(vm, instr);
    } else {
      status := InstrCMPX(vm, instr);
    }
  }

  method DispatchAND(vm: VM, instr: Instruction) returns (status: VMError)
    requires instr.op == AND && HasHandler(AND, instr.mode)
    requires vm.Shaped() && ExecAlu(instr, vm.View()).Done?
    modifies vm`sr, vm.registers
    ensures ExecAlu(instr, old(vm.View())) == Done(status, vm.View())
  {
    if instr.mode == IMM {
      status := InstrAND(vm, instr);
    } else if instr.mode == REG {
      status := InstrANDR(vm, instr);
    } else if instr.mode == DIR {
      status := InstrANDD(vm, instr);
    } else if instr.mode == IND {
      status := InstrANDI(vm, instr);
    } else {
      status := InstrANDX(vm, instr);
    }
  }

  method DispatchOR(vm: VM, instr: Instruction) returns (status: VMError)
    requires instr.op == OR && HasHandler(OR, instr.mode)
    requires vm.Shaped() && ExecAlu(instr, vm.View()).Done?
    modifies vm`sr, vm.registers
    ensures ExecAlu(instr, old(vm.View())) == Done(status, vm.View())
  {
    if instr.mode == IMM {
      status := InstrOR(vm, instr);
    } else if instr.mode == REG {
      status := InstrORR(vm, instr);
    } else if instr.mode == DIR {
      status := InstrORD(vm, instr);
    } else if instr.mode == IND {
      status := InstrORI(vm, instr);
    } else {
      status := InstrORX(vm, instr);
    }
  }

  method DispatchXOR(vm: VM, instr: Instruction) returns (status: VMError)
    requires instr.op == XOR && HasHandler(XOR, instr.mode)
    requires vm.Shaped() && ExecAlu(instr, vm.View()).Done?
    modifies vm`sr, vm.registers
    ensures ExecAlu(instr, old(vm.View())) == Done(status, vm.View())
  {
    if instr.mode == IMM {
      status := InstrXOR(vm, instr);
    } else if instr.mode == REG {
      status := InstrXORR(vm, instr);
    } else if instr.mode == DIR {
      status := InstrXORD(vm, instr);
    } else if instr.mode == IND {
      status := InstrXORI(vm, instr);
    } else {
      status := InstrXORX(vm, instr);
    }
  }

  method DispatchSHL(vm: VM, instr: Instruction) returns (status: VMError)
    requires instr.op == SHL && HasHandler(SHL, instr.mode)
    requires vm.Shaped() && ExecAlu(instr, vm.View()).Done?
    modifies vm`sr, vm.registers
    ensures ExecAlu(instr, old(vm.View())) == Done(status, vm.View())
  {
    if instr.mode == IMM {
      status := InstrSHL(vm, instr);
    } else if instr.mode == REG {
      status := InstrSHLR(vm, instr);
    } else if instr.mode == DIR {
      status := InstrSHLD(vm, instr);
    } else if instr.mode == IND {
      status := InstrSHLI(vm, instr);
    } else {
      status := InstrSHLX(vm, instr);
    }
  }

  method DispatchSHR(vm: VM, instr: Instruction) returns (status: VMError)
    requires instr.op == SHR && HasHandler(SHR, instr.mode)
    requires vm.Shaped() && ExecAlu(instr, vm.View()).Done?
    modifies vm`sr, vm.registers
    ensures ExecAlu(instr, old(vm.View())) == Done(status, vm.View())
  {
    if instr.mode == IMM {
      status := InstrSHR(vm, instr);
    } else if instr.mode == REG {
      status := InstrSHRR(vm, instr);
    } else if instr.mode == DIR {
      status := InstrSHRD(vm, instr);
    } else if instr.mode == IND {
      status := InstrSHRI(vm, instr);
    } else {
      status := InstrSHRX(vm, instr);
    }
  }

  method DispatchST(vm: VM, instr: Instruction) returns (status: VMError)
    requires instr.op == ST && HasHandler(ST, instr.mode)
    requires vm.Shaped() && ExecStore(instr, vm.View()).Done?
    modifies vm.memory
    ensures ExecStore(instr, old(vm.View())) == Done(status, vm.View())
  {
    if instr.mode == DIR {
      status := InstrSTD(vm, instr);
    } else if instr.mode == IND {
      status := InstrSTI(vm, instr);
    } else {
      status := InstrSTX(vm, instr);
    }
  }

  method DispatchLD(vm: VM, instr: Instruction) returns (status: VMError)
    requires instr.op == LD && HasHandler(LD, instr.mode)
    requires vm.Shaped() && ExecLoad(instr, vm.View()).Done?
    modifies vm.registers
    ensures ExecLoad(instr, old(vm.View())) == Done(status, vm.View())
  {
    if instr.mode == IMM {
      status := InstrLD(vm, instr);
    } else if instr.mode == REG {
      status := InstrLDR(vm, instr);
    } else if instr.mode == DIR {
      status := InstrLDD(vm, instr);
    } else if instr.mode == IND {
      status := InstrLDI(vm, instr);
    } else {
      status := InstrLDX(vm, instr);
    }
  }

  method DispatchSWP(vm: VM, instr: Instruction) returns (status: VMError)
    requires instr.op == SWP && HasHandler(SWP, instr.mode)
    requires vm.Shaped() && ExecSwap(instr, vm.View()).Done?
    modifies vm.registers, vm.memory
    ensures ExecSwap(instr, old(vm.View())) == Done(status, vm.View())
  {
    if instr.mode == REG {
      status := InstrSWPR(vm, instr);
    } else if instr.mode == DIR {
      status := InstrSWPD(vm, instr);
    } else if instr.mode == IND {
      status := InstrSWPI(vm, instr);
    } else {
      status := InstrSWPX(vm, instr);
    }
  }

  method DispatchPUSH(vm: VM, instr: Instruction) returns (status: VMError)
    requires instr.op == PUSH && HasHandler(PUSH, instr.mode)
    requires vm.Shaped() && ExecPush(instr, vm.View()).Done?
    modifies vm`sp, vm.memory
    ensures ExecPush(instr, old(vm.View())) == Done(status, vm.View())
  {
    if instr.mode == IMM {
      status := InstrPUSH(vm, instr);
    } else {
      status := InstrPUSHR(vm, instr);
    }
  }

  method DispatchFAS(vm: VM, instr: Instruction) returns (status: VMError)
    requires instr.op == FAS && HasHandler(FAS, instr.mode)
    requires vm.Shaped() && ExecFas(instr, vm.View()).Done?
    modifies vm.registers, vm.memory
    ensures ExecFas(instr, old(vm.View())) == Done(status, vm.View())
  {
    if instr.mode == DIR {
      status := InstrFASD(vm, instr);
    } else if instr.mode == IND {
      status := InstrFASI(vm, instr);
    } else {
      status := InstrFASX(vm, instr);
    }
  }

  method DispatchCALL(vm: VM, instr: Instruction) returns (status: VMError)
    requires instr.op == CALL && HasHandler(CALL, instr.mode)
    requires vm.Shaped() && ExecCall(instr, vm.View()).Done?
    modifies vm`sp, vm`pc, vm.memory
    ensures ExecCall(instr, old(vm.View())) == Done(status, vm.View())
  {
    if instr.mode == IMM {
      status := InstrCALL(vm, instr);
    } else if instr.mode == REGU {
      status := InstrCALLR(vm, instr);
    } else if instr.mode == DIR {
      status := InstrCALLD(vm, instr);
    } else if instr.mode == IND {
      status := InstrCALLI(vm, instr);
    } else {
      status := InstrCALLX(vm, instr);
    }
  }

  method DispatchJMP(vm: VM, instr: Instruction) returns (status: VMError)
    requires instr.op == JMP && HasHandler(JMP, instr.mode)
    requires vm.Shaped() && ExecJump(instr, vm.View()).Done?
    modifies vm`pc
    ensures ExecJump(instr, old(vm.View())) == Done(status, vm.View())
  {
    if instr.mode == IMM {
      status := InstrJMP(vm, instr);
    } else if instr.mode == REGU {
      status := InstrJMPR(vm, instr);
    } else if instr.mode == DIR {
      status := InstrJMPD(vm, instr);
    } else if instr.mode == IND {
      status := InstrJMPI(vm, instr);
    } else {
      status := InstrJMPX(vm, instr);
    }
  }

  method DispatchJEQ(vm: VM, instr: Instruction) returns (status: VMError)
    requires instr.op == JEQ && HasHandler(JEQ, instr.mode)
    requires vm.Shaped() && ExecJump(instr, vm.View()).Done?
    modifies vm`pc
    ensures ExecJump(instr, old(vm.View())) == Done(status, vm.View())
  {
    if instr.mode == IMM {
      status := InstrJEQ(vm, instr);
    } else if instr.mode == REGU {
      status := InstrJEQR(vm, instr);
    } else if instr.mode == DIR {
      status := InstrJEQD(vm, instr);
    } else if instr.mode == IND {
      status := InstrJEQI(vm, instr);
    } else {
      status := InstrJEQX(vm, instr);
    }
  }

  method DispatchJNE(vm: VM, instr: Instruction) returns (status: VMError)
    requires instr.op == JNE && HasHandler(JNE, instr.mode)
    requires vm.Shaped() && ExecJump(instr, vm.View()).Done?
    modifies vm`pc
    ensures ExecJump(instr, old(vm.View())) == Done(status, vm.View())
  {
    if instr.mode == IMM {
      status := InstrJNE(vm, instr);
    } else if instr.mode == REGU {
      status := InstrJNER(vm, instr);
    } else if instr.mode == DIR {
      status := InstrJNED(vm, instr);
    } else if instr.mode == IND {
      status := InstrJNEI(vm, instr);
    } else {
      status := InstrJNEX(vm, instr);
    }
  }

  method DispatchJLE(vm: VM, instr: Instruction) returns (status: VMError)
    requires instr.op == JLE && HasHandler(JLE, instr.mode)
    requires vm.Shaped() && ExecJump(instr, vm.View()).Done?
    modifies vm`pc
    ensures ExecJump(instr, old(vm.View())) == Done(status, vm.View())
  {
    if instr.mode == IMM {
      status := InstrJLE(vm, instr);
    } else if instr.mode == REGU {
      status := InstrJLER(vm, instr);
    } else if instr.mode == DIR {
      status := InstrJLED(vm, instr);
    } else if instr.mode == IND {
      status := InstrJLEI(vm, instr);
    } else {
      status := InstrJLEX(vm, instr);
    }
  }

  method DispatchJLT(vm: VM, instr: Instruction) returns (status: VMError)
    requires instr.op == JLT && HasHandler(JLT, instr.mode)
    requires vm.Shaped() && ExecJump(instr, vm.View()).Done?
    modifies vm`pc
    ensures ExecJump(instr, old(vm.View())) == Done(status, vm.View())
  {
    if instr.mode == IMM {
      status := InstrJLT(vm, instr);
    } else if instr.mode == REGU {
      status := InstrJLTR(vm, instr);
    } else if instr.mode == DIR {
      status := InstrJLTD(vm, instr);
    } else if instr.mode == IND {
      status := InstrJLTI(vm, instr);
    } else {
      status := InstrJLTX(vm, instr);
    }
  }

  method DispatchJGE(vm: VM, instr: Instruction) returns (status: VMError)
    requires instr.op == JGE && HasHandler(JGE, instr.mode)
    requires vm.Shaped() && ExecJump(instr, vm.View()).Done?
    modifies vm`pc
    ensures ExecJump(instr, old(vm.View())) == Done(status, vm.View())
  {
    if instr.mode == IMM {
      status := InstrJGE(vm, instr);
    } else if instr.mode == REGU {
      status := InstrJGER(vm, instr);
    } else if instr.mode == DIR {
      status := InstrJGED(vm, instr);
    } else if instr.mode == IND {
      status := InstrJGEI(vm, instr);
    } else {
      status := InstrJGEX(vm, instr);
    }
  }

  method DispatchJGT(vm: VM, instr: Instruction) returns (status: VMError)
    requires instr.op == JGT && HasHandler(JGT, instr.mode)
    requires vm.Shaped() && ExecJump(instr, vm.View()).Done?
    modifies vm`pc
    ensures ExecJump(instr, old(vm.View())) == Done(status, vm.View())
  {
    if instr.mode == IMM {
      status := InstrJGT(vm, instr);
    } else if instr.mode == REGU {
      status := InstrJGTR(vm, instr);
    } else if instr.mode == DIR {
      status := InstrJGTD(vm, instr);
    } else if instr.mode == IND {
      status := InstrJGTI(vm, instr);
    } else {
      status := InstrJGTX(vm, instr);
    }
  }

  /** Selects the syscall by the low 32 bits of R0; the index must lie inside the table. */
  method InstrTRAP(vm: VM, instr: Instruction) returns (ending: Ending)
    requires vm.Valid() && ExecTrap(vm.View()) != Stuck(UndefinedBehaviour)
    modifies vm, vm.registers, vm.memory, vm.nodes
    ensures vm.Valid() && ExecTrap(old(vm.View())) == Observed(ending, vm.View())
    ensures ending.Departs? ==> vm.View() == old(vm.View())
    ensures vm.NodesKnown()
  {
    hide SysExit, SysMalloc, SysFree, SysMemset;
    var id := ToInt32(vm.registers[0]);
    var status := VM_UNKNOWN_SYSCALL;
    if id == 9 {
      SyscallsHaveOutcomes(vm.View());
      status := SyscallEXIT(vm);
    } else if id == 10 {
      SyscallsHaveOutcomes(vm.View());
      status := SyscallMALLOC(vm);
    } else if id == 11 {
      SyscallsHaveOutcomes(vm.View());
      status := SyscallFREE(vm);
    } else if id == 12 {
      SyscallsHaveOutcomes(vm.View());
      status := SyscallMEMSET(vm);
    } else if id != 2 && id < 17 {
      return Departs(ForeignCall);
    }
    return Status(status);
  }

  /** A modelled syscall has an outcome, or is undefined in C. */
  lemma SyscallsHaveOutcomes(s: State)
    ensures forall o :: o == SysExit(s) || o == SysMalloc(s) || o == SysFree(s) || o == SysMemset(s)
                        ==> o.Done? || o == Stuck(UndefinedBehaviour)
  {
    hide ExecPop;
    PopHasOutcome(s);
    if ExecPop(0, s).Done? {
      var s1 := ExecPop(0, s).next;
      PopHasOutcome(s1);
      if ExecPop(0, s1).Done? { PopHasOutcome(ExecPop(0, s1).next); }
    }
  }

  lemma PopHasOutcome(s: State)
    ensures ExecPop(0, s).Done? || ExecPop(0, s) == Stuck(UndefinedBehaviour)
  {
  }

  method DispatchAlu(vm: VM, instr: Instruction) returns (status: VMError)
    requires IsAlu(instr.op) && HasHandler(instr.op, instr.mode)
    requires vm.Shaped() && ExecAlu(instr, vm.View()).Done?
    modifies vm`sr, vm.registers
    ensures ExecAlu(instr, old(vm.View())) == Done(status, vm.View())
  {
    match instr.op
    case ADD => status := DispatchADD(vm, instr);
    case SUB => status := DispatchSUB(vm, instr);
    case MUL => status := DispatchMUL(vm, instr);
    case DIV => status := DispatchDIV(vm, instr);
    case CMP => status := DispatchCMP(vm, instr);
    case AND => status := DispatchAND(vm, instr);
    case OR => status := DispatchOR(vm, instr);
    case XOR => status := DispatchXOR(vm, instr);
    case SHL => status := DispatchSHL(vm, instr);
    case SHR => status := DispatchSHR(vm, instr);
  }

  method DispatchJump(vm: VM, instr: Instruction) returns (status: VMError)
    requires IsJump(instr.op) && HasHandler(instr.op, instr.mode)
    requires vm.Shaped() && ExecJump(instr, vm.View()).Done?
    modifies vm`pc
    ensures ExecJump(instr, old(vm.View())) == Done(status, vm.View())
  {
    match instr.op
    case JMP => status := DispatchJMP(vm, instr);
    case JEQ => status := DispatchJEQ(vm, instr);
    case JNE => status := DispatchJNE(vm, instr);
    case JLE => status := DispatchJLE(vm, instr);
    case JLT => status := DispatchJLT(vm, instr);
    case JGE => status := DispatchJGE(vm, instr);
    case JGT => status := DispatchJGT(vm, instr);
  }

  method DispatchData(vm: VM, instr: Instruction) returns (status: VMError)
    requires IsData(instr.op) && HasHandler(instr.op, instr.mode)
    requires vm.Shaped() && ExecData(instr, vm.View()).Done?
    modifies vm`sp, vm.registers, vm.memory
    ensures ExecData(instr, old(vm.View())) == Done(status, vm.View())
  {
    if instr.op == ST {
      status := DispatchST(vm, instr);
    } else if instr.op == LD {
      status := DispatchLD(vm, instr);
    } else if instr.op == SWP {
      status := DispatchSWP(vm, instr);
    } else if instr.op == PUSH {
      status := DispatchPUSH(vm, instr);
    } else if instr.op == POP {
      status := InstrPOP(vm, instr);
    } else {
      status := DispatchFAS(vm, instr);
    }
  }

  method DispatchControl(vm: VM, instr: Instruction) returns (ending: Ending)
    requires !IsAlu(instr.op) && !IsData(instr.op) && !IsJump(instr.op) && HasHandler(instr.op, instr.mode)
    requires vm.Valid() && ExecControl(instr, vm.View()) != Stuck(UndefinedBehaviour)
    modifies vm, vm.registers, vm.memory, vm.nodes
    ensures vm.Valid() && ExecControl(instr, old(vm.View())) == Observed(ending, vm.View())
    ensures ending.Departs? ==> vm.View() == old(vm.View())
    ensures vm.NodesKnown()
  {
    hide ExecTrap, ExecUnary, ExecCall, ExecReturn, Chain, Records, Initial;
    if instr.op != TRAP { ControlHasOutcome(instr, vm.View()); }
    var status;
    if instr.op == NEG {
      status := InstrNEG(vm, instr);
    } else if instr.op == NOT {
      status := InstrNOT(vm, instr);
    } else if instr.op == CALL {
      status := DispatchCALL(vm, instr);
    } else if instr.op == RTN {
      status := InstrRTN(vm, instr);
    } else if instr.op == NOP {
      status := InstrNOP(vm, instr);
    } else if instr.op == RST {
      status := InstrRST(vm, instr);
    } else if instr.op == HALT {
      status := InstrHALT(vm, instr);
    } else {
      ending := InstrTRAP(vm, instr);
      return;
    }
    return Status(status);
  }

  lemma ControlHasOutcome(i: Instruction, s: State)
    requires !IsAlu(i.op) && !IsData(i.op) && !IsJump(i.op) && HasHandler(i.op, i.mode) && i.op != TRAP
    ensures ExecControl(i, s).Done? || ExecControl(i, s) == Stuck(UndefinedBehaviour)
  {
    hide Load64, Store64;
  }

  /** Only a TRAP can leave the machine for the host. */
  lemma ExecHasOutcome(i: Instruction, s: State)
    requires HasHandler(i.op, i.mode) && (IsAlu(i.op) || IsData(i.op) || IsJump(i.op))
    ensures Exec(i, s).Done? || Exec(i, s) == Stuck(UndefinedBehaviour)
  {
    hide HasHandler, IsAlu, IsData, IsJump, ExecAlu, ExecData, ExecJump, ExecControl;
    if IsAlu(i.op) {
      AluHasOutcome(i, s);
    } else if IsData(i.op) {
      DataHasOutcome(i, s);
    } else {
      JumpHasOutcome(i, s);
    }
  }

  lemma AluHasOutcome(i: Instruction, s: State)
    requires IsAlu(i.op) && HasHandler(i.op, i.mode)
    ensures ExecAlu(i, s).Done? || ExecAlu(i, s) == Stuck(UndefinedBehaviour)
  {
    hide Operand, Alu;
  }

  lemma DataHasOutcome(i: Instruction, s: State)
    requires IsData(i.op) && HasHandler(i.op, i.mode)
    ensures ExecData(i, s).Done? || ExecData(i, s) == Stuck(UndefinedBehaviour)
  {
    hide Load64, Store64;
  }

  lemma JumpHasOutcome(i: Instruction, s: State)
    requires IsJump(i.op) && HasHandler(i.op, i.mode)
    ensures ExecJump(i, s).Done? || ExecJump(i, s) == Stuck(UndefinedBehaviour)
  {
    hide Load64, Taken;
  }

  /** get_handler(op, mode)(vm, instr): every handler has exactly the effect Exec assigns to it. */
  method CallHandler(vm: VM, instr: Instruction) returns (ending: Ending)
    requires HasHandler(instr.op, instr.mode)
    requires vm.Valid() && Exec(instr, vm.View()) != Stuck(UndefinedBehaviour)
    modifies vm, vm.registers, vm.memory, vm.nodes
    ensures vm.Valid() && Exec(instr, old(vm.View())) == Observed(ending, vm.View())
    ensures ending.Departs? ==> vm.View() == old(vm.View())
    ensures vm.NodesKnown()
  {
    hide ExecAlu, ExecData, ExecJump, ExecControl, HasHandler;
    if IsAlu(instr.op) || IsData(instr.op) || IsJump(instr.op) {
      ExecHasOutcome(instr, vm.View());
      var status;
      if IsAlu(instr.op) {
        status := DispatchAlu(vm, instr);
      } else if IsData(instr.op) {
        status := DispatchData(vm, instr);
      } else {
        status := DispatchJump(vm, instr);
      }
      return Status(status);
    }
    ending := DispatchControl(vm, instr);
  }
}
