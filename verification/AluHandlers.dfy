/**
 The handlers of the ten two-operand operations in their five addressing modes, and of NEG and
 NOT. Each one repeats its own register guard, address guard, memory read and flag call, as the
 source does; each is proved equal to the one uniform rule ExecAlu (or ExecUnary).
 */
module AluHandlers {
  import opened Common
  import opened Words
  import opened Isa
  import opened Machine
  import opened Vm
  import opened MemoryUnit
  import opened StatusRegister

  function Div64(a: int64, b: int64): int64
    requires b != 0 && !(a == INT64_MIN && b == -1)
  {
    TruncDivIsRepresentable(a, b);
    TruncDiv(a, b)
  }

  function Shl64(a: int64, n: nat): int64 {
    Wrap(a * Pow2(n))
  }

  /** The rule for ADD and SUB, spelled out. */
  lemma AddSubRules(a: int64, b: int64)
    ensures Alu(ADD, a, b)
            == Result(Add64(a, b), Flags(Add64(a, b) == 0, Add64(a, b) < 0, Add64(a, b) < a, !Representable(a + b)))
    ensures Alu(SUB, a, b)
            == Result(Sub64(a, b), Flags(Sub64(a, b) == 0, Sub64(a, b) < 0, ToU(a) < ToU(b), !Representable(a - b)))
  {
  }

  // ADD R0, x: R0 += x
  method InstrADD(vm: VM, instr: Instruction) returns (status: VMError)
    requires instr.op == ADD && instr.mode == IMM
    requires vm.Shaped() && ExecAlu(instr, vm.View()).Done?
    modifies vm`sr, vm.registers
    ensures ExecAlu(instr, old(vm.View())) == Done(status, vm.View())
  {
    hide HasHandler, Load64, WithFlags, Bitwise64, Representable, Alu, Add64, Sub64, ToU;
    if instr.a >= N_REG {
      return VM_ILL_REGISTER;
    }
    var a, b := vm.registers[instr.a], instr.arg;
    var res := Add64(a, b);
    vm.registers[instr.a] := res;
    AddSubRules(a, b);
    SetSRADD(vm, a, b, res);
    return VM_OK;
  }

  // ADD R0, R1: R0 += R1
  method InstrADDR(vm: VM, instr: Instruction) returns (status: VMError)
    requires instr.op == ADD && instr.mode == REG
    requires vm.Shaped() && ExecAlu(instr, vm.View()).Done?
    modifies vm`sr, vm.registers
    ensures ExecAlu(instr, old(vm.View())) == Done(status, vm.View())
  {
    hide HasHandler, Load64, WithFlags, Bitwise64, Representable, Alu, Add64, Sub64, ToU;
    if instr.a >= N_REG || instr.b >= N_REG {
      return VM_ILL_REGISTER;
    }
    var b := vm.registers[instr.b];
    var res := Add64(vm.registers[instr.a], b);
    AddSubRules(vm.registers[instr.a], b);
    SetSRADD(vm, vm.registers[instr.a], b, res);
    vm.registers[instr.a] := res;
    return VM_OK;
  }

  // ADD R0, [x]: R0 += MEM[x]
  method InstrADDD(vm: VM, instr: Instruction) returns (status: VMError)
    requires instr.op == ADD && instr.mode == DIR
    requires vm.Shaped() && ExecAlu(instr, vm.View()).Done?
    modifies vm`sr, vm.registers
    ensures ExecAlu(instr, old(vm.View())) == Done(status, vm.View())
  {
    hide HasHandler, Load64, WithFlags, Bitwise64, Representable, Alu, Add64, Sub64, ToU;
    if instr.a >= N_REG {
      return VM_ILL_REGISTER;
    }
    var addr := ToU(instr.arg);
    if addr < DATA_BASE {
      return VM_ILL_MEM_ACCESS;
    }
    var value;
    status, value := MemRead64(vm, addr, 0);
    if status == VM_OK {
      var res := Add64(vm.registers[instr.a], value);
      AddSubRules(vm.registers[instr.a], value);
      SetSRADD(vm, vm.registers[instr.a], value, res);
      vm.registers[instr.a] := res;
    }
  }

  // ADD R0, [R1]: R0 += MEM[R1]
  method InstrADDI(vm: VM, instr: Instruction) returns (status: VMError)
    requires instr.op == ADD && instr.mode == IND
    requires vm.Shaped() && ExecAlu(instr, vm.View()).Done?
    modifies vm`sr, vm.registers
    ensures ExecAlu(instr, old(vm.View())) == Done(status, vm.View())
  {
    hide HasHandler, Load64, WithFlags, Bitwise64, Representable, Alu, Add64, Sub64, ToU;
    if instr.a >= N_REG || instr.b >= N_REG {
      return VM_ILL_REGISTER;
    }
    var addr := ToU(vm.registers[instr.b]);
    if addr < DATA_BASE {
      return VM_ILL_MEM_ACCESS;
    }
    var value;
    status, value := MemRead64(vm, addr, 0);
    if status == VM_OK {
      var res := Add64(vm.registers[instr.a], value);
      AddSubRules(vm.registers[instr.a], value);
      SetSRADD(vm, vm.registers[instr.a], value, res);
      vm.registers[instr.a] := res;
    }
  }

  // ADD R0, [R1+x]: R0 += MEM[R1+x]
  method InstrADDX(vm: VM, instr: Instruction) returns (status: VMError)
    requires instr.op == ADD && instr.mode == IDX
    requires vm.Shaped() && ExecAlu(instr, vm.View()).Done?
    modifies vm`sr, vm.registers
    ensures ExecAlu(instr, old(vm.View())) == Done(status, vm.View())
  {
    hide HasHandler, Load64, WithFlags, Bitwise64, Representable, Alu, Add64, Sub64, ToU;
    if instr.a >= N_REG || instr.b >= N_REG {
      return VM_ILL_REGISTER;
    }
    var addr := ToU(Add64(vm.registers[instr.b], instr.arg));
    if addr < DATA_BASE {
      return VM_ILL_MEM_ACCESS;
    }
    var value;
    status, value := MemRead64(vm, addr, 0);
    if status == VM_OK {
      var res := Add64(vm.registers[instr.a], value);
      AddSubRules(vm.registers[instr.a], value);
      SetSRADD(vm, vm.registers[instr.a], value, res);
      vm.registers[instr.a] := res;
    }
  }

  // SUB R0, x: R0 -= x
  method InstrSUB(vm: VM, instr: Instruction) returns (status: VMError)
    requires instr.op == SUB && instr.mode == IMM
    requires vm.Shaped() && ExecAlu(instr, vm.View()).Done?
    modifies vm`sr, vm.registers
    ensures ExecAlu(instr, old(vm.View())) == Done(status, vm.View())
  {
    hide HasHandler, Load64, WithFlags, Bitwise64, Representable, Alu, Add64, Sub64, ToU;
    if instr.a >= N_REG {
      return VM_ILL_REGISTER;
    }
    var res := Sub64(vm.registers[instr.a], instr.arg);
    AddSubRules(vm.registers[instr.a], instr.arg);
    SetSRSUB(vm, vm.registers[instr.a], instr.arg, res);
    vm.registers[instr.a] := res;
    return VM_OK;
  }

  // SUB R0, R1: R0 -= R1
  method InstrSUBR(vm: VM, instr: Instruction) returns (status: VMError)
    requires instr.op == SUB && instr.mode == REG
    requires vm.Shaped() && ExecAlu(instr, vm.View()).Done?
    modifies vm`sr, vm.registers
    ensures ExecAlu(instr, old(vm.View())) == Done(status, vm.View())
  {
    hide HasHandler, Load64, WithFlags, Bitwise64, Representable, Alu, Add64, Sub64, ToU;
    if instr.a >= N_REG || instr.b >= N_REG {
      return VM_ILL_REGISTER;
    }
    var b := vm.registers[instr.b];
    var res := Sub64(vm.registers[instr.a], b);
    AddSubRules(vm.registers[instr.a], b);
    SetSRSUB(vm, vm.registers[instr.a], b, res);
    vm.registers[instr.a] := res;
    return VM_OK;
  }

  // SUB R0, [x]: R0 -= MEM[x]
  method InstrSUBD(vm: VM, instr: Instruction) returns (status: VMError)
    requires instr.op == SUB && instr.mode == DIR
    requires vm.Shaped() && ExecAlu(instr, vm.View()).Done?
    modifies vm`sr, vm.registers
    ensures ExecAlu(instr, old(vm.View())) == Done(status, vm.View())
  {
    hide HasHandler, Load64, WithFlags, Bitwise64, Representable, Alu, Add64, Sub64, ToU;
    if instr.a >= N_REG {
      return VM_ILL_REGISTER;
    }
    var addr := ToU(instr.arg);
    if addr < DATA_BASE {
      return VM_ILL_MEM_ACCESS;
    }
    var value;
    status, value := MemRead64(vm, addr, 0);
    if status == VM_OK {
      var res := Sub64(vm.registers[instr.a], value);
      AddSubRules(vm.registers[instr.a], value);
      SetSRSUB(vm, vm.registers[instr.a], value, res);
      vm.registers[instr.a] := res;
    }
  }

  // SUB R0, [R1]: R0 -= MEM[R1]
  method InstrSUBI(vm: VM, instr: Instruction) returns (status: VMError)
    requires instr.op == SUB && instr.mode == IND
    requires vm.Shaped() && ExecAlu(instr, vm.View()).Done?
    modifies vm`sr, vm.registers
    ensures ExecAlu(instr, old(vm.View())) == Done(status, vm.View())
  {
    hide HasHandler, Load64, WithFlags, Bitwise64, Representable, Alu, Add64, Sub64, ToU;
    if instr.a >= N_REG || instr.b >= N_REG {
      return VM_ILL_REGISTER;
    }
    var addr := ToU(vm.registers[instr.b]);
    if addr < DATA_BASE {
      return VM_ILL_MEM_ACCESS;
    }
    var value;
    status, value := MemRead64(vm, addr, 0);
    if status == VM_OK {
      var res := Sub64(vm.registers[instr.a], value);
      AddSubRules(vm.registers[instr.a], value);
      SetSRSUB(vm, vm.registers[instr.a], value, res);
      vm.registers[instr.a] := res;
    }
  }

  // SUB R0, [R1+x]: R0 -= MEM[R1+x]
  method InstrSUBX(vm: VM, instr: Instruction) returns (status: VMError)
    requires instr.op == SUB && instr.mode == IDX
    requires vm.Shaped() && ExecAlu(instr, vm.View()).Done?
    modifies vm`sr, vm.registers
    ensures ExecAlu(instr, old(vm.View())) == Done(status, vm.View())
  {
    hide HasHandler, Load64, WithFlags, Bitwise64, Representable, Alu, Add64, Sub64, ToU;
    if instr.a >= N_REG || instr.b >= N_REG {
      return VM_ILL_REGISTER;
    }
    var addr := ToU(Add64(vm.registers[instr.b], instr.arg));
    if addr < DATA_BASE {
      return VM_ILL_MEM_ACCESS;
    }
    var value;
    status, value := MemRead64(vm, addr, 0);
    if status == VM_OK {
      var res := Sub64(vm.registers[instr.a], value);
      AddSubRules(vm.registers[instr.a], value);
      SetSRSUB(vm, vm.registers[instr.a], value, res);
      vm.registers[instr.a] := res;
    }
  }

  // MUL R0, x: R0 *= x
  method InstrMUL(vm: VM, instr: Instruction) returns (status: VMError)
    requires instr.op == MUL && instr.mode == IMM
    requires vm.Shaped() && ExecAlu(instr, vm.View()).Done?
    modifies vm`sr, vm.registers
    ensures ExecAlu(instr, old(vm.View())) == Done(status, vm.View())
  {
    hide HasHandler, Load64, WithFlags, Bitwise64, Representable, Wrap, Add64, Sub64, Mul64, ToS, ToU;
    if instr.a >= N_REG {
      return VM_ILL_REGISTER;
    }
    var res := Mul64(vm.registers[instr.a], instr.arg);
    SetSRMUL(vm, vm.registers[instr.a], instr.arg, res);
    vm.registers[instr.a] := res;
    return VM_OK;
  }

  // MUL R0, R1: R0 *= R1
  method InstrMULR(vm: VM, instr: Instruction) returns (status: VMError)
    requires instr.op == MUL && instr.mode == REG
    requires vm.Shaped() && ExecAlu(instr, vm.View()).Done?
    modifies vm`sr, vm.registers
    ensures ExecAlu(instr, old(vm.View())) == Done(status, vm.View())
  {
    hide HasHandler, Load64, WithFlags, Bitwise64, Representable, Wrap, Add64, Sub64, Mul64, ToS, ToU;
    if instr.a >= N_REG || instr.b >= N_REG {
      return VM_ILL_REGISTER;
    }
    var b := vm.registers[instr.b];
    var res := Mul64(vm.registers[instr.a], b);
    SetSRMUL(vm, vm.registers[instr.a], b, res);
    vm.registers[instr.a] := res;
    return VM_OK;
  }

  // MUL R0, [x]: R0 *= MEM[x]
  method InstrMULD(vm: VM, instr: Instruction) returns (status: VMError)
    requires instr.op == MUL && instr.mode == DIR
    requires vm.Shaped() && ExecAlu(instr, vm.View()).Done?
    modifies vm`sr, vm.registers
    ensures ExecAlu(instr, old(vm.View())) == Done(status, vm.View())
  {
    hide HasHandler, Load64, WithFlags, Bitwise64, Representable, Wrap, Add64, Sub64, Mul64, ToS, ToU;
    if instr.a >= N_REG {
      return VM_ILL_REGISTER;
    }
    var addr := ToU(instr.arg);
    if addr < DATA_BASE {
      return VM_ILL_MEM_ACCESS;
    }
    var value;
    status, value := MemRead64(vm, addr, 0);
    if status == VM_OK {
      var res := Mul64(vm.registers[instr.a], value);
      SetSRMUL(vm, vm.registers[instr.a], value, res);
      vm.registers[instr.a] := res;
    }
  }

  // MUL R0, [R1]: R0 *= MEM[R1]
  method InstrMULI(vm: VM, instr: Instruction) returns (status: VMError)
    requires instr.op == MUL && instr.mode == IND
    requires vm.Shaped() && ExecAlu(instr, vm.View()).Done?
    modifies vm`sr, vm.registers
    ensures ExecAlu(instr, old(vm.View())) == Done(status, vm.View())
  {
    hide HasHandler, Load64, WithFlags, Bitwise64, Representable, Wrap, Add64, Sub64, Mul64, ToS, ToU;
    if instr.a >= N_REG || instr.b >= N_REG {
      return VM_ILL_REGISTER;
    }
    var addr := ToU(vm.registers[instr.b]);
    if addr < DATA_BASE {
      return VM_ILL_MEM_ACCESS;
    }
    var value;
    status, value := MemRead64(vm, addr, 0);
    if status == VM_OK {
      var res := Mul64(vm.registers[instr.a], value);
      SetSRMUL(vm, vm.registers[instr.a], value, res);
      vm.registers[instr.a] := res;
    }
  }

  // MUL R0, [R1+x]: R0 *= MEM[R1+x]
  method InstrMULX(vm: VM, instr: Instruction) returns (status: VMError)
    requires instr.op == MUL && instr.mode == IDX
    requires vm.Shaped() && ExecAlu(instr, vm.View()).Done?
    modifies vm`sr, vm.registers
    ensures ExecAlu(instr, old(vm.View())) == Done(status, vm.View())
  {
    hide HasHandler, Load64, WithFlags, Bitwise64, Representable, Wrap, Add64, Sub64, Mul64, ToS, ToU;
    if instr.a >= N_REG || instr.b >= N_REG {
      return VM_ILL_REGISTER;
    }
    var addr := ToU(Add64(vm.registers[instr.b], instr.arg));
    if addr < DATA_BASE {
      return VM_ILL_MEM_ACCESS;
    }
    var value;
    status, value := MemRead64(vm, addr, 0);
    if status == VM_OK {
      var res := Mul64(vm.registers[instr.a], value);
      SetSRMUL(vm, vm.registers[instr.a], value, res);
      vm.registers[instr.a] := res;
    }
  }

  // DIV R0, x: R0 /= x
  method InstrDIV(vm: VM, instr: Instruction) returns (status: VMError)
    requires instr.op == DIV && instr.mode == IMM
    requires vm.Shaped() && ExecAlu(instr, vm.View()).Done?
    modifies vm`sr, vm.registers
    ensures ExecAlu(instr, old(vm.View())) == Done(status, vm.View())
  {
    hide HasHandler, Load64, WithFlags, Bitwise64, Representable, Wrap, Add64, Sub64, Mul64, ToS, ToU;
    if instr.a >= N_REG {
      return VM_ILL_REGISTER;
    }
    if instr.arg == 0 {
      return VM_DIV_ZERO;
    }
    var res := Div64(vm.registers[instr.a], instr.arg);
    SetSRDIV(vm, res);
    vm.registers[instr.a] := res;
    return VM_OK;
  }

  // DIV R0, R1: R0 /= R1
  method InstrDIVR(vm: VM, instr: Instruction) returns (status: VMError)
    requires instr.op == DIV && instr.mode == REG
    requires vm.Shaped() && ExecAlu(instr, vm.View()).Done?
    modifies vm`sr, vm.registers
    ensures ExecAlu(instr, old(vm.View())) == Done(status, vm.View())
  {
    hide HasHandler, Load64, WithFlags, Bitwise64, Representable, Wrap, Add64, Sub64, Mul64, ToS, ToU;
    if instr.a >= N_REG || instr.b >= N_REG {
      return VM_ILL_REGISTER;
    }
    var b := vm.registers[instr.b];
    if b == 0 {
      return VM_DIV_ZERO;
    }
    var res := Div64(vm.registers[instr.a], b);
    SetSRDIV(vm, res);
    vm.registers[instr.a] := res;
    return VM_OK;
  }

  // DIV R0, [x]: R0 /= MEM[x]
  method InstrDIVD(vm: VM, instr: Instruction) returns (status: VMError)
    requires instr.op == DIV && instr.mode == DIR
    requires vm.Shaped() && ExecAlu(instr, vm.View()).Done?
    modifies vm`sr, vm.registers
    ensures ExecAlu(instr, old(vm.View())) == Done(status, vm.View())
  {
    hide HasHandler, Load64, WithFlags, Bitwise64, Representable, Wrap, Add64, Sub64, Mul64, ToS, ToU;
    if instr.a >= N_REG {
      return VM_ILL_REGISTER;
    }
    var addr := ToU(instr.arg);
    if addr < DATA_BASE {
      return VM_ILL_MEM_ACCESS;
    }
    var value;
    status, value := MemRead64(vm, addr, 0);
    if status == VM_OK {
      if value == 0 {
        return VM_DIV_ZERO;
      }
      var res := Div64(vm.registers[instr.a], value);
      SetSRDIV(vm, res);
      vm.registers[instr.a] := res;
    }
  }

  // DIV R0, [R1]: R0 /= MEM[R1]
  method InstrDIVI(vm: VM, instr: Instruction) returns (status: VMError)
    requires instr.op == DIV && instr.mode == IND
    requires vm.Shaped() && ExecAlu(instr, vm.View()).Done?
    modifies vm`sr, vm.registers
    ensures ExecAlu(instr, old(vm.View())) == Done(status, vm.View())
  {
    hide HasHandler, Load64, WithFlags, Bitwise64, Representable, Wrap, Add64, Sub64, Mul64, ToS, ToU;
    if instr.a >= N_REG || instr.b >= N_REG {
      return VM_ILL_REGISTER;
    }
    var addr := ToU(vm.registers[instr.b]);
    if addr < DATA_BASE {
      return VM_ILL_MEM_ACCESS;
    }
    var value;
    status, value := MemRead64(vm, addr, 0);
    if status == VM_OK {
      if value == 0 {
        return VM_DIV_ZERO;
      }
      var res := Div64(vm.registers[instr.a], value);
      SetSRDIV(vm, res);
      vm.registers[instr.a] := res;
    }
  }

  // DIV R0, [R1+x]: R0 /= MEM[R1+x]
  method InstrDIVX(vm: VM, instr: Instruction) returns (status: VMError)
    requires instr.op == DIV && instr.mode == IDX
    requires vm.Shaped() && ExecAlu(instr, vm.View()).Done?
    modifies vm`sr, vm.registers
    ensures ExecAlu(instr, old(vm.View())) == Done(status, vm.View())
  {
    hide HasHandler, Load64, WithFlags, Bitwise64, Representable, Wrap, Add64, Sub64, Mul64, ToS, ToU;
    if instr.a >= N_REG || instr.b >= N_REG {
      return VM_ILL_REGISTER;
    }
    var addr := ToU(Add64(vm.registers[instr.b], instr.arg));
    if addr < DATA_BASE {
      return VM_ILL_MEM_ACCESS;
    }
    var value;
    status, value := MemRead64(vm, addr, 0);
    if status == VM_OK {
      if value == 0 {
        return VM_DIV_ZERO;
      }
      var res := Div64(vm.registers[instr.a], value);
      SetSRDIV(vm, res);
      vm.registers[instr.a] := res;
    }
  }

  // CMP R0, x: flags of R0 - x
  method InstrCMP(vm: VM, instr: Instruction) returns (status: VMError)
    requires instr.op == CMP && instr.mode == IMM
    requires vm.Shaped() && ExecAlu(instr, vm.View()).Done?
    modifies vm`sr
    ensures ExecAlu(instr, old(vm.View())) == Done(status, vm.View())
  {
    hide HasHandler, Load64, WithFlags, Bitwise64, Representable, Wrap, Add64, Sub64, Mul64, ToS, ToU;
    if instr.a >= N_REG {
      return VM_ILL_REGISTER;
    }
    var res := Sub64(vm.registers[instr.a], instr.arg);
    SetSRSUB(vm, vm.registers[instr.a], instr.arg, res);
    return VM_OK;
  }

  // CMP R0, R1: flags of R0 - R1
  method InstrCMPR(vm: VM, instr: Instruction) returns (status: VMError)
    requires instr.op == CMP && instr.mode == REG
    requires vm.Shaped() && ExecAlu(instr, vm.View()).Done?
    modifies vm`sr
    ensures ExecAlu(instr, old(vm.View())) == Done(status, vm.View())
  {
    hide HasHandler, Load64, WithFlags, Bitwise64, Representable, Wrap, Add64, Sub64, Mul64, ToS, ToU;
    if instr.a >= N_REG || instr.b >= N_REG {
      return VM_ILL_REGISTER;
    }
    var b := vm.registers[instr.b];
    var res := Sub64(vm.registers[instr.a], b);
    SetSRSUB(vm, vm.registers[instr.a], b, res);
    return VM_OK;
  }

  // CMP R0, [x]: flags of R0 - MEM[x]
  method InstrCMPD(vm: VM, instr: Instruction) returns (status: VMError)
    requires instr.op == CMP && instr.mode == DIR
    requires vm.Shaped() && ExecAlu(instr, vm.View()).Done?
    modifies vm`sr
    ensures ExecAlu(instr, old(vm.View())) == Done(status, vm.View())
  {
    hide HasHandler, Load64, WithFlags, Bitwise64, Representable, Wrap, Add64, Sub64, Mul64, ToS, ToU;
    if instr.a >= N_REG {
      return VM_ILL_REGISTER;
    }
    var addr := ToU(instr.arg);
    if addr < DATA_BASE {
      return VM_ILL_MEM_ACCESS;
    }
    var value;
    status, value := MemRead64(vm, addr, 0);
    if status == VM_OK {
      var res := Sub64(vm.registers[instr.a], value);
      SetSRSUB(vm, vm.registers[instr.a], value, res);
    }
  }

  // CMP R0, [R1]: flags of R0 - MEM[R1]
  method InstrCMPI(vm: VM, instr: Instruction) returns (status: VMError)
    requires instr.op == CMP && instr.mode == IND
    requires vm.Shaped() && ExecAlu(instr, vm.View()).Done?
    modifies vm`sr
    ensures ExecAlu(instr, old(vm.View())) == Done(status, vm.View())
  {
    hide HasHandler, Load64, WithFlags, Bitwise64, Representable, Wrap, Add64, Sub64, Mul64, ToS, ToU;
    if instr.a >= N_REG || instr.b >= N_REG {
      return VM_ILL_REGISTER;
    }
    var addr := ToU(vm.registers[instr.b]);
    if addr < DATA_BASE {
      return VM_ILL_MEM_ACCESS;
    }
    var value;
    status, value := MemRead64(vm, addr, 0);
    if status == VM_OK {
      var res := Sub64(vm.registers[instr.a], value);
      SetSRSUB(vm, vm.registers[instr.a], value, res);
    }
  }

  // CMP R0, [R1+x]: flags of R0 - MEM[R1+x]
  method InstrCMPX(vm: VM, instr: Instruction) returns (status: VMError)
    requires instr.op == CMP && instr.mode == IDX
    requires vm.Shaped() && ExecAlu(instr, vm.View()).Done?
    modifies vm`sr
    ensures ExecAlu(instr, old(vm.View())) == Done(status, vm.View())
  {
    hide HasHandler, Load64, WithFlags, Bitwise64, Representable, Wrap, Add64, Sub64, Mul64, ToS, ToU;
    if instr.a >= N_REG || instr.b >= N_REG {
      return VM_ILL_REGISTER;
    }
    var addr := ToU(Add64(vm.registers[instr.b], instr.arg));
    if addr < DATA_BASE {
      return VM_ILL_MEM_ACCESS;
    }
    var value;
    status, value := MemRead64(vm, addr, 0);
    if status == VM_OK {
      var res := Sub64(vm.registers[instr.a], value);
      SetSRSUB(vm, vm.registers[instr.a], value, res);
    }
  }

  // AND R0, x: R0 &= x
  method InstrAND(vm: VM, instr: Instruction) returns (status: VMError)
    requires instr.op == AND && instr.mode == IMM
    requires vm.Shaped() && ExecAlu(instr, vm.View()).Done?
    modifies vm`sr, vm.registers
    ensures ExecAlu(instr, old(vm.View())) == Done(status, vm.View())
  {
    hide HasHandler, Load64, WithFlags, Bitwise64, Representable, Wrap, Add64, Sub64, Mul64, ToS, ToU;
    if instr.a >= N_REG {
      return VM_ILL_REGISTER;
    }
    vm.registers[instr.a] := Bitwise64(And, vm.registers[instr.a], instr.arg);
    SetSRLOG(vm, vm.registers[instr.a]);
    return VM_OK;
  }

  // AND R0, R1: R0 &= R1
  method InstrANDR(vm: VM, instr: Instruction) returns (status: VMError)
    requires instr.op == AND && instr.mode == REG
    requires vm.Shaped() && ExecAlu(instr, vm.View()).Done?
    modifies vm`sr, vm.registers
    ensures ExecAlu(instr, old(vm.View())) == Done(status, vm.View())
  {
    hide HasHandler, Load64, WithFlags, Bitwise64, Representable, Wrap, Add64, Sub64, Mul64, ToS, ToU;
    if instr.a >= N_REG || instr.b >= N_REG {
      return VM_ILL_REGISTER;
    }
    vm.registers[instr.a] := Bitwise64(And, vm.registers[instr.a], vm.registers[instr.b]);
    SetSRLOG(vm, vm.registers[instr.a]);
    return VM_OK;
  }

  // AND R0, [x]: R0 &= MEM[x]
  method InstrANDD(vm: VM, instr: Instruction) returns (status: VMError)
    requires instr.op == AND && instr.mode == DIR
    requires vm.Shaped() && ExecAlu(instr, vm.View()).Done?
    modifies vm`sr, vm.registers
    ensures ExecAlu(instr, old(vm.View())) == Done(status, vm.View())
  {
    hide HasHandler, Load64, WithFlags, Bitwise64, Representable, Wrap, Add64, Sub64, Mul64, ToS, ToU;
    if instr.a >= N_REG {
      return VM_ILL_REGISTER;
    }
    var addr := ToU(instr.arg);
    if addr < DATA_BASE {
      return VM_ILL_MEM_ACCESS;
    }
    var value;
    status, value := MemRead64(vm, addr, 0);
    if status == VM_OK {
      vm.registers[instr.a] := Bitwise64(And, vm.registers[instr.a], value);
      SetSRLOG(vm, vm.registers[instr.a]);
    }
  }

  // AND R0, [R1]: R0 &= MEM[R1]
  method InstrANDI(vm: VM, instr: Instruction) returns (status: VMError)
    requires instr.op == AND && instr.mode == IND
    requires vm.Shaped() && ExecAlu(instr, vm.View()).Done?
    modifies vm`sr, vm.registers
    ensures ExecAlu(instr, old(vm.View())) == Done(status, vm.View())
  {
    hide HasHandler, Load64, WithFlags, Bitwise64, Representable, Wrap, Add64, Sub64, Mul64, ToS, ToU;
    if instr.a >= N_REG || instr.b >= N_REG {
      return VM_ILL_REGISTER;
    }
    var addr := ToU(vm.registers[instr.b]);
    if addr < DATA_BASE {
      return VM_ILL_MEM_ACCESS;
    }
    var value;
    status, value := MemRead64(vm, addr, 0);
    if status == VM_OK {
      vm.registers[instr.a] := Bitwise64(And, vm.registers[instr.a], value);
      SetSRLOG(vm, vm.registers[instr.a]);
    }
  }

  // AND R0, [R1+x]: R0 &= MEM[R1+x]
  method InstrANDX(vm: VM, instr: Instruction) returns (status: VMError)
    requires instr.op == AND && instr.mode == IDX
    requires vm.Shaped() && ExecAlu(instr, vm.View()).Done?
    modifies vm`sr, vm.registers
    ensures ExecAlu(instr, old(vm.View())) == Done(status, vm.View())
  {
    hide HasHandler, Load64, WithFlags, Bitwise64, Representable, Wrap, Add64, Sub64, Mul64, ToS, ToU;
    if instr.a >= N_REG || instr.b >= N_REG {
      return VM_ILL_REGISTER;
    }
    var addr := ToU(Add64(vm.registers[instr.b], instr.arg));
    if addr < DATA_BASE {
      return VM_ILL_MEM_ACCESS;
    }
    var value;
    status, value := MemRead64(vm, addr, 0);
    if status == VM_OK {
      vm.registers[instr.a] := Bitwise64(And, vm.registers[instr.a], value);
      SetSRLOG(vm, vm.registers[instr.a]);
    }
  }

  // OR R0, x: R0 |= x
  method InstrOR(vm: VM, instr: Instruction) returns (status: VMError)
    requires instr.op == OR && instr.mode == IMM
    requires vm.Shaped() && ExecAlu(instr, vm.View()).Done?
    modifies vm`sr, vm.registers
    ensures ExecAlu(instr, old(vm.View())) == Done(status, vm.View())
  {
    hide HasHandler, Load64, WithFlags, Bitwise64, Representable, Wrap, Add64, Sub64, Mul64, ToS, ToU;
    if instr.a >= N_REG {
      return VM_ILL_REGISTER;
    }
    vm.registers[instr.a] := Bitwise64(Or, vm.registers[instr.a], instr.arg);
    SetSRLOG(vm, vm.registers[instr.a]);
    return VM_OK;
  }

  // OR R0, R1: R0 |= R1
  method InstrORR(vm: VM, instr: Instruction) returns (status: VMError)
    requires instr.op == OR && instr.mode == REG
    requires vm.Shaped() && ExecAlu(instr, vm.View()).Done?
    modifies vm`sr, vm.registers
    ensures ExecAlu(instr, old(vm.View())) == Done(status, vm.View())
  {
    hide HasHandler, Load64, WithFlags, Bitwise64, Representable, Wrap, Add64, Sub64, Mul64, ToS, ToU;
    if instr.a >= N_REG || instr.b >= N_REG {
      return VM_ILL_REGISTER;
    }
    vm.registers[instr.a] := Bitwise64(Or, vm.registers[instr.a], vm.registers[instr.b]);
    SetSRLOG(vm, vm.registers[instr.a]);
    return VM_OK;
  }

  // OR R0, [x]: R0 |= MEM[x]
  method InstrORD(vm: VM, instr: Instruction) returns (status: VMError)
    requires instr.op == OR && instr.mode == DIR
    requires vm.Shaped() && ExecAlu(instr, vm.View()).Done?
    modifies vm`sr, vm.registers
    ensures ExecAlu(instr, old(vm.View())) == Done(status, vm.View())
  {
    hide HasHandler, Load64, WithFlags, Bitwise64, Representable, Wrap, Add64, Sub64, Mul64, ToS, ToU;
    if instr.a >= N_REG {
      return VM_ILL_REGISTER;
    }
    var addr := ToU(instr.arg);
    if addr < DATA_BASE {
      return VM_ILL_MEM_ACCESS;
    }
    var value;
    status, value := MemRead64(vm, addr, 0);
    if status == VM_OK {
      vm.registers[instr.a] := Bitwise64(Or, vm.registers[instr.a], value);
      SetSRLOG(vm, vm.registers[instr.a]);
    }
  }

  // OR R0, [R1]: R0 |= MEM[R1]
  method InstrORI(vm: VM, instr: Instruction) returns (status: VMError)
    requires instr.op == OR && instr.mode == IND
    requires vm.Shaped() && ExecAlu(instr, vm.View()).Done?
    modifies vm`sr, vm.registers
    ensures ExecAlu(instr, old(vm.View())) == Done(status, vm.View())
  {
    hide HasHandler, Load64, WithFlags, Bitwise64, Representable, Wrap, Add64, Sub64, Mul64, ToS, ToU;
    if instr.a >= N_REG || instr.b >= N_REG {
      return VM_ILL_REGISTER;
    }
    var addr := ToU(vm.registers[instr.b]);
    if addr < DATA_BASE {
      return VM_ILL_MEM_ACCESS;
    }
    var value;
    status, value := MemRead64(vm, addr, 0);
    if status == VM_OK {
      vm.registers[instr.a] := Bitwise64(Or, vm.registers[instr.a], value);
      SetSRLOG(vm, vm.registers[instr.a]);
    }
  }

  // OR R0, [R1+x]: R0 |= MEM[R1+x]
  method InstrORX(vm: VM, instr: Instruction) returns (status: VMError)
    requires instr.op == OR && instr.mode == IDX
    requires vm.Shaped() && ExecAlu(instr, vm.View()).Done?
    modifies vm`sr, vm.registers
    ensures ExecAlu(instr, old(vm.View())) == Done(status, vm.View())
  {
    hide HasHandler, Load64, WithFlags, Bitwise64, Representable, Wrap, Add64, Sub64, Mul64, ToS, ToU;
    if instr.a >= N_REG || instr.b >= N_REG {
      return VM_ILL_REGISTER;
    }
    var addr := ToU(Add64(vm.registers[instr.b], instr.arg));
    if addr < DATA_BASE {
      return VM_ILL_MEM_ACCESS;
    }
    var value;
    status, value := MemRead64(vm, addr, 0);
    if status == VM_OK {
      vm.registers[instr.a] := Bitwise64(Or, vm.registers[instr.a], value);
      SetSRLOG(vm, vm.registers[instr.a]);
    }
  }

  // XOR R0, x: R0 ^= x
  method InstrXOR(vm: VM, instr: Instruction) returns (status: VMError)
    requires instr.op == XOR && instr.mode == IMM
    requires vm.Shaped() && ExecAlu(instr, vm.View()).Done?
    modifies vm`sr, vm.registers
    ensures ExecAlu(instr, old(vm.View())) == Done(status, vm.View())
  {
    hide HasHandler, Load64, WithFlags, Bitwise64, Representable, Wrap, Add64, Sub64, Mul64, ToS, ToU;
    if instr.a >= N_REG {
      return VM_ILL_REGISTER;
    }
    vm.registers[instr.a] := Bitwise64(Xor, vm.registers[instr.a], instr.arg);
    SetSRLOG(vm, vm.registers[instr.a]);
    return VM_OK;
  }

  // XOR R0, R1: R0 ^= R1
  method InstrXORR(vm: VM, instr: Instruction) returns (status: VMError)
    requires instr.op == XOR && instr.mode == REG
    requires vm.Shaped() && ExecAlu(instr, vm.View()).Done?
    modifies vm`sr, vm.registers
    ensures ExecAlu(instr, old(vm.View())) == Done(status, vm.View())
  {
    hide HasHandler, Load64, WithFlags, Bitwise64, Representable, Wrap, Add64, Sub64, Mul64, ToS, ToU;
    if instr.a >= N_REG || instr.b >= N_REG {
      return VM_ILL_REGISTER;
    }
    vm.registers[instr.a] := Bitwise64(Xor, vm.registers[instr.a], vm.registers[instr.b]);
    SetSRLOG(vm, vm.registers[instr.a]);
    return VM_OK;
  }

  // XOR R0, [x]: R0 ^= MEM[x]
  method InstrXORD(vm: VM, instr: Instruction) returns (status: VMError)
    requires instr.op == XOR && instr.mode == DIR
    requires vm.Shaped() && ExecAlu(instr, vm.View()).Done?
    modifies vm`sr, vm.registers
    ensures ExecAlu(instr, old(vm.View())) == Done(status, vm.View())
  {
    hide HasHandler, Load64, WithFlags, Bitwise64, Representable, Wrap, Add64, Sub64, Mul64, ToS, ToU;
    if instr.a >= N_REG {
      return VM_ILL_REGISTER;
    }
    var addr := ToU(instr.arg);
    if addr < DATA_BASE {
      return VM_ILL_MEM_ACCESS;
    }
    var value;
    status, value := MemRead64(vm, addr, 0);
    if status == VM_OK {
      vm.registers[instr.a] := Bitwise64(Xor, vm.registers[instr.a], value);
      SetSRLOG(vm, vm.registers[instr.a]);
    }
  }

  // XOR R0, [R1]: R0 ^= MEM[R1]
  method InstrXORI(vm: VM, instr: Instruction) returns (status: VMError)
    requires instr.op == XOR && instr.mode == IND
    requires vm.Shaped() && ExecAlu(instr, vm.View()).Done?
    modifies vm`sr, vm.registers
    ensures ExecAlu(instr, old(vm.View())) == Done(status, vm.View())
  {
    hide HasHandler, Load64, WithFlags, Bitwise64, Representable, Wrap, Add64, Sub64, Mul64, ToS, ToU;
    if instr.a >= N_REG || instr.b >= N_REG {
      return VM_ILL_REGISTER;
    }
    var addr := ToU(vm.registers[instr.b]);
    if addr < DATA_BASE {
      return VM_ILL_MEM_ACCESS;
    }
    var value;
    status, value := MemRead64(vm, addr, 0);
    if status == VM_OK {
      vm.registers[instr.a] := Bitwise64(Xor, vm.registers[instr.a], value);
      SetSRLOG(vm, vm.registers[instr.a]);
    }
  }

  // XOR R0, [R1+x]: R0 ^= MEM[R1+x]
  method InstrXORX(vm: VM, instr: Instruction) returns (status: VMError)
    requires instr.op == XOR && instr.mode == IDX
    requires vm.Shaped() && ExecAlu(instr, vm.View()).Done?
    modifies vm`sr, vm.registers
    ensures ExecAlu(instr, old(vm.View())) == Done(status, vm.View())
  {
    hide HasHandler, Load64, WithFlags, Bitwise64, Representable, Wrap, Add64, Sub64, Mul64, ToS, ToU;
    if instr.a >= N_REG || instr.b >= N_REG {
      return VM_ILL_REGISTER;
    }
    var addr := ToU(Add64(vm.registers[instr.b], instr.arg));
    if addr < DATA_BASE {
      return VM_ILL_MEM_ACCESS;
    }
    var value;
    status, value := MemRead64(vm, addr, 0);
    if status == VM_OK {
      vm.registers[instr.a] := Bitwise64(Xor, vm.registers[instr.a], value);
      SetSRLOG(vm, vm.registers[instr.a]);
    }
  }

  // SHL R0, x: R0 <<= x
  method InstrSHL(vm: VM, instr: Instruction) returns (status: VMError)
    requires instr.op == SHL && instr.mode == IMM
    requires vm.Shaped() && ExecAlu(instr, vm.View()).Done?
    modifies vm`sr, vm.registers
    ensures ExecAlu(instr, old(vm.View())) == Done(status, vm.View())
  {
    hide HasHandler, Load64, WithFlags, Representable, LeavesAtTop, LeavesAtBottom, Pow2;
    if instr.a >= N_REG {
      return VM_ILL_REGISTER;
    }
    var n := ToU(instr.arg);
    var res := Shl64(vm.registers[instr.a], n);
    SetSRSHL(vm, vm.registers[instr.a], n, res);
    vm.registers[instr.a] := res;
    return VM_OK;
  }

  // SHL R0, R1: R0 <<= R1
  method InstrSHLR(vm: VM, instr: Instruction) returns (status: VMError)
    requires instr.op == SHL && instr.mode == REG
    requires vm.Shaped() && ExecAlu(instr, vm.View()).Done?
    modifies vm`sr, vm.registers
    ensures ExecAlu(instr, old(vm.View())) == Done(status, vm.View())
  {
    hide HasHandler, Load64, WithFlags, Representable, LeavesAtTop, LeavesAtBottom, Pow2;
    if instr.a >= N_REG || instr.b >= N_REG {
      return VM_ILL_REGISTER;
    }
    var b := vm.registers[instr.b];
    var n := ToU(b);
    var res := Shl64(vm.registers[instr.a], n);
    SetSRSHL(vm, vm.registers[instr.a], n, res);
    vm.registers[instr.a] := res;
    return VM_OK;
  }

  // SHL R0, [x]: R0 <<= MEM[x]
  method InstrSHLD(vm: VM, instr: Instruction) returns (status: VMError)
    requires instr.op == SHL && instr.mode == DIR
    requires vm.Shaped() && ExecAlu(instr, vm.View()).Done?
    modifies vm`sr, vm.registers
    ensures ExecAlu(instr, old(vm.View())) == Done(status, vm.View())
  {
    hide HasHandler, Load64, WithFlags, Representable, LeavesAtTop, LeavesAtBottom, Pow2;
    if instr.a >= N_REG {
      return VM_ILL_REGISTER;
    }
    var addr := ToU(instr.arg);
    if addr < DATA_BASE {
      return VM_ILL_MEM_ACCESS;
    }
    var value;
    status, value := MemRead64(vm, addr, 0);
    if status == VM_OK {
      var n := ToU(value);
      var res := Shl64(vm.registers[instr.a], n);
      SetSRSHL(vm, vm.registers[instr.a], n, res);
      vm.registers[instr.a] := res;
    }
  }

  // SHL R0, [R1]: R0 <<= MEM[R1]
  method InstrSHLI(vm: VM, instr: Instruction) returns (status: VMError)
    requires instr.op == SHL && instr.mode == IND
    requires vm.Shaped() && ExecAlu(instr, vm.View()).Done?
    modifies vm`sr, vm.registers
    ensures ExecAlu(instr, old(vm.View())) == Done(status, vm.View())
  {
    hide HasHandler, Load64, WithFlags, Representable, LeavesAtTop, LeavesAtBottom, Pow2;
    if instr.a >= N_REG || instr.b >= N_REG {
      return VM_ILL_REGISTER;
    }
    var addr := ToU(vm.registers[instr.b]);
    if addr < DATA_BASE {
      return VM_ILL_MEM_ACCESS;
    }
    var value;
    status, value := MemRead64(vm, addr, 0);
    if status == VM_OK {
      var n := ToU(value);
      var res := Shl64(vm.registers[instr.a], n);
      SetSRSHL(vm, vm.registers[instr.a], n, res);
      vm.registers[instr.a] := res;
    }
  }

  // SHL R0, [R1+x]: R0 <<= MEM[R1+x]
  method InstrSHLX(vm: VM, instr: Instruction) returns (status: VMError)
    requires instr.op == SHL && instr.mode == IDX
    requires vm.Shaped() && ExecAlu(instr, vm.View()).Done?
    modifies vm`sr, vm.registers
    ensures ExecAlu(instr, old(vm.View())) == Done(status, vm.View())
  {
    hide HasHandler, Load64, WithFlags, Representable, LeavesAtTop, LeavesAtBottom, Pow2;
    if instr.a >= N_REG || instr.b >= N_REG {
      return VM_ILL_REGISTER;
    }
    var addr := ToU(Add64(vm.registers[instr.b], instr.arg));
    if addr < DATA_BASE {
      return VM_ILL_MEM_ACCESS;
    }
    var value;
    status, value := MemRead64(vm, addr, 0);
    if status == VM_OK {
      var n := ToU(value);
      var res := Shl64(vm.registers[instr.a], n);
      SetSRSHL(vm, vm.registers[instr.a], n, res);
      vm.registers[instr.a] := res;
    }
  }

  // SHR R0, x: R0 >>= x
  method InstrSHR(vm: VM, instr: Instruction) returns (status: VMError)
    requires instr.op == SHR && instr.mode == IMM
    requires vm.Shaped() && ExecAlu(instr, vm.View()).Done?
    modifies vm`sr, vm.registers
    ensures ExecAlu(instr, old(vm.View())) == Done(status, vm.View())
  {
    hide HasHandler, Load64, WithFlags, Representable, LeavesAtTop, LeavesAtBottom, Pow2;
    if instr.a >= N_REG {
      return VM_ILL_REGISTER;
    }
    var n := ToU(instr.arg);
    assert n == instr.arg;
    var res := AsrWord(vm.registers[instr.a], n);
    SetSRSHR(vm, vm.registers[instr.a], n, res);
    vm.registers[instr.a] := res;
    return VM_OK;
  }

  // SHR R0, R1: R0 >>= R1
  method InstrSHRR(vm: VM, instr: Instruction) returns (status: VMError)
    requires instr.op == SHR && instr.mode == REG
    requires vm.Shaped() && ExecAlu(instr, vm.View()).Done?
    modifies vm`sr, vm.registers
    ensures ExecAlu(instr, old(vm.View())) == Done(status, vm.View())
  {
    hide HasHandler, Load64, WithFlags, Representable, LeavesAtTop, LeavesAtBottom, Pow2;
    if instr.a >= N_REG || instr.b >= N_REG {
      return VM_ILL_REGISTER;
    }
    var b := vm.registers[instr.b];
    var n := ToU(b);
    assert n == b;
    var res := AsrWord(vm.registers[instr.a], n);
    SetSRSHR(vm, vm.registers[instr.a], n, res);
    vm.registers[instr.a] := res;
    return VM_OK;
  }

  // SHR R0, [x]: R0 >>= MEM[x]
  method InstrSHRD(vm: VM, instr: Instruction) returns (status: VMError)
    requires instr.op == SHR && instr.mode == DIR
    requires vm.Shaped() && ExecAlu(instr, vm.View()).Done?
    modifies vm`sr, vm.registers
    ensures ExecAlu(instr, old(vm.View())) == Done(status, vm.View())
  {
    hide HasHandler, Load64, WithFlags, Representable, LeavesAtTop, LeavesAtBottom, Pow2;
    if instr.a >= N_REG {
      return VM_ILL_REGISTER;
    }
    var addr := ToU(instr.arg);
    if addr < DATA_BASE {
      return VM_ILL_MEM_ACCESS;
    }
    var value;
    status, value := MemRead64(vm, addr, 0);
    if status == VM_OK {
      var n := ToU(value);
      assert n == value;
      var res := AsrWord(vm.registers[instr.a], n);
      SetSRSHR(vm, vm.registers[instr.a], n, res);
      vm.registers[instr.a] := res;
    }
  }

  // SHR R0, [R1]: R0 >>= MEM[R1]
  method InstrSHRI(vm: VM, instr: Instruction) returns (status: VMError)
    requires instr.op == SHR && instr.mode == IND
    requires vm.Shaped() && ExecAlu(instr, vm.View()).Done?
    modifies vm`sr, vm.registers
    ensures ExecAlu(instr, old(vm.View())) == Done(status, vm.View())
  {
    hide HasHandler, Load64, WithFlags, Representable, LeavesAtTop, LeavesAtBottom, Pow2;
    if instr.a >= N_REG || instr.b >= N_REG {
      return VM_ILL_REGISTER;
    }
    var addr := ToU(vm.registers[instr.b]);
    if addr < DATA_BASE {
      return VM_ILL_MEM_ACCESS;
    }
    var value;
    status, value := MemRead64(vm, addr, 0);
    if status == VM_OK {
      var n := ToU(value);
      assert n == value;
      var res := AsrWord(vm.registers[instr.a], n);
      SetSRSHR(vm, vm.registers[instr.a], n, res);
      vm.registers[instr.a] := res;
    }
  }

  // SHR R0, [R1+x]: R0 >>= MEM[R1+x]
  method InstrSHRX(vm: VM, instr: Instruction) returns (status: VMError)
    requires instr.op == SHR && instr.mode == IDX
    requires vm.Shaped() && ExecAlu(instr, vm.View()).Done?
    modifies vm`sr, vm.registers
    ensures ExecAlu(instr, old(vm.View())) == Done(status, vm.View())
  {
    hide HasHandler, Load64, WithFlags, Representable, LeavesAtTop, LeavesAtBottom, Pow2;
    if instr.a >= N_REG || instr.b >= N_REG {
      return VM_ILL_REGISTER;
    }
    var addr := ToU(Add64(vm.registers[instr.b], instr.arg));
    if addr < DATA_BASE {
      return VM_ILL_MEM_ACCESS;
    }
    var value;
    status, value := MemRead64(vm, addr, 0);
    if status == VM_OK {
      var n := ToU(value);
      assert n == value;
      var res := AsrWord(vm.registers[instr.a], n);
      SetSRSHR(vm, vm.registers[instr.a], n, res);
      vm.registers[instr.a] := res;
    }
  }

  // NEG R0: R0 = -R0
  method InstrNEG(vm: VM, instr: Instruction) returns (status: VMError)
    requires instr.op == NEG && vm.Shaped()
    modifies vm`sr, vm.registers
    ensures ExecUnary(instr, old(vm.View())) == Done(status, vm.View())
  {
    if instr.a >= N_REG {
      return VM_ILL_REGISTER;
    }
    SetSRNEG(vm, vm.registers[instr.a], Sub64(0, vm.registers[instr.a]));
    vm.registers[instr.a] := Sub64(0, vm.registers[instr.a]);
    return VM_OK;
  }

  // NOT R0: R0 = ~R0
  method InstrNOT(vm: VM, instr: Instruction) returns (status: VMError)
    requires instr.op == NOT && vm.Shaped()
    modifies vm`sr, vm.registers
    ensures ExecUnary(instr, old(vm.View())) == Done(status, vm.View())
  {
    hide Bitwise64;
    if instr.a >= N_REG {
      return VM_ILL_REGISTER;
    }
    NotIsMinusOneMinus(vm.registers[instr.a]);
    vm.registers[instr.a] := Not64(vm.registers[instr.a]);
    SetSRLOG(vm, vm.registers[instr.a]);
    return VM_OK;
  }
}
