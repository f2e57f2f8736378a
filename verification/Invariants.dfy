/**
 What every step, and so every run, of the machine keeps: stack discipline, heap tiling, the
 high bits of SR, and the code segment; and what a failing step leaves behind.
 */
module Invariants {
  import opened Common
  import opened Words
  import opened Isa
  import opened Heap
  import opened HeapLaws
  import opened Machine
  import opened Cpu

  /** The stack pointer is a multiple of 8 inside the stack segment (or just above it). */
  predicate StackOk(s: State) {
    s.sp % 8 == 0 && STACK_BASE <= s.sp <= MEM_SIZE
  }

  /** Bits 4 to 7 of SR are as initVM sets them. */
  predicate SystemBitsOk(s: State) {
    s.sr & 0xF0 == 0x10
  }

  ghost predicate MachineOk(s: State) {
    StackOk(s) && SystemBitsOk(s) && Tiled(s.heap)
  }

  // What each family of instructions can touch

  lemma AluFrame(i: Instruction, s: State)
    requires IsAlu(i.op) && HasHandler(i.op, i.mode) && ExecAlu(i, s).Done?
    ensures var t := ExecAlu(i, s).next; t == s.(regs := t.regs, sr := t.sr) && t.sr & 0xF0 == s.sr & 0xF0
    ensures ExecAlu(i, s).status != VM_OK ==> ExecAlu(i, s).next == s
  {
    hide Alu, Operand;
  }

  lemma UnaryFrame(i: Instruction, s: State)
    ensures ExecUnary(i, s).Done?
    ensures var t := ExecUnary(i, s).next; t == s.(regs := t.regs, sr := t.sr) && t.sr & 0xF0 == s.sr & 0xF0
    ensures ExecUnary(i, s).status != VM_OK ==> ExecUnary(i, s).next == s
  {
  }

  lemma JumpFrame(i: Instruction, s: State)
    requires IsJump(i.op) && HasHandler(i.op, i.mode) && ExecJump(i, s).Done?
    ensures var t := ExecJump(i, s).next; t == s.(pc := t.pc) && (t.pc == s.pc || t.pc < DATA_BASE)
    ensures ExecJump(i, s).status != VM_OK ==> ExecJump(i, s).next == s
  {
    hide Taken, Load64;
  }

  /** The address an ST, SWP, PUSH, FAS or CALL that succeeds stores eight bytes to. */
  function StoreAddress(i: Instruction, s: State): Option<nat>
    requires HasHandler(i.op, i.mode)
  {
    hide Exec;
    if !Exec(i, s).Done? || Exec(i, s).status != VM_OK then None
    else if i.op == ST || (i.op == SWP && i.mode != REG) then
      if CarriesB(i.mode) && i.b >= N_REG then None else Some(Address(i, s))
    else if i.op == PUSH || i.op == CALL then
      if s.sp < 8 then None else Some(s.sp - 8)
    else if i.op == FAS then
      if CarriesB(i.mode) && i.b >= N_REG then None else Some(FasTarget(i, Exec(i, s).next.regs))
    else None
  }

  lemma DataFrame(i: Instruction, s: State)
    requires IsData(i.op) && HasHandler(i.op, i.mode) && ExecData(i, s).Done?
    ensures var t := ExecData(i, s).next; t == s.(regs := t.regs, sp := t.sp, mem := t.mem)
    ensures StackOk(s) ==> StackOk(ExecData(i, s).next)
    ensures i.op != FAS && ExecData(i, s).status != VM_OK ==> ExecData(i, s).next == s
  {
    hide Load64, Store64;
  }

  lemma CallFrame(i: Instruction, s: State)
    requires i.op == CALL && HasHandler(CALL, i.mode) && ExecCall(i, s).Done?
    ensures var t := ExecCall(i, s).next; t == s.(sp := t.sp, pc := t.pc, mem := t.mem)
    ensures StackOk(s) ==> StackOk(ExecCall(i, s).next)
    ensures ExecCall(i, s).status != VM_OK ==> ExecCall(i, s).next == s
    ensures ExecCall(i, s).status == VM_OK ==>
              ExecCall(i, s).next.pc < DATA_BASE || ExecCall(i, s).next.pc >= TWO63
  {
    hide Load64, Store64;
  }

  lemma PopFrame(a: byte, s: State)
    requires ExecPop(a, s).Done?
    ensures var t := ExecPop(a, s).next; t == s.(regs := t.regs, sp := t.sp)
    ensures StackOk(s) ==> StackOk(ExecPop(a, s).next)
  {
    hide Load64;
  }

  lemma TrapFrame(s: State)
    requires ExecTrap(s).Done?
    ensures var t := ExecTrap(s).next; t.pc == s.pc && t.sr == s.sr && t.mem[..HEAP_BASE] == s.mem[..HEAP_BASE]
    ensures StackOk(s) ==> StackOk(ExecTrap(s).next)
    ensures Tiled(s.heap) ==> Tiled(ExecTrap(s).next.heap)
  {
    hide ExecPop, Tiled, Alloc, Free;
    var id := ToInt32(s.regs[0]);
    if 9 <= id <= 12 {
      var p := ExecPop(0, s);
      PopFrame(0, s);
      if p.status == VM_OK && id == 10 && Tiled(s.heap) {
        AllocLaw(p.next.heap, ToU(p.next.regs[0]));
      } else if p.status == VM_OK && id == 11 && Tiled(s.heap) {
        FreeErrors(p.next.heap, ToU(p.next.regs[0]));
      } else if p.status == VM_OK && id == 12 {
        MemsetFrame(s);
      }
    }
  }

  lemma MemsetFrame(s: State)
    requires SysMemset(s).Done?
    ensures var t := SysMemset(s).next; t == s.(regs := t.regs, sp := t.sp, mem := t.mem)
    ensures SysMemset(s).next.mem[..HEAP_BASE] == s.mem[..HEAP_BASE]
    ensures StackOk(s) ==> StackOk(SysMemset(s).next)
  {
    hide ExecPop;
    PopFrame(0, s);
    var s1 := ExecPop(0, s).next;
    if ExecPop(0, s).status == VM_OK {
      PopFrame(0, s1);
      if ExecPop(0, s1).status == VM_OK {
        PopFrame(0, ExecPop(0, s1).next);
      }
    }
  }

  // One step

  lemma ReturnKeepsOk(s: State)
    requires ExecReturn(s).Done? && MachineOk(s)
    ensures MachineOk(ExecReturn(s).next)
  {
    hide Load64, Tiled;
  }

  lemma ResetKeepsOk()
    ensures MachineOk(Initial())
  {
    hide Tiled, Zeros;
    FreshIsTiled();
  }

  lemma ControlKeepsOk(i: Instruction, s: State)
    requires !IsAlu(i.op) && !IsData(i.op) && !IsJump(i.op) && HasHandler(i.op, i.mode)
    requires ExecControl(i, s).Done? && MachineOk(s)
    ensures MachineOk(ExecControl(i, s).next)
  {
    hide HasHandler, IsAlu, IsData, IsJump, ExecUnary, ExecCall, ExecTrap, ExecReturn, Initial, Tiled;
    if i.op == NEG || i.op == NOT {
      UnaryFrame(i, s);
    } else if i.op == CALL {
      CallFrame(i, s);
    } else if i.op == RST {
      ResetKeepsOk();
    } else if i.op == RTN {
      ReturnKeepsOk(s);
    } else if i.op != NOP && i.op != HALT {
      TrapFrame(s);
    }
  }

  /** Every instruction keeps the machine's invariant. */
  lemma ExecKeepsOk(i: Instruction, s: State)
    requires HasHandler(i.op, i.mode) && Exec(i, s).Done? && MachineOk(s)
    ensures MachineOk(Exec(i, s).next)
  {
    hide HasHandler, IsAlu, IsData, IsJump, ExecAlu, ExecData, ExecJump, ExecControl, Tiled;
    if IsAlu(i.op) {
      AluFrame(i, s);
    } else if IsData(i.op) {
      DataFrame(i, s);
    } else if IsJump(i.op) {
      JumpFrame(i, s);
    } else {
      ControlKeepsOk(i, s);
    }
  }

  lemma FreshIsTiled()
    ensures Tiled(FRESH_HEAP)
  {
  }

  /** A step either fetches nothing and changes nothing, or is Exec up to the program counter. */
  lemma StepCases(s: State)
    requires Step(s).Done?
    ensures FetchInstr(s.mem, s.pc).Fails? ==> Step(s) == Done(FetchInstr(s.mem, s.pc).status, s)
    ensures !FetchInstr(s.mem, s.pc).Breaks?
    ensures FetchInstr(s.mem, s.pc).Ready? ==>
              var i := FetchInstr(s.mem, s.pc).instr;
              && HasHandler(i.op, i.mode) && s.pc + ModeSize(i.mode) < DATA_BASE
              && Exec(i, s).Done? && Step(s).status == Exec(i, s).status
              && Step(s).next == Exec(i, s).next.(pc := Step(s).next.pc)
              && (Step(s).status != VM_OK || Exec(i, s).next.pc != s.pc ==> Step(s).next == Exec(i, s).next)
              && (Step(s).status == VM_OK && Exec(i, s).next.pc == s.pc ==> Step(s).next.pc == s.pc + ModeSize(i.mode))
  {
    hide Exec, FetchInstr;
    match FetchInstr(s.mem, s.pc)
    case Ready(i) => StepOf(s, i);
    case _ =>
  }

  lemma StepKeepsOk(s: State)
    requires MachineOk(s) && Step(s).Done?
    ensures MachineOk(Step(s).next)
  {
    hide Exec, FetchInstr, Step, Tiled;
    StepCases(s);
    if FetchInstr(s.mem, s.pc).Ready? {
      ExecKeepsOk(FetchInstr(s.mem, s.pc).instr, s);
    }
  }

  lemma InitialIsOk()
    ensures MachineOk(Initial())
  {
  }

  /**
   Over every run from a machine that initVM prepared (whatever code and data was loaded), the
   stack pointer stays a multiple of 8 in the stack segment, the heap stays tiled and the high
   bits of SR stay put.
   */
  lemma {:induction false} RunKeepsOk(s: State, n: nat)
    requires MachineOk(s) && Run(s, n).Done?
    ensures MachineOk(Run(s, n).next)
    decreases n
  {
    hide Step, Tiled;
    if n > 0 {
      StepKeepsOk(s);
      if Step(s).status == VM_OK && Step(s).next.running {
        RunKeepsOk(Step(s).next, n - 1);
      }
    }
  }

  /** The address a CALL reads its target from. */
  function CallAddress(i: Instruction, s: State): Option<uint64>
    requires i.op == CALL && HasHandler(CALL, i.mode)
  {
    if i.mode == DIR then Some(ToU(i.arg))
    else if i.mode == IMM || i.mode == REGU || i.a >= N_REG then None
    else if i.mode == IND then Some(ToU(s.regs[i.a]))
    else Some(ToU(Add64(s.regs[i.a], i.arg)))
  }

  /** The target of a CALL or RTN, as the signed value its range test looks at. */
  function SignedTarget(i: Instruction, s: State): Option<int64>
    requires HasHandler(i.op, i.mode)
  {
    if i.op == RTN then
      if s.sp + 8 <= MEM_SIZE then Some(Load64(s.mem, s.sp)) else None
    else if i.op != CALL then None
    else if i.mode == IMM then Some(i.arg)
    else if i.mode == REGU then
      if i.a < N_REG then Some(s.regs[i.a]) else None
    else
      match CallAddress(i, s)
      case None => None
      case Some(addr) => if addr + 8 <= MEM_SIZE then Some(Load64(s.mem, addr)) else None
  }

  /**
   Under that invariant no stack instruction fails for its stack pointer's value: PUSH refuses
   only a full stack or its register, POP and RTN only an empty one or their own operand, and RTN
   always has a value to test.
   */
  lemma StackNeverFaults(i: Instruction, s: State)
    requires StackOk(s) && HasHandler(i.op, i.mode)
    ensures i.op == PUSH ==>
              Exec(i, s).Done? && (Exec(i, s).status == VM_OK <==> s.sp > STACK_BASE && i.a < N_REG)
              && Exec(i, s).status in {VM_OK, VM_STACK_OVERFLOW, VM_ILL_REGISTER}
    ensures i.op == POP ==>
              Exec(i, s).Done? && (Exec(i, s).status == VM_OK <==> s.sp < MEM_SIZE && i.a < N_REG)
              && Exec(i, s).status in {VM_OK, VM_STACK_UNDERFLOW, VM_ILL_REGISTER}
    ensures i.op == RTN ==>
              Exec(i, s).Done? && Exec(i, s).status in {VM_OK, VM_STACK_UNDERFLOW, VM_INVALID_JMP}
    ensures i.op == RTN && s.sp < MEM_SIZE ==>
              (Exec(i, s).status == VM_OK <==> Load64(s.mem, s.sp) < DATA_BASE)
  {
    hide Load64, Store64;
  }

  /**
   CALL in each of its five modes: it has an outcome unless it reads its target past 2^64 - 8,
   succeeds exactly when the stack has room and its target passes the range test, and is refused
   for a full stack exactly when the stack is full (a register call looks at its register first).
   */
  lemma CallNeverFaults(i: Instruction, s: State)
    requires StackOk(s) && i.op == CALL && HasHandler(CALL, i.mode)
    ensures Exec(i, s).Done?
            <==> !(s.sp > STACK_BASE && CallAddress(i, s).Some? && CallAddress(i, s).value + 8 > TWO64)
    ensures Exec(i, s).Done? ==>
              (Exec(i, s).status == VM_OK
               <==> s.sp > STACK_BASE && SignedTarget(i, s).Some? && SignedTarget(i, s).value < DATA_BASE
                    && (i.mode == IMM ==> SignedTarget(i, s).value >= 0))
    ensures Exec(i, s).Done? ==>
              (Exec(i, s).status == VM_STACK_OVERFLOW <==> s.sp == STACK_BASE && !(i.mode == REGU && i.a >= N_REG))
    ensures Exec(i, s).Done? ==>
              Exec(i, s).status
              in {VM_OK, VM_STACK_OVERFLOW, VM_ILL_REGISTER, VM_ILL_MEM_ACCESS, VM_INVALID_JMP}
  {
    hide Load64, Store64;
  }

  // The code segment

  /** The instructions that can store below the data segment. */
  predicate WritesCode(i: Instruction) {
    i.op == RST || (i.op == FAS && (i.mode == IND || (i.mode == IDX && i.a == i.b)))
  }

  lemma StoreAbove(m: Memory, addr: nat, v: int64)
    requires DATA_BASE <= addr && addr + 8 <= MEM_SIZE
    ensures Store64(m, addr, v)[..DATA_BASE] == m[..DATA_BASE]
  {
    hide Bytes;
  }

  lemma StoreKeepsCode(i: Instruction, s: State)
    requires i.op == ST && HasHandler(ST, i.mode) && ExecStore(i, s).Done?
    ensures ExecStore(i, s).next.mem[..DATA_BASE] == s.mem[..DATA_BASE]
  {
    hide Load64, Store64;
    if ExecStore(i, s).status == VM_OK { StoreAbove(s.mem, Address(i, s), s.regs[i.a]); }
  }

  lemma SwapKeepsCode(i: Instruction, s: State)
    requires i.op == SWP && HasHandler(SWP, i.mode) && ExecSwap(i, s).Done?
    ensures ExecSwap(i, s).next.mem[..DATA_BASE] == s.mem[..DATA_BASE]
  {
    hide Load64, Store64;
    if ExecSwap(i, s).status == VM_OK && i.mode != REG { StoreAbove(s.mem, Address(i, s), s.regs[i.a]); }
  }

  lemma PushKeepsCode(i: Instruction, s: State)
    requires ExecPush(i, s).Done?
    ensures ExecPush(i, s).next.mem[..DATA_BASE] == s.mem[..DATA_BASE]
  {
    hide Load64, Store64;
    if ExecPush(i, s).status == VM_OK { StoreAbove(s.mem, s.sp - 8, if i.mode == IMM then i.arg else s.regs[i.a]); }
  }

  lemma FasKeepsCode(i: Instruction, s: State)
    requires i.op == FAS && HasHandler(FAS, i.mode) && ExecFas(i, s).Done? && !WritesCode(i)
    ensures ExecFas(i, s).next.mem[..DATA_BASE] == s.mem[..DATA_BASE]
  {
    hide Load64, Store64;
    if ExecFas(i, s).status == VM_OK { StoreAbove(s.mem, FasTarget(i, ExecFas(i, s).next.regs), 1); }
  }

  lemma DataKeepsCode(i: Instruction, s: State)
    requires IsData(i.op) && HasHandler(i.op, i.mode) && ExecData(i, s).Done? && !WritesCode(i)
    ensures ExecData(i, s).next.mem[..DATA_BASE] == s.mem[..DATA_BASE]
  {
    hide ExecStore, ExecSwap, ExecPush, ExecFas, HasHandler, Load64;
    match i.op
    case ST => StoreKeepsCode(i, s);
    case SWP => SwapKeepsCode(i, s);
    case PUSH => PushKeepsCode(i, s);
    case FAS => FasKeepsCode(i, s);
    case LD =>
    case POP =>
  }

  lemma CallKeepsCode(i: Instruction, s: State)
    requires i.op == CALL && HasHandler(CALL, i.mode) && ExecCall(i, s).Done?
    ensures ExecCall(i, s).next.mem[..DATA_BASE] == s.mem[..DATA_BASE]
  {
    hide Load64, Store64;
    if ExecCall(i, s).status == VM_OK {
      StoreAbove(s.mem, s.sp - 8, ToS(WrapU(s.pc + ModeSize(i.mode))));
    }
  }

  lemma ControlKeepsCode(i: Instruction, s: State)
    requires !IsAlu(i.op) && !IsData(i.op) && !IsJump(i.op) && HasHandler(i.op, i.mode)
    requires ExecControl(i, s).Done? && i.op != RST
    ensures ExecControl(i, s).next.mem[..DATA_BASE] == s.mem[..DATA_BASE]
  {
    hide HasHandler, IsAlu, IsData, IsJump, ExecUnary, ExecCall, ExecTrap;
    if i.op == NEG || i.op == NOT {
      UnaryFrame(i, s);
    } else if i.op == CALL {
      CallKeepsCode(i, s);
    } else if i.op != RTN && i.op != NOP && i.op != HALT {
      TrapFrame(s);
      var t := ExecTrap(s).next;
      assert t.mem[..DATA_BASE] == t.mem[..HEAP_BASE][..DATA_BASE];
      assert s.mem[..DATA_BASE] == s.mem[..HEAP_BASE][..DATA_BASE];
    }
  }

  /** No other instruction ever changes a byte of the code segment. */
  lemma ExecKeepsCode(i: Instruction, s: State)
    requires HasHandler(i.op, i.mode) && Exec(i, s).Done? && !WritesCode(i)
    ensures Exec(i, s).next.mem[..DATA_BASE] == s.mem[..DATA_BASE]
  {
    hide HasHandler, IsAlu, IsData, IsJump, ExecAlu, ExecData, ExecJump, ExecControl;
    if IsAlu(i.op) {
      AluFrame(i, s);
    } else if IsData(i.op) {
      DataKeepsCode(i, s);
    } else if IsJump(i.op) {
      JumpFrame(i, s);
    } else {
      ControlKeepsCode(i, s);
    }
  }

  /** Storing 1 at `target` leaves the code segment as it is. */
  predicate StoreOneKeepsCode(m: Memory, target: nat)
    requires target + 8 <= MEM_SIZE
  {
    forall k :: target <= k < target + 8 && k < DATA_BASE ==> m[k] == if k == target then 1 else 0
  }

  lemma BytesOfOne()
    ensures Bytes(ToU(1), 8) == [1, 0, 0, 0, 0, 0, 0, 0]
  {
    ZeroBytes(7);
    assert Bytes(1, 8) == [1] + Bytes(0, 7);
    assert Bytes(0, 7) == [0, 0, 0, 0, 0, 0, 0];
  }

  lemma {:induction false} ZeroBytes(n: nat)
    ensures Bytes(0, n) == seq(n, _ => 0)
  {
    if n > 0 { ZeroBytes(n - 1); }
  }

  lemma OneAtZero(m: Memory)
    ensures Store64(m, 0, 1)[0] == 1
  {
    BytesOfOne();
  }

  lemma StoreOne(m: Memory, target: nat)
    requires target + 8 <= MEM_SIZE
    ensures Store64(m, target, 1)[..DATA_BASE] == m[..DATA_BASE] <==> StoreOneKeepsCode(m, target)
  {
    BytesOfOne();
    var t := Store64(m, target, 1);
    assert forall k :: target <= k < target + 8 ==> t[k] == if k == target then 1 else 0;
    if t[..DATA_BASE] == m[..DATA_BASE] {
      forall k | target <= k < target + 8 && k < DATA_BASE
        ensures m[k] == if k == target then 1 else 0
      {
        assert t[..DATA_BASE][k] == m[..DATA_BASE][k];
      }
    }
  }

  /** The address an indirect or indexed FAS stores 1 to, computed before it runs. */
  function SecondAddress(i: Instruction, s: State): uint64
    requires i.op == FAS && (i.mode == IND || i.mode == IDX) && i.a < N_REG && i.b < N_REG
    requires DataBounds(Address(i, s)).Inside?
  {
    if i.mode == IND then i.b
    else ToU(Add64(if i.a == i.b then Load64(s.mem, Address(i, s)) else s.regs[i.b], i.arg))
  }

  /**
   Exactly when one instruction leaves the code segment unchanged: a reset finds it zeroed
   already, and a FAS whose store is carried out either stores above it or finds 1 there already.
   */
  predicate CodeSurvives(i: Instruction, s: State)
    requires HasHandler(i.op, i.mode)
  {
    if i.op == RST then s.mem[..DATA_BASE] == Zeros()[..DATA_BASE]
    else if i.op == FAS && (i.mode == IND || i.mode == IDX) && i.a < N_REG && i.b < N_REG
            && DataBounds(Address(i, s)).Inside? then
      Bounds(SecondAddress(i, s)).Inside? ==> StoreOneKeepsCode(s.mem, SecondAddress(i, s))
    else true
  }

  lemma CodeUnchangedIff(i: Instruction, s: State)
    requires HasHandler(i.op, i.mode) && Exec(i, s).Done?
    ensures Exec(i, s).next.mem[..DATA_BASE] == s.mem[..DATA_BASE] <==> CodeSurvives(i, s)
  {
    hide Load64, Store64, Zeros, StoreOneKeepsCode;
    if i.op == FAS && i.mode != DIR {
      FasSurvives(i, s);
    } else if i.op != RST {
      ExecKeepsCode(i, s);
    }
  }

  lemma FasSurvives(i: Instruction, s: State)
    requires i.op == FAS && (i.mode == IND || i.mode == IDX) && ExecFas(i, s).Done?
    ensures ExecFas(i, s).next.mem[..DATA_BASE] == s.mem[..DATA_BASE] <==> CodeSurvives(i, s)
  {
    hide Load64, Store64, StoreOneKeepsCode;
    if i.a < N_REG && i.b < N_REG && DataBounds(Address(i, s)).Inside? {
      var v := Load64(s.mem, Address(i, s));
      assert FasTarget(i, s.regs[i.a := v]) == SecondAddress(i, s);
      if Bounds(SecondAddress(i, s)).Inside? {
        StoreOne(s.mem, SecondAddress(i, s));
      }
    }
  }

  lemma FasWithoutOutcome(i: Instruction, s: State)
    requires i.op == FAS && HasHandler(FAS, i.mode) && !Exec(i, s).Done?
    ensures CodeSurvives(i, s)
  {
    hide Load64, Store64, StoreOneKeepsCode;
  }

  /** An instruction that is none of those leaves the code segment alone in every state. */
  lemma HarmlessSurvives(i: Instruction, s: State)
    requires HasHandler(i.op, i.mode) && !WritesCode(i)
    ensures CodeSurvives(i, s)
  {
    hide Exec, HasHandler, Zeros, StoreOneKeepsCode;
    if Exec(i, s).Done? {
      ExecKeepsCode(i, s);
      CodeUnchangedIff(i, s);
    } else if i.op == FAS {
      FasWithoutOutcome(i, s);
    }
  }
}
