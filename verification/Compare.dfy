/**
 Flags and jumps: what a conditional jump sees after a comparison, and what the flags of the
 arithmetic operations mean.
 */
module Compare {
  import opened Common
  import opened Words
  import opened Isa
  import opened Machine
  import opened Cpu
  import opened StatusRegister

  /** Writing the four flags is read back exactly, and bits 4 to 7 of SR survive. */
  lemma FlagsRoundTrip(sr: bv8, f: Flags)
    ensures FlagsOf(WithFlags(sr, f)) == f
    ensures WithFlags(sr, f) & 0xF0 == sr & 0xF0
  {
  }

  /** The order a jump mnemonic stands for. The indirect JNE tests for equality. */
  predicate Relation(op: OpCode, mode: Mode, a: int, b: int)
    requires IsJump(op)
  {
    match op
    case JMP => true
    case JEQ => a == b
    case JNE => if mode == IND then a == b else a != b
    case JLE => a <= b
    case JLT => a < b
    case JGE => a >= b
    case JGT => a > b
  }

  /**
   The flags of a - b decide the signed order of a and b as integers, even when the
   subtraction overflows.
   */
  lemma FlagsDecideOrder(op: OpCode, mode: Mode, a: int64, b: int64)
    requires IsJump(op)
    ensures Taken(op, mode, Alu(CMP, a, b).flags) <==> Relation(op, mode, a, b)
  {
    WrapOnce(a - b);
  }

  /** JNE is taken by inequality in every mode but the indirect one, whose test has the other polarity. */
  lemma JneByInequality(mode: Mode)
    ensures (forall a: int64, b: int64 :: Taken(JNE, mode, Alu(CMP, a, b).flags) <==> a != b) <==> mode != IND
  {
    forall a: int64, b: int64
      ensures Taken(JNE, mode, Alu(CMP, a, b).flags) == (a != b) <==> mode != IND
    {
      FlagsDecideOrder(JNE, mode, a, b);
    }
    assert Taken(JNE, mode, Alu(CMP, 0, 0).flags) == (0 != 0) <==> mode != IND;
  }

  /** CMP in any of its modes changes nothing but SR, and leaves the jumps deciding the order. */
  lemma CompareThenTaken(cmp: Instruction, s: State, op: OpCode, mode: Mode)
    requires cmp.op == CMP && HasHandler(CMP, cmp.mode) && Operand(cmp, s).Value? && IsJump(op)
    ensures Exec(cmp, s).Done? && Exec(cmp, s).status == VM_OK
    ensures Exec(cmp, s).next == s.(sr := Exec(cmp, s).next.sr)
    ensures Taken(op, mode, FlagsOf(Exec(cmp, s).next.sr))
            <==> Relation(op, mode, s.regs[cmp.a], Operand(cmp, s).v)
  {
    var a, b := s.regs[cmp.a], Operand(cmp, s).v;
    FlagsDecideOrder(op, mode, a, b);
    FlagsRoundTrip(s.sr, Alu(CMP, a, b).flags);
  }

  /**
   Two steps of the machine: a CMP followed by a conditional jump transfers to the target
   exactly when the relation holds and the target is not the jump's own address; otherwise it
   falls through.
   */
  lemma CompareAndBranch(s: State, cmp: Instruction, jump: Instruction)
    requires s.running && FetchInstr(s.mem, s.pc) == Ready(cmp) && cmp.op == CMP && Operand(cmp, s).Value?
    requires var next := s.pc + ModeSize(cmp.mode);
             FetchInstr(s.mem, next) == Ready(jump) && IsJump(jump.op) && jump.mode == IMM
             && 0 <= jump.arg < DATA_BASE
    ensures var next := s.pc + ModeSize(cmp.mode);
            var target := if Relation(jump.op, IMM, s.regs[cmp.a], Operand(cmp, s).v) && jump.arg != next
                          then jump.arg else next + ModeSize(jump.mode);
            Run(s, 2).Done? && Run(s, 2).status == VM_OK
            && Run(s, 2).next == s.(pc := target, sr := Run(s, 2).next.sr)
  {
    hide Exec, Operand, Relation, Taken, FetchInstr, Step, Run, FlagsOf;
    var next := s.pc + ModeSize(cmp.mode);
    StepOf(s, cmp);
    CompareThenTaken(cmp, s, jump.op, IMM);
    var s1 := Exec(cmp, s).next.(pc := next);
    assert Step(s) == Done(VM_OK, s1);
    JumpStep(s1, jump);
    TwoSteps(s, s1, Step(s1).next);
  }

  lemma JumpStep(s: State, jump: Instruction)
    requires FetchInstr(s.mem, s.pc) == Ready(jump) && IsJump(jump.op) && jump.mode == IMM && 0 <= jump.arg < DATA_BASE
    ensures Step(s) == Done(VM_OK, s.(pc := if Taken(jump.op, IMM, FlagsOf(s.sr)) && jump.arg != s.pc
                                            then jump.arg else s.pc + ModeSize(IMM)))
  {
    hide Exec, Taken, FetchInstr, Step, FlagsOf;
    StepOf(s, jump);
    ImmediateJump(jump, s);
  }

  lemma ImmediateJump(jump: Instruction, s: State)
    requires IsJump(jump.op) && jump.mode == IMM && 0 <= jump.arg < DATA_BASE
    ensures Exec(jump, s) == Done(VM_OK, if Taken(jump.op, IMM, FlagsOf(s.sr)) then s.(pc := jump.arg) else s)
  {
    hide Taken, FlagsOf;
  }

  lemma TwoSteps(s: State, s1: State, s2: State)
    requires Step(s) == Done(VM_OK, s1) && s1.running && Step(s1) == Done(VM_OK, s2)
    ensures Run(s, 2) == Done(VM_OK, s2)
  {
    hide Step;
    assert Run(s1, 1) == if s2.running then Run(s2, 0) else Done(VM_OK, s2);
    assert Run(s2, 0) == Done(VM_OK, s2);
    assert Run(s, 2) == Run(s1, 1);
  }

  // The carry flag of ADD

  predicate UnsignedCarry(a: int64, b: int64) {
    ToU(a) + ToU(b) >= TWO64
  }

  /** ADD compares signed values, so its carry flag is b < 0 flipped by overflow. */
  lemma AddCarryMeaning(a: int64, b: int64)
    ensures Alu(ADD, a, b).flags.c <==> ((b < 0) != !Representable(a + b))
  {
    WrapOnce(a + b);
  }

  /** When that flag is the carry out of the unsigned addition. */
  lemma AddCarryIsUnsigned(a: int64, b: int64)
    ensures Alu(ADD, a, b).flags.c == UnsignedCarry(a, b)
            <==> if (a < 0) == (b < 0) then Representable(a + b) else (b < 0) == (a + b >= 0)
  {
    AddCarryMeaning(a, b);
  }

  lemma AddCarryCounterexample()
    ensures UnsignedCarry(-1, 1) && !Alu(ADD, -1, 1).flags.c
  {
    AddCarryMeaning(-1, 1);
  }

  /** C after SUB and CMP is the unsigned borrow; O after MUL says the exact product was lost. */
  lemma SubAndMulFlags(a: int64, b: int64)
    ensures Alu(SUB, a, b).flags.c <==> ToU(a) - ToU(b) < 0
    ensures Alu(SUB, a, b).flags.o <==> Alu(SUB, a, b).value != a - b
    ensures Alu(ADD, a, b).flags.o <==> Alu(ADD, a, b).value != a + b
    ensures Alu(MUL, a, b).flags.o <==> Alu(MUL, a, b).value != a * b
    ensures Alu(MUL, a, b).flags.c == Alu(MUL, a, b).flags.o
  {
    WrapIsExactInRange(a - b);
    WrapIsExactInRange(a + b);
    WrapIsExactInRange(a * b);
  }

  /** Shifting left by n and bringing the carry back in: one more bit of the exact result. */
  lemma ShiftFlags(a: int64, n: int64)
    requires 1 <= n <= 63
    ensures (ToU(Alu(SHL, a, n).value) - a * Pow2(n)) % TWO64 == 0
    ensures Pow2(n) * Alu(SHR, a, n).value <= a < Pow2(n) * (Alu(SHR, a, n).value + 1)
    ensures a / Pow2(n - 1) == 2 * Alu(SHR, a, n).value + if Alu(SHR, a, n).flags.c then 1 else 0
    ensures Alu(SHR, a, n).flags.n <==> a < 0
  {
    var p := Pow2(n - 1);
    assert Pow2(n) == 2 * p == p * 2;
    DivDiv(a, p, 2);
    AsrStays(a, n);
    assert a == Pow2(n) * (a / Pow2(n)) + a % Pow2(n);
    var exact := a * Pow2(n);
    assert (exact % TWO64 - exact) % TWO64 == 0 by { ModDiff(exact); }
  }

  /** C of SHL is bit 64 - n of a, the last bit shifted out at the top. */
  lemma ShlCarry(a: int64, n: int64)
    requires 1 <= n <= 63
    ensures Alu(SHL, a, n).flags.c <==> (a / Pow2(64 - n)) % 2 == 1
  {
    ShiftedOut(a, n);
  }

  lemma ModDiff(x: int)
    ensures (x % TWO64 - x) % TWO64 == 0
  {
  }
}
