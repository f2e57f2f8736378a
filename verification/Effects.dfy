/**
 What one executed instruction does to the machine, field by field and mode by mode. The laws speak
 of registers, bytes, flag bits and exact integers, and of Exec; none of the rules Exec is made of is
 named in them.
 */
module Effects {
  import opened Common
  import opened Words
  import opened Isa
  import opened Heap
  import opened Machine
  import opened MemoryLaws
  import opened InstructionLaws
  import opened Compare

  // Words in memory

  /** Byte k of a word stands k bytes behind its address: it is what shifting right by 8k leaves. */
  lemma LoadedBytes(m: Memory, at: nat, k: nat)
    requires at + 8 <= MEM_SIZE && k < 8
    ensures (Load64(m, at) / Pow2(8 * k)) % 256 == m[at + k]
  {
    hide Bytes, Pow2;
    var v := Load64(m, at);
    assert Bytes(ToU(v), 8) == m[at..at + 8] by {
      Pow2Words();
      LittleEndianRoundTrip(m[at..at + 8]);
    }
    SignedByteAt(v, k);
  }

  lemma StoredBytes(m: Memory, at: nat, v: int64, k: nat)
    requires at + 8 <= MEM_SIZE && k < MEM_SIZE
    ensures Store64(m, at, v)[k] == if at <= k < at + 8 then (v / Pow2(8 * (k - at))) % 256 else m[k]
  {
    hide Bytes, Pow2;
    if at <= k < at + 8 { SignedByteAt(v, k - at); }
  }

  // Operands

  /** The registers a two-operand instruction names exist. */
  predicate NamesRegisters(i: Instruction) {
    i.a < N_REG && (i.mode == REG || i.mode == IND || i.mode == IDX ==> i.b < N_REG)
  }

  /** Where a direct, indirect or indexed operand points, given the register that it is based on. */
  function Pointed(mode: Mode, base: int64, arg: int64): (addr: nat)
    requires mode == DIR || mode == IND || mode == IDX
    ensures addr < TWO64
  {
    match mode
    case DIR => arg % TWO64
    case IND => base % TWO64
    case IDX => (base + arg) % TWO64
  }

  /** Where it points when field b names the base. */
  function PointedBy(i: Instruction, s: State): (addr: nat)
    requires i.mode == DIR || i.mode == IND || i.mode == IDX
    ensures addr < TWO64
  {
    Pointed(i.mode, if i.b < N_REG then s.regs[i.b] else 0, i.arg)
  }

  /** v is the second operand: the immediate, the register, or the word at an accessible address. */
  ghost predicate Reads(i: Instruction, s: State, v: int64) {
    NamesRegisters(i) &&
    match i.mode
    case NONE => false
    case REGU => false
    case IMM => v == i.arg
    case REG => v == s.regs[i.b]
    case _ => var at := PointedBy(i, s);
              DATA_BASE <= at <= MEM_SIZE - 8 && v == Load64(s.mem, at)
  }

  /** The two readings of an operand agree. */
  lemma PointedIsAddress(i: Instruction, s: State)
    requires (i.mode == DIR || i.mode == IND || i.mode == IDX) && (i.mode != DIR ==> i.b < N_REG)
    ensures PointedBy(i, s) == Address(i, s)
  {
    if i.mode == IDX { WrapOnce(s.regs[i.b] + i.arg); }
  }

  lemma ReadsIsOperand(i: Instruction, s: State, v: int64)
    requires i.mode != NONE && i.mode != REGU
    ensures Reads(i, s, v) <==> Operand(i, s) == Value(v)
  {
    hide Load64, Address, PointedBy;
    if NamesRegisters(i) && i.mode != IMM && i.mode != REG { PointedIsAddress(i, s); }
  }

  // Flags

  /** The four flag bits of SR, and the upper half kept from before. */
  ghost predicate SetsFlags(before: bv8, after: bv8, z: bool, n: bool, c: bool, o: bool) {
    && (after & 0x01 != 0) == c && (after & 0x02 != 0) == z
    && (after & 0x04 != 0) == n && (after & 0x08 != 0) == o
    && after & 0xF0 == before & 0xF0
  }

  lemma FlagBits(sr: bv8, z: bool, n: bool, c: bool, o: bool)
    ensures SetsFlags(sr, WithFlags(sr, Flags(z, n, c, o)), z, n, c, o)
  {
  }

  // Arithmetic and logic

  /** The step succeeded with r in register a; of everything else only SR may have changed. */
  ghost predicate LeavesInRegister(s: State, o: Outcome, a: byte, r: int64) {
    && a < N_REG && o.Done? && o.status == VM_OK
    && o.next == s.(regs := o.next.regs, sr := o.next.sr)
    && o.next.regs[a] == r && o.next.regs[1 - a] == s.regs[1 - a]
  }

  lemma LeftInRegister(s: State, o: Outcome, a: byte, r: int64)
    requires LeavesInRegister(s, o, a, r)
    ensures a < N_REG && o.Done? && o.next.regs[a] == r
  {
  }

  /** An operation that has a result writes it back, with its flags; CMP writes the flags only. */
  lemma AluStep(i: Instruction, s: State, v: int64)
    requires IsAlu(i.op) && Reads(i, s, v)
    ensures i.a < N_REG && HasHandler(i.op, i.mode)
    ensures Alu(i.op, s.regs[i.a], v).DivisionByZero? ==> Exec(i, s) == Done(VM_DIV_ZERO, s)
    ensures Alu(i.op, s.regs[i.a], v).NotInC? ==> Exec(i, s) == Stuck(UndefinedBehaviour)
    ensures Alu(i.op, s.regs[i.a], v).Result? ==>
              var f := Alu(i.op, s.regs[i.a], v).flags;
              && LeavesInRegister(s, Exec(i, s), i.a,
                                  if i.op == CMP then s.regs[i.a] else Alu(i.op, s.regs[i.a], v).value)
              && SetsFlags(s.sr, Exec(i, s).next.sr, f.z, f.n, f.c, f.o)
  {
    hide Alu, Operand, Load64, WithFlags, SetsFlags;
    ReadsIsOperand(i, s, v);
    if Alu(i.op, s.regs[i.a], v).Result? {
      var f := Alu(i.op, s.regs[i.a], v).flags;
      FlagBits(s.sr, f.z, f.n, f.c, f.o);
    }
  }

  /**
   ADD, SUB and MUL leave in register a the int64 congruent to the exact result modulo 2^64. Z and N
   describe what was left, O says that it is not the exact result; C is the unsigned borrow of SUB, a
   signed decrease for ADD, and O again for MUL.
   */
  lemma ArithmeticEffect(i: Instruction, s: State, v: int64, exact: int)
    requires i.op == ADD || i.op == SUB || i.op == MUL
    requires Reads(i, s, v)
    requires i.op == ADD ==> exact == s.regs[i.a] + v
    requires i.op == SUB ==> exact == s.regs[i.a] - v
    requires i.op == MUL ==> exact == s.regs[i.a] * v
    ensures HasHandler(i.op, i.mode) && Exec(i, s).Done?
    ensures var r, a := Exec(i, s).next.regs[i.a], s.regs[i.a];
            && LeavesInRegister(s, Exec(i, s), i.a, r) && (r - exact) % TWO64 == 0
            && SetsFlags(s.sr, Exec(i, s).next.sr, r == 0, r < 0,
                         if i.op == ADD then r < a else if i.op == SUB then a % TWO64 < v % TWO64 else r != exact,
                         r != exact)
  {
    hide Reads, Exec, HasHandler, Alu, SetsFlags, LeavesInRegister;
    AluStep(i, s, v);
    ArithmeticFlags(i.op, s.regs[i.a], v);
    LeftInRegister(s, Exec(i, s), i.a, Alu(i.op, s.regs[i.a], v).value);
  }

  lemma ArithmeticFlags(op: OpCode, a: int64, b: int64)
    requires op == ADD || op == SUB || op == MUL
    ensures Alu(op, a, b).Result? && (Alu(op, a, b).value - Exact(op, a, b)) % TWO64 == 0
    ensures var r, exact := Alu(op, a, b).value, Exact(op, a, b);
            Alu(op, a, b).flags
            == Flags(r == 0, r < 0,
                     if op == ADD then r < a else if op == SUB then a % TWO64 < b % TWO64 else r != exact,
                     r != exact)
  {
    hide Wrap, ToU;
    WrapIsExactInRange(Exact(op, a, b));
    WrapIsModular(Exact(op, a, b));
    if op == SUB { BorrowFlag(a, b); }
  }

  lemma BorrowFlag(a: int64, b: int64)
    ensures Alu(SUB, a, b).flags.c == (a % TWO64 < b % TWO64)
  {
    hide Wrap;
  }

  /**
   DIV leaves the quotient rounded towards zero: what is left over is smaller than the divisor and has
   the sign of the dividend. Dividing by zero fails, and the one quotient that is no int64 is undefined.
   */
  lemma DivisionEffect(i: Instruction, s: State, v: int64)
    requires i.op == DIV && Reads(i, s, v)
    ensures HasHandler(i.op, i.mode)
    ensures v == 0 ==> Exec(i, s) == Done(VM_DIV_ZERO, s)
    ensures v == -1 && s.regs[i.a] == INT64_MIN ==> Exec(i, s) == Stuck(UndefinedBehaviour)
    ensures v != 0 && !(v == -1 && s.regs[i.a] == INT64_MIN) ==>
              && Exec(i, s).Done?
              && var q, a := Exec(i, s).next.regs[i.a], s.regs[i.a];
                 && LeavesInRegister(s, Exec(i, s), i.a, q)
                 && Magnitude(a - q * v) < Magnitude(v) && (a - q * v == 0 || (a - q * v < 0) == (a < 0))
                 && SetsFlags(s.sr, Exec(i, s).next.sr, q == 0, q < 0, false, false)
  {
    hide Reads, Exec, HasHandler, SetsFlags, TruncDiv;
    AluStep(i, s, v);
    if v != 0 && !(v == -1 && s.regs[i.a] == INT64_MIN) { DivisionTruncates(s.regs[i.a], v); }
  }

  /** Every bit of what AND, OR and XOR leave is the connective of the two bits in its place. */
  lemma LogicEffect(i: Instruction, s: State, v: int64, k: nat)
    requires i.op == AND || i.op == OR || i.op == XOR
    requires Reads(i, s, v) && k < 64
    ensures HasHandler(i.op, i.mode) && Exec(i, s).Done?
    ensures var r, a := Exec(i, s).next.regs[i.a], s.regs[i.a];
            && LeavesInRegister(s, Exec(i, s), i.a, r)
            && Bit(r, k) == (if i.op == AND then Bit(a, k) && Bit(v, k)
                             else if i.op == OR then Bit(a, k) || Bit(v, k)
                             else Bit(a, k) != Bit(v, k))
            && SetsFlags(s.sr, Exec(i, s).next.sr, r == 0, r < 0, false, false)
  {
    hide Reads, Exec, HasHandler, SetsFlags, Bitwise64, Bit;
    AluStep(i, s, v);
    LogicIsBitwise(i.op, s.regs[i.a], v, k);
  }

  /**
   SHL multiplies by 2^v modulo 2^64: C is the last bit shifted out at the top, O a change of sign.
   SHR divides by 2^v and rounds down: C is the last bit shifted out at the bottom. Any count outside
   1 to 63 is undefined.
   */
  lemma ShiftEffect(i: Instruction, s: State, v: int64)
    requires (i.op == SHL || i.op == SHR) && Reads(i, s, v)
    ensures HasHandler(i.op, i.mode)
    ensures !(1 <= v <= 63) ==> Exec(i, s) == Stuck(UndefinedBehaviour)
    ensures 1 <= v <= 63 ==>
              && Exec(i, s).Done?
              && var r, a := Exec(i, s).next.regs[i.a], s.regs[i.a];
                 && LeavesInRegister(s, Exec(i, s), i.a, r)
                 && (i.op == SHL ==> (r - a * Pow2(v)) % TWO64 == 0)
                 && (i.op == SHR ==> Pow2(v) * r <= a < Pow2(v) * (r + 1))
                 && SetsFlags(s.sr, Exec(i, s).next.sr, r == 0, r < 0,
                              (a / Pow2(if i.op == SHL then 64 - v else v - 1)) % 2 == 1,
                              i.op == SHL && (r < 0) != (a < 0))
  {
    hide Reads, Exec, HasHandler, SetsFlags, Pow2, Wrap, AsrWord;
    AluStep(i, s, v);
    if 1 <= v <= 63 {
      if i.op == SHL {
        ShlCarry(s.regs[i.a], v);
        WrapIsModular(s.regs[i.a] * Pow2(v));
      } else {
        ShiftFlags(s.regs[i.a], v);
      }
    }
  }

  /** CMP keeps the registers. Its flags are those of the exact difference. */
  lemma CompareEffect(i: Instruction, s: State, v: int64)
    requires i.op == CMP && Reads(i, s, v)
    ensures HasHandler(i.op, i.mode) && Exec(i, s).Done? && Exec(i, s).status == VM_OK
    ensures Exec(i, s).next == s.(sr := Exec(i, s).next.sr)
    ensures var d := s.regs[i.a] - v;
            var lost := d < INT64_MIN || d > INT64_MAX;
            SetsFlags(s.sr, Exec(i, s).next.sr, d == 0, (d < 0) != lost, s.regs[i.a] % TWO64 < v % TWO64, lost)
  {
    hide Reads, Exec, HasHandler, SetsFlags, Alu;
    AluStep(i, s, v);
    DifferenceFlags(s.regs[i.a], v);
    assert Exec(i, s).next.regs == s.regs;
  }

  lemma DifferenceFlags(a: int64, b: int64)
    ensures var d := a - b;
            var lost := d < INT64_MIN || d > INT64_MAX;
            Alu(CMP, a, b).Result?
            && Alu(CMP, a, b).flags == Flags(d == 0, (d < 0) != lost, a % TWO64 < b % TWO64, lost)
  {
    hide Wrap, ToU;
    WrapOnce(a - b);
    BorrowFlag(a, b);
    assert Alu(CMP, a, b) == Alu(SUB, a, b);
  }

  /** NEG leaves the int64 congruent to -x, NOT leaves -1 - x, the number with every bit of x flipped. */
  lemma UnaryEffect(i: Instruction, s: State)
    requires (i.op == NEG || i.op == NOT) && i.mode == REGU
    ensures i.a >= N_REG ==> Exec(i, s) == Done(VM_ILL_REGISTER, s)
    ensures i.a < N_REG ==>
              && Exec(i, s).Done?
              && var r, x := Exec(i, s).next.regs[i.a], s.regs[i.a];
                 && LeavesInRegister(s, Exec(i, s), i.a, r)
                 && (if i.op == NEG then (r + x) % TWO64 == 0 else r + x == -1)
                 && SetsFlags(s.sr, Exec(i, s).next.sr, r == 0, r < 0,
                              i.op == NEG && x != 0, i.op == NEG && x == INT64_MIN)
  {
    hide SetsFlags, LeavesInRegister, Exec, HasHandler;
    if i.a < N_REG { UnaryStep(i, s); } else { UnaryRefused(i, s); }
  }

  lemma UnaryRefused(i: Instruction, s: State)
    requires (i.op == NEG || i.op == NOT) && i.mode == REGU && i.a >= N_REG
    ensures Exec(i, s) == Done(VM_ILL_REGISTER, s)
  {
  }

  lemma UnaryStep(i: Instruction, s: State)
    requires (i.op == NEG || i.op == NOT) && i.mode == REGU && i.a < N_REG
    ensures Exec(i, s).Done?
    ensures var r, x := Exec(i, s).next.regs[i.a], s.regs[i.a];
            && LeavesInRegister(s, Exec(i, s), i.a, r)
            && (if i.op == NEG then (r + x) % TWO64 == 0 else r + x == -1)
            && SetsFlags(s.sr, Exec(i, s).next.sr, r == 0, r < 0,
                         i.op == NEG && x != 0, i.op == NEG && x == INT64_MIN)
  {
    hide WithFlags, SetsFlags, HasHandler, Representable, Sub64, Exec, ExecUnary;
    UnaryRule(i, s);
    var x: int := s.regs[i.a];
    Negated(x);
    var v := if i.op == NEG then Sub64(0, x) else -1 - x;
    if i.op == NEG { NegIs(i, s); } else { NotIs(i, s); }
    FlagBits(s.sr, v == 0, v < 0, i.op == NEG && x != 0, i.op == NEG && x == INT64_MIN);
  }

  lemma UnaryRule(i: Instruction, s: State)
    requires (i.op == NEG || i.op == NOT) && i.mode == REGU
    ensures HasHandler(i.op, i.mode) && Exec(i, s) == ExecUnary(i, s)
  {
    hide ExecUnary;
  }

  lemma NegIs(i: Instruction, s: State)
    requires i.op == NEG && i.mode == REGU && i.a < N_REG
    ensures var x: int, v := s.regs[i.a], Sub64(0, s.regs[i.a]);
            ExecUnary(i, s) == Done(VM_OK, s.(regs := s.regs[i.a := v],
                                              sr := WithFlags(s.sr, Flags(v == 0, v < 0, x != 0, !Representable(-x)))))
  {
    hide WithFlags, Sub64;
  }

  lemma NotIs(i: Instruction, s: State)
    requires i.op == NOT && i.mode == REGU && i.a < N_REG
    ensures var v := -1 - s.regs[i.a] as int;
            ExecUnary(i, s) == Done(VM_OK, s.(regs := s.regs[i.a := v],
                                              sr := WithFlags(s.sr, Flags(v == 0, v < 0, false, false))))
  {
    hide WithFlags, Sub64, Representable;
  }

  lemma Negated(x: int)
    requires INT64_MIN <= x <= INT64_MAX
    ensures (Sub64(0, x) + x) % TWO64 == 0 && !Representable(-x) == (x == INT64_MIN)
  {
    WrapOnce(0 - x);
  }

  /** Why an operation that reads an operand fails before it does anything, in this order. */
  lemma OperandRefused(i: Instruction, s: State)
    requires (IsAlu(i.op) || i.op == LD || i.op == SWP) && HasHandler(i.op, i.mode)
    ensures !NamesRegisters(i) ==> Exec(i, s) == Done(VM_ILL_REGISTER, s)
    ensures NamesRegisters(i) && i.mode != IMM && i.mode != REG ==>
              var at := PointedBy(i, s);
              && (at < DATA_BASE || MEM_SIZE - 8 < at <= TWO64 - 8 ==> Exec(i, s) == Done(VM_ILL_MEM_ACCESS, s))
              && (at > TWO64 - 8 ==> Exec(i, s) == Stuck(UndefinedBehaviour))
  {
    hide Load64, Alu, PointedBy, Address;
    if NamesRegisters(i) && i.mode != IMM && i.mode != REG { PointedIsAddress(i, s); }
  }

  // Moves

  /** LD leaves the operand in register a and changes nothing else. */
  lemma LoadEffect(i: Instruction, s: State, v: int64)
    requires i.op == LD && Reads(i, s, v)
    ensures i.a < N_REG && HasHandler(i.op, i.mode)
    ensures Exec(i, s) == Done(VM_OK, s.(regs := s.regs[i.a := v]))
  {
    hide Operand, Load64, PointedBy;
    ReadsIsOperand(i, s, v);
  }

  /** SWP between registers: each holds what the other held, and nothing else changes. */
  lemma SwapRegisters(i: Instruction, s: State)
    requires i.op == SWP && i.mode == REG && NamesRegisters(i)
    ensures var o := Exec(i, s);
            && o.Done? && o.status == VM_OK && o.next == s.(regs := o.next.regs)
            && o.next.regs[i.a] == s.regs[i.b] && o.next.regs[i.b] == s.regs[i.a]
            && (i.a == i.b ==> o.next == s)
  {
    if i.a == i.b { assert s.regs[i.a := s.regs[i.a]] == s.regs; }
  }

  /** SWP with memory: the word goes to the register, the register to the word's eight bytes. */
  lemma SwapWithMemory(i: Instruction, s: State, v: int64)
    requires i.op == SWP && i.mode != IMM && i.mode != REG && Reads(i, s, v)
    ensures i.a < N_REG && HasHandler(i.op, i.mode) && PointedBy(i, s) + 8 <= MEM_SIZE
    ensures Exec(i, s) == Done(VM_OK, s.(regs := s.regs[i.a := v], mem := Store64(s.mem, PointedBy(i, s), s.regs[i.a])))
  {
    hide Operand, Load64, Store64, PointedBy, Address;
    ReadsIsOperand(i, s, v);
    PointedIsAddress(i, s);
  }

  /** ST writes register a to the eight bytes its operand points at and nothing else. */
  lemma StoreEffect(i: Instruction, s: State)
    requires i.op == ST && (i.mode == DIR || i.mode == IND || i.mode == IDX)
    ensures !NamesRegisters(i) ==> Exec(i, s) == Done(VM_ILL_REGISTER, s)
    ensures NamesRegisters(i) ==>
              var at := PointedBy(i, s);
              && (at < DATA_BASE || MEM_SIZE - 8 < at <= TWO64 - 8 ==> Exec(i, s) == Done(VM_ILL_MEM_ACCESS, s))
              && (at > TWO64 - 8 ==> Exec(i, s) == Stuck(UndefinedBehaviour))
              && (DATA_BASE <= at <= MEM_SIZE - 8 ==>
                    Exec(i, s) == Done(VM_OK, s.(mem := Store64(s.mem, at, s.regs[i.a]))))
  {
    hide Store64, PointedBy, Address;
    if NamesRegisters(i) { PointedIsAddress(i, s); }
  }

  // The stack

  /** PUSH writes the word below sp and moves sp down to it. A full stack is found before a bad register. */
  lemma PushLaw(i: Instruction, s: State)
    requires i.op == PUSH && (i.mode == IMM || i.mode == REGU)
    ensures s.sp <= STACK_BASE ==> Exec(i, s) == Done(VM_STACK_OVERFLOW, s)
    ensures s.sp > STACK_BASE && i.a >= N_REG ==> Exec(i, s) == Done(VM_ILL_REGISTER, s)
    ensures s.sp > MEM_SIZE && i.a < N_REG ==> Exec(i, s) == Done(VM_ILL_MEM_ACCESS, s)
    ensures STACK_BASE < s.sp <= MEM_SIZE && i.a < N_REG ==>
              var word := if i.mode == IMM then i.arg else s.regs[i.a];
              Exec(i, s) == Done(VM_OK, s.(sp := s.sp - 8, mem := Store64(s.mem, s.sp - 8, word)))
  {
    hide Store64;
  }

  /** POP moves the word at sp to the register and sp up behind it. */
  lemma PopLaw(i: Instruction, s: State)
    requires i.op == POP && i.mode == REGU
    ensures s.sp >= MEM_SIZE ==> Exec(i, s) == Done(VM_STACK_UNDERFLOW, s)
    ensures s.sp < MEM_SIZE && i.a >= N_REG ==> Exec(i, s) == Done(VM_ILL_REGISTER, s)
    ensures MEM_SIZE - 8 < s.sp < MEM_SIZE && i.a < N_REG ==> Exec(i, s) == Done(VM_ILL_MEM_ACCESS, s)
    ensures s.sp <= MEM_SIZE - 8 && i.a < N_REG ==>
              Exec(i, s) == Done(VM_OK, s.(regs := s.regs[i.a := Load64(s.mem, s.sp)], sp := s.sp + 8))
  {
    hide Load64;
  }

  // Fetch and set

  /** Where FAS stores 1: the same place, but a register's number in indirect mode. */
  function SetAt(i: Instruction, regs: Registers): nat
    requires i.mode == DIR || i.mode == IND || i.mode == IDX
    requires i.b < N_REG
  {
    if i.mode == IND then i.b else Pointed(i.mode, regs[i.b], i.arg)
  }

  /**
   FAS loads the word its operand points at and then stores 1. The second address of the indexed form
   is computed from the register file that holds the loaded word already; when that address is refused
   the register has changed all the same.
   */
  lemma FetchAndSetEffect(i: Instruction, s: State)
    requires i.op == FAS && (i.mode == DIR || i.mode == IND || i.mode == IDX) && i.a < N_REG && i.b < N_REG
    requires DATA_BASE <= PointedBy(i, s) <= MEM_SIZE - 8
    ensures var regs := s.regs[i.a := Load64(s.mem, PointedBy(i, s))];
            var at := SetAt(i, regs);
            && (at <= MEM_SIZE - 8 ==> Exec(i, s) == Done(VM_OK, s.(regs := regs, mem := Store64(s.mem, at, 1))))
            && (MEM_SIZE - 8 < at <= TWO64 - 8 ==> Exec(i, s) == Done(VM_ILL_MEM_ACCESS, s.(regs := regs)))
            && (at > TWO64 - 8 ==> Exec(i, s) == Stuck(UndefinedBehaviour))
  {
    hide Load64, Store64, PointedBy, Address, FasTarget;
    PointedIsAddress(i, s);
    SetIsTarget(i, s.regs[i.a := Load64(s.mem, PointedBy(i, s))]);
  }

  lemma SetIsTarget(i: Instruction, regs: Registers)
    requires (i.mode == DIR || i.mode == IND || i.mode == IDX) && i.b < N_REG
    ensures FasTarget(i, regs) == SetAt(i, regs)
  {
    if i.mode == IDX { WrapOnce(regs[i.b] + i.arg); }
  }

  /**
   FAS refuses two bad registers (one, in direct mode) and addresses outside the data; a single bad
   register of two reads past the register file.
   */
  lemma FetchAndSetRefused(i: Instruction, s: State)
    requires i.op == FAS && (i.mode == DIR || i.mode == IND || i.mode == IDX)
    ensures i.a >= N_REG && (i.mode == DIR || i.b >= N_REG) ==> Exec(i, s) == Done(VM_ILL_REGISTER, s)
    ensures i.a < N_REG && i.mode != DIR && i.b >= N_REG ==> Exec(i, s) == Stuck(UndefinedBehaviour)
    ensures (i.a < N_REG || i.mode != DIR) && (i.mode == DIR || i.b < N_REG) ==>
              var at := PointedBy(i, s);
              && (at < DATA_BASE || MEM_SIZE - 8 < at <= TWO64 - 8 ==> Exec(i, s) == Done(VM_ILL_MEM_ACCESS, s))
              && (at > TWO64 - 8 ==> Exec(i, s) == Stuck(UndefinedBehaviour))
              && (DATA_BASE <= at <= MEM_SIZE - 8 && i.a >= N_REG ==> Exec(i, s) == Stuck(UndefinedBehaviour))
  {
    hide Load64, Store64, PointedBy, Address, FasTarget;
    if i.mode == DIR || i.b < N_REG { PointedIsAddress(i, s); }
  }

  // Transfers

  lemma PointedFrom(mode: Mode, base: int64, arg: int64)
    requires mode == DIR || mode == IND || mode == IDX
    ensures Pointed(mode, base, arg)
            == if mode == DIR then ToU(arg) else if mode == IND then ToU(base) else ToU(Add64(base, arg))
  {
    WrapOnce(base + arg);
  }

  /** CALL succeeded: the return address is pushed and pc is the target's unsigned reading. */
  ghost predicate Calls(s: State, o: Outcome, size: nat, target: int64)
    requires STACK_BASE < s.sp <= MEM_SIZE && s.pc + size < INT64_MAX
  {
    o == Done(VM_OK, s.(sp := s.sp - 8, mem := Store64(s.mem, s.sp - 8, s.pc + size), pc := target % TWO64))
  }

  lemma CallToIs(i: Instruction, s: State, target: int64)
    requires STACK_BASE < s.sp <= MEM_SIZE && s.pc < DATA_BASE
    ensures Calls(s, CallTo(i, s, target), ModeSize(i.mode), target)
  {
    hide Store64;
  }

  /** CALL to an immediate or to a register: 11 and 3 bytes long. A register may hold a negative target. */
  lemma CallEffect(i: Instruction, s: State)
    requires i.op == CALL && (i.mode == IMM || i.mode == REGU)
    ensures i.mode == REGU && i.a >= N_REG ==> Exec(i, s) == Done(VM_ILL_REGISTER, s)
    ensures (i.mode == REGU ==> i.a < N_REG) && s.sp <= STACK_BASE ==> Exec(i, s) == Done(VM_STACK_OVERFLOW, s)
    ensures i.mode == IMM && STACK_BASE < s.sp <= MEM_SIZE && s.pc < DATA_BASE ==>
              if 0 <= i.arg < DATA_BASE then Calls(s, Exec(i, s), 11, i.arg) else Exec(i, s) == Done(VM_INVALID_JMP, s)
    ensures i.mode == REGU && i.a < N_REG && STACK_BASE < s.sp <= MEM_SIZE && s.pc < DATA_BASE ==>
              if s.regs[i.a] < DATA_BASE then Calls(s, Exec(i, s), 3, s.regs[i.a])
              else Exec(i, s) == Done(VM_INVALID_JMP, s)
  {
    hide Store64, CallTo, Push, Calls;
    if STACK_BASE < s.sp <= MEM_SIZE && s.pc < DATA_BASE {
      CallToIs(i, s, i.arg);
      if i.a < N_REG { CallToIs(i, s, s.regs[i.a]); }
    }
  }

  /** CALL through memory, in any segment: 11, 4 and 12 bytes long. */
  lemma CallThroughMemory(i: Instruction, s: State)
    requires i.op == CALL && (i.mode == DIR || i.mode == IND || i.mode == IDX)
    ensures s.sp <= STACK_BASE ==> Exec(i, s) == Done(VM_STACK_OVERFLOW, s)
    ensures s.sp > STACK_BASE && i.mode != DIR && i.a >= N_REG ==> Exec(i, s) == Done(VM_ILL_REGISTER, s)
    ensures STACK_BASE < s.sp <= MEM_SIZE && s.pc < DATA_BASE && (i.mode == DIR || i.a < N_REG) ==>
              var at := Pointed(i.mode, if i.mode == DIR then 0 else s.regs[i.a], i.arg);
              && (at > TWO64 - 8 ==> Exec(i, s) == Stuck(UndefinedBehaviour))
              && (MEM_SIZE - 8 < at <= TWO64 - 8 ==> Exec(i, s) == Done(VM_ILL_MEM_ACCESS, s))
              && (at <= MEM_SIZE - 8 && Load64(s.mem, at) >= DATA_BASE ==> Exec(i, s) == Done(VM_INVALID_JMP, s))
              && (at <= MEM_SIZE - 8 && Load64(s.mem, at) < DATA_BASE ==>
                    Calls(s, Exec(i, s), if i.mode == DIR then 11 else if i.mode == IND then 4 else 12,
                          Load64(s.mem, at)))
  {
    hide Load64, Store64, CallTo, Push, Calls, Wrap;
    if STACK_BASE < s.sp <= MEM_SIZE && s.pc < DATA_BASE && (i.mode == DIR || i.a < N_REG) {
      var base: int64 := if i.mode == DIR then 0 else s.regs[i.a];
      var at := Pointed(i.mode, base, i.arg);
      PointedFrom(i.mode, base, i.arg);
      if at + 8 <= MEM_SIZE { CallToIs(i, s, Load64(s.mem, at)); }
    }
  }

  /** RTN takes pc from the top of the stack; a word from DATA_BASE on is refused, a negative one is not. */
  lemma ReturnEffect(i: Instruction, s: State)
    requires i.op == RTN && i.mode == NONE
    ensures s.sp >= MEM_SIZE ==> Exec(i, s) == Done(VM_STACK_UNDERFLOW, s)
    ensures MEM_SIZE - 8 < s.sp < MEM_SIZE ==> Exec(i, s) == Stuck(UndefinedBehaviour)
    ensures s.sp <= MEM_SIZE - 8 ==>
              Exec(i, s) == if Load64(s.mem, s.sp) >= DATA_BASE then Done(VM_INVALID_JMP, s)
                            else Done(VM_OK, s.(pc := Load64(s.mem, s.sp) % TWO64, sp := s.sp + 8))
  {
    hide Load64;
  }

  /** On which of the zero, negative and overflow bits each jump transfers. */
  predicate JumpsOn(op: OpCode, mode: Mode, z: bool, n: bool, o: bool)
    requires IsJump(op)
  {
    match op
    case JMP => true
    case JEQ => z
    case JNE => z == (mode == IND)
    case JLT => n != o
    case JGE => n == o
    case JLE => z || n != o
    case JGT => !z && n == o
  }

  ghost predicate Transfers(i: Instruction, s: State)
    requires IsJump(i.op)
  {
    JumpsOn(i.op, i.mode, s.sr & 0x02 != 0, s.sr & 0x04 != 0, s.sr & 0x08 != 0)
  }

  lemma TransfersIsTaken(i: Instruction, s: State)
    requires IsJump(i.op)
    ensures Transfers(i, s) <==> Taken(i.op, i.mode, FlagsOf(s.sr))
  {
  }

  /** pc is the target when that lies in the code segment, and nothing changes when it does not. */
  ghost predicate JumpsTo(s: State, o: Outcome, target: int) {
    o == if 0 <= target < DATA_BASE then Done(VM_OK, s.(pc := target)) else Done(VM_INVALID_JMP, s)
  }

  /** A jump whose condition fails does nothing. */
  lemma JumpNotTaken(i: Instruction, s: State)
    requires IsJump(i.op) && HasHandler(i.op, i.mode) && !Transfers(i, s)
    ensures Exec(i, s) == Done(VM_OK, s)
  {
    hide Taken, Transfers, FlagsOf;
    TransfersIsTaken(i, s);
  }

  /** Targets that stand in the instruction or in a register. */
  lemma JumpEffect(i: Instruction, s: State)
    requires IsJump(i.op) && Transfers(i, s) && (i.mode == IMM || (i.mode == REGU && i.a < N_REG))
    ensures HasHandler(i.op, i.mode)
    ensures JumpsTo(s, Exec(i, s), if i.mode == IMM then i.arg else s.regs[i.a])
  {
    hide Taken, Transfers, FlagsOf;
    TransfersIsTaken(i, s);
  }

  /**
   Targets that stand in memory. The direct form reads them in the code segment only, the indirect
   and indexed forms outside it only.
   */
  lemma JumpThroughMemory(i: Instruction, s: State)
    requires IsJump(i.op) && Transfers(i, s) && (i.mode == DIR || i.mode == IND || i.mode == IDX)
    requires i.mode != DIR ==> i.a < N_REG
    ensures HasHandler(i.op, i.mode)
    ensures var at := Pointed(i.mode, if i.mode == DIR then 0 else s.regs[i.a], i.arg);
            && (i.mode == DIR && at >= DATA_BASE ==> Exec(i, s) == Done(VM_INVALID_JMP, s))
            && (i.mode == DIR && at < DATA_BASE ==> JumpsTo(s, Exec(i, s), Load64(s.mem, at)))
            && (i.mode != DIR && (at < DATA_BASE || MEM_SIZE - 8 < at <= TWO64 - 8) ==>
                  Exec(i, s) == Done(VM_ILL_MEM_ACCESS, s))
            && (i.mode != DIR && at > TWO64 - 8 ==> Exec(i, s) == Stuck(UndefinedBehaviour))
            && (i.mode != DIR && DATA_BASE <= at <= MEM_SIZE - 8 ==> JumpsTo(s, Exec(i, s), Load64(s.mem, at)))
  {
    hide Exec, HasHandler, Transfers, JumpThrough, JumpsTo, Bounds, DataBounds;
    MemoryJumpRule(i, s);
    JumpThroughIs(s, Pointed(i.mode, if i.mode == DIR then 0 else s.regs[i.a], i.arg));
  }

  lemma MemoryJumpRule(i: Instruction, s: State)
    requires IsJump(i.op) && Transfers(i, s) && (i.mode == DIR || i.mode == IND || i.mode == IDX)
    requires i.mode != DIR ==> i.a < N_REG
    ensures HasHandler(i.op, i.mode)
    ensures var at := Pointed(i.mode, if i.mode == DIR then 0 else s.regs[i.a], i.arg);
            Exec(i, s) == if i.mode == DIR && at >= DATA_BASE then Done(VM_INVALID_JMP, s)
                          else JumpThrough(s, at, if i.mode == DIR then Bounds(at) else DataBounds(at))
  {
    hide Taken, Transfers, FlagsOf, JumpThrough, Wrap;
    TransfersIsTaken(i, s);
    PointedFrom(i.mode, if i.mode == DIR then 0 else s.regs[i.a], i.arg);
  }

  lemma JumpThroughIs(s: State, at: uint64)
    ensures at < DATA_BASE ==> JumpsTo(s, JumpThrough(s, at, Bounds(at)), Load64(s.mem, at))
    ensures at < DATA_BASE || MEM_SIZE - 8 < at <= TWO64 - 8
            ==> JumpThrough(s, at, DataBounds(at)) == Done(VM_ILL_MEM_ACCESS, s)
    ensures at > TWO64 - 8 ==> JumpThrough(s, at, DataBounds(at)) == Stuck(UndefinedBehaviour)
    ensures DATA_BASE <= at <= MEM_SIZE - 8 ==> JumpsTo(s, JumpThrough(s, at, DataBounds(at)), Load64(s.mem, at))
  {
    hide Load64;
  }

  /** Register numbers above 2 are refused, and 2 itself reads past the register file. */
  lemma JumpRefused(i: Instruction, s: State)
    requires IsJump(i.op) && HasHandler(i.op, i.mode) && Transfers(i, s)
    requires i.mode != IMM && i.mode != DIR && i.a >= N_REG
    ensures Exec(i, s) == if i.a > 2 then Done(VM_ILL_REGISTER, s) else Stuck(UndefinedBehaviour)
  {
    hide Taken, Transfers, FlagsOf, Load64;
    TransfersIsTaken(i, s);
  }

  // The rest

  /** NOP changes nothing, HALT only stops the machine, RST is a fresh machine. */
  lemma PlainEffects(i: Instruction, s: State)
    requires i.mode == NONE && (i.op == NOP || i.op == HALT || i.op == RST)
    ensures i.op == NOP ==> Exec(i, s) == Done(VM_OK, s)
    ensures i.op == HALT ==> Exec(i, s) == Done(VM_OK, s.(running := false))
    ensures i.op == RST ==> Exec(i, s) == Done(VM_OK, Initial())
  {
  }

  /** The fresh machine: cleared registers, flags and memory, an empty stack, and one free heap block. */
  lemma FreshMachine(k: nat)
    requires k < MEM_SIZE
    ensures var s := Initial();
            && s.regs == [0, 0] && s.sp == 2048 && s.pc == 0 && s.running && s.mem[k] == 0
            && s.sr == 0x10 && s.heap == [Block(1280, 256, true)]
  {
  }

  /** The dispatch table by columns: which operations have a handler in each mode. */
  lemma HandlersByMode(op: OpCode)
    ensures HasHandler(op, NONE) <==> op in {RTN, NOP, RST, HALT, TRAP}
    ensures HasHandler(op, REGU) <==> op in {NEG, NOT, PUSH, POP, CALL, JMP, JEQ, JNE, JLE, JLT, JGE, JGT}
    ensures HasHandler(op, IMM) <==>
              op in {ADD, SUB, MUL, DIV, CMP, AND, OR, XOR, SHL, SHR, LD, PUSH, CALL,
                     JMP, JEQ, JNE, JLE, JLT, JGE, JGT}
    ensures HasHandler(op, REG) <==> op in {ADD, SUB, MUL, DIV, CMP, AND, OR, XOR, SHL, SHR, LD, SWP}
    ensures forall mode | mode == DIR || mode == IND || mode == IDX ::
              HasHandler(op, mode) <==> op !in {NEG, NOT, PUSH, POP, RTN, NOP, RST, HALT, TRAP}
  {
    hide HasHandler;
    NoneColumn(op);
    RegisterColumn(op);
    ImmediateColumn(op);
    PairColumn(op);
    MemoryColumns(op, DIR);
    MemoryColumns(op, IND);
    MemoryColumns(op, IDX);
  }

  lemma NoneColumn(op: OpCode)
    ensures HasHandler(op, NONE) <==> op in {RTN, NOP, RST, HALT, TRAP}
  {
  }

  lemma RegisterColumn(op: OpCode)
    ensures HasHandler(op, REGU) <==> op in {NEG, NOT, PUSH, POP, CALL, JMP, JEQ, JNE, JLE, JLT, JGE, JGT}
  {
  }

  lemma ImmediateColumn(op: OpCode)
    ensures HasHandler(op, IMM) <==>
              op in {ADD, SUB, MUL, DIV, CMP, AND, OR, XOR, SHL, SHR, LD, PUSH, CALL,
                     JMP, JEQ, JNE, JLE, JLT, JGE, JGT}
  {
  }

  lemma PairColumn(op: OpCode)
    ensures HasHandler(op, REG) <==> op in {ADD, SUB, MUL, DIV, CMP, AND, OR, XOR, SHL, SHR, LD, SWP}
  {
  }

  lemma MemoryColumns(op: OpCode, mode: Mode)
    requires mode == DIR || mode == IND || mode == IDX
    ensures HasHandler(op, mode) <==> op !in {NEG, NOT, PUSH, POP, RTN, NOP, RST, HALT, TRAP}
  {
  }

  /** An encoding is two bytes, one for each register of the mode, and eight for its argument. */
  lemma SizeByParts(mode: Mode)
    ensures ModeSize(mode)
            == 2 + (if mode == NONE then 0 else if mode in {REG, IND, IDX} then 2 else 1)
               + (if mode in {IMM, DIR, IDX} then 8 else 0)
  {
  }
}
