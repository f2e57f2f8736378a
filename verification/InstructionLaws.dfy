/**
 What single instructions and pairs of them mean: modular arithmetic, truncating division, logic
 bit by bit, and the ways a word travels between registers, memory and stack.
 */
module InstructionLaws {
  import opened Common
  import opened Words
  import opened Isa
  import opened Machine
  import opened MemoryLaws

  // Arithmetic

  /** The exact integer an arithmetic operation approximates. */
  function Exact(op: OpCode, a: int, b: int): int
    requires op == ADD || op == SUB || op == MUL
  {
    match op
    case ADD => a + b
    case SUB => a - b
    case MUL => a * b
  }

  /** ADD, SUB and MUL are exact modulo 2^64, and exact when the result fits in int64. */
  lemma ArithmeticIsModular(op: OpCode, a: int64, b: int64)
    requires op == ADD || op == SUB || op == MUL
    ensures (Alu(op, a, b).value - Exact(op, a, b)) % TWO64 == 0
    ensures Representable(Exact(op, a, b)) <==> Alu(op, a, b).value == Exact(op, a, b)
  {
    hide Wrap;
    var x := Exact(op, a, b);
    WrapIsModular(x);
    WrapIsExactInRange(x);
  }

  lemma WrapIsModular(x: int)
    ensures (Wrap(x) - x) % TWO64 == 0
  {
  }

  lemma SignedProduct(q: int, y: int, positive: bool, negativeDivisor: bool)
    ensures var v := if positive then q else -q;
            var b := if negativeDivisor then -y else y;
            v * b == if positive != negativeDivisor then q * y else -(q * y)
  {
  }

  /** The remainder of the signed division whose magnitudes divide with quotient q and remainder m. */
  lemma SignedRemainder(a: int, b: int, q: int, m: int)
    requires b != 0 && m >= 0 && Magnitude(a) == Magnitude(b) * q + m && m < Magnitude(b)
    ensures var r := a - (if (a < 0) == (b < 0) then q else -q) * b;
            Magnitude(r) == m && (r == 0 || (r < 0) == (a < 0))
  {
    SignedProduct(q, Magnitude(b), (a < 0) == (b < 0), b < 0);
  }

  /** DIV rounds towards zero: the remainder is smaller than the divisor and has a's sign. */
  lemma DivisionTruncates(a: int64, b: int64)
    requires b != 0 && !(a == INT64_MIN && b == -1)
    ensures Alu(DIV, a, b).Result?
    ensures var r := a - Alu(DIV, a, b).value * b;
            Magnitude(r) < Magnitude(b) && (r == 0 || (r < 0) == (a < 0))
  {
    var x, y := Magnitude(a), Magnitude(b);
    FloorBounds(x, y);
    DivModParts(x, y);
    var q: int := x / y;
    SignedRemainder(a, b, q, x % y);
    assert Alu(DIV, a, b).value == if (a < 0) == (b < 0) then q else -q;
  }

  lemma DivModParts(x: nat, y: nat)
    requires y > 0
    ensures x == y * (x / y) + x % y && 0 <= x % y < y
  {
  }

  // Logic

  function Connective(op: OpCode): BitOp
    requires op == AND || op == OR || op == XOR
  {
    match op
    case AND => And
    case OR => Or
    case XOR => Xor
  }

  lemma LogicPattern(op: OpCode, a: int64, b: int64)
    requires op == AND || op == OR || op == XOR
    ensures ToU(Alu(op, a, b).value) == Bitwise(Connective(op), ToU(a), ToU(b), 64)
  {
    hide Bitwise;
    Pow2Words();
  }

  /** AND, OR and XOR act on every bit alone. */
  lemma LogicIsBitwise(op: OpCode, a: int64, b: int64, k: nat)
    requires (op == AND || op == OR || op == XOR) && k < 64
    ensures Bit(Alu(op, a, b).value, k) <==> BitOf(Connective(op), Bit(a, k), Bit(b, k))
  {
    hide Bitwise, Alu, BitAt, ToU, Connective;
    LogicPattern(op, a, b);
    BitwiseAt(Connective(op), ToU(a), ToU(b), 64, k);
  }

  /** NEG and NOT undo themselves, for every register value. */
  lemma UnaryTwice(i: Instruction, s: State)
    requires (i.op == NEG || i.op == NOT) && i.a < N_REG
    ensures ExecUnary(i, s).Done? && ExecUnary(i, s).status == VM_OK
    ensures var t := ExecUnary(i, s).next;
            ExecUnary(i, t) == Done(VM_OK, s.(sr := ExecUnary(i, t).next.sr))
  {
    hide WithFlags, Wrap;
    var x: int64 := s.regs[i.a];
    WrapOnce(0 - x);
    WrapOnce(0 - Sub64(0, x));
    var t := ExecUnary(i, s).next;
    assert t.regs[i.a := x] == s.regs;
  }

  // Words on the move

  /** A load sees what a store at the same address put there, whatever modes the two use. */
  lemma StoreThenLoad(st: Instruction, ld: Instruction, s: State)
    requires st.op == ST && HasHandler(ST, st.mode) && Exec(st, s).Done? && Exec(st, s).status == VM_OK
    requires ld.op == LD && (ld.mode == DIR || ld.mode == IND || ld.mode == IDX) && RegistersOk(ld)
    requires RegistersOk(st) && Address(ld, s) == Address(st, s)
    ensures var t := Exec(st, s).next;
            && t == s.(mem := t.mem)
            && Exec(ld, t) == Done(VM_OK, t.(regs := t.regs[ld.a := s.regs[st.a]]))
  {
    hide Load64, Store64;
    ReadAfterWrite(s.mem, Address(st, s), s.regs[st.a]);
  }

  lemma PushEffect(push: Instruction, s: State)
    requires push.op == PUSH && HasHandler(PUSH, push.mode) && s.sp <= MEM_SIZE
    requires Exec(push, s).Done? && Exec(push, s).status == VM_OK
    ensures s.sp - 8 >= 0 && (push.mode != IMM ==> push.a < N_REG)
    ensures Exec(push, s).next
            == s.(sp := s.sp - 8,
                  mem := Store64(s.mem, s.sp - 8, if push.mode == IMM then push.arg else s.regs[push.a]))
  {
    hide Store64;
  }

  lemma PopEffect(pop: Instruction, s: State)
    requires pop.op == POP && HasHandler(POP, pop.mode) && pop.a < N_REG && s.sp + 8 <= MEM_SIZE
    ensures Exec(pop, s) == Done(VM_OK, s.(regs := s.regs[pop.a := Load64(s.mem, s.sp)], sp := s.sp + 8))
  {
    hide Load64;
  }

  /** POP takes back the word PUSH put down; only the word below sp is different afterwards. */
  lemma PushThenPop(push: Instruction, pop: Instruction, s: State)
    requires push.op == PUSH && HasHandler(PUSH, push.mode) && s.sp <= MEM_SIZE
    requires Exec(push, s).Done? && Exec(push, s).status == VM_OK
    requires pop.op == POP && HasHandler(POP, pop.mode) && pop.a < N_REG
    ensures s.sp >= 8 && (push.mode != IMM ==> push.a < N_REG)
    ensures var t, word := Exec(push, s).next, if push.mode == IMM then push.arg else s.regs[push.a];
            && Exec(pop, t) == Done(VM_OK, s.(regs := s.regs[pop.a := word], mem := t.mem))
            && t.mem[..s.sp - 8] == s.mem[..s.sp - 8] && t.mem[s.sp..] == s.mem[s.sp..]
  {
    hide Exec, HasHandler, Load64, Store64;
    PushEffect(push, s);
    var word := if push.mode == IMM then push.arg else s.regs[push.a];
    PopEffect(pop, Exec(push, s).next);
    ReadAfterWrite(s.mem, s.sp - 8, word);
    WriteIsLocal(s.mem, s.sp - 8, word);
  }

  /** Direct FAS as a lock: the first one gets the old word, any later one at that address gets 1. */
  lemma FetchAndSetTwice(fas: Instruction, again: Instruction, s: State)
    requires fas.op == FAS && fas.mode == DIR && again == fas.(a := again.a) && again.a < N_REG
    requires Exec(fas, s).Done? && Exec(fas, s).status == VM_OK
    ensures fas.a < N_REG && ToU(fas.arg) + 8 <= MEM_SIZE
    ensures var t := Exec(fas, s).next;
            && t == s.(regs := s.regs[fas.a := Load64(s.mem, ToU(fas.arg))], mem := t.mem)
            && Exec(again, t) == Done(VM_OK, t.(regs := t.regs[again.a := 1]))
  {
    hide Load64, Store64;
    var addr := ToU(fas.arg);
    ReadAfterWrite(s.mem, addr, 1);
    WriteTwice(s.mem, addr, 1, 1);
  }

  /**
   MEMSET takes address, value and size off the stack in this order, sets exactly the bytes of the
   range and leaves 0 in R0.
   */
  lemma MemsetFromStack(s: State, k: nat)
    requires s.sp + 24 <= MEM_SIZE && k < MEM_SIZE
    requires var addr, size := ToU(Load64(s.mem, s.sp)), ToU(Load64(s.mem, s.sp + 16));
             HEAP_BASE <= addr && addr + size < MEM_SIZE
    ensures var addr, size := ToU(Load64(s.mem, s.sp)), ToU(Load64(s.mem, s.sp + 16));
            var o := SysMemset(s);
            && o.Done? && o.status == VM_OK
            && o.next == s.(regs := s.regs[0 := 0], sp := s.sp + 24, mem := o.next.mem)
            && o.next.mem[k] == if addr <= k < addr + size then ToU(Load64(s.mem, s.sp + 8)) % 256 else s.mem[k]
  {
    hide Load64;
  }
}
