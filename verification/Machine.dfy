/**
 The machine's state and the effect of every instruction on it, as functions. The operand of an
 instruction is fetched by its addressing mode and one rule per operation is applied; the handler
 methods and the dispatch tables are proved against this.
 */
module Machine {
  import opened Common
  import opened Words
  import opened Isa
  import opened Heap

  type Registers = r: seq<int64> | |r| == N_REG witness [0, 0]
  type Memory = m: seq<byte> | |m| == MEM_SIZE witness seq(MEM_SIZE, _ => 0)

  datatype State = State(regs: Registers, sp: uint64, pc: uint64, sr: bv8, mem: Memory, running: bool,
                         heap: seq<Block>)

  /** The state initVM builds. */
  function Initial(): State {
    State([0, 0], MEM_SIZE, 0, 0x10, Zeros(), true, FRESH_HEAP)
  }

  function Zeros(): Memory {
    seq(MEM_SIZE, _ => 0)
  }

  /** Why the C program's behaviour is not described by a status and a new state. */
  datatype Reason =
    | UndefinedBehaviour  // out-of-bounds access, division overflow, bad shift count
    | ProcessExit         // the decoder calls exit
    | ForeignCall         // a syscall with effects outside the machine

  datatype Outcome = Done(status: VMError, next: State) | Stuck(why: Reason)

  /** How a call into the machine ends: it returns a status, or control leaves the machine. */
  datatype Ending = Status(error: VMError) | Departs(why: Reason)

  /** The outcome an ending and the machine it leaves behind amount to. */
  function Observed(e: Ending, s: State): Outcome {
    match e
    case Status(error) => Done(error, s)
    case Departs(why) => Stuck(why)
  }

  // Memory

  function Load64(m: Memory, addr: nat): int64
    requires addr + 8 <= MEM_SIZE
  {
    Pow2Words();
    ToS(LittleEndian(m[addr..addr + 8]))
  }

  function Store64(m: Memory, addr: nat, v: int64): Memory
    requires addr + 8 <= MEM_SIZE
  {
    m[..addr] + Bytes(ToU(v), 8) + m[addr + 8..]
  }

  datatype Access = Inside | Fault(error: VMError) | Wild

  /** The guard of memRead64 and memWrite64. Past 2^64 - 8 the guard's sum wraps around. */
  function Bounds(addr: uint64): (r: Access)
    ensures r == Inside <==> addr + 8 <= MEM_SIZE
    ensures r == Wild <==> addr + 7 >= TWO64
  {
    if addr + 7 >= TWO64 then Wild
    else if addr + 7 >= MEM_SIZE then Fault(VM_ILL_MEM_ACCESS)
    else Inside
  }

  /** Handlers that access data refuse addresses inside the code segment first. */
  function DataBounds(addr: uint64): (r: Access)
    ensures r == Inside <==> DATA_BASE <= addr && addr + 8 <= MEM_SIZE
    ensures r == Wild <==> addr + 7 >= TWO64
  {
    if addr < DATA_BASE then Fault(VM_ILL_MEM_ACCESS) else Bounds(addr)
  }

  // Flags: bit 0 carry, bit 1 zero, bit 2 negative, bit 3 overflow

  const M_OVERFLOW: bv8 := 0x08
  const M_NEGATIVE: bv8 := 0x04
  const M_ZERO: bv8 := 0x02
  const M_CARRY: bv8 := 0x01

  datatype Flags = Flags(z: bool, n: bool, c: bool, o: bool)

  function WithFlags(sr: bv8, f: Flags): bv8 {
    (sr & 0xF0) | (if f.o then M_OVERFLOW else 0) | (if f.n then M_NEGATIVE else 0) |
    (if f.z then M_ZERO else 0) | (if f.c then M_CARRY else 0)
  }

  function FlagsOf(sr: bv8): Flags {
    Flags(sr & M_ZERO != 0, sr & M_NEGATIVE != 0, sr & M_CARRY != 0, sr & M_OVERFLOW != 0)
  }

  // Arithmetic

  predicate Representable(x: int) {
    INT64_MIN <= x <= INT64_MAX
  }

  /** C division: rounds towards zero. */
  function TruncDiv(a: int, b: int): int
    requires b != 0
  {
    if (a < 0) == (b < 0) then Magnitude(a) / Magnitude(b) else -(Magnitude(a) / Magnitude(b))
  }

  lemma TruncDivIsRepresentable(a: int64, b: int64)
    requires b != 0 && !(a == INT64_MIN && b == -1)
    ensures Representable(TruncDiv(a, b))
  {
    var x: nat, y: nat := Magnitude(a), Magnitude(b);
    FloorBounds(x, y);
    if y >= 2 {
      HalfAtMost(x, y);
    }
  }

  lemma FloorBounds(a: int, p: int)
    requires p >= 1
    ensures if a < 0 then a <= a / p < 0 else 0 <= a / p <= a
  {
    QuotientBounds(a, p, a / p, a % p);
  }

  lemma QuotientBounds(a: int, p: int, q: int, r: int)
    requires p >= 1 && 0 <= r < p && a == p * q + r
    ensures if a < 0 then a <= q < 0 else 0 <= q <= a
  {
    if a < 0 && q < a {
      Scale(p, q, a - 1);
      Scale(-a, 1, p);
    } else if a >= 0 && q > a {
      Scale(p, a + 1, q);
      Scale(a, 1, p);
    }
    if q >= 0 { Scale(p, 0, q); } else { Scale(p, q, -1); }
  }

  lemma Scale(p: int, x: int, y: int)
    requires p >= 0 && x <= y
    ensures p * x <= p * y
  {
  }

  lemma HalfAtMost(x: nat, y: nat)
    requires y >= 2
    ensures 2 * (x / y) <= x
  {
    FloorBounds(x, y);
    Scale(x / y, 2, y);
    assert x == y * (x / y) + x % y;
  }

  datatype AluResult = Result(value: int64, flags: Flags) | DivisionByZero | NotInC

  function LogicResult(v: int64): AluResult {
    Result(v, Flags(v == 0, v < 0, false, false))
  }

  /** The bit above bit 63 of a * 2^n. */
  predicate LeavesAtTop(a: int, n: nat) {
    ((a * Pow2(n)) / TWO64) % 2 == 1
  }

  /** The last bit that a division by 2^n drops. */
  predicate LeavesAtBottom(a: int, n: nat)
    requires n > 0
  {
    (a / Pow2(n - 1)) % 2 == 1
  }

  /** The operation and its flags, in terms of exact integer arithmetic. */
  function Alu(op: OpCode, a: int64, b: int64): AluResult
    requires IsAlu(op)
  {
    match op
    case ADD =>
      var v := Add64(a, b);
      Result(v, Flags(v == 0, v < 0, v < a, !Representable(a + b)))
    case SUB | CMP =>
      var v := Sub64(a, b);
      Result(v, Flags(v == 0, v < 0, ToU(a) < ToU(b), !Representable(a - b)))
    case MUL =>
      var v := Mul64(a, b);
      Result(v, Flags(v == 0, v < 0, !Representable(a * b), !Representable(a * b)))
    case DIV =>
      if b == 0 then DivisionByZero
      else if a == INT64_MIN && b == -1 then NotInC
      else
        TruncDivIsRepresentable(a, b);
        LogicResult(TruncDiv(a, b))
    case AND => LogicResult(Bitwise64(And, a, b))
    case OR => LogicResult(Bitwise64(Or, a, b))
    case XOR => LogicResult(Bitwise64(Xor, a, b))
    case SHL =>
      if 1 <= b <= 63 then
        var v := Wrap(a * Pow2(b));
        Result(v, Flags(v == 0, v < 0, LeavesAtTop(a, b), (v < 0) != (a < 0)))
      else NotInC
    case SHR =>
      if 1 <= b <= 63 then
        var v := AsrWord(a, b);
        Result(v, Flags(v == 0, v < 0, LeavesAtBottom(a, b), false))
      else NotInC
  }

  function AsrWord(a: int64, n: nat): int64 {
    AsrStays(a, n);
    Asr(a, n)
  }

  lemma AsrStays(a: int64, n: nat)
    ensures Representable(Asr(a, n))
    ensures (Asr(a, n) < 0) == (a < 0)
  {
    FloorBounds(a, Pow2(n));
  }

  // Operands

  predicate RegistersOk(i: Instruction) {
    i.a < N_REG && (CarriesB(i.mode) ==> i.b < N_REG)
  }

  /** The address named by a direct, indirect or indexed operand. */
  function Address(i: Instruction, s: State): uint64
    requires i.mode == DIR || i.mode == IND || i.mode == IDX
    requires CarriesB(i.mode) ==> i.b < N_REG
  {
    if i.mode == IND then ToU(s.regs[i.b])
    else if i.mode == IDX then ToU(Add64(s.regs[i.b], i.arg))
    else ToU(i.arg)
  }

  datatype Fetch = Value(v: int64) | Refused(error: VMError) | WildFetch

  function FetchAt(m: Memory, addr: uint64, bounds: Access): Fetch
    requires bounds == Inside ==> addr + 8 <= MEM_SIZE
  {
    match bounds
    case Inside => Value(Load64(m, addr))
    case Fault(e) => Refused(e)
    case Wild => WildFetch
  }

  /** The second operand of a two-operand instruction, by addressing mode. */
  function Operand(i: Instruction, s: State): Fetch
    requires i.mode != NONE && i.mode != REGU
  {
    if !RegistersOk(i) then Refused(VM_ILL_REGISTER)
    else if i.mode == IMM then Value(i.arg)
    else if i.mode == REG then Value(s.regs[i.b])
    else FetchAt(s.mem, Address(i, s), DataBounds(Address(i, s)))
  }

  // One rule per operation

  function ExecAlu(i: Instruction, s: State): Outcome
    requires IsAlu(i.op) && HasHandler(i.op, i.mode)
  {
    match Operand(i, s)
    case Refused(e) => Done(e, s)
    case WildFetch => Stuck(UndefinedBehaviour)
    case Value(v) =>
      match Alu(i.op, s.regs[i.a], v)
      case DivisionByZero => Done(VM_DIV_ZERO, s)
      case NotInC => Stuck(UndefinedBehaviour)
      case Result(r, f) =>
        Done(VM_OK, s.(regs := if i.op == CMP then s.regs else s.regs[i.a := r], sr := WithFlags(s.sr, f)))
  }

  function ExecUnary(i: Instruction, s: State): Outcome {
    if i.a >= N_REG then Done(VM_ILL_REGISTER, s)
    else
      var x: int := s.regs[i.a];
      if i.op == NEG then
        var v := Sub64(0, x);
        Done(VM_OK, s.(regs := s.regs[i.a := v],
                       sr := WithFlags(s.sr, Flags(v == 0, v < 0, x != 0, !Representable(-x)))))
      else
        var v := -1 - x;
        Done(VM_OK, s.(regs := s.regs[i.a := v], sr := WithFlags(s.sr, Flags(v == 0, v < 0, false, false))))
  }

  function ExecStore(i: Instruction, s: State): Outcome
    requires HasHandler(ST, i.mode)
  {
    if !RegistersOk(i) then Done(VM_ILL_REGISTER, s)
    else
      var addr := Address(i, s);
      match DataBounds(addr)
      case Wild => Stuck(UndefinedBehaviour)
      case Fault(e) => Done(e, s)
      case Inside => Done(VM_OK, s.(mem := Store64(s.mem, addr, s.regs[i.a])))
  }

  function ExecLoad(i: Instruction, s: State): Outcome
    requires HasHandler(LD, i.mode)
  {
    match Operand(i, s)
    case Refused(e) => Done(e, s)
    case WildFetch => Stuck(UndefinedBehaviour)
    case Value(v) => Done(VM_OK, s.(regs := s.regs[i.a := v]))
  }

  function ExecSwap(i: Instruction, s: State): Outcome
    requires HasHandler(SWP, i.mode)
  {
    match Operand(i, s)
    case Refused(e) => Done(e, s)
    case WildFetch => Stuck(UndefinedBehaviour)
    case Value(v) =>
      if i.mode == REG then Done(VM_OK, s.(regs := s.regs[i.a := v][i.b := s.regs[i.a]]))
      else Done(VM_OK, s.(regs := s.regs[i.a := v], mem := Store64(s.mem, Address(i, s), s.regs[i.a])))
  }

  /** Writes v below the stack pointer; the stack pointer does not move when the write fails. */
  function Push(s: State, v: int64): Outcome
    requires s.sp > STACK_BASE
  {
    match Bounds(s.sp - 8)
    case Inside => Done(VM_OK, s.(sp := s.sp - 8, mem := Store64(s.mem, s.sp - 8, v)))
    case Fault(e) => Done(e, s)
    case Wild => Stuck(UndefinedBehaviour)
  }

  function ExecPush(i: Instruction, s: State): Outcome {
    if s.sp <= STACK_BASE then Done(VM_STACK_OVERFLOW, s)
    else if i.a >= N_REG then Done(VM_ILL_REGISTER, s)
    else Push(s, if i.mode == IMM then i.arg else s.regs[i.a])
  }

  function ExecPop(a: byte, s: State): Outcome {
    if s.sp >= MEM_SIZE then Done(VM_STACK_UNDERFLOW, s)
    else if a >= N_REG then Done(VM_ILL_REGISTER, s)
    else
      match Bounds(s.sp)
      case Inside => Done(VM_OK, s.(regs := s.regs[a := Load64(s.mem, s.sp)], sp := s.sp + 8))
      case Fault(e) => Done(e, s)
      case Wild => Stuck(UndefinedBehaviour)
  }

  /** The address FAS stores 1 to, once the register has been loaded (regs is the new file). */
  function FasTarget(i: Instruction, regs: Registers): uint64
    requires HasHandler(FAS, i.mode) && (i.mode == IDX ==> i.b < N_REG)
  {
    if i.mode == IND then i.b
    else if i.mode == IDX then ToU(Add64(regs[i.b], i.arg))
    else ToU(i.arg)
  }

  function ExecFas(i: Instruction, s: State): Outcome
    requires HasHandler(FAS, i.mode)
  {
    if i.a >= N_REG && (CarriesB(i.mode) ==> i.b >= N_REG) then Done(VM_ILL_REGISTER, s)
    else if CarriesB(i.mode) && i.b >= N_REG then Stuck(UndefinedBehaviour)
    else
      match FetchAt(s.mem, Address(i, s), DataBounds(Address(i, s)))
      case Refused(e) => Done(e, s)
      case WildFetch => Stuck(UndefinedBehaviour)
      case Value(v) =>
        if i.a >= N_REG then Stuck(UndefinedBehaviour)
        else
          var regs := s.regs[i.a := v];
          var target := FasTarget(i, regs);
          match Bounds(target)
          case Wild => Stuck(UndefinedBehaviour)
          case Fault(e) => Done(e, s.(regs := regs))
          case Inside => Done(VM_OK, s.(regs := regs, mem := Store64(s.mem, target, 1)))
  }

  /** Pushes the address of the following instruction and transfers to target. */
  function CallTo(i: Instruction, s: State, target: int64): Outcome
    requires s.sp > STACK_BASE
  {
    match Push(s, ToS(WrapU(s.pc + ModeSize(i.mode))))
    case Stuck(why) => Stuck(why)
    case Done(e, s') => Done(e, if e == VM_OK then s'.(pc := ToU(target)) else s')
  }

  function ExecCall(i: Instruction, s: State): Outcome
    requires HasHandler(CALL, i.mode)
  {
    if i.mode == REGU && i.a >= N_REG then Done(VM_ILL_REGISTER, s)
    else if s.sp <= STACK_BASE then Done(VM_STACK_OVERFLOW, s)
    else if i.mode == IMM then
      if ToU(i.arg) >= DATA_BASE then Done(VM_INVALID_JMP, s) else CallTo(i, s, i.arg)
    else if i.mode == REGU then
      if s.regs[i.a] >= DATA_BASE then Done(VM_INVALID_JMP, s) else CallTo(i, s, s.regs[i.a])
    else if i.mode != DIR && i.a >= N_REG then Done(VM_ILL_REGISTER, s)
    else
      var addr := if i.mode == IND then ToU(s.regs[i.a])
                  else if i.mode == IDX then ToU(Add64(s.regs[i.a], i.arg))
                  else ToU(i.arg);
      match FetchAt(s.mem, addr, Bounds(addr))
      case Refused(e) => Done(e, s)
      case WildFetch => Stuck(UndefinedBehaviour)
      case Value(v) => if v >= DATA_BASE then Done(VM_INVALID_JMP, s) else CallTo(i, s, v)
  }

  /** The popped value is compared before the read's status is, so a failed read is undefined. */
  function ExecReturn(s: State): Outcome {
    if s.sp >= MEM_SIZE then Done(VM_STACK_UNDERFLOW, s)
    else if Bounds(s.sp) != Inside then Stuck(UndefinedBehaviour)
    else
      var v := Load64(s.mem, s.sp);
      if v >= DATA_BASE then Done(VM_INVALID_JMP, s) else Done(VM_OK, s.(pc := ToU(v), sp := s.sp + 8))
  }

  /** The condition under which a jump is taken. JNE in indirect mode tests the wrong polarity. */
  predicate Taken(op: OpCode, mode: Mode, f: Flags)
    requires IsJump(op)
  {
    match op
    case JMP => true
    case JEQ => f.z
    case JNE => if mode == IND then f.z else !f.z
    case JLE => f.z || f.n != f.o
    case JLT => f.n != f.o
    case JGE => f.n == f.o
    case JGT => !f.z && f.n == f.o
  }

  function JumpTo(s: State, target: uint64): Outcome {
    if target >= DATA_BASE then Done(VM_INVALID_JMP, s) else Done(VM_OK, s.(pc := target))
  }

  function JumpThrough(s: State, addr: uint64, bounds: Access): Outcome
    requires bounds == Inside ==> addr + 8 <= MEM_SIZE
  {
    match FetchAt(s.mem, addr, bounds)
    case Refused(e) => Done(e, s)
    case WildFetch => Stuck(UndefinedBehaviour)
    case Value(v) => JumpTo(s, ToU(v))
  }

  /** Register jumps compare with `>` so register number N_REG reads past the register file. */
  function ExecJump(i: Instruction, s: State): Outcome
    requires IsJump(i.op) && HasHandler(i.op, i.mode)
  {
    if !Taken(i.op, i.mode, FlagsOf(s.sr)) then Done(VM_OK, s)
    else if i.mode == IMM then JumpTo(s, ToU(i.arg))
    else if i.mode == DIR then
      if ToU(i.arg) >= DATA_BASE then Done(VM_INVALID_JMP, s)
      else JumpThrough(s, ToU(i.arg), Bounds(ToU(i.arg)))
    else if i.a > N_REG then Done(VM_ILL_REGISTER, s)
    else if i.a == N_REG then Stuck(UndefinedBehaviour)
    else if i.mode == REGU then JumpTo(s, ToU(s.regs[i.a]))
    else
      var addr := ToU(if i.mode == IND then s.regs[i.a] else Add64(s.regs[i.a], i.arg));
      JumpThrough(s, addr, DataBounds(addr))
  }

  // Syscalls

  function SysExit(s: State): Outcome {
    match ExecPop(0, s)
    case Stuck(why) => Stuck(why)
    case Done(e, s1) => Done(e, if e == VM_OK then s1.(running := false) else s1)
  }

  function SysMalloc(s: State): Outcome {
    match ExecPop(0, s)
    case Stuck(why) => Stuck(why)
    case Done(e, s1) =>
      if e != VM_OK then Done(e, s1)
      else
        match Alloc(s1.heap, ToU(s1.regs[0]))
        case OutOfMemory => Done(VM_HEAP_OUT_OF_MEMORY, s1.(regs := s1.regs[0 := 0]))
        case Allocated(h, addr) => Done(VM_OK, s1.(regs := s1.regs[0 := ToS(addr)], heap := h))
  }

  function SysFree(s: State): Outcome {
    match ExecPop(0, s)
    case Stuck(why) => Stuck(why)
    case Done(e, s1) =>
      if e != VM_OK then Done(e, s1)
      else
        var f := Free(s1.heap, ToU(s1.regs[0]));
        Done(f.status, s1.(heap := f.heap))
  }

  /** Memory with `size` bytes from addr on set to v. */
  function Fill(m: Memory, addr: nat, size: nat, v: byte): Memory
    requires addr + size <= MEM_SIZE
  {
    m[..addr] + seq(size, _ => v) + m[addr + size..]
  }

  function SysMemset(s: State): Outcome {
    match ExecPop(0, s)
    case Stuck(why) => Stuck(why)
    case Done(e1, s1) =>
      if e1 != VM_OK then Done(e1, s1)
      else
        match ExecPop(0, s1)
        case Stuck(why) => Stuck(why)
        case Done(e2, s2) =>
          if e2 != VM_OK then Done(e2, s2)
          else
            match ExecPop(0, s2)
            case Stuck(why) => Stuck(why)
            case Done(e3, s3) =>
              if e3 != VM_OK then Done(e3, s3)
              else FillHeap(s3, ToU(s1.regs[0]), ToU(s2.regs[0]) % 256, ToU(s3.regs[0]))
  }

  /** The guard's sum ptr + size can wrap around, and then the fill leaves the memory. */
  function FillHeap(s: State, ptr: uint64, v: byte, size: uint64): Outcome {
    if ptr < HEAP_BASE || WrapU(ptr + size) >= MEM_SIZE then Done(VM_ILL_MEM_ACCESS, s)
    else if ptr + size >= TWO64 then Stuck(UndefinedBehaviour)
    else Done(VM_OK, s.(mem := Fill(s.mem, ptr, size, v), regs := s.regs[0 := 0]))
  }

  /** (int) applied to a 64-bit register. */
  function ToInt32(x: int64): int {
    var low := ToU(x) % 0x1_0000_0000;
    if low < 0x8000_0000 then low else low - 0x1_0000_0000
  }

  function ExecTrap(s: State): Outcome {
    var id := ToInt32(s.regs[0]);
    if id < 0 || id >= 32 then Stuck(UndefinedBehaviour)
    else if id == 9 then SysExit(s)
    else if id == 10 then SysMalloc(s)
    else if id == 11 then SysFree(s)
    else if id == 12 then SysMemset(s)
    else if id == 2 || id >= 17 then Done(VM_UNKNOWN_SYSCALL, s)
    else Stuck(ForeignCall)
  }

  function ExecData(i: Instruction, s: State): Outcome
    requires IsData(i.op) && HasHandler(i.op, i.mode)
  {
    if i.op == ST then ExecStore(i, s)
    else if i.op == LD then ExecLoad(i, s)
    else if i.op == SWP then ExecSwap(i, s)
    else if i.op == PUSH then ExecPush(i, s)
    else if i.op == POP then ExecPop(i.a, s)
    else ExecFas(i, s)
  }

  function ExecControl(i: Instruction, s: State): Outcome
    requires !IsAlu(i.op) && !IsData(i.op) && !IsJump(i.op) && HasHandler(i.op, i.mode)
  {
    if i.op == NEG || i.op == NOT then ExecUnary(i, s)
    else if i.op == CALL then ExecCall(i, s)
    else if i.op == RTN then ExecReturn(s)
    else if i.op == NOP then Done(VM_OK, s)
    else if i.op == RST then Done(VM_OK, Initial())
    else if i.op == HALT then Done(VM_OK, s.(running := false))
    else ExecTrap(s)
  }

  /** The effect of one dispatched instruction. */
  function Exec(i: Instruction, s: State): Outcome
    requires HasHandler(i.op, i.mode)
  {
    if IsAlu(i.op) then ExecAlu(i, s)
    else if IsData(i.op) then ExecData(i, s)
    else if IsJump(i.op) then ExecJump(i, s)
    else ExecControl(i, s)
  }
}
