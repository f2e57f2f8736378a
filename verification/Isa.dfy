/**
 The instruction set: operation codes, addressing modes, the dispatch table's shape.
 */
module Isa {
  import opened Words

  datatype OpCode =
    | ADD | SUB | MUL | DIV | CMP | NEG | AND | OR | XOR | NOT | SHL | SHR
    | ST | LD | SWP | PUSH | POP | FAS | CALL | RTN | NOP | RST
    | JMP | JEQ | JNE | JLE | JLT | JGE | JGT | HALT | TRAP

  datatype Mode = NONE | IMM | REGU | REG | DIR | IND | IDX

  /** Operation codes in numeric order: OPS[n] has code n. */
  const OPS: seq<OpCode> := [
    ADD, SUB, MUL, DIV, CMP, NEG, AND, OR, XOR, NOT, SHL, SHR,
    ST, LD, SWP, PUSH, POP, FAS, CALL, RTN, NOP, RST,
    JMP, JEQ, JNE, JLE, JLT, JGE, JGT, HALT, TRAP]

  const MODES: seq<Mode> := [NONE, IMM, REGU, REG, DIR, IND, IDX]

  const OP_COUNT: nat := 31
  const MODE_COUNT: nat := 7

  function OpNumber(op: OpCode): (n: byte)
    ensures n < OP_COUNT == |OPS| && OPS[n] == op
  {
    match op
    case ADD => 0 case SUB => 1 case MUL => 2 case DIV => 3 case CMP => 4 case NEG => 5
    case AND => 6 case OR => 7 case XOR => 8 case NOT => 9 case SHL => 10 case SHR => 11
    case ST => 12 case LD => 13 case SWP => 14 case PUSH => 15 case POP => 16 case FAS => 17
    case CALL => 18 case RTN => 19 case NOP => 20 case RST => 21 case JMP => 22 case JEQ => 23
    case JNE => 24 case JLE => 25 case JLT => 26 case JGE => 27 case JGT => 28 case HALT => 29
    case TRAP => 30
  }

  function ModeNumber(mode: Mode): (n: byte)
    ensures n < MODE_COUNT == |MODES| && MODES[n] == mode
  {
    match mode
    case NONE => 0 case IMM => 1 case REGU => 2 case REG => 3 case DIR => 4 case IND => 5 case IDX => 6
  }

  /** Encoded length of an instruction in the given mode. */
  function ModeSize(mode: Mode): (n: nat)
    ensures 2 <= n <= 12
  {
    match mode
    case NONE => 2
    case IMM => 11
    case REGU => 3
    case REG => 4
    case DIR => 11
    case IND => 4
    case IDX => 12
  }

  /** The mode's encoding carries a second register (codecB). */
  predicate CarriesB(mode: Mode) {
    mode == REG || mode == IND || mode == IDX
  }

  /** The mode's encoding carries a 64-bit argument (codecARGS). */
  predicate CarriesArg(mode: Mode) {
    mode == IMM || mode == IDX || mode == DIR
  }

  /** A decoded instruction. `arg` is the union of the immediate and the offset. */
  datatype Instruction = Instruction(op: OpCode, mode: Mode, a: byte, b: byte, arg: int64)

  const ZEROED := Instruction(ADD, NONE, 0, 0, 0)

  predicate IsAlu(op: OpCode) {
    op == ADD || op == SUB || op == MUL || op == DIV || op == CMP ||
    op == AND || op == OR || op == XOR || op == SHL || op == SHR
  }

  predicate IsData(op: OpCode) {
    op == ST || op == LD || op == SWP || op == PUSH || op == POP || op == FAS
  }

  predicate IsJump(op: OpCode) {
    op == JMP || op == JEQ || op == JNE || op == JLE || op == JLT || op == JGE || op == JGT
  }

  /** The dispatch table has an entry for this operation and mode. */
  predicate HasHandler(op: OpCode, mode: Mode) {
    match op
    case ADD | SUB | MUL | DIV | CMP | AND | OR | XOR | SHL | SHR | LD => mode != NONE && mode != REGU
    case NEG | NOT | POP => mode == REGU
    case ST | FAS => mode == DIR || mode == IND || mode == IDX
    case SWP => mode == REG || mode == DIR || mode == IND || mode == IDX
    case PUSH => mode == IMM || mode == REGU
    case CALL | JMP | JEQ | JNE | JLE | JLT | JGE | JGT => mode != NONE && mode != REG
    case RTN | NOP | RST | HALT | TRAP => mode == NONE
  }

  /** Number of operands the assembler expects. */
  function ArgsCount(op: OpCode): (n: nat)
    ensures n <= 2
  {
    match op
    case ADD | SUB | MUL | DIV | CMP | AND | OR | XOR | SHL | SHR | ST | LD | SWP | FAS => 2
    case NEG | NOT | PUSH | POP | CALL | JMP | JEQ | JNE | JLE | JLT | JGE | JGT => 1
    case RTN | NOP | RST | HALT | TRAP => 0
  }

  lemma ReturnHasNoOperand(op: OpCode, mode: Mode)
    requires op == RTN && HasHandler(op, mode)
    ensures mode == NONE && ModeSize(mode) == 2
  {
  }
}
