/**
 The parser's output and the assembler's input: labels, directives and instructions.
 */
module Ir {
  import opened Words
  import opened Isa

  datatype Operand =
    | Absent
    | Number(v: int64)
    | Register(r: byte)
    | Ident(name: string)
    | Text(text: string)
    | MemIdent(name: string)
    | MemNumber(v: int64)
    | MemRegister(r: byte)
    | MemIndexed(r: byte, offset: int64)
    | MemIdentOffset(name: string, offset: int64)

  datatype DirType = STRING | ADDR | ENTRY | WORD | BYTE | TEXT | DATA

  datatype Node =
    | Label(name: string)
    | Dir(dir: DirType, arg: Operand)
    | Instr(op: OpCode, a: Operand, b: Operand)
}
