/**
 The two-pass assembler. The first part says, node by node and by position in the list, what
 the passes reject and what they emit; the second part is the passes themselves.
 */
module Assembler {
  import opened Common
  import opened Words
  import opened Isa
  import opened Ir
  import opened Codec
  import opened Loader

  datatype AsmError =
    | ASM_NOT_A_TEXT_SECTION
    | ASM_NOT_A_DATA_SECTION
    | ASM_SECTION_UNDEFINED
    | ASM_LABEL_REDEFINED
    | ASM_LABEL_UNDEFINED
    | ASM_ENTRY_REDEFINED
    | ASM_WRONG_ARGUMENT_TYPE
    | ASM_TOO_MANY_ARGUMENTS
    | ASM_TOO_FEW_ARGUMENTS
    | ASM_INVALID_ADRESSING_MODE
    | ASM_OK

  /** A pass returns a status, or prints it and exits the process. */
  datatype PassResult = Returned(error: AsmError) | Exited(error: AsmError)

  datatype Section = SECTION_UNDEF | SECTION_TEXT | SECTION_DATA

  datatype Symbol = Symbol(name: string, addr: nat)

  // Addressing modes

  datatype ModeChoice = ModeChoice(mode: Mode, status: AsmError)

  /** The mode an operand stands for when it is the one that selects the mode. */
  function OperandMode(o: Operand): Option<Mode> {
    match o
    case Number(_) => Some(IMM)
    case Ident(_) => Some(IMM)
    case Register(_) => Some(REG)
    case MemIdent(_) => Some(DIR)
    case MemNumber(_) => Some(DIR)
    case MemIdentOffset(_, _) => Some(DIR)
    case MemRegister(_) => Some(IND)
    case MemIndexed(_, _) => Some(IDX)
    case Absent => None
    case Text(_) => None
  }

  function Choose(m: Option<Mode>): ModeChoice {
    if m.Some? then ModeChoice(m.value, ASM_OK) else ModeChoice(NONE, ASM_WRONG_ARGUMENT_TYPE)
  }

  function ModeFor(a: Operand, b: Operand, args: nat): ModeChoice
    requires args <= 2
  {
    if args == 0 then
      if a == Absent && b == Absent then ModeChoice(NONE, ASM_OK) else ModeChoice(NONE, ASM_TOO_MANY_ARGUMENTS)
    else if args == 1 then
      if b != Absent then ModeChoice(NONE, ASM_TOO_MANY_ARGUMENTS)
      else if a.Register? then ModeChoice(REGU, ASM_OK)
      else if a == Absent then ModeChoice(NONE, ASM_TOO_FEW_ARGUMENTS)
      else Choose(OperandMode(a))
    else if a == Absent || b == Absent then ModeChoice(NONE, ASM_TOO_FEW_ARGUMENTS)
    else if !a.Register? then ModeChoice(NONE, ASM_WRONG_ARGUMENT_TYPE)
    else Choose(OperandMode(b))
  }

  function NodeMode(n: Node): ModeChoice
    requires n.Instr?
  {
    ModeFor(n.a, n.b, ArgsCount(n.op))
  }

  // Layout

  /** The section in force before node i. */
  function SectionAt(ir: seq<Node>, i: nat): Section
    requires i <= |ir|
  {
    if i == 0 then SECTION_UNDEF else SectionAfter(ir[i - 1], SectionAt(ir, i - 1))
  }

  /** Bytes a node adds to the code image. */
  function CodeBytes(n: Node): nat {
    if n.Instr? then ModeSize(NodeMode(n).mode) else 0
  }

  /** Bytes a node adds to the data image. A string is emitted with its terminator. */
  function DataBytes(n: Node): nat {
    if !n.Dir? then 0
    else
      match n.dir
      case BYTE => 1
      case WORD => 8
      case ADDR => 8
      case STRING => if n.arg.Text? then |n.arg.text| + 1 else 0
      case ENTRY => 0
      case TEXT => 0
      case DATA => 0
  }

  function TextAddr(ir: seq<Node>, i: nat): nat
    requires i <= |ir|
  {
    if i == 0 then 0 else TextAddr(ir, i - 1) + CodeBytes(ir[i - 1])
  }

  function DataOffset(ir: seq<Node>, i: nat): nat
    requires i <= |ir|
  {
    if i == 0 then 0 else DataOffset(ir, i - 1) + DataBytes(ir[i - 1])
  }

  /** The address a label at position i stands for. */
  function AddressAt(ir: seq<Node>, i: nat): nat
    requires i <= |ir|
  {
    if SectionAt(ir, i) == SECTION_DATA then DATA_BASE + DataOffset(ir, i) else TextAddr(ir, i)
  }

  /** The labels before node i, in order, with their addresses. */
  function Symbols(ir: seq<Node>, i: nat): seq<Symbol>
    requires i <= |ir|
  {
    if i == 0 then []
    else Symbols(ir, i - 1) + if ir[i - 1].Label? then [Symbol(ir[i - 1].name, AddressAt(ir, i - 1))] else []
  }

  predicate HasSymbol(table: seq<Symbol>, name: string) {
    exists k :: 0 <= k < |table| && table[k].name == name
  }

  /** The first entry with that name. */
  function LookUp(table: seq<Symbol>, name: string, i: nat := 0): Option<nat>
    requires i <= |table|
    decreases |table| - i
  {
    if i == |table| then None
    else if table[i].name == name then Some(table[i].addr)
    else LookUp(table, name, i + 1)
  }

  // What the first pass rejects

  ghost predicate EntryBefore(ir: seq<Node>, i: nat)
    requires i <= |ir|
  {
    exists k :: 0 <= k < i && ir[k].Dir? && ir[k].dir == ENTRY
  }

  ghost predicate LabelBefore(ir: seq<Node>, i: nat, name: string)
    requires i <= |ir|
  {
    exists k :: 0 <= k < i && ir[k].Label? && ir[k].name == name
  }

  ghost function FirstPassError(ir: seq<Node>, i: nat): PassResult
    requires i < |ir|
  {
    var section := SectionAt(ir, i);
    match ir[i]
    case Label(name) =>
      if LabelBefore(ir, i, name) then Returned(ASM_LABEL_REDEFINED)
      else if section == SECTION_UNDEF then Returned(ASM_SECTION_UNDEFINED)
      else Returned(ASM_OK)
    case Dir(dir, arg) => Returned(DirectiveError(dir, arg, section, EntryBefore(ir, i)))
    case Instr(op, _, _) =>
      if section != SECTION_TEXT then Returned(ASM_NOT_A_TEXT_SECTION)
      else if NodeMode(ir[i]).status != ASM_OK then Exited(NodeMode(ir[i]).status)
      else if !HasHandler(op, NodeMode(ir[i]).mode) then Returned(ASM_INVALID_ADRESSING_MODE)
      else Returned(ASM_OK)
  }

  function DirectiveError(dir: DirType, arg: Operand, section: Section, entryBefore: bool): AsmError {
    match dir
    case BYTE =>
      if !arg.Number? then ASM_WRONG_ARGUMENT_TYPE
      else if section != SECTION_DATA then ASM_NOT_A_DATA_SECTION else ASM_OK
    case WORD =>
      if !arg.Number? && !arg.Ident? then ASM_WRONG_ARGUMENT_TYPE
      else if section != SECTION_DATA then ASM_NOT_A_DATA_SECTION else ASM_OK
    case ADDR =>
      if !arg.Number? && !arg.Ident? then ASM_WRONG_ARGUMENT_TYPE
      else if section != SECTION_DATA then ASM_NOT_A_DATA_SECTION else ASM_OK
    case STRING =>
      if !arg.Text? then ASM_WRONG_ARGUMENT_TYPE
      else if section != SECTION_DATA then ASM_NOT_A_DATA_SECTION else ASM_OK
    case ENTRY =>
      if !arg.Ident? then ASM_WRONG_ARGUMENT_TYPE
      else if entryBefore then ASM_ENTRY_REDEFINED else ASM_OK
    case DATA => if arg != Absent then ASM_TOO_MANY_ARGUMENTS else ASM_OK
    case TEXT => if arg != Absent then ASM_TOO_MANY_ARGUMENTS else ASM_OK
  }

  /** No node before n is rejected. */
  ghost predicate AcceptedUpTo(ir: seq<Node>, n: nat)
    requires n <= |ir|
  {
    forall i :: 0 <= i < n ==> FirstPassError(ir, i) == Returned(ASM_OK)
  }

  ghost predicate Accepted(ir: seq<Node>) {
    AcceptedUpTo(ir, |ir|)
  }

  // What the second pass emits

  /** The operand that carries the address or value of an instruction. */
  function MainOperand(n: Node): Operand
    requires n.Instr?
  {
    if ArgsCount(n.op) <= 1 then n.a else n.b
  }

  /** The name an operand refers to, if any. */
  function NameIn(o: Operand): Option<string> {
    match o
    case Ident(name) => Some(name)
    case MemIdent(name) => Some(name)
    case MemIdentOffset(name, _) => Some(name)
    case _ => None
  }

  function ToArg(addr: nat): int64 {
    ToS(WrapU(addr))
  }

  /** The machine instruction of a node, given the address its name (if any) stands for. */
  function Resolved(n: Node, addr: nat): Instruction
    requires n.Instr?
  {
    var o := MainOperand(n);
    var base: byte := if o.Register? || o.MemRegister? || o.MemIndexed? then o.r else 0;
    var arg: int64 := if o.Number? || o.MemNumber? then o.v
                      else if o.MemIndexed? then o.offset
                      else if o.Ident? || o.MemIdent? then ToArg(addr)
                      else if o.MemIdentOffset? then Add64(ToArg(addr), o.offset)
                      else 0;
    var mode := NodeMode(n).mode;
    if ArgsCount(n.op) <= 1 then Instruction(n.op, mode, base, 0, arg)
    else Instruction(n.op, mode, if n.a.Register? then n.a.r else 0, base, arg)
  }

  function AddressFor(table: seq<Symbol>, name: Option<string>): nat {
    if name.Some? && LookUp(table, name.value).Some? then LookUp(table, name.value).value else 0
  }

  function InstrOf(n: Node, table: seq<Symbol>): Instruction
    requires n.Instr?
  {
    Resolved(n, AddressFor(table, NameIn(MainOperand(n))))
  }

  function CharBytes(s: string): (b: seq<byte>)
    ensures |b| == |s|
  {
    seq(|s|, k requires 0 <= k < |s| => s[k] as int % 256)
  }

  /** Arguments have the kind their directive reads, and no .word names a label. */
  predicate Typed(n: Node) {
    n.Dir? ==>
      match n.dir
      case BYTE => n.arg.Number?
      case WORD => n.arg.Number?
      case ADDR => n.arg.Number? || n.arg.Ident?
      case STRING => n.arg.Text?
      case ENTRY => n.arg.Ident?
      case TEXT => true
      case DATA => true
  }

  function CodeOf(n: Node, table: seq<Symbol>): (s: seq<byte>)
    ensures |s| == CodeBytes(n)
  {
    if n.Instr? then Encode(InstrOf(n, table)) else []
  }

  function DataOf(n: Node, table: seq<Symbol>): (s: seq<byte>)
    requires Typed(n)
    ensures |s| == DataBytes(n)
  {
    if !n.Dir? then []
    else
      match n.dir
      case BYTE => [ToU(n.arg.v) % 256]
      case WORD => Bytes(ToU(n.arg.v), 8)
      case ADDR => if n.arg.Number? then Bytes(ToU(n.arg.v), 8)
                   else Bytes(WrapU(AddressFor(table, Some(n.arg.name))), 8)
      case STRING => CharBytes(n.arg.text) + [0]
      case ENTRY => []
      case TEXT => []
      case DATA => []
  }

  ghost predicate AllTyped(ir: seq<Node>) {
    forall i :: 0 <= i < |ir| ==> Typed(ir[i])
  }

  function CodeImage(ir: seq<Node>, table: seq<Symbol>, i: nat): (s: seq<byte>)
    requires i <= |ir|
    ensures |s| == TextAddr(ir, i)
  {
    if i == 0 then [] else CodeImage(ir, table, i - 1) + CodeOf(ir[i - 1], table)
  }

  ghost function DataImage(ir: seq<Node>, table: seq<Symbol>, i: nat): (s: seq<byte>)
    requires i <= |ir| && AllTyped(ir)
    ensures |s| == DataOffset(ir, i)
  {
    if i == 0 then [] else DataImage(ir, table, i - 1) + DataOf(ir[i - 1], table)
  }

  /** The entry point after the first i nodes. */
  function EntryPoint(ir: seq<Node>, table: seq<Symbol>, i: nat, before: uint64): uint64
    requires i <= |ir|
  {
    if i == 0 then before else EntryAfter(ir[i - 1], table, EntryPoint(ir, table, i - 1, before))
  }

  function EntryAfter(n: Node, table: seq<Symbol>, before: uint64): uint64 {
    if n.Dir? && n.dir == ENTRY && n.arg.Ident? then WrapU(AddressFor(table, Some(n.arg.name))) else before
  }

  function EmissionError(dir: DirType, arg: Operand, section: Section, table: seq<Symbol>): AsmError {
    if dir == TEXT || dir == DATA then ASM_OK
    else if dir != ENTRY && section != SECTION_DATA then ASM_NOT_A_DATA_SECTION
    else if (dir == ENTRY || dir == ADDR) && arg.Ident? && LookUp(table, arg.name).None? then ASM_LABEL_UNDEFINED
    else ASM_OK
  }

  /** The section in force behind a node. */
  function SectionAfter(n: Node, section: Section): Section {
    if n.Dir? && n.dir == DATA then SECTION_DATA
    else if n.Dir? && n.dir == TEXT then SECTION_TEXT
    else section
  }

  function InstructionError(n: Node, section: Section, table: seq<Symbol>): PassResult
    requires n.Instr?
  {
    if section != SECTION_TEXT then Returned(ASM_NOT_A_TEXT_SECTION)
    else if NodeMode(n).status != ASM_OK then Exited(NodeMode(n).status)
    else if NameIn(MainOperand(n)).Some? && LookUp(table, NameIn(MainOperand(n)).value).None? then
      Returned(ASM_LABEL_UNDEFINED)
    else Returned(ASM_OK)
  }

  function SecondPassError(ir: seq<Node>, table: seq<Symbol>, i: nat): PassResult
    requires i < |ir|
  {
    var section := SectionAt(ir, i);
    match ir[i]
    case Label(_) => Returned(ASM_OK)
    case Dir(dir, arg) => Returned(EmissionError(dir, arg, section, table))
    case Instr(_, _, _) => InstructionError(ir[i], section, table)
  }

  ghost predicate EmittedUpTo(ir: seq<Node>, table: seq<Symbol>, n: nat)
    requires n <= |ir|
  {
    forall i :: 0 <= i < n ==> SecondPassError(ir, table, i) == Returned(ASM_OK)
  }

  // The passes

  class Assembly {
    var symtable: seq<Symbol>
    const bin: Binary

    constructor (bin: Binary)
      ensures this.bin == bin && symtable == []
    {
      this.bin := bin;
      symtable := [];
    }
  }

  method IsInSymbolTable(table: seq<Symbol>, name: string) returns (found: bool)
    ensures found <==> HasSymbol(table, name)
  {
    for i := 0 to |table|
      invariant forall k :: 0 <= k < i ==> table[k].name != name
    {
      if table[i].name == name {
        return true;
      }
    }
    return false;
  }

  method GetSymbolAddr(table: seq<Symbol>, name: string) returns (found: bool, addr: nat)
    ensures LookUp(table, name) == if found then Some(addr) else None
  {
    var i := 0;
    while i < |table|
      invariant i <= |table| && LookUp(table, name) == LookUp(table, name, i)
    {
      if table[i].name == name {
        return true, table[i].addr;
      }
      i := i + 1;
    }
    return false, 0;
  }

  method GetModeFromOperands(first: Operand, second: Operand, args: nat) returns (mode: Mode, status: AsmError)
    requires args <= 2
    ensures ModeChoice(mode, status) == ModeFor(first, second, args)
  {
    var a, b := first, second;
    status := ASM_OK;
    if args == 0 {
      if a != Absent || b != Absent {
        return NONE, ASM_TOO_MANY_ARGUMENTS;
      }
      return NONE, status;
    } else if args == 1 {
      if b != Absent {
        return NONE, ASM_TOO_MANY_ARGUMENTS;
      }
      if a.Register? {
        return REGU, ASM_OK;
      }
      b := a;
    }
    if args >= 1 && a == Absent {
      return NONE, ASM_TOO_FEW_ARGUMENTS;
    }
    if args == 2 {
      if b == Absent {
        return NONE, ASM_TOO_FEW_ARGUMENTS;
      }
      if !a.Register? {
        return NONE, ASM_WRONG_ARGUMENT_TYPE;
      }
    }
    match b
    case Ident(_) => return IMM, ASM_OK;
    case Number(_) => return IMM, ASM_OK;
    case Register(_) => return REG, ASM_OK;
    case MemIdent(_) => return DIR, ASM_OK;
    case MemIdentOffset(_, _) => return DIR, ASM_OK;
    case MemNumber(_) => return DIR, ASM_OK;
    case MemRegister(_) => return IND, ASM_OK;
    case MemIndexed(_, _) => return IDX, ASM_OK;
    case _ => return NONE, ASM_WRONG_ARGUMENT_TYPE;
  }

  /** `result` is the first error of the first pass, or ASM_OK when there is none. */
  ghost predicate FirstPassReports(ir: seq<Node>, result: PassResult) {
    if result == Returned(ASM_OK) then Accepted(ir)
    else exists i :: 0 <= i < |ir| && AcceptedUpTo(ir, i) && FirstPassError(ir, i) == result
  }

  lemma {:induction false} SymbolsAreLabels(ir: seq<Node>, i: nat, name: string)
    requires i <= |ir|
    ensures HasSymbol(Symbols(ir, i), name) <==> LabelBefore(ir, i, name)
  {
    if i > 0 {
      SymbolsAreLabels(ir, i - 1, name);
      var before, now := Symbols(ir, i - 1), Symbols(ir, i);
      if ir[i - 1].Label? {
        assert now[|before|].name == ir[i - 1].name;
      }
      assert forall k :: 0 <= k < |before| ==> now[k] == before[k];
    }
  }

  /** What node i adds to what the first pass keeps track of. */
  lemma MeasureStep(ir: seq<Node>, i: nat)
    requires i < |ir|
    ensures SectionAt(ir, i + 1) == SectionAfter(ir[i], SectionAt(ir, i))
    ensures TextAddr(ir, i + 1) == TextAddr(ir, i) + CodeBytes(ir[i])
    ensures DataOffset(ir, i + 1) == DataOffset(ir, i) + DataBytes(ir[i])
    ensures AddressAt(ir, i)
            == if SectionAt(ir, i) == SECTION_DATA then DATA_BASE + DataOffset(ir, i) else TextAddr(ir, i)
    ensures Symbols(ir, i + 1)
            == Symbols(ir, i) + if ir[i].Label? then [Symbol(ir[i].name, AddressAt(ir, i))] else []
    ensures EntryBefore(ir, i + 1) <==> EntryBefore(ir, i) || (ir[i].Dir? && ir[i].dir == ENTRY)
  {
    hide SectionAfter, CodeBytes, DataBytes;
  }

  lemma NothingMeasured(ir: seq<Node>)
    ensures SectionAt(ir, 0) == SECTION_UNDEF && TextAddr(ir, 0) == 0 && DataOffset(ir, 0) == 0
    ensures Symbols(ir, 0) == [] && !EntryBefore(ir, 0)
  {
  }

  /** Collects the labels with their addresses and measures both images. */
  method FirstPass(ass: Assembly, ir: seq<Node>) returns (result: PassResult)
    modifies ass, ass.bin
    ensures FirstPassReports(ir, result)
    ensures result == Returned(ASM_OK) ==>
              && ass.symtable == Symbols(ir, |ir|)
              && ass.bin.codeSize == TextAddr(ir, |ir|)
              && ass.bin.dataSize == DataOffset(ir, |ir|)
    ensures ass.bin.entryPoint == old(ass.bin.entryPoint)
  {
    hide SectionAt, TextAddr, DataOffset, Symbols, AddressAt, EntryBefore, ModeFor;
    NothingMeasured(ir);
    ass.symtable := [];
    var textAddr: nat, dataAddr: nat := 0, DATA_BASE;
    var section := SECTION_UNDEF;
    var entryOk := false;
    for i := 0 to |ir|
      invariant AcceptedUpTo(ir, i) && section == SectionAt(ir, i)
      invariant textAddr == TextAddr(ir, i) && dataAddr == DATA_BASE + DataOffset(ir, i)
      invariant ass.symtable == Symbols(ir, i)
      invariant entryOk <==> EntryBefore(ir, i)
      invariant ass.bin.entryPoint == old(ass.bin.entryPoint)
    {
      MeasureStep(ir, i);
      match ir[i]
      case Label(name) =>
        SymbolsAreLabels(ir, i, name);
        var found := IsInSymbolTable(ass.symtable, name);
        if found {
          return Returned(ASM_LABEL_REDEFINED);
        }
        if section == SECTION_UNDEF {
          return Returned(ASM_SECTION_UNDEFINED);
        }
        ass.symtable := ass.symtable + [Symbol(name, if section == SECTION_DATA then dataAddr else textAddr)];
      case Dir(dir, arg) =>
        match dir {
          case BYTE =>
            if !arg.Number? { return Returned(ASM_WRONG_ARGUMENT_TYPE); }
            if section != SECTION_DATA { return Returned(ASM_NOT_A_DATA_SECTION); }
            dataAddr := dataAddr + 1;
          case WORD | ADDR =>
            if !arg.Number? && !arg.Ident? { return Returned(ASM_WRONG_ARGUMENT_TYPE); }
            if section != SECTION_DATA { return Returned(ASM_NOT_A_DATA_SECTION); }
            dataAddr := dataAddr + 8;
          case STRING =>
            if !arg.Text? { return Returned(ASM_WRONG_ARGUMENT_TYPE); }
            dataAddr := dataAddr + |arg.text| + 1;
            if section != SECTION_DATA { return Returned(ASM_NOT_A_DATA_SECTION); }
          case ENTRY =>
            if !arg.Ident? { return Returned(ASM_WRONG_ARGUMENT_TYPE); }
            if entryOk { return Returned(ASM_ENTRY_REDEFINED); }
            entryOk := true;
          case DATA =>
            if arg != Absent { return Returned(ASM_TOO_MANY_ARGUMENTS); }
            section := SECTION_DATA;
          case TEXT =>
            if arg != Absent { return Returned(ASM_TOO_MANY_ARGUMENTS); }
            section := SECTION_TEXT;
        }
      case Instr(op, a, b) =>
        if section != SECTION_TEXT {
          return Returned(ASM_NOT_A_TEXT_SECTION);
        }
        var mode, status := GetModeFromOperands(a, b, ArgsCount(op));
        if status != ASM_OK {
          return Exited(status);
        }
        if !HasHandler(op, mode) {
          return Returned(ASM_INVALID_ADRESSING_MODE);
        }
        textAddr := textAddr + ModeSize(mode);
    }
    ass.bin.codeSize := textAddr;
    ass.bin.dataSize := dataAddr - DATA_BASE;
    return Returned(ASM_OK);
  }

  /** `result` is the first error of the second pass, or ASM_OK when there is none. */
  ghost predicate SecondPassReports(ir: seq<Node>, table: seq<Symbol>, result: PassResult) {
    if result == Returned(ASM_OK) then EmittedUpTo(ir, table, |ir|)
    else exists i :: 0 <= i < |ir| && EmittedUpTo(ir, table, i) && SecondPassError(ir, table, i) == result
  }

  lemma {:induction false} AddressesGrow(ir: seq<Node>, i: nat, j: nat)
    requires i <= j <= |ir|
    ensures TextAddr(ir, i) <= TextAddr(ir, j) && DataOffset(ir, i) <= DataOffset(ir, j)
  {
    if i < j { AddressesGrow(ir, i, j - 1); }
  }

  /** Builds the instruction of a node; the name it refers to must be in the table. */
  method BuildInstr(n: Node, mode: Mode, table: seq<Symbol>) returns (defined: bool, instr: Instruction)
    requires n.Instr? && NodeMode(n) == ModeChoice(mode, ASM_OK)
    ensures defined <==> NameIn(MainOperand(n)).Some? ==> LookUp(table, NameIn(MainOperand(n)).value).Some?
    ensures defined ==> instr == InstrOf(n, table)
  {
    instr := ZEROED.(op := n.op, mode := mode);
    var ope := if ArgsCount(n.op) <= 1 then n.a else n.b;
    if ArgsCount(n.op) == 2 {
      instr := instr.(a := n.a.r);
    }
    match ope
    case Absent => return true, instr;
    case Number(v) => return true, instr.(arg := v);
    case MemNumber(v) => return true, instr.(arg := v);
    case Register(r) => return true, SetBase(instr, r);
    case MemRegister(r) => return true, SetBase(instr, r);
    case MemIndexed(r, offset) => return true, SetBase(instr, r).(arg := offset);
    case Ident(name) =>
      var found, addr := GetSymbolAddr(table, name);
      return found, instr.(arg := ToArg(addr));
    case MemIdent(name) =>
      var found, addr := GetSymbolAddr(table, name);
      return found, instr.(arg := ToArg(addr));
    case MemIdentOffset(name, offset) =>
      var found, addr := GetSymbolAddr(table, name);
      return found, instr.(arg := Add64(ToArg(addr), offset));
    case Text(_) => assert false;
  }

  /** The base register goes to field a of a one-operand instruction and to field b otherwise. */
  function SetBase(instr: Instruction, r: byte): Instruction {
    if ArgsCount(instr.op) <= 1 then instr.(a := r) else instr.(b := r)
  }

  /** Writes the bytes of one instruction at textAddr. */
  method EmitCode(ass: Assembly, n: Node, instr: Instruction, textAddr: nat)
    requires n.Instr? && instr == InstrOf(n, ass.symtable)
    requires ass.bin.Valid() && textAddr + CodeBytes(n) <= ass.bin.codeSize
    modifies ass.bin.bytecode
    ensures ass.bin.bytecode[..textAddr] == old(ass.bin.bytecode[..textAddr])
    ensures ass.bin.bytecode[..textAddr + CodeBytes(n)] == ass.bin.bytecode[..textAddr] + CodeOf(n, ass.symtable)
  {
    hide Encode, InstrOf, Resolved;
    ghost var before := ass.bin.bytecode[..];
    ModeOfInstr(n, ass.symtable);
    var written := InstructionEncode(instr, ass.bin.bytecode, textAddr, ass.bin.codeSize - textAddr);
    PlacedSlices(ass.bin.bytecode[..], before, textAddr, Encode(instr), written);
    assert ass.bin.bytecode[..textAddr] == before[..textAddr];
  }

  lemma ModeOfInstr(n: Node, table: seq<Symbol>)
    requires n.Instr?
    ensures InstrOf(n, table).mode == NodeMode(n).mode && InstrOf(n, table).op == n.op
  {
  }

  /** Writes the bytes of one directive at dataAddr; an unknown label writes nothing. */
  method EmitData(ass: Assembly, n: Node, dataAddr: nat) returns (defined: bool)
    requires n.Dir? && Typed(n) && n.dir in {BYTE, WORD, ADDR, STRING}
    requires ass.bin.Valid() && dataAddr + DataBytes(n) <= ass.bin.dataSize
    modifies ass.bin.data
    ensures defined <==> (n.dir == ADDR && n.arg.Ident? ==> LookUp(ass.symtable, n.arg.name).Some?)
    ensures ass.bin.data[..dataAddr] == old(ass.bin.data[..dataAddr])
    ensures defined ==>
              ass.bin.data[..dataAddr + DataBytes(n)] == ass.bin.data[..dataAddr] + DataOf(n, ass.symtable)
  {
    var data := ass.bin.data;
    ghost var before := data[..];
    if n.dir == BYTE {
      data[dataAddr] := ToU(n.arg.v) % 256;
    } else if n.dir == STRING {
      forall k | 0 <= k < |n.arg.text| {
        data[dataAddr + k] := n.arg.text[k] as int % 256;
      }
      data[dataAddr + |n.arg.text|] := 0;
    } else {
      var word;
      if n.dir == ADDR && n.arg.Ident? {
        var found, addr := GetSymbolAddr(ass.symtable, n.arg.name);
        if !found {
          return false;
        }
        word := ToArg(addr);
        assert ToU(word) == WrapU(addr);
      } else {
        word := n.arg.v;
      }
      EncodeArg(word, data, dataAddr);
      PlacedSlices(data[..], before, dataAddr, Bytes(ToU(word), 8), 8);
      assert data[..dataAddr] == before[..dataAddr];
    }
    return true;
  }

  /** Switches section, sets the entry point or writes data. */
  method EmitDirective(ass: Assembly, n: Node, section: Section, dataAddr: nat)
    returns (status: AsmError, after: Section)
    requires n.Dir? && Typed(n)
    requires ass.bin.Valid() && dataAddr + DataBytes(n) <= ass.bin.dataSize
    modifies ass.bin`entryPoint, ass.bin.data
    ensures status == EmissionError(n.dir, n.arg, section, ass.symtable)
    ensures status == ASM_OK ==>
              && after == SectionAfter(n, section)
              && ass.bin.entryPoint == EntryAfter(n, ass.symtable, old(ass.bin.entryPoint))
              && ass.bin.data[..dataAddr] == old(ass.bin.data[..dataAddr])
              && ass.bin.data[..dataAddr + DataBytes(n)] == ass.bin.data[..dataAddr] + DataOf(n, ass.symtable)
  {
    after := section;
    if n.dir == DATA {
      NothingEmitted(n, ass.symtable);
      return ASM_OK, SECTION_DATA;
    }
    if n.dir == TEXT {
      NothingEmitted(n, ass.symtable);
      return ASM_OK, SECTION_TEXT;
    }
    if n.dir == ENTRY {
      NothingEmitted(n, ass.symtable);
      var found, addr := GetSymbolAddr(ass.symtable, n.arg.name);
      if !found {
        return ASM_LABEL_UNDEFINED, after;
      }
      ass.bin.entryPoint := WrapU(addr);
      return ASM_OK, after;
    }
    if section != SECTION_DATA {
      return ASM_NOT_A_DATA_SECTION, after;
    }
    var defined := EmitData(ass, n, dataAddr);
    if !defined {
      return ASM_LABEL_UNDEFINED, after;
    }
    return ASM_OK, after;
  }

  /** Encodes the instruction of a node, or reports why it cannot be emitted. */
  method EmitInstruction(ass: Assembly, n: Node, section: Section, textAddr: nat) returns (result: PassResult)
    requires n.Instr? && ass.bin.Valid() && textAddr + CodeBytes(n) <= ass.bin.codeSize
    modifies ass.bin.bytecode
    ensures result == InstructionError(n, section, ass.symtable)
    ensures result == Returned(ASM_OK) ==>
              && ass.bin.bytecode[..textAddr] == old(ass.bin.bytecode[..textAddr])
              && ass.bin.bytecode[..textAddr + CodeBytes(n)] == ass.bin.bytecode[..textAddr] + CodeOf(n, ass.symtable)
  {
    hide InstrOf, CodeOf, CodeBytes, ModeFor, MainOperand, NameIn;
    if section != SECTION_TEXT {
      return Returned(ASM_NOT_A_TEXT_SECTION);
    }
    var mode, status := GetModeFromOperands(n.a, n.b, ArgsCount(n.op));
    if status != ASM_OK {
      return Exited(status);
    }
    var defined, instr := BuildInstr(n, mode, ass.symtable);
    if !defined {
      return Returned(ASM_LABEL_UNDEFINED);
    }
    EmitCode(ass, n, instr, textAddr);
    return Returned(ASM_OK);
  }

  /** What node i adds to the layout and to the images. */
  lemma EmissionStep(ir: seq<Node>, table: seq<Symbol>, i: nat, before: uint64)
    requires i < |ir| && AllTyped(ir)
    ensures SectionAt(ir, i + 1) == SectionAfter(ir[i], SectionAt(ir, i))
    ensures TextAddr(ir, i + 1) == TextAddr(ir, i) + CodeBytes(ir[i]) <= TextAddr(ir, |ir|)
    ensures DataOffset(ir, i + 1) == DataOffset(ir, i) + DataBytes(ir[i]) <= DataOffset(ir, |ir|)
    ensures CodeImage(ir, table, i + 1) == CodeImage(ir, table, i) + CodeOf(ir[i], table)
    ensures DataImage(ir, table, i + 1) == DataImage(ir, table, i) + DataOf(ir[i], table)
    ensures EntryPoint(ir, table, i + 1, before) == EntryAfter(ir[i], table, EntryPoint(ir, table, i, before))
  {
    hide CodeOf, DataOf, CodeBytes, DataBytes, SectionAfter, EntryAfter, Typed;
    AddressesGrow(ir, i + 1, |ir|);
  }

  lemma NothingYet(ir: seq<Node>, table: seq<Symbol>, before: uint64)
    requires AllTyped(ir)
    ensures SectionAt(ir, 0) == SECTION_UNDEF && TextAddr(ir, 0) == 0 && DataOffset(ir, 0) == 0
    ensures CodeImage(ir, table, 0) == [] && DataImage(ir, table, 0) == [] && EntryPoint(ir, table, 0, before) == before
  {
  }

  /** Emits both images. The sizes are those the first pass measured. */
  method SecondPass(ass: Assembly, ir: seq<Node>) returns (result: PassResult)
    requires AllTyped(ir)
    requires ass.bin.codeSize == TextAddr(ir, |ir|) && ass.bin.dataSize == DataOffset(ir, |ir|)
    modifies ass.bin
    ensures ass.symtable == old(ass.symtable)
    ensures SecondPassReports(ir, ass.symtable, result)
    ensures result == Returned(ASM_OK) ==>
              && ass.bin.Valid() && fresh(ass.bin.bytecode) && fresh(ass.bin.data)
              && ass.bin.Code() == CodeImage(ir, ass.symtable, |ir|)
              && ass.bin.Data() == DataImage(ir, ass.symtable, |ir|)
              && ass.bin.entryPoint == EntryPoint(ir, ass.symtable, |ir|, old(ass.bin.entryPoint))
  {
    hide CodeOf, DataOf, CodeBytes, DataBytes, SectionAfter, EntryAfter, EmissionError, InstructionError, Typed;
    hide CodeImage, DataImage, TextAddr, DataOffset, SectionAt, EntryPoint;
    var bin, table := ass.bin, ass.symtable;
    bin.bytecode := new byte[bin.codeSize];
    bin.data := new byte[bin.dataSize];
    var textAddr: nat, dataAddr: nat := 0, 0;
    var section := SECTION_UNDEF;
    NothingYet(ir, table, bin.entryPoint);
    for i := 0 to |ir|
      invariant EmittedUpTo(ir, table, i) && section == SectionAt(ir, i)
      invariant textAddr == TextAddr(ir, i) <= bin.codeSize && dataAddr == DataOffset(ir, i) <= bin.dataSize
      invariant bin.codeSize == TextAddr(ir, |ir|) == bin.bytecode.Length
      invariant bin.dataSize == DataOffset(ir, |ir|) == bin.data.Length
      invariant fresh(bin.bytecode) && fresh(bin.data) && bin.bytecode != bin.data
      invariant bin.bytecode[..textAddr] == CodeImage(ir, table, i)
      invariant bin.data[..dataAddr] == DataImage(ir, table, i)
      invariant bin.entryPoint == EntryPoint(ir, table, i, old(ass.bin.entryPoint))
    {
      EmissionStep(ir, table, i, old(ass.bin.entryPoint));
      match ir[i]
      case Label(_) =>
        NoCode(ir[i], table);
        NoData(ir[i], table);
      case Dir(dir, arg) =>
        var status;
        status, section := EmitDirective(ass, ir[i], section, dataAddr);
        if status != ASM_OK {
          return Returned(status);
        }
        NoCode(ir[i], table);
        dataAddr := dataAddr + DataBytes(ir[i]);
      case Instr(_, _, _) =>
        result := EmitInstruction(ass, ir[i], section, textAddr);
        if result != Returned(ASM_OK) {
          return;
        }
        NoData(ir[i], table);
        textAddr := textAddr + CodeBytes(ir[i]);
    }
    return Returned(ASM_OK);
  }

  lemma NoCode(n: Node, table: seq<Symbol>)
    requires !n.Instr?
    ensures CodeOf(n, table) == [] && CodeBytes(n) == 0
  {
  }

  lemma NoData(n: Node, table: seq<Symbol>)
    requires Typed(n) && !n.Dir?
    ensures DataOf(n, table) == [] && DataBytes(n) == 0
    ensures forall s :: SectionAfter(n, s) == s
    ensures forall e :: EntryAfter(n, table, e) == e
  {
  }

  lemma NothingEmitted(n: Node, table: seq<Symbol>)
    requires Typed(n) && !n.Instr? && (n.Dir? ==> n.dir in {DATA, TEXT, ENTRY})
    ensures CodeOf(n, table) == [] && DataOf(n, table) == []
  {
  }
}
