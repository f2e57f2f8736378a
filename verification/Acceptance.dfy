/**
 Which lists the assembler accepts and what it makes of their instructions, read off the nodes: the
 kinds of their operands, their labels and the section directives around them.
 */
module Acceptance {
  import opened Common
  import opened Words
  import opened Isa
  import opened Ir
  import opened Assembler
  import opened AssemblerLaws
  import opened Simulation

  // Sections

  predicate OpensSection(n: Node) {
    n.Dir? && (n.dir == TEXT || n.dir == DATA)
  }

  /** The last section directive before position i is `section`. */
  ghost predicate InSection(ir: seq<Node>, i: nat, section: DirType)
    requires i <= |ir|
  {
    exists k :: 0 <= k < i && ir[k].Dir? && ir[k].dir == section && forall m :: k < m < i ==> !OpensSection(ir[m])
  }

  lemma {:induction false} SectionIsLast(ir: seq<Node>, i: nat)
    requires i <= |ir|
    ensures SectionAt(ir, i) == SECTION_TEXT <==> InSection(ir, i, TEXT)
    ensures SectionAt(ir, i) == SECTION_DATA <==> InSection(ir, i, DATA)
  {
    if i > 0 {
      SectionIsLast(ir, i - 1);
      InSectionStep(ir, i, TEXT);
      InSectionStep(ir, i, DATA);
    }
  }

  lemma InSectionStep(ir: seq<Node>, i: nat, section: DirType)
    requires 0 < i <= |ir| && (section == TEXT || section == DATA)
    ensures InSection(ir, i, section)
            <==> if OpensSection(ir[i - 1]) then ir[i - 1].dir == section else InSection(ir, i - 1, section)
  {
    if OpensSection(ir[i - 1]) {
      if ir[i - 1].dir == section { assert ir[i - 1].Dir?; }
    } else if InSection(ir, i - 1, section) {
      var k :|
        0 <= k < i - 1 && ir[k].Dir? && ir[k].dir == section && forall m :: k < m < i - 1 ==> !OpensSection(ir[m]);
      assert forall m :: k < m < i ==> !OpensSection(ir[m]);
    }
  }

  // Operands

  /** An operand that has a value of its own: a number or a name. */
  predicate IsValue(o: Operand) {
    o.Number? || o.Ident?
  }

  predicate IsMemory(o: Operand) {
    o.MemIdent? || o.MemNumber? || o.MemRegister? || o.MemIndexed? || o.MemIdentOffset?
  }

  /** The operand kinds an operation can be assembled with. */
  predicate Takes(op: OpCode, a: Operand, b: Operand) {
    match op
    case RTN | NOP | RST | HALT | TRAP => a.Absent? && b.Absent?
    case NEG | NOT | POP => a.Register? && b.Absent?
    case PUSH => (a.Register? || IsValue(a)) && b.Absent?
    case CALL | JMP | JEQ | JNE | JLE | JLT | JGE | JGT => (a.Register? || IsValue(a) || IsMemory(a)) && b.Absent?
    case ADD | SUB | MUL | DIV | CMP | AND | OR | XOR | SHL | SHR | LD =>
      a.Register? && (b.Register? || IsValue(b) || IsMemory(b))
    case SWP => a.Register? && (b.Register? || IsMemory(b))
    case ST | FAS => a.Register? && IsMemory(b)
  }

  lemma TakesIsHandled(n: Node)
    requires n.Instr?
    ensures Takes(n.op, n.a, n.b) <==> NodeMode(n).status == ASM_OK && HasHandler(n.op, NodeMode(n).mode)
  {
  }

  // Lists

  ghost predicate SectionOpened(ir: seq<Node>, i: nat)
    requires i <= |ir|
  {
    exists k :: 0 <= k < i && OpensSection(ir[k])
  }

  lemma {:induction false} OpenedIsDefined(ir: seq<Node>, i: nat)
    requires i <= |ir|
    ensures SectionAt(ir, i) != SECTION_UNDEF <==> SectionOpened(ir, i)
  {
    if i > 0 { OpenedIsDefined(ir, i - 1); }
  }

  /**
   What the first pass reports at an instruction: outside the text section, too many operands, too few,
   one of the wrong kind (these three end the process), or a mode the operation has no handler for.
   */
  lemma InstructionReport(ir: seq<Node>, i: nat)
    requires i < |ir| && ir[i].Instr?
    ensures var n, args := ir[i], ArgsCount(ir[i].op);
            FirstPassError(ir, i)
            == if !InSection(ir, i, TEXT) then Returned(ASM_NOT_A_TEXT_SECTION)
               else if (args == 0 && !n.a.Absent?) || (args <= 1 && !n.b.Absent?) then Exited(ASM_TOO_MANY_ARGUMENTS)
               else if (args >= 1 && n.a.Absent?) || (args == 2 && n.b.Absent?) then Exited(ASM_TOO_FEW_ARGUMENTS)
               else if (args == 2 && !n.a.Register?) || n.a.Text? || n.b.Text? then Exited(ASM_WRONG_ARGUMENT_TYPE)
               else if !Takes(n.op, n.a, n.b) then Returned(ASM_INVALID_ADRESSING_MODE)
               else Returned(ASM_OK)
  {
    hide InSection, Takes, HasHandler, ArgsCount;
    SectionIsLast(ir, i);
    TakesIsHandled(ir[i]);
  }

  /** What it reports at a label: a second definition, or no section yet. */
  lemma LabelReport(ir: seq<Node>, i: nat)
    requires i < |ir| && ir[i].Label?
    ensures FirstPassError(ir, i)
            == if exists k :: 0 <= k < i && ir[k] == ir[i] then Returned(ASM_LABEL_REDEFINED)
               else if !SectionOpened(ir, i) then Returned(ASM_SECTION_UNDEFINED)
               else Returned(ASM_OK)
  {
    hide SectionOpened;
    OpenedIsDefined(ir, i);
    if LabelBefore(ir, i, ir[i].name) {
      var k :| 0 <= k < i && ir[k].Label? && ir[k].name == ir[i].name;
      assert ir[k] == ir[i];
    }
  }

  /** The argument a directive takes. */
  predicate Accepts(dir: DirType, arg: Operand) {
    match dir
    case BYTE => arg.Number?
    case WORD | ADDR => IsValue(arg)
    case STRING => arg.Text?
    case ENTRY => arg.Ident?
    case TEXT | DATA => arg.Absent?
  }

  /** What it reports at a directive: the argument first, then the section, or a second entry point. */
  lemma DirectiveReport(ir: seq<Node>, i: nat)
    requires i < |ir| && ir[i].Dir?
    ensures var dir := ir[i].dir;
            FirstPassError(ir, i)
            == Returned(if !Accepts(dir, ir[i].arg) then
                          if dir == TEXT || dir == DATA then ASM_TOO_MANY_ARGUMENTS else ASM_WRONG_ARGUMENT_TYPE
                        else if dir in {BYTE, WORD, ADDR, STRING} && !InSection(ir, i, DATA) then ASM_NOT_A_DATA_SECTION
                        else if dir == ENTRY && EntryBefore(ir, i) then ASM_ENTRY_REDEFINED
                        else ASM_OK)
  {
    hide InSection, EntryBefore;
    SectionIsLast(ir, i);
  }

  /** A node that stands where it may and has the operands it may have. */
  ghost predicate WellPlaced(ir: seq<Node>, i: nat)
    requires i < |ir|
  {
    match ir[i]
    case Label(_) => SectionOpened(ir, i)
    case Instr(op, a, b) => InSection(ir, i, TEXT) && Takes(op, a, b)
    case Dir(dir, arg) => Accepts(dir, arg) && (dir in {BYTE, WORD, ADDR, STRING} ==> InSection(ir, i, DATA))
  }

  /** No label is defined twice. */
  ghost predicate LabelsDiffer(ir: seq<Node>) {
    forall j, k :: 0 <= j < k < |ir| && ir[j].Label? ==> ir[j] != ir[k]
  }

  predicate IsEntry(n: Node) {
    n.Dir? && n.dir == ENTRY
  }

  ghost predicate OneEntry(ir: seq<Node>) {
    forall j, k :: 0 <= j < k < |ir| && IsEntry(ir[j]) ==> !IsEntry(ir[k])
  }

  /**
   The lists the first pass accepts: every node is well placed, labels differ, and there is at most one
   entry directive.
   */
  lemma AcceptedExactly(ir: seq<Node>)
    ensures Accepted(ir) <==>
              (forall i :: 0 <= i < |ir| ==> WellPlaced(ir, i)) && LabelsDiffer(ir) && OneEntry(ir)
  {
    hide FirstPassError, WellPlaced;
    forall i | 0 <= i < |ir|
      ensures FirstPassError(ir, i) == Returned(ASM_OK)
              <==> WellPlaced(ir, i) && !Redefined(ir, i) && !Reentered(ir, i)
    {
      NodeAccepted(ir, i);
    }
    if LabelsDiffer(ir) && OneEntry(ir) {
      assert forall i :: 0 <= i < |ir| ==> !Redefined(ir, i) && !Reentered(ir, i);
    } else if !LabelsDiffer(ir) {
      var j, k :| 0 <= j < k < |ir| && ir[j].Label? && ir[j] == ir[k];
      assert Redefined(ir, k);
    } else {
      var j, k :| 0 <= j < k < |ir| && IsEntry(ir[j]) && IsEntry(ir[k]);
      assert Reentered(ir, k);
    }
  }

  ghost predicate Redefined(ir: seq<Node>, i: nat)
    requires i < |ir|
  {
    ir[i].Label? && exists k :: 0 <= k < i && ir[k] == ir[i]
  }

  ghost predicate Reentered(ir: seq<Node>, i: nat)
    requires i < |ir|
  {
    IsEntry(ir[i]) && exists k :: 0 <= k < i && IsEntry(ir[k])
  }

  lemma NodeAccepted(ir: seq<Node>, i: nat)
    requires i < |ir|
    ensures FirstPassError(ir, i) == Returned(ASM_OK)
            <==> WellPlaced(ir, i) && !Redefined(ir, i) && !Reentered(ir, i)
  {
    hide FirstPassError, InSection, Takes, SectionOpened, ArgsCount;
    match ir[i]
    case Label(_) => LabelReport(ir, i);
    case Dir(_, _) =>
      DirectiveReport(ir, i);
      assert EntryBefore(ir, i) <==> exists k :: 0 <= k < i && IsEntry(ir[k]);
    case Instr(_, _, _) =>
      InstructionReport(ir, i);
      if Takes(ir[i].op, ir[i].a, ir[i].b) { TakesCounts(ir[i].op, ir[i].a, ir[i].b); }
  }

  lemma TakesCounts(op: OpCode, a: Operand, b: Operand)
    requires Takes(op, a, b)
    ensures ArgsCount(op) == if a.Absent? then 0 else if b.Absent? then 1 else 2
    ensures ArgsCount(op) == 2 ==> a.Register?
    ensures ArgsCount(op) == 0 ==> b.Absent?
    ensures !a.Text? && !b.Text?
  {
  }

  // Instructions

  /** The addressing mode and the argument of an instruction agree with the operand that selects them. */
  ghost predicate Stands(ir: Program, o: Operand, i: Instruction, base: byte) {
    match o
    case Number(v) => i.mode == IMM && i.arg == v
    case Ident(name) => i.mode == IMM && (i.arg - NameAddress(ir, Some(name))) % TWO64 == 0
    case MemNumber(v) => i.mode == DIR && i.arg == v
    case MemIdent(name) => i.mode == DIR && (i.arg - NameAddress(ir, Some(name))) % TWO64 == 0
    case MemIdentOffset(name, k) => i.mode == DIR && (i.arg - (NameAddress(ir, Some(name)) + k)) % TWO64 == 0
    case MemRegister(r) => i.mode == IND && base == r
    case MemIndexed(r, k) => i.mode == IDX && base == r && i.arg == k
    case Register(r) => base == r && i.arg == 0
    case Absent => i.mode == NONE
    case Text(_) => false
  }

  lemma SumModulo(addr: nat, k: int64)
    ensures (ToArg(addr) - addr) % TWO64 == 0
    ensures (Add64(ToArg(addr), k) - (addr + k)) % TWO64 == 0
  {
    AddModulo(ToArg(addr), addr, k);
  }

  lemma AddModulo(a: int64, addr: int, k: int64)
    requires (a - addr) % TWO64 == 0
    ensures (Add64(a, k) - (addr + k)) % TWO64 == 0
  {
  }

  /**
   The instruction of an accepted node with two operands: field a is the first operand's register, and
   mode, field b and argument are those of the second. A register selects the register pair mode.
   */
  lemma TwoOperandFields(ir: Program, i: nat)
    requires Accepted(ir) && i < |ir| && ir[i].Instr? && !ir[i].b.Absent?
    ensures var n, m := ir[i], SymbolicInstr(ir, i);
            && m.op == n.op && n.a.Register? && m.a == n.a.r
            && Stands(ir, n.b, m, m.b) && (n.b.Register? ==> m.mode == REG)
  {
    hide Takes, HasHandler, NameAddress, AcceptedUpTo, ArgsCount;
    AcceptedInstr(ir, i);
    TakesIsHandled(ir[i]);
    TakesCounts(ir[i].op, ir[i].a, ir[i].b);
    var name := NameIn(ir[i].b);
    if ir[i].b.MemIdentOffset? {
      SumModulo(NameAddress(ir, name), ir[i].b.offset);
    } else {
      SumModulo(NameAddress(ir, name), 0);
    }
  }

  /** The same with one operand, whose register is in field a, and with none. */
  lemma OneOperandFields(ir: Program, i: nat)
    requires Accepted(ir) && i < |ir| && ir[i].Instr? && ir[i].b.Absent?
    ensures var n, m := ir[i], SymbolicInstr(ir, i);
            m.op == n.op && Stands(ir, n.a, m, m.a) && (n.a.Register? ==> m.mode == REGU)
  {
    hide Takes, HasHandler, NameAddress, AcceptedUpTo, ArgsCount;
    AcceptedInstr(ir, i);
    TakesIsHandled(ir[i]);
    TakesCounts(ir[i].op, ir[i].a, ir[i].b);
    var name := NameIn(ir[i].a);
    if ir[i].a.MemIdentOffset? {
      SumModulo(NameAddress(ir, name), ir[i].a.offset);
    } else {
      SumModulo(NameAddress(ir, name), 0);
    }
  }
}
