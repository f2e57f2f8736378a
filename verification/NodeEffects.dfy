/**
 What a step at a node does, in terms of the node's own operands: the second operand of an accepted
 instruction is read as it is written in the source.
 */
module NodeEffects {
  import opened Common
  import opened Words
  import opened Isa
  import opened Machine
  import opened Cpu
  import opened Assembler
  import opened AssemblerLaws
  import opened Simulation
  import opened Effects
  import opened Acceptance
  import opened Toolchain
  import Ir

  /** v is the word at an address that data instructions may access. */
  ghost predicate WordHeld(s: State, at: int, v: int64) {
    hide Load64;
    DATA_BASE <= at <= MEM_SIZE - 8 && v == Load64(s.mem, at)
  }

  /**
   What an operand is worth in a state: a number, a label's address or a register; in brackets, the
   word that stands there.
   */
  ghost predicate Worth(ir: Program, o: Ir.Operand, s: State, v: int64) {
    hide Load64, NameAddress;
    match o
    case Number(k) => v == k
    case Ident(x) => v == NameAddress(ir, Some(x))
    case Register(r) => r < N_REG && v == s.regs[r]
    case MemNumber(k) => WordHeld(s, k % TWO64, v)
    case MemIdent(x) => WordHeld(s, NameAddress(ir, Some(x)), v)
    case MemIdentOffset(x, k) => WordHeld(s, (NameAddress(ir, Some(x)) + k) % TWO64, v)
    case MemRegister(r) => r < N_REG && WordHeld(s, s.regs[r] % TWO64, v)
    case MemIndexed(r, k) => r < N_REG && WordHeld(s, (s.regs[r] + k) % TWO64, v)
    case Absent => false
    case Text(_) => false
  }

  /** The instruction of a node with two operands reads what its second operand is worth. */
  lemma NodeReads(ir: Program, i: nat, s: State, v: int64)
    requires Assembles(ir) && i < |ir| && ir[i].Instr?
    requires ir[i].a.Register? && ir[i].a.r < N_REG && Worth(ir, ir[i].b, s, v)
    ensures Reads(SymbolicInstr(ir, i), s, v) && !ir[i].b.Absent?
  {
    hide SymbolicInstr, NameAddress, Assembles, WordHeld, Pointed;
    AssemblesParts(ir);
    TwoOperandFields(ir, i);
    var o, m := ir[i].b, SymbolicInstr(ir, i);
    var name := if o.Ident? || o.MemIdent? || o.MemIdentOffset? then Some(o.name) else None;
    var base: int64 := if m.b < N_REG then s.regs[m.b] else 0;
    SmallAddress(ir, name);
    SameResidue(m.arg, NameAddress(ir, name));
    if o.MemIdentOffset? { SameResidue(m.arg, NameAddress(ir, name) + o.offset); }
    if IsMemory(o) {
      PointedAt(m.mode, base, m.arg);
      HeldAt(s, PointedBy(m, s), v);
    }
  }

  lemma SameResidue(a: int64, x: int)
    ensures (a - x) % TWO64 == 0 ==> a % TWO64 == x % TWO64 && (0 <= x < TWO63 ==> a == x)
  {
  }

  lemma PointedAt(mode: Mode, base: int64, arg: int64)
    requires mode == DIR || mode == IND || mode == IDX
    ensures Pointed(mode, base, arg)
            == if mode == DIR then arg % TWO64 else if mode == IND then base % TWO64 else (base + arg) % TWO64
  {
  }

  lemma HeldAt(s: State, at: nat, v: int64)
    ensures WordHeld(s, at, v) <==> DATA_BASE <= at <= MEM_SIZE - 8 && v == Load64(s.mem, at)
  {
    hide Load64;
  }

  /** LD at a node leaves in its register what its second operand is worth, and pc at the next node. */
  lemma LoadAtNode(ir: Program, i: nat, s: State, v: int64)
    requires Assembles(ir) && HoldsCode(s.mem, ir) && i < |ir| && s.pc == TextAddr(ir, i)
    requires ir[i].Instr? && ir[i].op == LD && FetchRoom(ir, i)
    requires ir[i].a.Register? && ir[i].a.r < N_REG && Worth(ir, ir[i].b, s, v)
    ensures TextAddr(ir, i + 1) < DATA_BASE
    ensures Step(s) == Done(VM_OK, s.(regs := s.regs[ir[i].a.r := v], pc := TextAddr(ir, i + 1)))
  {
    hide SymbolicInstr, Exec, HasHandler, FetchInstr, Reads, Worth, AcceptedUpTo, EmittedUpTo, HoldsCode, Step;
    hide TextAddr, DataOffset, FetchRoom;
    NodeReads(ir, i, s, v);
    FetchesNode(ir, i, s.mem);
    NodeInstr(ir, i);
    var m := SymbolicInstr(ir, i);
    StepOf(s, m);
    LoadEffect(m, s, v);
    TwoOperandFields(ir, i);
  }

  /** A label in the data section stands for the place of the first data directive behind it. */
  lemma DataLabelAddress(ir: Program, j: nat)
    requires Assembles(ir) && j < |ir| && ir[j].Label? && InSection(ir, j, Ir.DATA)
    ensures NameAddress(ir, Some(ir[j].name)) == DATA_BASE + DataOffset(ir, NextItem(ir, SECTION_DATA, j))
  {
    hide InSection, LabelIndex, NextItem, AcceptedUpTo, EmittedUpTo, DataOffset, TextAddr, SectionAt;
    SectionIsLast(ir, j);
    LabelsAreUnique(ir, j);
    NothingBeforeNextItem(ir, SECTION_DATA, j);
  }

  /**
   From source to register: with `x: .word v` in the data section of the loaded program, LD Ra, [x]
   leaves v in Ra, and LD Ra, x leaves the address at which it found v.
   */
  lemma LabelledWord(ir: Program, i: nat, s: State, j: nat, v: int64)
    requires Assembles(ir) && s.mem == Loaded(ir).state.mem
    requires i < |ir| && s.pc == TextAddr(ir, i) && ir[i].Instr? && FetchRoom(ir, i)
    requires j < |ir| && ir[j].Label? && InSection(ir, j, Ir.DATA)
    requires var k := NextItem(ir, SECTION_DATA, j); k < |ir| && ir[k] == Ir.Dir(Ir.WORD, Ir.Number(v))
    requires ir[i].op == LD && ir[i].a.Register? && ir[i].a.r < N_REG
    ensures NameAddress(ir, Some(ir[j].name)) + 8 <= HEAP_BASE && TextAddr(ir, i + 1) < DATA_BASE
    ensures Load64(s.mem, NameAddress(ir, Some(ir[j].name))) == v
    ensures ir[i].b == Ir.MemIdent(ir[j].name) ==>
              Step(s) == Done(VM_OK, s.(regs := s.regs[ir[i].a.r := v], pc := TextAddr(ir, i + 1)))
    ensures ir[i].b == Ir.Ident(ir[j].name) ==>
              Step(s) == Done(VM_OK, s.(regs := s.regs[ir[i].a.r := NameAddress(ir, Some(ir[j].name))],
                                        pc := TextAddr(ir, i + 1)))
  {
    hide Loaded, NextItem, DataOffset, AcceptedUpTo, EmittedUpTo, Load64, HoldsCode, NameAddress, Step;
    hide TextAddr, FetchRoom, InSection, WordHeld;
    LoadedInPlace(ir);
    DataLabelAddress(ir, j);
    var x := ir[j].name;
    WordReadsBack(ir, NextItem(ir, SECTION_DATA, j));
    var at := NameAddress(ir, Some(x));
    HeldAt(s, at, v);
    AddressesGrow(ir, i + 1, |ir|);
    if ir[i].b == Ir.MemIdent(x) { LoadAtNode(ir, i, s, v); }
    if ir[i].b == Ir.Ident(x) { LoadAtNode(ir, i, s, at); }
  }
}
