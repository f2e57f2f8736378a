/**
 What FAS can do to a loaded program: overwrite its code, and fail half done.
 */
module FasExample {
  import opened Common
  import opened Isa
  import opened Machine
  import opened Codec
  import opened Cpu
  import opened Invariants
  import opened Assembler
  import opened AssemblerLaws
  import opened Simulation
  import opened Toolchain
  import Ir

  /** LD R0, 1024; FAS R1, [R0] */
  function Rewriter(): (ir: Program)
    ensures |ir| == 3 && ir[0] == Ir.Dir(Ir.TEXT, Ir.Absent)
    ensures ir[1] == Ir.Instr(LD, Ir.Register(0), Ir.Number(1024))
    ensures ir[2] == Ir.Instr(FAS, Ir.Register(1), Ir.MemRegister(0))
  {
    [Ir.Dir(Ir.TEXT, Ir.Absent), Ir.Instr(LD, Ir.Register(0), Ir.Number(1024)),
     Ir.Instr(FAS, Ir.Register(1), Ir.MemRegister(0))]
  }

  lemma RewriterLayout()
    ensures var ir := Rewriter();
            && SectionAt(ir, 0) == SECTION_UNDEF && SectionAt(ir, 1) == SectionAt(ir, 2) == SECTION_TEXT
            && TextAddr(ir, 1) == 0 && TextAddr(ir, 2) == 11 && TextAddr(ir, 3) == 15
            && DataOffset(ir, 3) == 0 && EntryPoint(ir, Table(ir), 3, 0) == 0
  {
    hide Rewriter, Symbols;
    var ir := Rewriter();
    assert SectionAt(ir, 1) == SECTION_TEXT && TextAddr(ir, 1) == 0 && DataOffset(ir, 1) == 0;
    assert EntryPoint(ir, Table(ir), 2, 0) == 0 by { assert EntryPoint(ir, Table(ir), 1, 0) == 0; }
  }

  lemma RewriterAccepted()
    ensures Accepted(Rewriter()) && AllTyped(Rewriter())
  {
    hide Rewriter, SectionAt, TextAddr, DataOffset, EntryPoint;
    var ir := Rewriter();
    RewriterLayout();
    forall i | 0 <= i < |ir|
      ensures FirstPassError(ir, i) == Returned(ASM_OK) && Typed(ir[i])
    {
    }
  }

  lemma RewriterAssembles()
    ensures Assembles(Rewriter())
  {
    hide Rewriter, SectionAt, TextAddr, DataOffset, EntryPoint, SecondPassError, AcceptedUpTo;
    var ir := Rewriter();
    RewriterLayout();
    RewriterAccepted();
    forall i | 0 <= i < |ir|
      ensures SecondPassError(ir, Symbols(ir, |ir|), i) == Returned(ASM_OK)
    {
      PassesAgree(ir, i);
    }
  }

  lemma RewriterInstructions()
    ensures SymbolicInstr(Rewriter(), 1) == Instruction(LD, IMM, 0, 0, 1024)
    ensures SymbolicInstr(Rewriter(), 2) == Instruction(FAS, IND, 1, 0, 0)
    ensures FetchRoom(Rewriter(), 1) && FetchRoom(Rewriter(), 2)
  {
    hide Rewriter, TextAddr, LabelIndex, SectionAt, DataOffset, EntryPoint;
    RewriterLayout();
  }

  lemma FirstByte(m: Memory)
    requires HoldsCode(m, Rewriter())
    ensures m[0] == OpNumber(LD)
  {
    hide Rewriter, TextAddr, SymbolicInstr, AcceptedUpTo, EmittedUpTo, CodeImage, Encode, FetchRoom;
    var ir := Rewriter();
    RewriterAssembles();
    RewriterLayout();
    RewriterInstructions();
    SameInstr(ir, 1);
    NodeCode(ir, Symbols(ir, 3), 1);
    EncodeParts(SymbolicInstr(ir, 1));
    assert m[0] == m[..TextAddr(ir, 3)][0..11][0];
  }

  lemma RewriterLoads(s: State)
    requires HoldsCode(s.mem, Rewriter()) && s.pc == 0
    ensures Step(s) == Done(VM_OK, s.(regs := s.regs[0 := 1024], pc := 11))
  {
    hide Rewriter, HoldsCode, Step, FetchInstr, TextAddr, SymbolicInstr, FetchRoom, AcceptedUpTo, EmittedUpTo;
    RewriterAssembles();
    RewriterLayout();
    RewriterInstructions();
    FetchesNode(Rewriter(), 1, s.mem);
    StepOf(s, Instruction(LD, IMM, 0, 0, 1024));
  }

  lemma RewriterStores(s: State)
    requires HoldsCode(s.mem, Rewriter()) && s.pc == 11 && s.regs[0] == 1024
    ensures Step(s) == Done(VM_OK, s.(regs := s.regs[1 := Load64(s.mem, 1024)], mem := Store64(s.mem, 0, 1), pc := 15))
  {
    hide Rewriter, HoldsCode, Step, FetchInstr, TextAddr, SymbolicInstr, FetchRoom, AcceptedUpTo, EmittedUpTo;
    hide Load64, Store64;
    RewriterAssembles();
    RewriterLayout();
    RewriterInstructions();
    FetchesNode(Rewriter(), 2, s.mem);
    StepOf(s, Instruction(FAS, IND, 1, 0, 0));
  }

  /** Loaded and run for two cycles, this program has overwritten its own first instruction. */
  lemma RewriterRewrites()
    ensures Assembles(Rewriter())
    ensures var s := Loaded(Rewriter()).state;
            && s.mem[0] == OpNumber(LD)
            && Run(s, 2).Done? && Run(s, 2).status == VM_OK && Run(s, 2).next.mem[0] == OpNumber(SUB)
  {
    hide Rewriter, Loaded, HoldsCode, Step, EntryPoint, AcceptedUpTo, EmittedUpTo, TextAddr, Load64, Store64;
    RewriterAssembles();
    RewriterLayout();
    LoadedInPlace(Rewriter());
    var s := Loaded(Rewriter()).state;
    FirstByte(s.mem);
    RewriterLoads(s);
    var t := Step(s).next;
    RewriterStores(t);
    var u := Step(t).next;
    assert Run(u, 0) == Done(VM_OK, u);
    assert Run(t, 1) == Done(VM_OK, u);
    OneAtZero(t.mem);
  }

  /** w: .word 5000, then LD R0, 1024; FAS R0, [R0+0] */
  function Tearer(): (ir: Program)
    ensures |ir| == 5 && ir[0] == Ir.Dir(Ir.DATA, Ir.Absent) && ir[1] == Ir.Dir(Ir.WORD, Ir.Number(5000))
    ensures ir[2] == Ir.Dir(Ir.TEXT, Ir.Absent) && ir[3] == Ir.Instr(LD, Ir.Register(0), Ir.Number(1024))
    ensures ir[4] == Ir.Instr(FAS, Ir.Register(0), Ir.MemIndexed(0, 0))
  {
    [Ir.Dir(Ir.DATA, Ir.Absent), Ir.Dir(Ir.WORD, Ir.Number(5000)), Ir.Dir(Ir.TEXT, Ir.Absent),
     Ir.Instr(LD, Ir.Register(0), Ir.Number(1024)), Ir.Instr(FAS, Ir.Register(0), Ir.MemIndexed(0, 0))]
  }

  lemma TearerLayout()
    ensures var ir := Tearer();
            && SectionAt(ir, 0) == SECTION_UNDEF && SectionAt(ir, 1) == SectionAt(ir, 2) == SECTION_DATA
            && SectionAt(ir, 3) == SectionAt(ir, 4) == SECTION_TEXT
            && TextAddr(ir, 3) == 0 && TextAddr(ir, 4) == 11 && TextAddr(ir, 5) == 23
            && DataOffset(ir, 1) == 0 && DataOffset(ir, 5) == 8
            && EntryPoint(ir, Table(ir), 5, 0) == 0
  {
    hide Tearer, Symbols;
    var ir := Tearer();
    assert SectionAt(ir, 1) == SECTION_DATA && TextAddr(ir, 1) == 0 && DataOffset(ir, 1) == 0;
    assert SectionAt(ir, 2) == SECTION_DATA && TextAddr(ir, 2) == 0 && DataOffset(ir, 2) == 8;
    assert SectionAt(ir, 3) == SECTION_TEXT && TextAddr(ir, 3) == 0 && DataOffset(ir, 3) == 8;
    assert TextAddr(ir, 4) == 11 && DataOffset(ir, 4) == 8;
    assert EntryPoint(ir, Table(ir), 2, 0) == 0 by { assert EntryPoint(ir, Table(ir), 1, 0) == 0; }
    assert EntryPoint(ir, Table(ir), 4, 0) == 0 by { assert EntryPoint(ir, Table(ir), 3, 0) == 0; }
  }

  lemma TearerAccepted()
    ensures Accepted(Tearer()) && AllTyped(Tearer())
  {
    hide Tearer, SectionAt, TextAddr, DataOffset, EntryPoint;
    var ir := Tearer();
    TearerLayout();
    forall i | 0 <= i < |ir|
      ensures FirstPassError(ir, i) == Returned(ASM_OK) && Typed(ir[i])
    {
    }
  }

  lemma TearerAssembles()
    ensures Assembles(Tearer())
  {
    hide Tearer, SectionAt, TextAddr, DataOffset, EntryPoint, SecondPassError, AcceptedUpTo;
    var ir := Tearer();
    TearerLayout();
    TearerAccepted();
    forall i | 0 <= i < |ir|
      ensures SecondPassError(ir, Symbols(ir, |ir|), i) == Returned(ASM_OK)
    {
      PassesAgree(ir, i);
    }
  }

  lemma TearerInstructions()
    ensures SymbolicInstr(Tearer(), 3) == Instruction(LD, IMM, 0, 0, 1024)
    ensures SymbolicInstr(Tearer(), 4) == Instruction(FAS, IDX, 0, 0, 0)
    ensures FetchRoom(Tearer(), 3) && FetchRoom(Tearer(), 4)
  {
    hide Tearer, TextAddr, LabelIndex, SectionAt, DataOffset, EntryPoint;
    TearerLayout();
  }

  lemma TearerLoads(s: State)
    requires HoldsCode(s.mem, Tearer()) && s.pc == 0
    ensures Step(s) == Done(VM_OK, s.(regs := s.regs[0 := 1024], pc := 11))
  {
    hide Tearer, HoldsCode, Step, FetchInstr, TextAddr, SymbolicInstr, FetchRoom, AcceptedUpTo, EmittedUpTo;
    hide SectionAt, DataOffset, EntryPoint;
    TearerAssembles();
    TearerLayout();
    TearerInstructions();
    FetchesNode(Tearer(), 3, s.mem);
    StepOf(s, Instruction(LD, IMM, 0, 0, 1024));
  }

  lemma TearerTears(s: State)
    requires HoldsCode(s.mem, Tearer()) && s.pc == 11 && s.regs[0] == 1024 && Load64(s.mem, 1024) == 5000
    ensures Step(s) == Done(VM_ILL_MEM_ACCESS, s.(regs := s.regs[0 := 5000]))
  {
    hide Tearer, HoldsCode, Step, FetchInstr, TextAddr, SymbolicInstr, FetchRoom, AcceptedUpTo, EmittedUpTo;
    hide SectionAt, DataOffset, EntryPoint, Load64, Store64;
    TearerAssembles();
    TearerLayout();
    TearerInstructions();
    FetchesNode(Tearer(), 4, s.mem);
    StepOf(s, Instruction(FAS, IDX, 0, 0, 0));
  }

  /** Loaded and run for two cycles, this program fails with R0 changed: the step was not undone. */
  lemma FailureLeavesATrace()
    ensures Assembles(Tearer())
    ensures var s := Loaded(Tearer()).state;
            Run(s, 2).Done? && Run(s, 2).status == VM_ILL_MEM_ACCESS && Run(s, 2).next.regs[0] == 5000
            && Run(s, 1).Done? && Run(s, 1).status == VM_OK && Run(s, 1).next.regs[0] == 1024
  {
    hide Tearer, Loaded, HoldsCode, Step, EntryPoint, AcceptedUpTo, EmittedUpTo, Load64;
    hide TextAddr, DataOffset, SectionAt;
    TearerAssembles();
    TearerLayout();
    LoadedInPlace(Tearer());
    WordReadsBack(Tearer(), 1);
    var s := Loaded(Tearer()).state;
    TearerLoads(s);
    var t := Step(s).next;
    TearerTears(t);
    assert Run(t, 0) == Done(VM_OK, t);
    assert Run(t, 1) == Step(t);
  }
}
