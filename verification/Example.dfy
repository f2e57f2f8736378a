/**
 Three small programs. One jumps to its own address, falls through and halts, from source text to run.
 One fills the code segment and loses its last instruction. One calls a subroutine.
 */
module Example {
  import opened Common
  import opened Isa
  import opened Machine
  import opened Cpu
  import opened Invariants
  import opened MemoryLaws
  import opened Assembler
  import opened AssemblerLaws
  import opened Calls
  import opened Simulation
  import opened Subroutines
  import opened Render
  import opened RoundTrip
  import opened Toolchain
  import Ir

  // A jump to itself

  function SelfJump(): (ir: Program)
    ensures |ir| == 5
    ensures ir[0] == Ir.Dir(Ir.ENTRY, Ir.Ident("a")) && ir[1] == Ir.Dir(Ir.TEXT, Ir.Absent) && ir[2] == Ir.Label("a")
    ensures ir[3] == Ir.Instr(JMP, Ir.Ident("a"), Ir.Absent) && ir[4] == Ir.Instr(HALT, Ir.Absent, Ir.Absent)
  {
    [Ir.Dir(Ir.ENTRY, Ir.Ident("a")), Ir.Dir(Ir.TEXT, Ir.Absent), Ir.Label("a"),
     Ir.Instr(JMP, Ir.Ident("a"), Ir.Absent), Ir.Instr(HALT, Ir.Absent, Ir.Absent)]
  }

  lemma Layout()
    ensures var ir := SelfJump();
            && SectionAt(ir, 0) == SectionAt(ir, 1) == SECTION_UNDEF
            && SectionAt(ir, 2) == SectionAt(ir, 3) == SectionAt(ir, 4) == SECTION_TEXT
            && TextAddr(ir, 2) == TextAddr(ir, 3) == 0 && TextAddr(ir, 4) == 11 && TextAddr(ir, 5) == 13
            && DataOffset(ir, 5) == 0
  {
    hide SelfJump;
    var ir := SelfJump();
    assert SectionAt(ir, 1) == SECTION_UNDEF;
    assert SectionAt(ir, 2) == SECTION_TEXT;
    assert SectionAt(ir, 3) == SECTION_TEXT;
    assert TextAddr(ir, 2) == 0 by { assert TextAddr(ir, 1) == 0; }
    assert TextAddr(ir, 3) == 0;
    assert DataOffset(ir, 2) == 0 by { assert DataOffset(ir, 1) == 0; }
    assert DataOffset(ir, 4) == 0 by { assert DataOffset(ir, 3) == 0; }
  }

  lemma Found()
    ensures LabelIndex(SelfJump(), "a") == Some(2) && AddressAt(SelfJump(), 2) == 0
    ensures LookUp(Symbols(SelfJump(), 5), "a") == Some(0)
  {
    hide SelfJump, SectionAt, TextAddr, DataOffset, LookUp, Symbols;
    var ir := SelfJump();
    Layout();
    assert LabelIndex(ir, "a", 2) == Some(2);
    assert LabelIndex(ir, "a", 1) == Some(2);
    TableIsComplete(ir, "a");
  }

  lemma FirstPassAccepts()
    ensures Accepted(SelfJump()) && AllTyped(SelfJump())
  {
    hide SelfJump, SectionAt;
    var ir := SelfJump();
    Layout();
    forall i | 0 <= i < |ir|
      ensures FirstPassError(ir, i) == Returned(ASM_OK) && Typed(ir[i])
    {
    }
  }

  lemma PassesAccept()
    ensures Assembles(SelfJump())
  {
    hide SelfJump, SectionAt, TextAddr, DataOffset, SecondPassError, LabelIndex, AcceptedUpTo;
    var ir := SelfJump();
    Layout();
    Found();
    FirstPassAccepts();
    forall i | 0 <= i < |ir|
      ensures SecondPassError(ir, Symbols(ir, |ir|), i) == Returned(ASM_OK)
    {
      PassesAgree(ir, i);
    }
  }

  lemma Starts()
    ensures StartNode(SelfJump()) == Some(3) && InstrFrom(SelfJump(), 4) == 4
  {
    hide SelfJump, SectionAt, TextAddr, LabelIndex;
    var ir := SelfJump();
    Layout();
    Found();
    assert EntryName(ir, 1) == Some("a");
    assert EntryName(ir, 2) == Some("a");
    assert EntryName(ir, 3) == Some("a");
    assert EntryName(ir, 4) == Some("a");
    assert InstrFrom(ir, 3) == 3;
  }

  lemma Instructions()
    ensures SymbolicInstr(SelfJump(), 3) == Instruction(JMP, IMM, 0, 0, 0)
    ensures SymbolicInstr(SelfJump(), 4) == Instruction(HALT, NONE, 0, 0, 0)
  {
    hide SelfJump, SectionAt, TextAddr, LabelIndex, AddressAt;
    Found();
  }

  lemma FirstStep(s: State)
    ensures SymStep(SelfJump(), 3, s) == Goes(4, s.(pc := 11))
  {
    hide SelfJump, SectionAt, TextAddr, DataOffset, LabelIndex, AddressAt, SymbolicInstr, InstrFrom, NodeAt;
    hide DirectLabel, StartNode;
    Layout();
    Instructions();
    Starts();
    assert s.(pc := 0).(pc := 11) == s.(pc := 11);
  }

  lemma SecondStep(s: State)
    ensures SymStep(SelfJump(), 4, s) == Goes(5, s.(pc := 13, running := false))
  {
    hide SelfJump, SectionAt, TextAddr, LabelIndex, AddressAt, SymbolicInstr, NodeAt;
    Layout();
    Instructions();
  }

  lemma SymbolicRun(s: State)
    requires s.running
    ensures SymRun(SelfJump(), 3, s, 2) == Within(Done(VM_OK, s.(pc := 13, running := false)))
  {
    hide SelfJump, SymStep;
    FirstStep(s);
    SecondStep(s.(pc := 11));
    assert SymRun(SelfJump(), 4, s.(pc := 11), 1) == Within(Done(VM_OK, s.(pc := 13, running := false)));
  }

  lemma IsSafe()
    ensures SafeProgram(SelfJump())
  {
    hide SelfJump, SymbolicInstr;
    Instructions();
  }

  lemma HasItsFetchRoom()
    ensures HasRoom(SelfJump())
  {
    hide SelfJump, TextAddr;
    Layout();
    RoomForAll(SelfJump());
  }

  lemma IsSteady(s: State)
    ensures SteadyRun(SelfJump(), 3, s, 2)
  {
    hide SelfJump, SafeProgram, HasRoom, SteadyRun;
    IsSafe();
    HasItsFetchRoom();
    SafeProgramIsSteady(SelfJump(), 3, s, 2);
  }

  lemma IsReadable()
    ensures forall k :: 0 <= k < |SelfJump()| ==> WellFormed(SelfJump()[k]) && !Unreadable(SelfJump()[k])
  {
    hide SelfJump;
  }

  /** Written in any spacing, parsed, assembled, loaded and run, the program halts in two cycles behind its halt. */
  lemma SelfJumpHalts(layout: seq<Spacing>)
    requires |layout| == 5 && forall k :: 0 <= k < 5 ==> ProperSpacing(layout[k])
    ensures Assembles(SelfJump())
    ensures ReadAll(RenderProgram(SelfJump(), layout)) == Listing(SelfJump())
    ensures var r := Run(Loaded(SelfJump()).state, 2);
            r.Done? && r.status == VM_OK && r.next.pc == 13 && !r.next.running
  {
    hide SelfJump, Loaded, Run, SymRun, SteadyRun, ParseUpTo, WellFormed, Unreadable, StartNode, TextAddr, DataOffset;
    hide AcceptedUpTo, EmittedUpTo, ProperSpacing;
    PassesAccept();
    Starts();
    IsReadable();
    LoadedInPlace(SelfJump());
    var s := Loaded(SelfJump()).state;
    IsSteady(s);
    SymbolicRun(s);
    ProgramReadsBack(SelfJump(), layout, 5);
    assert SelfJump()[..5] == SelfJump();
    LoadedRunIsSymbolic(SelfJump(), 2);
  }

  lemma JumpIsNamed()
    ensures TransferNamed(SelfJump(), 3)
  {
    hide SelfJump, TextAddr, SectionAt, LabelIndex, AddressAt;
    Found();
    assert InstrFrom(SelfJump(), 3) == 3;
    assert InstrFrom(SelfJump(), 2) == 3;
  }

  lemma SelfJumpIsNamed()
    ensures NamesTransfers(SelfJump()) && EndsInside(SelfJump())
  {
    hide SelfJump, TransferNamed, NeverFallsThrough, InstrFrom, StartNode;
    Starts();
    JumpIsNamed();
    HaltIsNamed();
  }

  lemma HaltIsNamed()
    ensures TransferNamed(SelfJump(), 4) && NeverFallsThrough(SelfJump(), 4)
  {
    hide SelfJump, InstrFrom;
  }

  /** It also meets the conditions on the text alone, so no number of cycles takes it off its nodes. */
  lemma SelfJumpIsSymbolic(n: nat)
    ensures StartNode(SelfJump()) == Some(3)
    ensures var symbolic := SymRun(SelfJump(), 3, Loaded(SelfJump()).state, n);
            symbolic.Within? && Run(Loaded(SelfJump()).state, n) == symbolic.outcome
  {
    hide SelfJump, Loaded, Run, SymRun, StartNode, TextAddr, SafeProgram, NamesTransfers, EndsInside;
    PassesAccept();
    Starts();
    IsSafe();
    SelfJumpIsNamed();
    Layout();
    NamedProgramIsSymbolic(SelfJump(), n);
  }

  // A full code segment

  /** 93 eleven-byte loads: 1023 bytes, the most the loader accepts. */
  function FullSegment(): (ir: Program)
    ensures |ir| == 94 && ir[0] == Ir.Dir(Ir.TEXT, Ir.Absent)
    ensures forall k :: 1 <= k < 94 ==> ir[k] == Ir.Instr(LD, Ir.Register(0), Ir.Number(1))
  {
    [Ir.Dir(Ir.TEXT, Ir.Absent)] + seq(93, _ => Ir.Instr(LD, Ir.Register(0), Ir.Number(1)))
  }

  lemma {:induction false} FullLayout(k: nat)
    requires k < 94
    ensures var ir := FullSegment();
            SectionAt(ir, k + 1) == SECTION_TEXT && TextAddr(ir, k + 1) == 11 * k && DataOffset(ir, k + 1) == 0
  {
    hide FullSegment;
    if k > 0 {
      FullLayout(k - 1);
      assert FullSegment()[k] == Ir.Instr(LD, Ir.Register(0), Ir.Number(1));
    }
  }

  lemma FullAccepted()
    ensures Accepted(FullSegment()) && AllTyped(FullSegment())
  {
    hide FullSegment, SectionAt;
    var ir := FullSegment();
    forall i | 0 <= i < |ir|
      ensures FirstPassError(ir, i) == Returned(ASM_OK) && Typed(ir[i])
    {
      if i > 0 { FullLayout(i - 1); }
    }
  }

  lemma FullAssembles()
    ensures Assembles(FullSegment())
  {
    hide FullSegment, SectionAt, TextAddr, DataOffset, SecondPassError, LabelIndex, AcceptedUpTo;
    var ir := FullSegment();
    FullLayout(93);
    FullAccepted();
    forall i | 0 <= i < |ir|
      ensures SecondPassError(ir, Symbols(ir, |ir|), i) == Returned(ASM_OK)
    {
      PassesAgree(ir, i);
    }
  }

  lemma LastHasNoRoom()
    ensures var ir := FullSegment();
            |ir| == 94 && ir[93].Instr? && TextAddr(ir, 93) == 1012 && !FetchRoom(ir, 93)
  {
    hide FullSegment, TextAddr, SectionAt, DataOffset;
    FullLayout(92);
    FullLayout(93);
    assert NodeMode(FullSegment()[93]) == ModeChoice(IMM, ASM_OK);
  }

  /** Both passes accept the program and it fits, yet its last instruction has no fetch room. */
  lemma FullSegmentFits()
    ensures var ir := FullSegment();
            Assembles(ir) && |ir| == 94 && ir[93].Instr? && !FetchRoom(ir, 93)
  {
    hide FullSegment, Assembles, FetchRoom;
    FullAssembles();
    LastHasNoRoom();
  }

  /** Whenever the machine comes to that instruction the step fails and changes nothing. */
  lemma LastInstructionIsTruncated(s: State)
    requires HoldsCode(s.mem, FullSegment()) && s.pc == 1012
    ensures Step(s) == Done(VM_TRUNCATED_INSTR, s)
  {
    hide FullSegment, TextAddr, HoldsCode, Step, SymStep, Assembles, FetchRoom;
    FullAssembles();
    LastHasNoRoom();
    StepSimulates(FullSegment(), 93, s);
  }

  // A subroutine

  /** CALL f; HALT; f: RTN */
  function OneCall(): (ir: Program)
    ensures |ir| == 5 && ir[0] == Ir.Dir(Ir.TEXT, Ir.Absent) && ir[1] == Ir.Instr(CALL, Ir.Ident("f"), Ir.Absent)
    ensures ir[2] == Ir.Instr(HALT, Ir.Absent, Ir.Absent) && ir[3] == Ir.Label("f")
    ensures ir[4] == Ir.Instr(RTN, Ir.Absent, Ir.Absent)
  {
    [Ir.Dir(Ir.TEXT, Ir.Absent), Ir.Instr(CALL, Ir.Ident("f"), Ir.Absent),
     Ir.Instr(HALT, Ir.Absent, Ir.Absent), Ir.Label("f"), Ir.Instr(RTN, Ir.Absent, Ir.Absent)]
  }

  lemma CallLayout()
    ensures var ir := OneCall();
            && SectionAt(ir, 0) == SECTION_UNDEF
            && SectionAt(ir, 1) == SectionAt(ir, 2) == SectionAt(ir, 3) == SectionAt(ir, 4) == SECTION_TEXT
            && TextAddr(ir, 1) == 0 && TextAddr(ir, 2) == 11 && TextAddr(ir, 3) == TextAddr(ir, 4) == 13
            && TextAddr(ir, 5) == 15 && DataOffset(ir, 5) == 0
  {
    hide OneCall;
    var ir := OneCall();
    assert SectionAt(ir, 1) == SECTION_TEXT;
    assert SectionAt(ir, 2) == SECTION_TEXT;
    assert SectionAt(ir, 3) == SECTION_TEXT;
    assert TextAddr(ir, 1) == 0;
    assert TextAddr(ir, 2) == 11;
    assert TextAddr(ir, 3) == 13;
    assert TextAddr(ir, 4) == 13;
    assert DataOffset(ir, 2) == 0 by { assert DataOffset(ir, 1) == 0; }
    assert DataOffset(ir, 4) == 0 by { assert DataOffset(ir, 3) == 0; }
  }

  lemma SubroutineFound()
    ensures LabelIndex(OneCall(), "f") == Some(3) && AddressAt(OneCall(), 3) == 13
    ensures LookUp(Symbols(OneCall(), 5), "f") == Some(13)
  {
    hide OneCall, SectionAt, TextAddr, DataOffset, LookUp, Symbols;
    var ir := OneCall();
    CallLayout();
    assert LabelIndex(ir, "f", 3) == Some(3);
    assert LabelIndex(ir, "f", 2) == Some(3);
    assert LabelIndex(ir, "f", 1) == Some(3);
    TableIsComplete(ir, "f");
  }

  lemma CallAccepted()
    ensures Accepted(OneCall()) && AllTyped(OneCall())
  {
    hide OneCall, SectionAt;
    var ir := OneCall();
    CallLayout();
    forall i | 0 <= i < |ir|
      ensures FirstPassError(ir, i) == Returned(ASM_OK) && Typed(ir[i])
    {
    }
  }

  lemma CallAssembles()
    ensures Assembles(OneCall())
  {
    hide OneCall, SectionAt, TextAddr, DataOffset, SecondPassError, LabelIndex, AcceptedUpTo;
    var ir := OneCall();
    CallLayout();
    SubroutineFound();
    CallAccepted();
    forall i | 0 <= i < |ir|
      ensures SecondPassError(ir, Symbols(ir, |ir|), i) == Returned(ASM_OK)
    {
      PassesAgree(ir, i);
    }
  }

  lemma OneCallInstructions()
    ensures SymbolicInstr(OneCall(), 1) == Instruction(CALL, IMM, 0, 0, 13)
    ensures SymbolicInstr(OneCall(), 4) == Instruction(RTN, NONE, 0, 0, 0)
  {
    hide OneCall, SectionAt, TextAddr, LabelIndex, AddressAt;
    SubroutineFound();
  }

  lemma OneCallRoom()
    ensures FetchRoom(OneCall(), 1) && FetchRoom(OneCall(), 4)
  {
    hide OneCall, TextAddr;
    CallLayout();
  }

  lemma CallFetched(m: Memory)
    requires HoldsCode(m, OneCall())
    ensures FetchInstr(m, 0) == Ready(Instruction(CALL, IMM, 0, 0, 13))
    ensures FetchInstr(m, 13) == Ready(Instruction(RTN, NONE, 0, 0, 0))
  {
    hide OneCall, SectionAt, TextAddr, DataOffset, HoldsCode, FetchInstr, SymbolicInstr, FetchRoom, AcceptedUpTo;
    CallLayout();
    OneCallInstructions();
    OneCallRoom();
    CallAccepted();
    FetchesNode(OneCall(), 1, m);
    FetchesNode(OneCall(), 4, m);
  }

  lemma CallEnters(s: State)
    requires HoldsCode(s.mem, OneCall()) && s.pc == 0 && s.sp == MEM_SIZE
    ensures StepOn(CALL, s) == Some(s.(sp := MEM_SIZE - 8, pc := 13, mem := Store64(s.mem, MEM_SIZE - 8, 11)))
  {
    hide OneCall, HoldsCode, FetchInstr, Step, Store64;
    CallFetched(s.mem);
    StepOf(s, Instruction(CALL, IMM, 0, 0, 13));
  }

  lemma SubroutineReturns(s: State)
    requires HoldsCode(s.mem, OneCall()) && s.pc == 13 && s.sp == MEM_SIZE - 8 && Load64(s.mem, s.sp) == 11
    ensures StepOn(RTN, s) == Some(s.(sp := MEM_SIZE, pc := 11))
  {
    hide OneCall, HoldsCode, FetchInstr, Step, Load64;
    CallFetched(s.mem);
    StepOf(s, Instruction(RTN, NONE, 0, 0, 0));
  }

  /** The call is a bracket that CallReturns is about: it comes back to the HALT with its stack. */
  lemma OneCallReturns()
    ensures Assembles(OneCall())
    ensures var s := Loaded(OneCall()).state;
            var t := FollowBracket(CALL, Empty, RTN, s);
            StackOk(s) && t.Some? && SameStack(s, t.value) && t.value.pc == 11 && t.value.running
  {
    hide OneCall, Loaded, HoldsCode, StepOn, Store64, Load64, Initial, StackOk, SameStack, TextAddr, EntryPoint;
    hide AcceptedUpTo, EmittedUpTo;
    CallAssembles();
    OneCallBegins();
    var s := Loaded(OneCall()).state;
    CallEnters(s);
    var a := StepOn(CALL, s).value;
    StoreAbove(s.mem, MEM_SIZE - 8, 11);
    ReadAfterWrite(s.mem, MEM_SIZE - 8, 11);
    SameCode(OneCall(), s.mem, a.mem);
    SubroutineReturns(a);
    CallReturns(s, Empty);
  }

  lemma OneCallBegins()
    ensures Assembles(OneCall())
    ensures var s := Loaded(OneCall()).state;
            HoldsCode(s.mem, OneCall()) && s.pc == 0 && s.sp == MEM_SIZE && s.running && StackOk(s)
  {
    hide OneCall, Loaded, HoldsCode, Zeros, AcceptedUpTo, EmittedUpTo, TextAddr, EntryPoint;
    CallAssembles();
    LoadedInPlace(OneCall());
    NoEntry();
  }

  lemma NoEntry()
    ensures EntryPoint(OneCall(), Table(OneCall()), 5, 0) == 0
  {
    hide OneCall, Symbols, LookUp;
    var ir := OneCall();
    assert EntryPoint(ir, Table(ir), 2, 0) == 0 by { assert EntryPoint(ir, Table(ir), 1, 0) == 0; }
    assert EntryPoint(ir, Table(ir), 4, 0) == 0 by { assert EntryPoint(ir, Table(ir), 3, 0) == 0; }
  }

  lemma OneCallIsSafe()
    ensures SafeProgram(OneCall())
  {
    hide OneCall, SymbolicInstr, AcceptedUpTo;
    CallAccepted();
    forall i | 0 <= i < 5 && OneCall()[i].Instr?
      ensures SymbolicInstr(OneCall(), i).op == OneCall()[i].op
    {
      NodeInstr(OneCall(), i);
    }
  }

  lemma OneCallLastNodes()
    ensures InstrFrom(OneCall(), 2) == 2 && InstrFrom(OneCall(), 3) == 4 && InstrFrom(OneCall(), 5) == 5
  {
    hide OneCall;
    assert InstrFrom(OneCall(), 4) == 4;
  }

  lemma OneCallCall()
    ensures WellPlaced(OneCall(), 1)
  {
    hide OneCall, InstrFrom, LabelIndex, NeverFallsThrough, Closes;
    SubroutineFound();
    OneCallLastNodes();
  }

  lemma OneCallHalt()
    ensures WellPlaced(OneCall(), 2)
  {
    hide OneCall, InstrFrom, LabelIndex, NeverFallsThrough;
  }

  lemma OneCallReturn()
    ensures WellPlaced(OneCall(), 4)
  {
    hide OneCall, InstrFrom, TransferNamed, NeverFallsThrough;
    OneCallLastNodes();
  }

  lemma OneCallIsReturning()
    ensures ReturningProgram(OneCall())
  {
    hide OneCall, WellPlaced;
    OneCallCall();
    OneCallHalt();
    OneCallReturn();
  }

  /** So its bracketed runs stay on its nodes: after the call and the return it is at one. */
  lemma OneCallStaysOnNodes()
    ensures var t := Follow(Subroutine(Empty, Empty), Loaded(OneCall()).state);
            Assembles(OneCall()) && t.Some? && InPlace(OneCall(), t.value)
  {
    hide OneCall, Loaded, HoldsCode, Assembles, FollowBracket, StackOk, SameStack, TextAddr;
    hide ReturningProgram, SafeProgram;
    OneCallReturns();
    OneCallIsSafe();
    OneCallIsReturning();
    OneCallStarts();
    var s := Loaded(OneCall()).state;
    var t := FollowBracket(CALL, Empty, RTN, s).value;
    assert Follow(Subroutine(Empty, Empty), s) == Some(t);
    BodyStaysOnNodes(OneCall(), Subroutine(Empty, Empty), s);
  }

  lemma OneCallStarts()
    ensures Assembles(OneCall()) && InPlace(OneCall(), Loaded(OneCall()).state)
  {
    hide OneCall, Loaded, HoldsCode, StackOk, TextAddr, Assembles;
    CallLayout();
    OneCallBegins();
    assert IsNode(OneCall(), 1);
  }
}
