/**
 Subroutines of assembled programs. A CALL whose bracket closes resumes at the next instruction
 node, and a well-bracketed run of a program with named transfers stays on its nodes, returns
 included.
 */
module Subroutines {
  import opened Common
  import opened Isa
  import opened Machine
  import opened Cpu
  import opened Invariants
  import opened Runs
  import opened Calls
  import opened Assembler
  import opened Simulation

  /** pc is the address of an instruction node. */
  ghost predicate OnNode(ir: Program, s: State) {
    exists i :: IsNode(ir, i) && s.pc == TextAddr(ir, i)
  }

  predicate IsNode(ir: Program, i: nat) {
    i < |ir| && ir[i].Instr?
  }

  /**
   A CALL at node i whose bracket closes: the run resumes at the first instruction node behind it,
   or, when the RTN sits there itself, just behind that RTN; the stack is as it was.
   */
  lemma CallReturnsToNode(ir: Program, i: nat, s: State, inner: Body)
    requires Assembles(ir) && HoldsCode(s.mem, ir) && IsNode(ir, i) && s.pc == TextAddr(ir, i)
    requires StackOk(s) && FollowBracket(CALL, inner, RTN, s).Some?
    ensures StepOn(CALL, s).Some? && Follow(inner, StepOn(CALL, s).value).Some?
    ensures var t := FollowBracket(CALL, inner, RTN, s).value;
            var rtn := Follow(inner, StepOn(CALL, s).value).value.pc;
            var next := TextAddr(ir, InstrFrom(ir, i + 1));
            SameStack(s, t) && t.pc == if rtn == next then next + 2 else next
  {
    hide Assembles, HoldsCode, FetchInstr, StepOn, Follow, SameStack, StackOk, SymbolicInstr, FetchRoom, TextAddr;
    AssemblesParts(ir);
    CallReturns(s, inner);
    FetchesNode(ir, i, s.mem);
    NodeInstr(ir, i);
    InstrFromAddr(ir, i + 1);
  }

  // Programs with subroutines

  /**
   No RST; every jump and call names a label that an instruction follows; and what could run past
   the end does not: the last instruction is a HALT, a JMP elsewhere, or an RTN that does not
   follow a CALL.
   */
  ghost predicate ReturningProgram(ir: Program) {
    forall i :: 0 <= i < |ir| && ir[i].Instr? ==> WellPlaced(ir, i)
  }

  ghost predicate WellPlaced(ir: Program, i: nat)
    requires IsNode(ir, i)
  {
    && (ir[i].op == RTN || TransferNamed(ir, i))
    && (InstrFrom(ir, i + 1) == |ir| ==> Closes(ir, i))
  }

  ghost predicate Closes(ir: Program, i: nat)
    requires IsNode(ir, i)
  {
    ir[i].op == HALT
    || (ir[i].op == JMP && NeverFallsThrough(ir, i))
    || (ir[i].op == RTN && forall c :: 0 <= c < i && ir[c].Instr? && ir[c].op == CALL ==> InstrFrom(ir, c + 1) != i)
  }

  /** A step at a node that succeeds has fetched that node's instruction. */
  lemma StepAtNode(ir: Program, i: nat, s: State)
    requires Assembles(ir) && HoldsCode(s.mem, ir) && IsNode(ir, i) && s.pc == TextAddr(ir, i)
    requires Step(s).Done? && Step(s).status == VM_OK
    ensures FetchRoom(ir, i) && FetchInstr(s.mem, s.pc) == Ready(SymbolicInstr(ir, i))
    ensures SymbolicInstr(ir, i).op == ir[i].op
  {
    hide Assembles, HoldsCode, SymbolicInstr, FetchRoom, TextAddr, Exec, HasHandler, FetchInstr, Step;
    AssemblesParts(ir);
    FetchesNode(ir, i, s.mem);
    NodeInstr(ir, i);
    StepCases(s);
  }

  lemma StepKeepsImage(ir: Program, i: nat, s: State)
    requires Assembles(ir) && SafeProgram(ir) && HoldsCode(s.mem, ir) && IsNode(ir, i) && s.pc == TextAddr(ir, i)
    requires Step(s).Done? && Step(s).status == VM_OK
    ensures HoldsCode(Step(s).next.mem, ir)
  {
    hide Assembles, HoldsCode, SymbolicInstr, FetchRoom, TextAddr, FetchInstr, Step, WritesCode, CalmStep;
    StepAtNode(ir, i, s);
    HarmlessStepIsCalm(s);
    StepKeepsCode(s);
    SameCode(ir, s.mem, Step(s).next.mem);
  }

  /** A step that is no RTN, and leaves the machine running, arrives at a node. */
  lemma StepArrives(ir: Program, i: nat, s: State)
    requires Assembles(ir) && HoldsCode(s.mem, ir) && IsNode(ir, i) && s.pc == TextAddr(ir, i)
    requires TransferNamed(ir, i) && (InstrFrom(ir, i + 1) == |ir| ==> NeverFallsThrough(ir, i))
    requires Step(s).Done? && Step(s).status == VM_OK && Step(s).next.running
    ensures OnNode(ir, Step(s).next)
  {
    hide Assembles, HoldsCode, SymStep, FetchRoom, TextAddr, Step;
    hide TransferNamed, NeverFallsThrough, InstrFrom, FetchInstr;
    StepAtNode(ir, i, s);
    StepSimulates(ir, i, s);
    StepStays(ir, i, s);
    SymStepLands(ir, i, s);
    assert IsNode(ir, SymStep(ir, i, s).node);
  }

  /** Only RST starts a machine that has stopped. */
  lemma StoppedStaysStopped(i: Instruction, s: State)
    requires HasHandler(i.op, i.mode) && i.op != RST && i.op != TRAP && Exec(i, s).Done?
    ensures Exec(i, s).next.running ==> s.running
  {
    hide HasHandler, IsAlu, IsData, IsJump, ExecAlu, ExecData, ExecJump, ExecControl;
    if IsAlu(i.op) {
      AluFrame(i, s);
    } else if IsData(i.op) {
      DataFrame(i, s);
    } else if IsJump(i.op) {
      JumpFrame(i, s);
    } else {
      ControlStaysStopped(i, s);
    }
  }

  lemma ControlStaysStopped(i: Instruction, s: State)
    requires !IsAlu(i.op) && !IsData(i.op) && !IsJump(i.op) && HasHandler(i.op, i.mode)
    requires i.op != RST && i.op != TRAP && ExecControl(i, s).Done?
    ensures ExecControl(i, s).next.running ==> s.running
  {
    hide ExecUnary, ExecCall, HasHandler, Load64;
    if i.op == NEG || i.op == NOT {
      UnaryFrame(i, s);
    } else if i.op == CALL {
      CallFrame(i, s);
    }
  }

  lemma PlainWasRunning(s: State)
    requires StepPlain(s).Some? && StepPlain(s).value.running
    ensures s.running && Step(s).Done? && Step(s).status == VM_OK && StepPlain(s).value == Step(s).next
    ensures FetchInstr(s.mem, s.pc).Ready?
    ensures FetchInstr(s.mem, s.pc).instr.op !in {PUSH, POP, CALL, RTN, TRAP, RST}
  {
    hide Step, FetchInstr, Exec, HasHandler;
    StepCases(s);
    StoppedStaysStopped(FetchInstr(s.mem, s.pc).instr, s);
  }

  lemma BracketWasRunning(op: OpCode, s: State)
    requires op in {PUSH, POP, CALL, RTN} && StepOn(op, s).Some? && StepOn(op, s).value.running
    ensures s.running && Step(s).Done? && Step(s).status == VM_OK && StepOn(op, s).value == Step(s).next
    ensures FetchInstr(s.mem, s.pc).Ready? && FetchInstr(s.mem, s.pc).instr.op == op
  {
    hide Step, FetchInstr, Exec, HasHandler;
    StepCases(s);
    StoppedStaysStopped(FetchInstr(s.mem, s.pc).instr, s);
  }

  lemma {:induction false} BodyWasRunning(b: Body, s: State)
    requires Follow(b, s).Some? && Follow(b, s).value.running
    ensures s.running
    decreases b, 0
  {
    hide StepOn, StepPlain, FollowBracket;
    match b
    case Empty =>
    case Plain(rest) =>
      BodyWasRunning(rest, StepPlain(s).value);
      PlainWasRunning(s);
    case PushPop(inner, rest) =>
      BodyWasRunning(rest, FollowBracket(PUSH, inner, POP, s).value);
      BracketRanThrough(PUSH, inner, POP, s);
    case Subroutine(inner, rest) =>
      BodyWasRunning(rest, FollowBracket(CALL, inner, RTN, s).value);
      BracketRanThrough(CALL, inner, RTN, s);
  }

  lemma BracketRanThrough(open: OpCode, inner: Body, close: OpCode, s: State)
    requires open in {PUSH, CALL} && close in {POP, RTN}
    requires FollowBracket(open, inner, close, s).Some? && FollowBracket(open, inner, close, s).value.running
    ensures s.running && StepOn(open, s).Some? && StepOn(open, s).value.running
    ensures Follow(inner, StepOn(open, s).value).Some? && Follow(inner, StepOn(open, s).value).value.running
    decreases inner, 1
  {
    hide StepOn;
    var a := StepOn(open, s).value;
    BracketWasRunning(close, Follow(inner, a).value);
    BodyWasRunning(inner, a);
    BracketWasRunning(open, s);
  }

  // One step of a followed run

  /** What a followed run keeps: it is at a node, with the program in memory and its stack in order. */
  ghost predicate InPlace(ir: Program, s: State) {
    OnNode(ir, s) && HoldsCode(s.mem, ir) && StackOk(s)
  }

  lemma PlacedNode(ir: Program, i: nat)
    requires IsNode(ir, i) && WellPlaced(ir, i) && ir[i].op != RTN
    ensures TransferNamed(ir, i) && (InstrFrom(ir, i + 1) == |ir| ==> NeverFallsThrough(ir, i))
    ensures ir[i].op == CALL ==> InstrFrom(ir, i + 1) < |ir|
  {
    hide TransferNamed, InstrFrom, NameAddress, TextAddr;
  }

  /** A successful step at a node that is no RTN arrives at a node and keeps the program in memory. */
  lemma NodeStepLands(ir: Program, i: nat, s: State)
    requires Assembles(ir) && SafeProgram(ir) && ReturningProgram(ir) && HoldsCode(s.mem, ir)
    requires IsNode(ir, i) && s.pc == TextAddr(ir, i)
    requires Step(s).Done? && Step(s).status == VM_OK && Step(s).next.running
    requires FetchInstr(s.mem, s.pc).Ready? ==> FetchInstr(s.mem, s.pc).instr.op != RTN
    ensures OnNode(ir, Step(s).next) && HoldsCode(Step(s).next.mem, ir)
  {
    hide Assembles, SafeProgram, HoldsCode, Step, FetchInstr, SymbolicInstr, FetchRoom, TextAddr, OnNode, WellPlaced;
    hide TransferNamed, NeverFallsThrough, InstrFrom;
    StepAtNode(ir, i, s);
    assert WellPlaced(ir, i);
    PlacedNode(ir, i);
    StepArrives(ir, i, s);
    StepKeepsImage(ir, i, s);
  }

  lemma AtSomeNode(ir: Program, s: State) returns (i: nat)
    requires OnNode(ir, s)
    ensures IsNode(ir, i) && s.pc == TextAddr(ir, i)
  {
    i :| IsNode(ir, i) && s.pc == TextAddr(ir, i);
  }

  lemma PlainArrives(ir: Program, s: State)
    requires Assembles(ir) && SafeProgram(ir) && ReturningProgram(ir) && InPlace(ir, s)
    requires StepPlain(s).Some? && StepPlain(s).value.running
    ensures InPlace(ir, StepPlain(s).value)
  {
    hide Assembles, SafeProgram, ReturningProgram, OnNode, HoldsCode, StackOk, StepPlain, Step, FetchInstr, TextAddr;
    var i := AtSomeNode(ir, s);
    PlainWasRunning(s);
    PlainStep(s);
    NodeStepLands(ir, i, s);
  }

  lemma OpenArrives(ir: Program, open: OpCode, s: State)
    requires Assembles(ir) && SafeProgram(ir) && ReturningProgram(ir) && InPlace(ir, s)
    requires open in {PUSH, CALL} && StepOn(open, s).Some? && StepOn(open, s).value.running
    ensures InPlace(ir, StepOn(open, s).value)
  {
    hide Assembles, SafeProgram, ReturningProgram, OnNode, HoldsCode, StackOk, StepOn, Step, FetchInstr, TextAddr;
    var i := AtSomeNode(ir, s);
    BracketWasRunning(open, s);
    OpenKeepsOk(open, s);
    NodeStepLands(ir, i, s);
  }

  /** Closing a PUSH: POP is a step like any other. */
  lemma PopArrives(ir: Program, inner: Body, s: State, z: State)
    requires Assembles(ir) && SafeProgram(ir) && ReturningProgram(ir) && InPlace(ir, z) && StackOk(s)
    requires FollowBracket(PUSH, inner, POP, s).Some? && FollowBracket(PUSH, inner, POP, s).value.running
    requires Follow(inner, StepOn(PUSH, s).value) == Some(z)
    ensures InPlace(ir, FollowBracket(PUSH, inner, POP, s).value)
  {
    hide Assembles, SafeProgram, ReturningProgram, OnNode, HoldsCode, StackOk, StepOn;
    hide Step, FetchInstr, TextAddr, Follow;
    var i := AtSomeNode(ir, z);
    BracketWasRunning(POP, z);
    BracketBody(PUSH, inner, POP, s);
    NodeStepLands(ir, i, z);
  }

  /** Closing a CALL at node i: the node behind it, or the node behind the RTN that sits there. */
  lemma ReturnArrives(ir: Program, i: nat, inner: Body, s: State, z: State)
    requires Assembles(ir) && SafeProgram(ir) && ReturningProgram(ir) && InPlace(ir, z) && InPlace(ir, s)
    requires IsNode(ir, i) && s.pc == TextAddr(ir, i) && ir[i].op == CALL
    requires FollowBracket(CALL, inner, RTN, s).Some? && FollowBracket(CALL, inner, RTN, s).value.running
    requires Follow(inner, StepOn(CALL, s).value) == Some(z)
    ensures InPlace(ir, FollowBracket(CALL, inner, RTN, s).value)
  {
    hide Assembles, SafeProgram, ReturningProgram, OnNode, HoldsCode, StackOk, StepOn;
    hide Step, FetchInstr, TextAddr, Follow;
    hide SymbolicInstr, FetchRoom;
    var t := FollowBracket(CALL, inner, RTN, s).value;
    var j := AtSomeNode(ir, z);
    BracketWasRunning(RTN, z);
    BracketBody(CALL, inner, RTN, s);
    StepKeepsImage(ir, j, z);
    CallReturnsToNode(ir, i, s, inner);
    StepAtNode(ir, j, z);
    ResumesOnNode(ir, i, j, t);
  }

  lemma ReturnSize(ir: Program, j: nat)
    requires Accepted(ir) && IsNode(ir, j) && ir[j].op == RTN
    ensures TextAddr(ir, InstrFrom(ir, j + 1)) == TextAddr(ir, j) + 2
  {
    hide Accepted, SymbolicInstr, TextAddr, HasHandler;
    NodeInstr(ir, j);
    AcceptedInstr(ir, j);
    ReturnHasNoOperand(RTN, NodeMode(ir[j]).mode);
    InstrFromAddr(ir, j + 1);
  }

  /** An RTN that follows a CALL is not the last instruction. */
  lemma ReturnIsFollowed(ir: Program, i: nat, j: nat)
    requires IsNode(ir, i) && ir[i].op == CALL && IsNode(ir, j) && ir[j].op == RTN && InstrFrom(ir, i + 1) == j
    requires WellPlaced(ir, j)
    ensures IsNode(ir, InstrFrom(ir, j + 1))
  {
    hide TransferNamed, NeverFallsThrough;
    assert i < j;
  }

  lemma ResumesOnNode(ir: Program, i: nat, j: nat, t: State)
    requires Assembles(ir) && ReturningProgram(ir)
    requires IsNode(ir, i) && ir[i].op == CALL && IsNode(ir, j) && ir[j].op == RTN
    requires var next := TextAddr(ir, InstrFrom(ir, i + 1));
             t.pc == if TextAddr(ir, j) == next then next + 2 else next
    ensures OnNode(ir, t)
  {
    hide TextAddr, TransferNamed, Assembles, WellPlaced;
    var k := InstrFrom(ir, i + 1);
    assert WellPlaced(ir, i) && WellPlaced(ir, j);
    PlacedNode(ir, i);
    assert IsNode(ir, k);
    if TextAddr(ir, j) == TextAddr(ir, k) {
      SameNode(ir, j, k);
      AssemblesParts(ir);
      ReturnSize(ir, j);
      ReturnIsFollowed(ir, i, j);
    }
  }

  lemma SameNode(ir: Program, j: nat, k: nat)
    requires IsNode(ir, j) && IsNode(ir, k) && TextAddr(ir, j) == TextAddr(ir, k)
    ensures j == k
  {
    if j < k { NodesAreApart(ir, j, k); } else if k < j { NodesAreApart(ir, k, j); }
  }

  /**
   Well-bracketed runs stay on the nodes: from an instruction node, any stretch of CALL, PUSH, POP
   and RTN of any depth that leaves the machine running ends at an instruction node, with the
   program in memory, and so did every bracket inside it.
   */
  lemma {:induction false} BodyStaysOnNodes(ir: Program, b: Body, s: State)
    requires Assembles(ir) && SafeProgram(ir) && ReturningProgram(ir) && InPlace(ir, s)
    requires Follow(b, s).Some? && Follow(b, s).value.running
    ensures InPlace(ir, Follow(b, s).value)
    decreases b, 0
  {
    hide Assembles, SafeProgram, ReturningProgram, InPlace, StepOn, StepPlain, FollowBracket;
    match b
    case Empty =>
    case Plain(rest) =>
      BodyWasRunning(rest, StepPlain(s).value);
      PlainArrives(ir, s);
      BodyStaysOnNodes(ir, rest, StepPlain(s).value);
    case PushPop(inner, rest) =>
      var t := FollowBracket(PUSH, inner, POP, s).value;
      BodyWasRunning(rest, t);
      BracketStaysOnNodes(ir, PUSH, inner, POP, s);
      BodyStaysOnNodes(ir, rest, t);
    case Subroutine(inner, rest) =>
      var t := FollowBracket(CALL, inner, RTN, s).value;
      BodyWasRunning(rest, t);
      BracketStaysOnNodes(ir, CALL, inner, RTN, s);
      BodyStaysOnNodes(ir, rest, t);
  }

  lemma {:induction false} BracketStaysOnNodes(ir: Program, open: OpCode, inner: Body, close: OpCode, s: State)
    requires (open == PUSH && close == POP) || (open == CALL && close == RTN)
    requires Assembles(ir) && SafeProgram(ir) && ReturningProgram(ir) && InPlace(ir, s)
    requires FollowBracket(open, inner, close, s).Some? && FollowBracket(open, inner, close, s).value.running
    ensures InPlace(ir, FollowBracket(open, inner, close, s).value)
    decreases inner, 1
  {
    hide Assembles, SafeProgram, ReturningProgram, OnNode, HoldsCode, StackOk, StepOn, FetchInstr, Step, TextAddr;
    BracketRanThrough(open, inner, close, s);
    OpenArrives(ir, open, s);
    var a := StepOn(open, s).value;
    BodyStaysOnNodes(ir, inner, a);
    var z := Follow(inner, a).value;
    if open == PUSH {
      PopArrives(ir, inner, s, z);
    } else {
      var i := AtSomeNode(ir, s);
      BracketWasRunning(CALL, s);
      StepAtNode(ir, i, s);
      ReturnArrives(ir, i, inner, s, z);
    }
  }
}
