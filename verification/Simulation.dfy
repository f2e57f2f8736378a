/**
 Assembler correctness. A symbolic machine runs the IR directly: its program counter is a node,
 labels are found by name, falling through means the next instruction node. The bytes the
 assembler emits, once loaded, make the real machine take exactly the same steps.
 */
module Simulation {
  import opened Common
  import opened Words
  import opened Isa
  import opened Machine
  import opened Codec
  import opened Cpu
  import opened Invariants
  import opened Runs
  import opened Assembler
  import opened AssemblerLaws
  import Ir

  type Program = seq<Ir.Node>

  // The symbolic machine

  /** The address a name stands for: the layout address of the node that defines it. */
  function NameAddress(ir: Program, name: Option<string>): nat {
    if name.Some? && LabelIndex(ir, name.value).Some? then AddressAt(ir, LabelIndex(ir, name.value).value) else 0
  }

  /** The instruction of node i with its label replaced by the address of the node it names. */
  function SymbolicInstr(ir: Program, i: nat): Instruction
    requires i < |ir| && ir[i].Instr?
  {
    Resolved(ir[i], NameAddress(ir, NameIn(MainOperand(ir[i]))))
  }

  /** The first instruction node at or after i, or |ir|. */
  function InstrFrom(ir: Program, i: nat): (j: nat)
    requires i <= |ir|
    ensures i <= j <= |ir| && (j < |ir| ==> ir[j].Instr?)
    ensures forall k :: i <= k < j ==> !ir[k].Instr?
    decreases |ir| - i
  {
    if i == |ir| || ir[i].Instr? then i else InstrFrom(ir, i + 1)
  }

  /** The instruction node, at or after i, that is laid out at an address. */
  function NodeAt(ir: Program, addr: nat, i: nat := 0): (j: Option<nat>)
    requires i <= |ir|
    ensures j.Some? ==> i <= j.value < |ir| && ir[j.value].Instr? && TextAddr(ir, j.value) == addr
    decreases |ir| - i
  {
    if i == |ir| then None
    else if ir[i].Instr? && TextAddr(ir, i) == addr then Some(i)
    else NodeAt(ir, addr, i + 1)
  }

  /** The label a jump or call names directly. */
  function DirectLabel(n: Ir.Node): Option<string>
    requires n.Instr?
  {
    if (IsJump(n.op) || n.op == CALL) && n.a.Ident? then Some(n.a.name) else None
  }

  datatype SymbolicStep =
    | Goes(node: nat, state: State)  // on to a node (or |ir|, the end of the program)
    | Leaves(state: State)           // control passes to an address that is no instruction node
    | Ends(status: VMError, state: State)
    | Halts(why: Reason)

  /**
   One step at instruction node i. A transfer to the instruction's own address falls through; a
   jump or call that names a label goes to the first instruction after the label; computed
   transfers go to the node laid out at the computed address.
   */
  function SymStep(ir: Program, i: nat, s: State): SymbolicStep
    requires i < |ir| && ir[i].Instr?
  {
    hide Exec, HasHandler;
    var here := TextAddr(ir, i) % TWO64;
    Directed(ir, i, here, RunHandler(SymbolicInstr(ir, i), s.(pc := here)))
  }

  /** Where control goes after the handler of node i, laid out at `here`, had outcome o. */
  function Directed(ir: Program, i: nat, here: uint64, o: Outcome): SymbolicStep
    requires i < |ir| && ir[i].Instr?
  {
    match o
    case Stuck(why) => Halts(why)
    case Done(e, t) =>
      if e != VM_OK then Ends(e, t)
      else if t.pc == here then SymGo(ir, InstrFrom(ir, i + 1), t)
      else if DirectLabel(ir[i]).Some? && LabelIndex(ir, DirectLabel(ir[i]).value).Some? then
        SymGo(ir, InstrFrom(ir, LabelIndex(ir, DirectLabel(ir[i]).value).value), t)
      else if NodeAt(ir, t.pc).Some? then Goes(NodeAt(ir, t.pc).value, t)
      else Leaves(t)
  }

  function SymGo(ir: Program, j: nat, t: State): SymbolicStep
    requires j <= |ir|
  {
    Goes(j, t.(pc := TextAddr(ir, j) % TWO64))
  }

  datatype SymbolicRun = Within(outcome: Outcome) | Outside

  /** Up to n cycles from node i, as long as control stays on instruction nodes. */
  function SymRun(ir: Program, i: nat, s: State, n: nat): SymbolicRun
    decreases n
  {
    hide SymStep;
    if n == 0 then Within(Done(VM_OK, s))
    else if i >= |ir| || !ir[i].Instr? then Outside
    else
      match SymStep(ir, i, s)
      case Goes(j, t) => if t.running then SymRun(ir, j, t, n - 1) else Within(Done(VM_OK, t))
      case Leaves(t) => if t.running then Outside else Within(Done(VM_OK, t))
      case Ends(e, t) => Within(Done(e, t))
      case Halts(why) => Within(Stuck(why))
  }

  // The real machine holding the assembled program

  /** Both passes accept the list, and both images fit where the loader puts them. */
  ghost predicate Assembles(ir: Program) {
    && Accepted(ir) && AllTyped(ir) && EmittedUpTo(ir, Symbols(ir, |ir|), |ir|)
    && TextAddr(ir, |ir|) < DATA_BASE && DataOffset(ir, |ir|) < HEAP_BASE - DATA_BASE
  }

  ghost predicate HoldsCode(m: Memory, ir: Program) {
    TextAddr(ir, |ir|) < DATA_BASE && m[..TextAddr(ir, |ir|)] == CodeImage(ir, Symbols(ir, |ir|), |ir|)
  }

  /** The decoder asks for more room than the instruction needs: fetching works up to DATA_BASE - 3. */
  predicate FetchRoom(ir: Program, i: nat)
    requires i < |ir| && ir[i].Instr?
  {
    TextAddr(ir, i + 1) <= if NodeMode(ir[i]).mode == NONE then DATA_BASE - 1 else DATA_BASE - 3
  }

  lemma ResolvedIsNormal(n: Ir.Node, addr: nat)
    requires n.Instr? && NodeMode(n).status == ASM_OK
    ensures Normal(Resolved(n, addr)) == Resolved(n, addr)
    ensures Resolved(n, addr).op == n.op && Resolved(n, addr).mode == NodeMode(n).mode
  {
  }

  /** Names resolve through the table as they do by position. */
  lemma SameInstr(ir: Program, i: nat)
    requires i < |ir| && ir[i].Instr?
    ensures InstrOf(ir[i], Symbols(ir, |ir|)) == SymbolicInstr(ir, i)
  {
    hide Resolved, MainOperand, LookUp, LabelIndex, Symbols, AddressAt;
    var name := NameIn(MainOperand(ir[i]));
    if name.Some? {
      TableIsComplete(ir, name.value);
    }
  }

  lemma AcceptedInstr(ir: Program, i: nat)
    requires Accepted(ir) && i < |ir| && ir[i].Instr?
    ensures NodeMode(ir[i]).status == ASM_OK && HasHandler(ir[i].op, NodeMode(ir[i]).mode)
    ensures SectionAt(ir, i) == SECTION_TEXT
  {
    hide ModeFor, HasHandler;
    assert FirstPassError(ir, i) == Returned(ASM_OK);
  }

  /** Fetching at a node's address yields the node's instruction, or fails for want of room. */
  lemma FetchesNode(ir: Program, i: nat, m: Memory)
    requires Accepted(ir) && HoldsCode(m, ir) && i < |ir| && ir[i].Instr?
    ensures TextAddr(ir, i) < DATA_BASE
    ensures FetchInstr(m, TextAddr(ir, i))
            == if FetchRoom(ir, i) then Ready(SymbolicInstr(ir, i)) else Fails(VM_TRUNCATED_INSTR)
  {
    hide ModeFor, HasHandler, Encode, Decode, Resolved, InstrOf, CodeImage, SymbolicInstr, Normal, AcceptedUpTo;
    var table := Symbols(ir, |ir|);
    var at, instr := TextAddr(ir, i), InstrOf(ir[i], table);
    AcceptedInstr(ir, i);
    SameInstr(ir, i);
    NodeInstr(ir, i);
    NodeCode(ir, table, i);
    var to := TextAddr(ir, i + 1);
    assert m[at..to] == m[..TextAddr(ir, |ir|)][at..to];
    assert EncodedAt(m, at, instr);
    DecodeEncode(instr, m, at, DATA_BASE - at - 1);
  }

  lemma NodeInstr(ir: Program, i: nat)
    requires Accepted(ir) && i < |ir| && ir[i].Instr?
    ensures var instr := SymbolicInstr(ir, i);
            && instr.op == ir[i].op && instr.mode == NodeMode(ir[i]).mode && Normal(instr) == instr
            && HasHandler(instr.op, instr.mode)
    ensures TextAddr(ir, i + 1) == TextAddr(ir, i) + ModeSize(NodeMode(ir[i]).mode)
  {
    hide HasHandler, Normal, Resolved, ModeFor, AcceptedUpTo;
    AcceptedInstr(ir, i);
    ResolvedIsNormal(ir[i], NameAddress(ir, NameIn(MainOperand(ir[i]))));
  }

  // Layout of nodes

  lemma {:induction false} InstrFromAddr(ir: Program, i: nat)
    requires i <= |ir|
    ensures TextAddr(ir, InstrFrom(ir, i)) == TextAddr(ir, i)
    decreases |ir| - i
  {
    if i < |ir| && !ir[i].Instr? { InstrFromAddr(ir, i + 1); }
  }

  /** Different instruction nodes have different addresses. */
  lemma NodesAreApart(ir: Program, i: nat, j: nat)
    requires i < j <= |ir| && ir[i].Instr?
    ensures TextAddr(ir, i) < TextAddr(ir, j)
  {
    AddressesGrow(ir, i + 1, j);
  }

  /** Looking up a node's own address finds that node. */
  lemma {:induction false} NodeAtOwnAddress(ir: Program, j: nat, i: nat)
    requires i <= j < |ir| && ir[j].Instr?
    ensures NodeAt(ir, TextAddr(ir, j), i) == Some(j)
    decreases j - i
  {
    if i < j {
      if ir[i].Instr? { NodesAreApart(ir, i, j); }
      NodeAtOwnAddress(ir, j, i + 1);
    }
  }

  /** Control leaves the program only for an address at which no instruction node is laid out. */
  lemma LeavesForNoNode(ir: Program, i: nat, s: State, j: nat)
    requires i < |ir| && ir[i].Instr? && j < |ir| && ir[j].Instr? && SymStep(ir, i, s).Leaves?
    ensures SymStep(ir, i, s).state.pc != TextAddr(ir, j)
  {
    hide SymbolicInstr, RunHandler, DirectLabel, LabelIndex;
    NodeAtOwnAddress(ir, j, 0);
  }

  // Direct transfers

  /** An immediate jump or call that succeeds either stays put or arrives at its argument. */
  lemma ImmediateTransfer(i: Instruction, s: State)
    requires (IsJump(i.op) || i.op == CALL) && i.mode == IMM
    requires Exec(i, s).Done? && Exec(i, s).status == VM_OK
    ensures Exec(i, s).next.pc == s.pc || (Exec(i, s).next.pc == ToU(i.arg) && 0 <= i.arg < DATA_BASE)
  {
    hide Taken, Store64;
  }

  lemma DirectOperand(ir: Program, i: nat)
    requires Accepted(ir) && i < |ir| && ir[i].Instr? && DirectLabel(ir[i]).Some?
    ensures SymbolicInstr(ir, i).mode == IMM
    ensures SymbolicInstr(ir, i).arg == ToArg(NameAddress(ir, DirectLabel(ir[i])))
  {
    hide HasHandler;
    AcceptedInstr(ir, i);
  }

  /** A label that a successful transfer named lies in the text section, at the new pc. */
  lemma DirectTarget(ir: Program, i: nat, s: State)
    requires Assembles(ir) && i < |ir| && ir[i].Instr? && DirectLabel(ir[i]).Some?
    requires LabelIndex(ir, DirectLabel(ir[i]).value).Some?
    ensures var o := RunHandler(SymbolicInstr(ir, i), s);
            o.Done? && o.status == VM_OK && o.next.pc != s.pc
            ==> o.next.pc == TextAddr(ir, LabelIndex(ir, DirectLabel(ir[i]).value).value)
  {
    hide Exec, HasHandler, SymbolicInstr, Assembles, DirectLabel, LabelIndex, NameAddress, TextAddr;
    AssemblesParts(ir);
    NodeInstr(ir, i);
    DirectOperand(ir, i);
    SmallAddress(ir, DirectLabel(ir[i]));
    var o := Exec(SymbolicInstr(ir, i), s);
    if o.Done? && o.status == VM_OK {
      NamedTransfer(ir, i);
      ImmediateTransfer(SymbolicInstr(ir, i), s);
      if o.next.pc != s.pc { LowAddressIsText(ir, DirectLabel(ir[i]).value); }
    }
  }

  lemma NamedTransfer(ir: Program, i: nat)
    requires Accepted(ir) && i < |ir| && ir[i].Instr? && DirectLabel(ir[i]).Some?
    ensures IsJump(SymbolicInstr(ir, i).op) || SymbolicInstr(ir, i).op == CALL
  {
    hide SymbolicInstr, AcceptedUpTo, HasHandler;
    NodeInstr(ir, i);
  }

  /** A name whose address is in the code segment stands for a place in the text section. */
  lemma LowAddressIsText(ir: Program, name: string)
    requires LabelIndex(ir, name).Some? && NameAddress(ir, Some(name)) < DATA_BASE
    ensures NameAddress(ir, Some(name)) == TextAddr(ir, LabelIndex(ir, name).value)
  {
    hide LabelIndex, TextAddr, DataOffset, SectionAt;
  }

  // One step

  /** What the real machine does when the symbolic one takes a step. */
  function Concrete(r: SymbolicStep): Outcome {
    match r
    case Goes(_, t) => Done(VM_OK, t)
    case Leaves(t) => Done(VM_OK, t)
    case Ends(e, t) => Done(e, t)
    case Halts(why) => Stuck(why)
  }

  lemma SymStepIs(ir: Program, i: nat, s: State)
    requires Accepted(ir) && i < |ir| && ir[i].Instr? && s.pc == TextAddr(ir, i)
    ensures HasHandler(SymbolicInstr(ir, i).op, SymbolicInstr(ir, i).mode)
    ensures SymStep(ir, i, s) == Directed(ir, i, s.pc, Exec(SymbolicInstr(ir, i), s))
  {
    hide Exec, HasHandler, SymbolicInstr, Directed, TextAddr, AcceptedUpTo;
    NodeInstr(ir, i);
    assert s.(pc := s.pc) == s;
  }

  /** A named transfer of node i lands on its label, in terms of Exec. */
  lemma ArrivesAtLabel(ir: Program, i: nat, s: State)
    requires Assembles(ir) && i < |ir| && ir[i].Instr?
    requires HasHandler(SymbolicInstr(ir, i).op, SymbolicInstr(ir, i).mode)
    ensures var o := Exec(SymbolicInstr(ir, i), s);
            DirectLabel(ir[i]).Some? && LabelIndex(ir, DirectLabel(ir[i]).value).Some?
            && o.Done? && o.status == VM_OK && o.next.pc != s.pc
            ==> o.next.pc == TextAddr(ir, LabelIndex(ir, DirectLabel(ir[i]).value).value)
  {
    hide Exec, HasHandler, SymbolicInstr, TextAddr, DirectLabel, LabelIndex, Assembles;
    if DirectLabel(ir[i]).Some? && LabelIndex(ir, DirectLabel(ir[i]).value).Some? {
      DirectTarget(ir, i, s);
    }
  }

  /**
   Whenever pc is the layout address of an instruction node, the machine's step is the symbolic
   machine's step at that node, provided the decoder has its room; without it the step fails
   with VM_TRUNCATED_INSTR and changes nothing.
   */
  lemma StepSimulates(ir: Program, i: nat, s: State)
    requires Assembles(ir) && HoldsCode(s.mem, ir)
    requires i < |ir| && ir[i].Instr? && s.pc == TextAddr(ir, i)
    ensures Step(s) == if FetchRoom(ir, i) then Concrete(SymStep(ir, i, s)) else Done(VM_TRUNCATED_INSTR, s)
  {
    hide Exec, HasHandler, FetchInstr, SymbolicInstr, HoldsCode, Assembles, Directed, FetchRoom, Advance, Concrete;
    hide TextAddr, DirectLabel, LabelIndex, RunHandler, SymStep;
    AssemblesParts(ir);
    FetchesNode(ir, i, s.mem);
    if FetchRoom(ir, i) {
      StepOf(s, SymbolicInstr(ir, i));
      NodeInstr(ir, i);
      SymStepIs(ir, i, s);
      ArrivesAtLabel(ir, i, s);
      DirectedIsAdvance(ir, i, s.pc, Exec(SymbolicInstr(ir, i), s), SymbolicInstr(ir, i));
    }
  }

  lemma AssemblesParts(ir: Program)
    requires Assembles(ir)
    ensures Accepted(ir) && TextAddr(ir, |ir|) < DATA_BASE
  {
  }

  /** The nodes the symbolic machine chooses are laid out where the real one's pc arrives. */
  lemma DirectedIsAdvance(ir: Program, i: nat, here: uint64, o: Outcome, instr: Instruction)
    requires i < |ir| && ir[i].Instr? && TextAddr(ir, |ir|) < DATA_BASE
    requires here == TextAddr(ir, i) && TextAddr(ir, i + 1) == here + ModeSize(instr.mode)
    requires DirectLabel(ir[i]).Some? && LabelIndex(ir, DirectLabel(ir[i]).value).Some?
             && o.Done? && o.status == VM_OK && o.next.pc != here
             ==> o.next.pc == TextAddr(ir, LabelIndex(ir, DirectLabel(ir[i]).value).value)
    ensures Concrete(Directed(ir, i, here, o)) == Advance(instr, here, o)
  {
    hide DirectLabel, LabelIndex, NodeAt, InstrFrom, TextAddr;
    InstrFromAddr(ir, i + 1);
    AddressesGrow(ir, i + 1, |ir|);
    if DirectLabel(ir[i]).Some? && LabelIndex(ir, DirectLabel(ir[i]).value).Some? {
      InstrFromAddr(ir, LabelIndex(ir, DirectLabel(ir[i]).value).value);
    }
    if o.Done? { assert o.next.(pc := o.next.pc) == o.next; }
  }

  /** The symbolic machine's bookkeeping: it goes to instruction nodes, at their addresses. */
  lemma SymStepLands(ir: Program, i: nat, s: State)
    requires Assembles(ir) && i < |ir| && ir[i].Instr?
    ensures SymStep(ir, i, s).Goes? ==>
              var r := SymStep(ir, i, s);
              r.node <= |ir| && (r.node < |ir| ==> ir[r.node].Instr?) && r.state.pc == TextAddr(ir, r.node)
    ensures SymStep(ir, i, s).Ends? ==> SymStep(ir, i, s).status != VM_OK
  {
    hide Exec, HasHandler, RunHandler, SymbolicInstr, AcceptedUpTo, EmittedUpTo, ModeFor, DirectLabel, LabelIndex;
    var r := SymStep(ir, i, s);
    if r.Goes? {
      AddressesGrow(ir, r.node, |ir|);
    }
  }

  // Whole runs

  /**
   The nodes executed in the first n cycles have their fetch room, and none of these executions
   changes the code segment.
   */
  ghost predicate SteadyRun(ir: Program, i: nat, s: State, n: nat)
    decreases n
  {
    hide SymStep, SteadyAt;
    n == 0 || i >= |ir| || !ir[i].Instr? ||
    (SteadyAt(ir, i, s) &&
     (SymStep(ir, i, s).Goes? && SymStep(ir, i, s).state.running
      ==> SteadyRun(ir, SymStep(ir, i, s).node, SymStep(ir, i, s).state, n - 1)))
  }

  predicate SteadyAt(ir: Program, i: nat, s: State)
    requires i < |ir| && ir[i].Instr?
  {
    hide CodeSurvives, HasHandler;
    FetchRoom(ir, i) &&
    (HasHandler(SymbolicInstr(ir, i).op, SymbolicInstr(ir, i).mode) ==> CodeSurvives(SymbolicInstr(ir, i), s))
  }

  /** No node of the program is an instruction that can overwrite code. */
  ghost predicate SafeProgram(ir: Program) {
    forall i :: 0 <= i < |ir| && ir[i].Instr? ==> !WritesCode(SymbolicInstr(ir, i))
  }

  ghost predicate HasRoom(ir: Program) {
    forall i :: 0 <= i < |ir| && ir[i].Instr? ==> FetchRoom(ir, i)
  }

  /** Code ending at or below DATA_BASE - 3 leaves every node its room. */
  lemma RoomForAll(ir: Program)
    requires TextAddr(ir, |ir|) <= DATA_BASE - 3
    ensures HasRoom(ir)
  {
    forall i | 0 <= i < |ir| && ir[i].Instr?
      ensures FetchRoom(ir, i)
    {
      AddressesGrow(ir, i + 1, |ir|);
    }
  }

  /** Such a program is steady in every run. */
  lemma {:induction false} SafeProgramIsSteady(ir: Program, i: nat, s: State, n: nat)
    requires SafeProgram(ir) && HasRoom(ir)
    ensures SteadyRun(ir, i, s, n)
    decreases n
  {
    hide SymStep, CodeSurvives, WritesCode, SymbolicInstr, FetchRoom, HasHandler;
    if n > 0 && i < |ir| && ir[i].Instr? {
      if HasHandler(SymbolicInstr(ir, i).op, SymbolicInstr(ir, i).mode) {
        HarmlessSurvives(SymbolicInstr(ir, i), s);
      }
      if SymStep(ir, i, s).Goes? {
        SafeProgramIsSteady(ir, SymStep(ir, i, s).node, SymStep(ir, i, s).state, n - 1);
      }
    }
  }

  lemma StepHoldsCode(ir: Program, i: nat, s: State)
    requires Assembles(ir) && HoldsCode(s.mem, ir)
    requires i < |ir| && ir[i].Instr? && SteadyAt(ir, i, s) && s.pc == TextAddr(ir, i) && Step(s).Done?
    ensures HoldsCode(Step(s).next.mem, ir)
  {
    hide Exec, Step, HasHandler, FetchInstr, SymbolicInstr, CodeSurvives, FetchRoom, HoldsCode;
    hide AcceptedUpTo, EmittedUpTo;
    AssemblesParts(ir);
    FetchesNode(ir, i, s.mem);
    StepCases(s);
    CodeUnchangedIff(SymbolicInstr(ir, i), s);
    SameCode(ir, s.mem, Step(s).next.mem);
  }

  lemma SameCode(ir: Program, m: Memory, m2: Memory)
    requires HoldsCode(m, ir) && m2[..DATA_BASE] == m[..DATA_BASE]
    ensures HoldsCode(m2, ir)
  {
    var n := TextAddr(ir, |ir|);
    assert m2[..n] == m2[..DATA_BASE][..n] && m[..n] == m[..DATA_BASE][..n];
  }

  /**
   In any run that keeps the code, however it got there (by jumping into the middle of an
   instruction and back, say): whenever pc is the layout address of node i, the step is the
   symbolic machine's step at node i, or fails for want of fetch room.
   */
  lemma EveryNodeStepIsSymbolic(ir: Program, s: State, n: nat, i: nat)
    requires Assembles(ir) && HoldsCode(s.mem, ir) && CalmRun(s, n) && After(s, n).Some?
    requires i < |ir| && ir[i].Instr? && After(s, n).value.pc == TextAddr(ir, i)
    ensures var t := After(s, n).value;
            Step(t) == if FetchRoom(ir, i) then Concrete(SymStep(ir, i, t)) else Done(VM_TRUNCATED_INSTR, t)
  {
    hide Step, SymStep, HoldsCode, CalmRun, After, Assembles, FetchRoom, Concrete;
    CalmAfter(s, n);
    SameCode(ir, s.mem, After(s, n).value.mem);
    StepSimulates(ir, i, After(s, n).value);
  }

  /** A step of the symbolic machine where pc is a node's address, a step over the bytes elsewhere. */
  function MixedStep(ir: Program, s: State): Outcome {
    hide Step, SymStep;
    match NodeAt(ir, s.pc)
    case None => Step(s)
    case Some(i) => if FetchRoom(ir, i) then Concrete(SymStep(ir, i, s)) else Done(VM_TRUNCATED_INSTR, s)
  }

  /** The run loop over such steps. */
  function MixedRun(ir: Program, s: State, n: nat): Outcome
    decreases n
  {
    hide MixedStep;
    if n == 0 then Done(VM_OK, s)
    else
      match MixedStep(ir, s)
      case Stuck(why) => Stuck(why)
      case Done(status, t) => if status == VM_OK && t.running then MixedRun(ir, t, n - 1) else Done(status, t)
  }

  lemma MixedStepIsStep(ir: Program, s: State)
    requires Assembles(ir) && HoldsCode(s.mem, ir)
    ensures MixedStep(ir, s) == Step(s)
  {
    hide Step, SymStep, HoldsCode, Assembles, FetchRoom, Concrete;
    if NodeAt(ir, s.pc).Some? {
      StepSimulates(ir, NodeAt(ir, s.pc).value, s);
    }
  }

  /**
   Every run that keeps the code, from any state that holds the program: the machine runs as one
   that takes the symbolic step at every node address it comes to, for any number of cycles and to
   the same outcome. Nothing is asked of where control goes.
   */
  lemma {:induction false} RunSimulates(ir: Program, s: State, n: nat)
    requires Assembles(ir) && HoldsCode(s.mem, ir) && CalmRun(s, n)
    ensures Run(s, n) == MixedRun(ir, s, n)
    decreases n
  {
    hide Step, MixedStep, HoldsCode, CalmStep, Assembles;
    if n > 0 {
      MixedStepIsStep(ir, s);
      if Step(s).Done? && Step(s).status == VM_OK && Step(s).next.running {
        StepKeepsCode(s);
        SameCode(ir, s.mem, Step(s).next.mem);
        RunSimulates(ir, Step(s).next, n - 1);
      }
    }
  }

  /**
   While control stays on instruction nodes, the symbolic machine needs no bytes at all: the
   machine and the symbolic machine run in lockstep for any number of cycles and end with the same
   status in the same state.
   */
  lemma {:induction false} RunIsSymbolic(ir: Program, i: nat, s: State, n: nat)
    requires Assembles(ir) && HoldsCode(s.mem, ir) && SteadyRun(ir, i, s, n)
    requires i <= |ir| && s.pc == TextAddr(ir, i)
    requires SymRun(ir, i, s, n).Within?
    ensures Run(s, n) == SymRun(ir, i, s, n).outcome
    decreases n
  {
    hide Step, SymStep, HoldsCode, SteadyAt, Assembles, FetchRoom;
    if n > 0 {
      HasItsRoom(ir, i, s);
      StepSimulates(ir, i, s);
      SymStepLands(ir, i, s);
      match SymStep(ir, i, s)
      case Goes(j, t) =>
        StepHoldsCode(ir, i, s);
        if t.running {
          RunIsSymbolic(ir, j, t, n - 1);
        }
      case _ =>
    }
  }

  lemma HasItsRoom(ir: Program, i: nat, s: State)
    requires i < |ir| && ir[i].Instr? && SteadyAt(ir, i, s)
    ensures FetchRoom(ir, i)
  {
  }

  // Programs that stay on their nodes

  /** Every transfer names a label that an instruction follows. */
  ghost predicate NamesTransfers(ir: Program) {
    forall i :: 0 <= i < |ir| && ir[i].Instr? ==> TransferNamed(ir, i)
  }

  predicate TransferNamed(ir: Program, i: nat)
    requires i < |ir| && ir[i].Instr?
  {
    && ir[i].op != RTN && ir[i].op != RST
    && (IsJump(ir[i].op) || ir[i].op == CALL ==>
          && DirectLabel(ir[i]).Some? && LabelIndex(ir, DirectLabel(ir[i]).value).Some?
          && InstrFrom(ir, LabelIndex(ir, DirectLabel(ir[i]).value).value) < |ir|)
  }

  /** The last instruction is a HALT, or a JMP or CALL to an address other than its own. */
  ghost predicate EndsInside(ir: Program) {
    forall i :: 0 <= i < |ir| && ir[i].Instr? && InstrFrom(ir, i + 1) == |ir| ==> NeverFallsThrough(ir, i)
  }

  predicate NeverFallsThrough(ir: Program, i: nat)
    requires i < |ir| && ir[i].Instr?
  {
    ir[i].op == HALT
    || ((ir[i].op == JMP || ir[i].op == CALL) && DirectLabel(ir[i]).Some?
        && NameAddress(ir, DirectLabel(ir[i])) != TextAddr(ir, i))
  }

  /** A JMP or CALL that succeeds in immediate mode is at its argument. */
  lemma ImmediateArrival(i: Instruction, s: State)
    requires (i.op == JMP || i.op == CALL) && i.mode == IMM && HasHandler(i.op, i.mode)
    requires Exec(i, s).Done? && Exec(i, s).status == VM_OK
    ensures Exec(i, s).next.pc == ToU(i.arg) && 0 <= i.arg < DATA_BASE
  {
    hide Store64, Load64;
  }

  lemma HaltStops(i: Instruction, s: State)
    requires i.op == HALT && HasHandler(i.op, i.mode)
    ensures Exec(i, s).Done? && !Exec(i, s).next.running
  {
  }

  lemma SmallAddress(ir: Program, name: Option<string>)
    requires Assembles(ir)
    ensures NameAddress(ir, name) < HEAP_BASE && ToU(ToArg(NameAddress(ir, name))) == NameAddress(ir, name)
  {
    hide LabelIndex, AcceptedUpTo, EmittedUpTo;
    if name.Some? && LabelIndex(ir, name.value).Some? {
      AddressesGrow(ir, LabelIndex(ir, name.value).value, |ir|);
    }
  }

  /** An instruction that transfers nowhere leaves pc to the fall-through. */
  lemma LeftToFallThrough(ir: Program, i: nat, s: State)
    requires Assembles(ir) && i < |ir| && ir[i].Instr? && TransferNamed(ir, i)
    ensures var o := RunHandler(SymbolicInstr(ir, i), s);
            o.Done? && o.status == VM_OK && !(IsJump(ir[i].op) || ir[i].op == CALL) ==> o.next.pc == s.pc
    ensures var o := RunHandler(SymbolicInstr(ir, i), s);
            o.Done? && o.status == VM_OK && o.next.pc == s.pc == TextAddr(ir, i) && NeverFallsThrough(ir, i)
            ==> !o.next.running
  {
    hide Exec, HasHandler, SymbolicInstr, AcceptedUpTo, EmittedUpTo, NameAddress, LabelIndex, ModeFor;
    NodeInstr(ir, i);
    var instr := SymbolicInstr(ir, i);
    var o := Exec(instr, s);
    if o.Done? && o.status == VM_OK {
      if ir[i].op == HALT {
        HaltStops(instr, s);
      }
      if !(IsJump(ir[i].op) || ir[i].op == CALL) {
        OthersKeepPc(instr, s);
      } else if ir[i].op == JMP || ir[i].op == CALL {
        DirectOperand(ir, i);
        ImmediateArrival(instr, s);
        SmallAddress(ir, DirectLabel(ir[i]));
      }
    }
  }

  /** A step at a node whose transfer is named goes to an instruction node, stops, or fails. */
  lemma StepStays(ir: Program, i: nat, s: State)
    requires Assembles(ir) && i < |ir| && ir[i].Instr? && TransferNamed(ir, i)
    requires InstrFrom(ir, i + 1) == |ir| ==> NeverFallsThrough(ir, i)
    ensures !SymStep(ir, i, s).Leaves?
    ensures SymStep(ir, i, s).Goes? ==>
              var r := SymStep(ir, i, s);
              !r.state.running || (r.node < |ir| && ir[r.node].Instr?)
  {
    hide RunHandler, SymbolicInstr, LabelIndex, NodeAt, DirectLabel, NeverFallsThrough, Assembles, IsJump;
    AssemblesParts(ir);
    AddressesGrow(ir, i, |ir|);
    var here := TextAddr(ir, i) % TWO64;
    LeftToFallThrough(ir, i, s.(pc := here));
  }

  lemma NamedAt(ir: Program, i: nat)
    requires NamesTransfers(ir) && EndsInside(ir) && i < |ir| && ir[i].Instr?
    ensures TransferNamed(ir, i) && (InstrFrom(ir, i + 1) == |ir| ==> NeverFallsThrough(ir, i))
  {
    hide TransferNamed, NeverFallsThrough, InstrFrom;
  }

  /** Programs whose transfers all name labels and that do not run off their end stay on their nodes. */
  lemma {:induction false} StaysOnNodes(ir: Program, i: nat, s: State, n: nat)
    requires Assembles(ir) && NamesTransfers(ir) && EndsInside(ir) && i < |ir| && ir[i].Instr?
    ensures SymRun(ir, i, s, n).Within?
    decreases n
  {
    hide SymStep, Assembles, NamesTransfers, EndsInside, TransferNamed, NeverFallsThrough, InstrFrom;
    if n > 0 {
      NamedAt(ir, i);
      StepStays(ir, i, s);
      var r := SymStep(ir, i, s);
      if r.Goes? && r.state.running {
        StaysOnNodes(ir, r.node, r.state, n - 1);
      }
    }
  }
}
