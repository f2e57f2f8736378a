/**
 Whole-run theorems: the code segment never changes, failures are atomic, the program counter
 stays in the code segment, forward programs stop.
 */
module Runs {
  import opened Common
  import opened Words
  import opened Isa
  import opened HeapLaws
  import opened Machine
  import opened Codec
  import opened Cpu
  import opened Invariants
  import opened MemoryLaws

  // Stable fetch

  lemma SameSlice(m: Memory, m2: Memory, a: nat, b: nat)
    requires m[..DATA_BASE] == m2[..DATA_BASE] && a <= b <= DATA_BASE
    ensures m[a..b] == m2[a..b]
  {
    PrefixSlice(m, a, b);
    PrefixSlice(m2, a, b);
  }

  lemma PrefixSlice(m: Memory, a: nat, b: nat)
    requires a <= b <= DATA_BASE
    ensures m[..DATA_BASE][a..b] == m[a..b]
  {
  }

  /** What is fetched depends on the code segment only. */
  lemma FetchReadsCodeOnly(m: Memory, m2: Memory, pc: uint64)
    requires m[..DATA_BASE] == m2[..DATA_BASE]
    ensures FetchInstr(m, pc) == FetchInstr(m2, pc)
  {
    hide OrArg, HasHandler;
    if pc < DATA_BASE {
      forall k | pc <= k < DATA_BASE
        ensures m[k] == m2[k]
      {
        assert m[..DATA_BASE][k] == m2[..DATA_BASE][k];
      }
      if pc + 2 < DATA_BASE && m[pc + 1] < MODE_COUNT {
        var mode := MODES[m[pc + 1]];
        if pc + ModeSize(mode) <= DATA_BASE && CarriesArg(mode) {
          SameSlice(m, m2, pc + ArgAt(mode), pc + ModeSize(mode));
        }
      }
    }
  }

  /**
   Each instruction executed in the first n cycles leaves the code segment as it is, by a
   condition on the state it is executed in.
   */
  ghost predicate CalmRun(s: State, n: nat)
    decreases n
  {
    hide Step, FetchInstr, CodeSurvives;
    n == 0 ||
    (CalmStep(s) && (Step(s).Done? && Step(s).status == VM_OK && Step(s).next.running ==> CalmRun(Step(s).next, n - 1)))
  }

  predicate CalmStep(s: State) {
    hide FetchInstr, CodeSurvives;
    var f := FetchInstr(s.mem, s.pc);
    f.Ready? && HasHandler(f.instr.op, f.instr.mode) ==> CodeSurvives(f.instr, s)
  }

  lemma StepKeepsCode(s: State)
    requires Step(s).Done?
    ensures Step(s).next.mem[..DATA_BASE] == s.mem[..DATA_BASE] <==> CalmStep(s)
  {
    hide Step, FetchInstr, Exec, CodeSurvives, HasHandler;
    StepCases(s);
    if FetchInstr(s.mem, s.pc).Ready? {
      CodeUnchangedIff(FetchInstr(s.mem, s.pc).instr, s);
    }
  }

  /** At every moment of a calm run the code segment is what it was at its start. */
  lemma {:induction false} CodeNeverChanges(s: State, n: nat, m: nat)
    requires CalmRun(s, n) && m <= n && Run(s, m).Done?
    ensures Run(s, m).next.mem[..DATA_BASE] == s.mem[..DATA_BASE]
    ensures forall pc: uint64 :: FetchInstr(Run(s, m).next.mem, pc) == FetchInstr(s.mem, pc)
    decreases m
  {
    hide Step, FetchInstr, CalmStep;
    if m > 0 {
      StepKeepsCode(s);
      if Step(s).status == VM_OK && Step(s).next.running {
        CodeNeverChanges(Step(s).next, n - 1, m - 1);
      }
    }
    forall pc: uint64
      ensures FetchInstr(Run(s, m).next.mem, pc) == FetchInstr(s.mem, pc)
    {
      FetchReadsCodeOnly(Run(s, m).next.mem, s.mem, pc);
    }
  }

  /** None of the instructions fetched in the first n cycles is RST, indirect FAS or FAS Ra, [Ra+x]. */
  ghost predicate HarmlessRun(s: State, n: nat)
    decreases n
  {
    hide Step, FetchInstr, WritesCode;
    n == 0 ||
    ((FetchInstr(s.mem, s.pc).Ready? ==> !WritesCode(FetchInstr(s.mem, s.pc).instr)) &&
     (Step(s).Done? && Step(s).status == VM_OK && Step(s).next.running ==> HarmlessRun(Step(s).next, n - 1)))
  }

  lemma {:induction false} HarmlessRunIsCalm(s: State, n: nat)
    requires HarmlessRun(s, n)
    ensures CalmRun(s, n)
    decreases n
  {
    hide Step, FetchInstr, WritesCode, CalmStep;
    if n > 0 {
      HarmlessStepIsCalm(s);
      if Step(s).Done? && Step(s).status == VM_OK && Step(s).next.running {
        HarmlessRunIsCalm(Step(s).next, n - 1);
      }
    }
  }

  lemma HarmlessStepIsCalm(s: State)
    requires FetchInstr(s.mem, s.pc).Ready? ==> !WritesCode(FetchInstr(s.mem, s.pc).instr)
    ensures CalmStep(s)
  {
    hide FetchInstr, CodeSurvives, WritesCode, HasHandler;
    var f := FetchInstr(s.mem, s.pc);
    if f.Ready? && HasHandler(f.instr.op, f.instr.mode) {
      HarmlessSurvives(f.instr, s);
    }
  }

  /**
   Code immutability and stable fetch: at every moment of a run that executes none of the three
   offending instructions, whatever else the code segment may decode to, no code byte has changed
   and every address still decodes to what it did at the start.
   */
  lemma HarmlessRunKeepsCode(s: State, n: nat, m: nat)
    requires HarmlessRun(s, n) && m <= n && Run(s, m).Done?
    ensures Run(s, m).next.mem[..DATA_BASE] == s.mem[..DATA_BASE]
    ensures forall pc: uint64 :: FetchInstr(Run(s, m).next.mem, pc) == FetchInstr(s.mem, pc)
  {
    hide HarmlessRun, CalmRun, Run, FetchInstr;
    HarmlessRunIsCalm(s, n);
    CodeNeverChanges(s, n, m);
  }

  /** No address of the code segment decodes to RST, to an indirect FAS or to FAS Ra, [Ra+x]. */
  ghost predicate SafeCode(m: Memory) {
    forall pc: uint64 :: FetchInstr(m, pc).Ready? ==> !WritesCode(FetchInstr(m, pc).instr)
  }

  /** Over code that contains none of them anywhere, every run is harmless, wherever it jumps. */
  lemma {:induction false} SafeCodeIsHarmless(s: State, n: nat)
    requires SafeCode(s.mem)
    ensures HarmlessRun(s, n)
    decreases n
  {
    hide Step, FetchInstr, WritesCode, CalmStep;
    if n > 0 && Step(s).Done? {
      HarmlessStepIsCalm(s);
      StepKeepsCode(s);
      SafetyTravels(s.mem, Step(s).next.mem);
      SafeCodeIsHarmless(Step(s).next, n - 1);
    }
  }

  lemma SafetyTravels(m: Memory, m2: Memory)
    requires SafeCode(m) && m2[..DATA_BASE] == m[..DATA_BASE]
    ensures SafeCode(m2)
  {
    hide FetchInstr, WritesCode;
    forall pc: uint64 | FetchInstr(m2, pc).Ready?
      ensures !WritesCode(FetchInstr(m2, pc).instr)
    {
      FetchReadsCodeOnly(m, m2, pc);
    }
  }

  /** An indirect FAS through register 0 overwrites the first byte of the code. */
  lemma FasRewritesCode()
    ensures var s := Initial().(regs := [1024, 1024]);
            var fas := Instruction(FAS, IND, 1, 0, 0);
            Exec(fas, s).Done? && Exec(fas, s).status == VM_OK && Exec(fas, s).next.mem[0] != s.mem[0]
  {
    hide Load64, Store64;
    var s := Initial().(regs := [1024, 1024]);
    OneAtZero(s.mem);
  }

  // Heap, in every reachable state

  /** In every state a run reaches, two different blocks share no byte and all lie in the heap. */
  lemma ReachableHeapIsDisjoint(s: State, n: nat, i: nat, j: nat, byteAt: int)
    requires MachineOk(s) && Run(s, n).Done?
    requires var h := Run(s, n).next.heap;
             i < |h| && j < |h| && h[i].begin <= byteAt < End(h[i]) && h[j].begin <= byteAt < End(h[j])
    ensures i == j && HEAP_BASE <= byteAt < STACK_BASE
  {
    RunKeepsOk(s, n);
    BlocksAreDisjoint(Run(s, n).next.heap, i, j, byteAt);
  }

  // Failure atomicity

  /**
   The one way a failing instruction can leave a trace: FAS Ra, [Ra+x] loads Ra and then
   computes the store's address from the loaded value, which lies outside the memory.
   */
  predicate TornFas(i: Instruction, s: State) {
    && i.op == FAS && i.mode == IDX && i.a == i.b < N_REG
    && var addr := Address(i, s);
       DATA_BASE <= addr && addr + 8 <= MEM_SIZE
       && var v := Load64(s.mem, addr);
          v != s.regs[i.a] && Bounds(ToU(Add64(v, i.arg))).Fault?
  }

  lemma DataAtomic(i: Instruction, s: State)
    requires IsData(i.op) && HasHandler(i.op, i.mode) && ExecData(i, s).Done?
    requires ExecData(i, s).status != VM_OK
    ensures ExecData(i, s).next == s <==> !TornFas(i, s)
  {
    hide Load64, Store64;
    DataFrame(i, s);
    if i.op == FAS {
      FasAtomic(i, s);
    }
  }

  lemma FasAtomic(i: Instruction, s: State)
    requires i.op == FAS && HasHandler(FAS, i.mode) && ExecFas(i, s).Done? && ExecFas(i, s).status != VM_OK
    ensures ExecFas(i, s).next == s <==> !TornFas(i, s)
  {
    hide Load64, Store64;
    if i.a < N_REG && CarriesB(i.mode) && i.b < N_REG && DataBounds(Address(i, s)).Inside? {
      var v := Load64(s.mem, Address(i, s));
      assert s.regs[i.a := v] == s.regs <==> v == s.regs[i.a];
    }
  }

  /** A step that fails on anything but a TRAP leaves the whole machine as it was, TornFas apart. */
  lemma FailureIsAtomic(s: State)
    requires Step(s).Done? && Step(s).status != VM_OK
    requires FetchInstr(s.mem, s.pc).Ready? ==> FetchInstr(s.mem, s.pc).instr.op != TRAP
    ensures Step(s).next == s <==> !(FetchInstr(s.mem, s.pc).Ready? && TornFas(FetchInstr(s.mem, s.pc).instr, s))
  {
    hide Step, FetchInstr, ExecAlu, ExecData, ExecJump, ExecUnary, ExecCall, ExecReturn, ExecTrap, HasHandler;
    hide TornFas;
    StepCases(s);
    if FetchInstr(s.mem, s.pc).Ready? {
      var i := FetchInstr(s.mem, s.pc).instr;
      NotTorn(i, s);
      if IsAlu(i.op) {
        AluFrame(i, s);
      } else if IsData(i.op) {
        DataAtomic(i, s);
      } else if IsJump(i.op) {
        JumpFrame(i, s);
      } else {
        ControlAtomic(i, s);
      }
    }
  }

  lemma NotTorn(i: Instruction, s: State)
    ensures TornFas(i, s) ==> i.op == FAS
  {
  }

  lemma ControlAtomic(i: Instruction, s: State)
    requires !IsAlu(i.op) && !IsData(i.op) && !IsJump(i.op) && i.op != TRAP && HasHandler(i.op, i.mode)
    requires ExecControl(i, s).Done? && ExecControl(i, s).status != VM_OK
    ensures ExecControl(i, s).next == s
  {
    hide ExecUnary, ExecCall, HasHandler, Load64;
    if i.op == NEG || i.op == NOT {
      UnaryFrame(i, s);
    } else if i.op == CALL {
      CallFrame(i, s);
    }
  }

  /** R0 points at a word that holds 5000. */
  function TornState(): State {
    Initial().(regs := [1024, 0], mem := Store64(Zeros(), 1024, 5000))
  }

  /** Such a state exists: R0 is loaded with 5000 before the store at 5000 is refused. */
  lemma TornFasExample()
    ensures TornFas(Instruction(FAS, IDX, 0, 0, 0), TornState())
    ensures Exec(Instruction(FAS, IDX, 0, 0, 0), TornState())
            == Done(VM_ILL_MEM_ACCESS, TornState().(regs := [5000, 0]))
  {
    hide Load64, Store64;
    ReadAfterWrite(Zeros(), 1024, 5000);
    assert TornState().regs[0 := 5000] == [5000, 0];
  }

  // Program counter

  lemma CallGoes(i: Instruction, s: State)
    requires i.op == CALL && HasHandler(CALL, i.mode)
    requires ExecCall(i, s).Done? && ExecCall(i, s).status == VM_OK
    ensures SignedTarget(i, s).Some? && ExecCall(i, s).next.pc == ToU(SignedTarget(i, s).value)
    ensures SignedTarget(i, s).value < DATA_BASE && (i.mode == IMM ==> SignedTarget(i, s).value >= 0)
  {
    hide Load64, Store64, WrapU, Add64, ToS;
  }

  lemma ReturnGoes(i: Instruction, s: State)
    requires i.op == RTN && HasHandler(RTN, i.mode) && ExecReturn(s).Done? && ExecReturn(s).status == VM_OK
    ensures SignedTarget(i, s).Some? && ExecReturn(s).next.pc == ToU(SignedTarget(i, s).value)
    ensures SignedTarget(i, s).value < DATA_BASE
  {
    hide Load64, HasHandler;
  }

  lemma CallTarget(i: Instruction, s: State)
    requires (i.op == CALL || i.op == RTN) && HasHandler(i.op, i.mode)
    requires Exec(i, s).Done? && Exec(i, s).status == VM_OK
    ensures SignedTarget(i, s).Some? && Exec(i, s).next.pc == ToU(SignedTarget(i, s).value)
    ensures SignedTarget(i, s).value < DATA_BASE && (i.mode == IMM ==> SignedTarget(i, s).value >= 0)
  {
    hide HasHandler, ExecCall, ExecReturn, SignedTarget;
    if i.op == CALL {
      CallGoes(i, s);
    } else {
      ReturnGoes(i, s);
      ReturnHasNoOperand(i.op, i.mode);
    }
  }

  lemma OthersKeepPc(i: Instruction, s: State)
    requires HasHandler(i.op, i.mode) && Exec(i, s).Done? && Exec(i, s).status == VM_OK
    requires i.op != CALL && i.op != RTN
    ensures Exec(i, s).next.pc == s.pc || Exec(i, s).next.pc < DATA_BASE
    ensures !IsJump(i.op) && i.op != RST ==> Exec(i, s).next.pc == s.pc
  {
    hide HasHandler, IsAlu, IsData, ExecAlu, ExecData, ExecJump, ExecControl;
    if IsAlu(i.op) {
      AluFrame(i, s);
    } else if IsData(i.op) {
      DataFrame(i, s);
    } else if IsJump(i.op) {
      JumpFrame(i, s);
    } else {
      ControlKeepsPc(i, s);
    }
  }

  lemma ControlKeepsPc(i: Instruction, s: State)
    requires !IsAlu(i.op) && !IsData(i.op) && !IsJump(i.op) && HasHandler(i.op, i.mode)
    requires ExecControl(i, s).Done? && i.op != CALL && i.op != RTN
    ensures ExecControl(i, s).next.pc == s.pc || ExecControl(i, s).next.pc == 0
    ensures i.op != RST ==> ExecControl(i, s).next.pc == s.pc
  {
    hide HasHandler, IsAlu, IsData, IsJump, ExecUnary, ExecTrap;
    if i.op == NEG || i.op == NOT {
      UnaryFrame(i, s);
    } else if i.op != RST && i.op != NOP && i.op != HALT {
      TrapFrame(s);
    }
  }

  /**
   A successful step stays inside the code segment, except that a CALL through a register or
   memory, or an RTN, with a negative target leaves it; the next step then fails with
   VM_INVALID_EXECUTION_ADDRESS and changes nothing.
   */
  lemma PcIsContained(s: State)
    requires Step(s).Done? && Step(s).status == VM_OK
    ensures FetchInstr(s.mem, s.pc).Ready?
    ensures var i := FetchInstr(s.mem, s.pc).instr;
            && HasHandler(i.op, i.mode)
            && (Step(s).next.pc >= DATA_BASE
                <==> SignedTarget(i, s).Some? && SignedTarget(i, s).value < 0 && !(i.op == CALL && i.mode == IMM))
    ensures Step(s).next.pc >= DATA_BASE ==>
              Step(Step(s).next) == Done(VM_INVALID_EXECUTION_ADDRESS, Step(s).next)
  {
    hide Step, FetchInstr, Exec, HasHandler, SignedTarget;
    StepCases(s);
    FetchFailsWithError(s);
    var i := FetchInstr(s.mem, s.pc).instr;
    if i.op == CALL || i.op == RTN {
      CallTarget(i, s);
    } else {
      OthersKeepPc(i, s);
      NoSignedTarget(i, s);
    }
    if Step(s).next.pc >= DATA_BASE {
      OutsideCode(Step(s).next);
    }
  }

  lemma NoSignedTarget(i: Instruction, s: State)
    requires HasHandler(i.op, i.mode) && i.op != CALL && i.op != RTN
    ensures SignedTarget(i, s).None?
  {
  }

  lemma FetchFailsWithError(s: State)
    ensures FetchInstr(s.mem, s.pc).Fails? ==> FetchInstr(s.mem, s.pc).status != VM_OK
  {
    hide HasHandler, DecodeFields;
  }

  lemma OutsideCode(s: State)
    requires s.pc >= DATA_BASE
    ensures Step(s) == Done(VM_INVALID_EXECUTION_ADDRESS, s)
  {
  }

  // Termination of forward programs

  /** The state after n steps that all succeed and leave the machine running. */
  function After(s: State, n: nat): Option<State>
    decreases n
  {
    hide Step;
    if n == 0 then Some(s)
    else if Step(s).Done? && Step(s).status == VM_OK && Step(s).next.running then After(Step(s).next, n - 1)
    else None
  }

  /** Calm steps leave the code segment as it was. */
  lemma {:induction false} CalmAfter(s: State, n: nat)
    requires CalmRun(s, n) && After(s, n).Some?
    ensures After(s, n).value.mem[..DATA_BASE] == s.mem[..DATA_BASE]
    decreases n
  {
    hide Step, CalmStep;
    if n > 0 {
      StepKeepsCode(s);
      CalmAfter(Step(s).next, n - 1);
    }
  }

  /** The instruction that a successful step runs neither resets the machine nor goes back. */
  predicate GoesForward(s: State) {
    hide Step, Exec, FetchInstr;
    var f := FetchInstr(s.mem, s.pc);
    f.Ready? && HasHandler(f.instr.op, f.instr.mode) ==>
      var i := f.instr;
      i.op != RST && (Exec(i, s).Done? && Exec(i, s).status == VM_OK ==> Exec(i, s).next.pc >= s.pc)
  }

  ghost predicate ForwardRun(s: State, n: nat)
    decreases n
  {
    hide Step, GoesForward;
    n == 0 ||
    (GoesForward(s) &&
     (Step(s).Done? && Step(s).status == VM_OK && Step(s).next.running ==> ForwardRun(Step(s).next, n - 1)))
  }

  /** The byte at pc, read as an operation code, is one that never transfers control. */
  predicate AtPlainOpcode(s: State) {
    s.pc < DATA_BASE && s.mem[s.pc] <= 6
  }

  lemma FetchedBytes(m: Memory, pc: uint64)
    requires FetchInstr(m, pc).Ready?
    ensures pc + 2 < DATA_BASE && m[pc] < OP_COUNT && m[pc + 1] <= 6
    ensures FetchInstr(m, pc).instr.op == OPS[m[pc]] && FetchInstr(m, pc).instr.mode == MODES[m[pc + 1]]
    ensures HasHandler(FetchInstr(m, pc).instr.op, FetchInstr(m, pc).instr.mode)
    ensures pc + ModeSize(FetchInstr(m, pc).instr.mode) < DATA_BASE
    ensures FetchInstr(m, pc).instr.mode != NONE ==> pc + ModeSize(FetchInstr(m, pc).instr.mode) + 2 < DATA_BASE
  {
    hide HasHandler, OrArg;
  }

  lemma PlainOpcode(op: OpCode, mode: Mode, k: nat)
    requires k <= 6 && op == OPS[k] && HasHandler(op, mode)
    ensures !IsJump(op) && op != CALL && op != RTN && op != RST && ModeSize(mode) >= 3
  {
  }

  /**
   One forward step advances pc by at least one; by exactly one only onto its own mode byte,
   which is never the operation code of a transfer; and from such a byte by at least three.
   */
  lemma ForwardStep(s: State)
    requires Step(s).Done? && Step(s).status == VM_OK && GoesForward(s)
    ensures s.pc + 2 < DATA_BASE && Step(s).next.pc >= s.pc + 1
    ensures Step(s).next.pc == s.pc + 1 ==> AtPlainOpcode(Step(s).next)
    ensures AtPlainOpcode(s) ==> Step(s).next.pc >= s.pc + 3
  {
    hide Step, FetchInstr, Exec, HasHandler;
    StepCases(s);
    FetchFailsWithError(s);
    FetchedBytes(s.mem, s.pc);
    var i := FetchInstr(s.mem, s.pc).instr;
    if AtPlainOpcode(s) {
      PlainOpcode(i.op, i.mode, s.mem[s.pc]);
      OthersKeepPc(i, s);
    } else if Step(s).next.pc == s.pc + 1 {
      if i.op != CALL && i.op != RTN { OthersKeepPc(i, s); }
      assert !WritesCode(i);
      ExecKeepsCode(i, s);
      assert Step(s).next.mem[..DATA_BASE][s.pc + 1] == s.mem[..DATA_BASE][s.pc + 1];
    }
  }

  lemma {:induction false} ForwardDistance(s: State, n: nat)
    requires After(s, n).Some? && ForwardRun(s, n)
    ensures After(s, n).value.pc >= s.pc + 2 * n - if AtPlainOpcode(s) then 0 else 1
    ensures n == 0 || s.pc + 2 < DATA_BASE
    decreases n
  {
    hide Step, GoesForward, AtPlainOpcode;
    if n > 0 {
      ForwardStep(s);
      ForwardDistance(Step(s).next, n - 1);
    }
  }

  lemma {:induction false} AfterSplit(s: State, n: nat)
    requires n > 0 && After(s, n).Some? && ForwardRun(s, n)
    ensures After(s, n - 1).Some? && ForwardRun(s, n - 1)
    ensures var u := After(s, n - 1).value; GoesForward(u) && Step(u).Done? && Step(u).status == VM_OK
    decreases n
  {
    hide Step, GoesForward;
    if n > 1 {
      AfterSplit(Step(s).next, n - 1);
    } else {
      assert After(Step(s).next, 0).Some?;
    }
  }

  /**
   If no executed instruction goes backwards, vm_run makes at most (DATA_BASE - entry) / 2
   successful steps that leave it running, so it stops by the step after those.
   */
  lemma ForwardProgramsStop(s: State, n: nat)
    requires s.pc < DATA_BASE && ForwardRun(s, n) && After(s, n).Some?
    ensures n <= (DATA_BASE - s.pc) / 2
  {
    hide Step, GoesForward, After, ForwardRun, AtPlainOpcode;
    if n > 0 {
      AfterSplit(s, n);
      ForwardDistance(s, n - 1);
      ForwardStep(After(s, n - 1).value);
    }
  }

  /** Run has stopped exactly when After has no state to offer. */
  lemma {:induction false} RunStops(s: State, n: nat)
    requires Run(s, n).Done?
    ensures After(s, n).None? <==> (Run(s, n).status != VM_OK || (n > 0 && !Run(s, n).next.running))
    ensures After(s, n).Some? ==> Run(s, n) == Done(VM_OK, After(s, n).value)
    decreases n
  {
    hide Step;
    if n > 0 && Step(s).status == VM_OK && Step(s).next.running {
      RunStops(Step(s).next, n - 1);
      if n - 1 == 0 { assert Run(Step(s).next, 0) == Done(VM_OK, Step(s).next); }
    }
  }

  /** The bound, stated about the run loop itself. */
  lemma ForwardRunTerminates(s: State)
    requires s.pc < DATA_BASE && ForwardRun(s, (DATA_BASE - s.pc) / 2 + 1) && Run(s, (DATA_BASE - s.pc) / 2 + 1).Done?
    ensures var r := Run(s, (DATA_BASE - s.pc) / 2 + 1); r.status != VM_OK || !r.next.running
  {
    hide Step, Run, After, ForwardRun;
    var n := (DATA_BASE - s.pc) / 2 + 1;
    if After(s, n).Some? {
      ForwardProgramsStop(s, n);
    }
    RunStops(s, n);
  }
}
