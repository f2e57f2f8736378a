/**
 Nested calls return: a well-bracketed run of CALL, PUSH, POP and RTN, at any depth, gives the
 stack back as it found it and resumes after the call.
 */
module Calls {
  import opened Common
  import opened Words
  import opened Isa
  import opened Machine
  import opened Cpu
  import opened Invariants
  import opened MemoryLaws

  /** The bracket structure of a stretch of a run. */
  datatype Body =
    | Empty
    | Plain(rest: Body)                 // one instruction that leaves the stack alone
    | PushPop(inner: Body, rest: Body)  // PUSH, inner, POP
    | Subroutine(inner: Body, rest: Body)  // CALL, inner, RTN

  /** The state after a step that fetches an instruction of the given operation and succeeds. */
  function StepOn(op: OpCode, s: State): Option<State> {
    hide Step, FetchInstr;
    match FetchInstr(s.mem, s.pc)
    case Ready(i) => if i.op == op && Step(s).Done? && Step(s).status == VM_OK then Some(Step(s).next) else None
    case _ => None
  }

  /** Instructions outside the brackets: no stack operation, no TRAP, no RST, stores below the stack pointer. */
  predicate IsPlain(i: Instruction, s: State)
    requires HasHandler(i.op, i.mode)
  {
    hide StoreAddress, HasHandler;
    && i.op != PUSH && i.op != POP && i.op != CALL && i.op != RTN && i.op != TRAP && i.op != RST
    && (StoreAddress(i, s).Some? ==> StoreAddress(i, s).value + 8 <= s.sp)
  }

  function StepPlain(s: State): Option<State> {
    hide Step, FetchInstr, IsPlain;
    match FetchInstr(s.mem, s.pc)
    case Ready(i) =>
      if HasHandler(i.op, i.mode) && IsPlain(i, s) && Step(s).Done? && Step(s).status == VM_OK
      then Some(Step(s).next) else None
    case _ => None
  }

  /** Where the run is after the stretch b from s, if the run has that shape. */
  function Follow(b: Body, s: State): Option<State>
    decreases b, 0
  {
    hide StepOn, StepPlain;
    match b
    case Empty => Some(s)
    case Plain(rest) =>
      var a := StepPlain(s);
      if a.None? then None else Follow(rest, a.value)
    case PushPop(inner, rest) =>
      var t := FollowBracket(PUSH, inner, POP, s);
      if t.None? then None else Follow(rest, t.value)
    case Subroutine(inner, rest) =>
      var t := FollowBracket(CALL, inner, RTN, s);
      if t.None? then None else Follow(rest, t.value)
  }

  function FollowBracket(open: OpCode, inner: Body, close: OpCode, s: State): Option<State>
    decreases inner, 1
  {
    hide StepOn;
    var a := StepOn(open, s);
    if a.None? then None
    else
      var z := Follow(inner, a.value);
      if z.None? then None else StepOn(close, z.value)
  }

  /** t has s's stack: the same pointer and the same bytes at and above it. */
  predicate SameStack(s: State, t: State) {
    t.sp == s.sp && s.sp <= MEM_SIZE && t.mem[s.sp..] == s.mem[s.sp..]
  }

  // The five kinds of step

  lemma PlainKeepsStack(i: Instruction, s: State)
    requires HasHandler(i.op, i.mode) && IsPlain(i, s) && Exec(i, s).Done? && Exec(i, s).status == VM_OK
    requires s.sp <= MEM_SIZE
    ensures Exec(i, s).next.sp == s.sp && Exec(i, s).next.mem[s.sp..] == s.mem[s.sp..]
  {
    hide HasHandler, IsAlu, ExecAlu, ExecData, ExecJump, ExecControl;
    if IsAlu(i.op) {
      AluFrame(i, s);
    } else if IsData(i.op) {
      PlainData(i, s);
    } else if IsJump(i.op) {
      JumpFrame(i, s);
    } else {
      PlainControl(i, s);
    }
  }

  lemma PlainControl(i: Instruction, s: State)
    requires !IsAlu(i.op) && !IsData(i.op) && !IsJump(i.op) && HasHandler(i.op, i.mode)
    requires i.op != CALL && i.op != RTN && i.op != TRAP && i.op != RST && ExecControl(i, s).Done?
    ensures ExecControl(i, s).next.sp == s.sp && ExecControl(i, s).next.mem == s.mem
  {
    hide HasHandler, ExecUnary;
    if i.op == NEG || i.op == NOT { UnaryFrame(i, s); }
  }

  lemma StoreBelow(m: Memory, addr: nat, v: int64, sp: nat)
    requires addr + 8 <= sp <= MEM_SIZE
    ensures Store64(m, addr, v)[sp..] == m[sp..]
  {
    hide Bytes;
  }

  lemma PlainStore(i: Instruction, s: State)
    requires (i.op == ST || (i.op == SWP && i.mode != REG)) && HasHandler(i.op, i.mode) && IsPlain(i, s)
    requires Exec(i, s).Done? && Exec(i, s).status == VM_OK && s.sp <= MEM_SIZE
    ensures Exec(i, s).next.sp == s.sp && Exec(i, s).next.mem[s.sp..] == s.mem[s.sp..]
  {
    hide Load64, Store64;
    StoreBelow(s.mem, Address(i, s), s.regs[i.a], s.sp);
  }

  lemma PlainFas(i: Instruction, s: State)
    requires i.op == FAS && HasHandler(i.op, i.mode) && IsPlain(i, s)
    requires Exec(i, s).Done? && Exec(i, s).status == VM_OK && s.sp <= MEM_SIZE
    ensures Exec(i, s).next.sp == s.sp && Exec(i, s).next.mem[s.sp..] == s.mem[s.sp..]
  {
    hide Load64, Store64;
    StoreBelow(s.mem, FasTarget(i, Exec(i, s).next.regs), 1, s.sp);
  }

  lemma PlainLoad(i: Instruction, s: State)
    requires (i.op == LD || (i.op == SWP && i.mode == REG)) && HasHandler(i.op, i.mode)
    requires Exec(i, s).Done? && Exec(i, s).status == VM_OK
    ensures Exec(i, s).next.sp == s.sp && Exec(i, s).next.mem == s.mem
  {
    hide Load64;
  }

  lemma PlainData(i: Instruction, s: State)
    requires IsData(i.op) && HasHandler(i.op, i.mode) && IsPlain(i, s)
    requires Exec(i, s).Done? && Exec(i, s).status == VM_OK && s.sp <= MEM_SIZE
    ensures Exec(i, s).next.sp == s.sp && Exec(i, s).next.mem[s.sp..] == s.mem[s.sp..]
  {
    hide Exec, HasHandler;
    if i.op == FAS {
      PlainFas(i, s);
    } else if i.op == ST || (i.op == SWP && i.mode != REG) {
      PlainStore(i, s);
    } else {
      PlainLoad(i, s);
    }
  }

  /** The word PUSH or CALL stores. */
  function Pushed(i: Instruction, s: State): int64
    requires i.op != CALL && i.mode != IMM ==> i.a < N_REG
  {
    if i.op == CALL then ToS(WrapU(s.pc + ModeSize(i.mode))) else if i.mode == IMM then i.arg else s.regs[i.a]
  }

  lemma PushStores(i: Instruction, s: State)
    requires i.op == PUSH && HasHandler(PUSH, i.mode)
    requires ExecPush(i, s).Done? && ExecPush(i, s).status == VM_OK && s.sp <= MEM_SIZE
    ensures s.sp > STACK_BASE && i.a < N_REG
    ensures ExecPush(i, s).next == s.(sp := s.sp - 8, mem := Store64(s.mem, s.sp - 8, Pushed(i, s)))
  {
    hide HasHandler, Store64;
  }

  lemma CallStores(i: Instruction, s: State)
    requires i.op == CALL && HasHandler(CALL, i.mode)
    requires ExecCall(i, s).Done? && ExecCall(i, s).status == VM_OK && s.sp <= MEM_SIZE
    ensures s.sp > STACK_BASE
    ensures ExecCall(i, s).next
            == s.(sp := s.sp - 8, mem := Store64(s.mem, s.sp - 8, Pushed(i, s)), pc := ExecCall(i, s).next.pc)
  {
    hide HasHandler, Store64, Load64;
  }

  lemma OpenerExec(i: Instruction, s: State)
    requires HasHandler(i.op, i.mode)
    ensures i.op == PUSH ==> Exec(i, s) == ExecPush(i, s)
    ensures i.op == CALL ==> Exec(i, s) == ExecCall(i, s)
  {
    hide HasHandler, ExecPush, ExecCall;
  }

  /** PUSH and CALL store one word just below the stack pointer. */
  lemma OpensBelow(i: Instruction, s: State)
    requires HasHandler(i.op, i.mode) && (i.op == PUSH || i.op == CALL) && StackOk(s)
    requires Exec(i, s).Done? && Exec(i, s).status == VM_OK
    ensures var t := Exec(i, s).next;
            && t.sp == s.sp - 8 && StackOk(t) && t.mem[s.sp..] == s.mem[s.sp..]
            && (i.op == CALL ==> Load64(t.mem, t.sp) == ToS(WrapU(s.pc + ModeSize(i.mode))))
  {
    hide Exec, HasHandler, Load64, Store64, StackOk;
    OpenerExec(i, s);
    StackBound(s);
    if i.op == PUSH {
      PushStores(i, s);
    } else {
      CallStores(i, s);
    }
    StoredBelow(s, Exec(i, s).next, Pushed(i, s));
  }

  lemma StackBound(s: State)
    requires StackOk(s)
    ensures s.sp <= MEM_SIZE
  {
  }

  lemma StoredBelow(s: State, t: State, v: int64)
    requires StackOk(s) && s.sp > STACK_BASE && t.sp == s.sp - 8 && t.mem == Store64(s.mem, t.sp, v)
    ensures StackOk(t) && t.mem[s.sp..] == s.mem[s.sp..] && Load64(t.mem, t.sp) == v
  {
    hide Load64, Store64;
    WriteIsLocal(s.mem, t.sp, v);
    ReadAfterWrite(s.mem, t.sp, v);
  }

  lemma CloserExec(i: Instruction, s: State)
    requires HasHandler(i.op, i.mode)
    ensures i.op == POP ==> Exec(i, s) == ExecPop(i.a, s)
    ensures i.op == RTN ==> Exec(i, s) == ExecReturn(s)
  {
    hide HasHandler, ExecPop, ExecReturn;
  }

  /** POP and RTN move the stack pointer back and change no memory. */
  lemma ClosesAbove(i: Instruction, s: State)
    requires HasHandler(i.op, i.mode) && (i.op == POP || i.op == RTN) && StackOk(s)
    requires Exec(i, s).Done? && Exec(i, s).status == VM_OK
    ensures var t := Exec(i, s).next;
            && s.sp + 8 <= MEM_SIZE && t.sp == s.sp + 8 && t.mem == s.mem && StackOk(t)
            && (i.op == RTN ==> t.pc == ToU(Load64(s.mem, s.sp)))
  {
    hide Exec, HasHandler, Load64;
    CloserExec(i, s);
  }

  lemma SameStackTransitive(s: State, t: State, u: State)
    requires SameStack(s, t) && SameStack(t, u)
    ensures SameStack(s, u)
  {
  }

  // Brackets

  lemma PlainStep(s: State)
    requires StackOk(s) && StepPlain(s).Some?
    ensures StackOk(StepPlain(s).value) && SameStack(s, StepPlain(s).value)
  {
    hide Step, FetchInstr, Exec, IsPlain, HasHandler;
    StepCases(s);
    var i := FetchInstr(s.mem, s.pc).instr;
    PlainKeepsStack(i, s);
  }

  /** What StepOn says about the instruction that ran. */
  lemma StepOnIs(op: OpCode, s: State)
    requires StepOn(op, s).Some?
    ensures FetchInstr(s.mem, s.pc).Ready?
    ensures var i := FetchInstr(s.mem, s.pc).instr;
            && i.op == op && HasHandler(i.op, i.mode) && s.pc + ModeSize(i.mode) < DATA_BASE
            && Exec(i, s).Done? && Exec(i, s).status == VM_OK
            && StepOn(op, s).value == Exec(i, s).next.(pc := StepOn(op, s).value.pc)
            && StepOn(op, s).value.pc
               == if Exec(i, s).next.pc == s.pc then s.pc + ModeSize(i.mode) else Exec(i, s).next.pc
  {
    hide Step, FetchInstr, Exec, HasHandler;
    StepCases(s);
  }

  /** Opening a bracket, any stretch that keeps the stack, and closing it again. */
  lemma BracketKeepsStack(open: OpCode, close: OpCode, s: State, a: State, z: State)
    requires (open == PUSH && close == POP) || (open == CALL && close == RTN)
    requires StackOk(s) && StepOn(open, s) == Some(a) && SameStack(a, z) && StepOn(close, z).Some?
    ensures StackOk(a) && StackOk(StepOn(close, z).value) && SameStack(s, StepOn(close, z).value)
    ensures a.sp == s.sp - 8
    ensures open == CALL ==>
              Load64(z.mem, z.sp) == s.pc + ModeSize(FetchInstr(s.mem, s.pc).instr.mode)
  {
    hide Step, StepOn, FetchInstr, Exec, HasHandler, Load64;
    StepOnIs(open, s);
    StepOnIs(close, z);
    OpensBelow(FetchInstr(s.mem, s.pc).instr, s);
    ClosesAbove(FetchInstr(z.mem, z.pc).instr, z);
    var t := StepOn(close, z).value;
    assert t.mem[s.sp..] == z.mem[a.sp..][8..] && a.mem[s.sp..] == a.mem[a.sp..][8..];
    SameTopWord(a, z);
  }

  lemma SameTopWord(a: State, z: State)
    requires SameStack(a, z) && a.sp + 8 <= MEM_SIZE
    ensures Load64(z.mem, z.sp) == Load64(a.mem, a.sp)
  {
    assert z.mem[z.sp..z.sp + 8] == z.mem[a.sp..][..8];
    assert a.mem[a.sp..a.sp + 8] == a.mem[a.sp..][..8];
  }

  /** Every well-bracketed stretch gives the stack back, at any nesting depth. */
  lemma {:induction false} BodyKeepsStack(b: Body, s: State)
    requires StackOk(s) && Follow(b, s).Some?
    ensures StackOk(Follow(b, s).value) && SameStack(s, Follow(b, s).value)
    decreases b, 0
  {
    hide StepOn, StepPlain, StackOk, SameStack, FollowBracket;
    match b
    case Empty => assert SameStack(s, s) by { SameStackRefl(s); }
    case Plain(rest) =>
      PlainStep(s);
      BodyKeepsStack(rest, StepPlain(s).value);
      SameStackTransitive(s, StepPlain(s).value, Follow(b, s).value);
    case PushPop(inner, rest) =>
      BracketBody(PUSH, inner, POP, s);
      var t := FollowBracket(PUSH, inner, POP, s).value;
      BodyKeepsStack(rest, t);
      SameStackTransitive(s, t, Follow(b, s).value);
    case Subroutine(inner, rest) =>
      BracketBody(CALL, inner, RTN, s);
      var t := FollowBracket(CALL, inner, RTN, s).value;
      BodyKeepsStack(rest, t);
      SameStackTransitive(s, t, Follow(b, s).value);
  }

  lemma SameStackRefl(s: State)
    requires StackOk(s)
    ensures SameStack(s, s)
  {
  }

  lemma BracketBody(open: OpCode, inner: Body, close: OpCode, s: State)
    requires (open == PUSH && close == POP) || (open == CALL && close == RTN)
    requires StackOk(s) && FollowBracket(open, inner, close, s).Some?
    ensures StackOk(FollowBracket(open, inner, close, s).value)
    ensures SameStack(s, FollowBracket(open, inner, close, s).value)
    decreases inner, 1
  {
    hide StepOn, StackOk, SameStack;
    var a := StepOn(open, s).value;
    OpenKeepsOk(open, s);
    BodyKeepsStack(inner, a);
    BracketKeepsStack(open, close, s, a, Follow(inner, a).value);
  }

  lemma OpenKeepsOk(open: OpCode, s: State)
    requires (open == PUSH || open == CALL) && StackOk(s) && StepOn(open, s).Some?
    ensures StackOk(StepOn(open, s).value)
  {
    hide Step, StepOn, FetchInstr, Exec, HasHandler, Load64;
    StepOnIs(open, s);
    OpensBelow(FetchInstr(s.mem, s.pc).instr, s);
  }

  /**
   A CALL, a well-bracketed body of any depth, and an RTN: the run resumes at the address after
   the CALL (or, when the RTN sits at that very address, after the RTN), with the stack pointer
   and every stack byte at or above it restored.
   */
  lemma CallReturns(s: State, inner: Body)
    requires StackOk(s) && FollowBracket(CALL, inner, RTN, s).Some?
    ensures FetchInstr(s.mem, s.pc).Ready? && StepOn(CALL, s).Some?
    ensures var t := FollowBracket(CALL, inner, RTN, s).value;
            var resume := s.pc + ModeSize(FetchInstr(s.mem, s.pc).instr.mode);
            var rtn := Follow(inner, StepOn(CALL, s).value).value.pc;
            SameStack(s, t) && t.pc == if rtn == resume then resume + 2 else resume
  {
    hide Step, StepOn, FetchInstr, Exec, StackOk, SameStack, HasHandler, Load64;
    var a := StepOn(CALL, s).value;
    var z := Follow(inner, a).value;
    StepOnIs(CALL, s);
    StepOnIs(RTN, z);
    OpenKeepsOk(CALL, s);
    BodyKeepsStack(inner, a);
    BracketKeepsStack(CALL, RTN, s, a, z);
    ClosesAbove(FetchInstr(z.mem, z.pc).instr, z);
    ReturnHasNoOperand(RTN, FetchInstr(z.mem, z.pc).instr.mode);
  }
}
