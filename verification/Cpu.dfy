/**
 The fetch-decode-execute step and the run loop.
 */
module Cpu {
  import opened Common
  import opened Words
  import opened Isa
  import opened Machine
  import opened Vm
  import opened Codec
  import opened Dispatch

  /** What the decoder makes of the bytes at pc. One byte less than the code segment is offered. */
  function FetchDecode(m: Memory, pc: uint64): Decoding
    requires pc < DATA_BASE
  {
    Decode(m, pc, DATA_BASE - pc - 1)
  }

  datatype Fetched = Ready(instr: Instruction) | Fails(status: VMError) | Breaks(why: Reason)

  /** The instruction cpu_step is about to run, or why there is none. */
  function FetchInstr(m: Memory, pc: uint64): Fetched {
    if pc >= DATA_BASE then Fails(VM_INVALID_EXECUTION_ADDRESS)
    else
      match FetchDecode(m, pc)
      case Exits => Breaks(ProcessExit)
      case BadMode => Breaks(UndefinedBehaviour)
      case Got(consumed, instr) =>
        if consumed != ModeSize(instr.mode) then Fails(VM_TRUNCATED_INSTR)
        else if !HasHandler(instr.op, instr.mode) then Fails(VM_UNKNOWN_INSTR)
        else Ready(instr)
  }

  /** A handler that succeeds and leaves pc where it was falls through to the next instruction. */
  function Advance(i: Instruction, pc: uint64, o: Outcome): Outcome {
    match o
    case Stuck(why) => Stuck(why)
    case Done(status, s) =>
      Done(status, if status == VM_OK && s.pc == pc then s.(pc := WrapU(pc + ModeSize(i.mode))) else s)
  }

  function Step(s: State): Outcome {
    match FetchInstr(s.mem, s.pc)
    case Breaks(why) => Stuck(why)
    case Fails(e) => Done(e, s)
    case Ready(i) => Advance(i, s.pc, RunHandler(i, s))
  }

  function RunHandler(i: Instruction, s: State): Outcome {
    hide Exec, HasHandler;
    if HasHandler(i.op, i.mode) then Exec(i, s) else Done(VM_UNKNOWN_INSTR, s)
  }

  /** A step that fetches i runs its handler and advances. */
  lemma StepOf(s: State, i: Instruction)
    requires FetchInstr(s.mem, s.pc) == Ready(i)
    ensures s.pc + ModeSize(i.mode) < DATA_BASE && HasHandler(i.op, i.mode)
    ensures Step(s) == Advance(i, s.pc, Exec(i, s))
  {
    hide Exec, HasHandler, DecodeFields;
  }

  /**
   Why a step runs nothing. The decoder is offered one byte less than there is up to the data segment,
   and once it has read two bytes it asks for the whole length again.
   */
  lemma StepRefused(s: State)
    ensures s.pc >= DATA_BASE ==> Step(s) == Done(VM_INVALID_EXECUTION_ADDRESS, s)
    ensures DATA_BASE - 3 < s.pc < DATA_BASE ==> Step(s) == Done(VM_TRUNCATED_INSTR, s)
    ensures s.pc <= DATA_BASE - 3 && s.mem[s.pc] >= 31 ==> Step(s) == Stuck(ProcessExit)
    ensures s.pc <= DATA_BASE - 3 && s.mem[s.pc] < 31 ==>
              var code := s.mem[s.pc + 1];
              && (code >= 7 ==> Step(s) == Stuck(UndefinedBehaviour))
              && (1 <= code < 7 && s.pc + ModeSize(MODES[code]) > DATA_BASE - 3 ==>
                    Step(s) == Done(VM_TRUNCATED_INSTR, s))
              && (code == 0 && !HasHandler(OPS[s.mem[s.pc]], NONE) ==> Step(s) == Done(VM_UNKNOWN_INSTR, s))
              && (1 <= code < 7 && s.pc + ModeSize(MODES[code]) <= DATA_BASE - 3 ==>
                    HasHandler(OPS[s.mem[s.pc]], MODES[code]) || Step(s) == Done(VM_UNKNOWN_INSTR, s))
  {
    hide Exec, HasHandler, OrArg;
  }

  /** The run loop, cut off after n cycles. */
  function Run(s: State, n: nat): Outcome
    decreases n
  {
    hide Step;
    if n == 0 then Done(VM_OK, s)
    else
      match Step(s)
      case Stuck(why) => Stuck(why)
      case Done(status, s') => if status == VM_OK && s'.running then Run(s', n - 1) else Done(status, s')
  }

  /** The run has come to an end: a failed or undefined step, or a machine that has stopped. */
  predicate Ended(o: Outcome) {
    o.Stuck? || o.status != VM_OK || !o.next.running
  }

  /** Once a run has ended it stays as it is, however many more cycles it is given; else it goes on from there. */
  lemma {:induction false} RunGoesOn(s: State, k: nat, n: nat)
    requires s.running
    ensures Run(s, k + n) == if Ended(Run(s, k)) then Run(s, k) else Run(Run(s, k).next, n)
    decreases k
  {
    hide Step;
    if k > 0 && Step(s).Done? && Step(s).status == VM_OK && Step(s).next.running {
      RunGoesOn(Step(s).next, k - 1, n);
      assert Run(s, k) == Run(Step(s).next, k - 1);
      assert Run(s, k + n) == Run(Step(s).next, k - 1 + n);
    }
  }

  /** One cycle. Control can leave the machine: the decoder's exit, or a syscall of the host. */
  method CpuStep(vm: VM) returns (ending: Ending)
    requires vm.Valid() && Step(vm.View()) != Stuck(UndefinedBehaviour)
    modifies vm, vm.registers, vm.memory, vm.nodes
    ensures vm.Valid() && Step(old(vm.View())) == Observed(ending, vm.View())
    ensures ending.Departs? ==> vm.View() == old(vm.View())
    ensures vm.NodesKnown()
  {
    hide Exec, HasHandler, Chain, Records, DecodeFields;
    if vm.pc >= DATA_BASE {
      return Status(VM_INVALID_EXECUTION_ADDRESS);
    }
    var decoding := InstructionDecode(ZEROED, vm.memory, vm.pc, DATA_BASE - vm.pc - 1);
    if decoding.Exits? {
      return Departs(ProcessExit);
    }
    var consumed, instr := decoding.consumed, decoding.instr;
    if consumed != ModeSize(instr.mode) {
      return Status(VM_TRUNCATED_INSTR);
    }
    var oldPc := vm.pc;
    if !HasHandler(instr.op, instr.mode) {
      return Status(VM_UNKNOWN_INSTR);
    }
    ending := CallHandler(vm, instr);
    if ending == Status(VM_OK) && vm.pc == oldPc {
      vm.pc := WrapU(vm.pc + consumed);
    }
  }

  /** vm_run, which may loop for ever, stopped after `limit` cycles. */
  method VmRun(vm: VM, limit: nat) returns (ending: Ending)
    requires vm.Valid() && Run(vm.View(), limit) != Stuck(UndefinedBehaviour)
    modifies vm, vm.registers, vm.memory, vm.nodes
    ensures vm.Valid() && Run(old(vm.View()), limit) == Observed(ending, vm.View())
  {
    hide Step, Chain, Records;
    var cycle := 0;
    ending := Status(VM_OK);
    while cycle < limit
      invariant 0 <= cycle <= limit && ending == Status(VM_OK) && vm.Valid()
      invariant vm.NodesKnown()
      invariant Run(vm.View(), limit - cycle) == Run(old(vm.View()), limit)
    {
      ending := CpuStep(vm);
      if ending != Status(VM_OK) || !vm.running {
        return ending;
      }
      cycle := cycle + 1;
    }
  }
}
