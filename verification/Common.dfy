/**
 The machine's constants and the error codes every runtime function returns.
 */
module Common {

  const MEM_SIZE: nat := 2048
  const STACK_BASE: nat := 1536
  const HEAP_BASE: nat := 1280
  const DATA_BASE: nat := 1024
  const N_REG: nat := 2

  datatype VMError =
    | VM_OK
    | VM_DIV_ZERO
    | VM_INSTR_PRIV
    | VM_INSTR_TRAP
    | VM_ILL_MEM_ACCESS
    | VM_ILL_REGISTER
    | VM_STACK_UNDERFLOW
    | VM_STACK_OVERFLOW
    | VM_INVALID_JMP
    | VM_CODE_LOAD_OUT_OF_BOUNDS
    | VM_DATA_LOAD_OUT_OF_BOUNDS
    | VM_INVALID_EXECUTION_ADDRESS
    | VM_TRUNCATED_INSTR
    | VM_UNKNOWN_INSTR
    | VM_UNKNOWN_SYSCALL
    | VM_OUT_OF_THE_HEAP
    | VM_HEAP_OUT_OF_MEMORY
    | VM_MEM_ALREADY_FREE
    | VM_FREE_OUT_OF_THE_HEAP

  datatype Option<+T> = None | Some(value: T)

  /** A slice inside a prefix of s is that slice of the prefix. */
  lemma SliceOfPrefix<T>(s: seq<T>, t: seq<T>, from: nat, to: nat)
    requires |t| <= |s| && s[..|t|] == t && from <= to <= |t|
    ensures s[from..to] == t[from..to]
  {
    assert s[..|t|][from..to] == s[from..to];
  }
}
