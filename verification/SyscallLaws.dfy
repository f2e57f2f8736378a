/**
 What TRAP does, by the number in R0: EXIT stops, MALLOC hands out a range, FREE takes one back,
 MEMSET fills one. Stated of Exec, on the words the calls find on the stack.
 */
module SyscallLaws {
  import opened Common
  import opened Words
  import opened Isa
  import opened Heap
  import opened HeapLaws
  import opened Machine

  /** i is a TRAP and R0, as a C int, is the number of a syscall. */
  ghost predicate Traps(i: Instruction, s: State, id: int) {
    i.op == TRAP && i.mode == NONE && s.regs[0] % 0x1_0000_0000 == id && 0 <= id < 32
  }

  /** The machine after R0 has received the word at sp. */
  ghost function Popped(s: State): State
    requires s.sp + 8 <= MEM_SIZE
  {
    hide Load64;
    s.(regs := [Load64(s.mem, s.sp), s.regs[1]], sp := s.sp + 8)
  }

  lemma TrapIs(i: Instruction, s: State, id: int)
    requires Traps(i, s, id)
    ensures HasHandler(i.op, i.mode) && Exec(i, s) == ExecTrap(s) && ToInt32(s.regs[0]) == id
  {
    hide ExecTrap, ToInt32, Exec, HasHandler;
    TrapRule(i, s);
    AsInt32(s.regs[0]);
  }

  lemma TrapRule(i: Instruction, s: State)
    requires i.op == TRAP && i.mode == NONE
    ensures HasHandler(i.op, i.mode) && Exec(i, s) == ExecTrap(s)
  {
    hide ExecTrap, ExecAlu, ExecData, ExecJump, ExecControl, HasHandler, IsAlu, IsData, IsJump;
    TrapClass();
    ControlTrap(i, s);
  }

  lemma TrapClass()
    ensures HasHandler(TRAP, NONE) && !IsAlu(TRAP) && !IsData(TRAP) && !IsJump(TRAP)
  {
  }

  lemma ControlTrap(i: Instruction, s: State)
    requires i.op == TRAP && HasHandler(i.op, i.mode) && !IsAlu(i.op) && !IsData(i.op) && !IsJump(i.op)
    ensures ExecControl(i, s) == ExecTrap(s)
  {
    hide ExecTrap, ExecUnary, ExecCall, ExecReturn, Initial, HasHandler, IsAlu, IsData, IsJump;
  }

  lemma AsInt32(x: int64)
    ensures var low := x % 0x1_0000_0000;
            if low < 0x8000_0000 then ToInt32(x) == low else ToInt32(x) < 0
  {
    hide ToU;
    LowWord(x);
  }

  lemma LowWord(x: int64)
    ensures ToU(x) % 0x1_0000_0000 == x % 0x1_0000_0000
  {
  }

  /** Numbers without a function: 2 and everything from 17 on; the rest but 9 to 12 are the host's. */
  lemma TrapTable(i: Instruction, s: State, id: int)
    requires Traps(i, s, id)
    ensures HasHandler(i.op, i.mode)
    ensures id == 2 || id >= 17 ==> Exec(i, s) == Done(VM_UNKNOWN_SYSCALL, s)
    ensures id in {0, 1, 3, 4, 5, 6, 7, 8, 13, 14, 15, 16} ==> Exec(i, s) == Stuck(ForeignCall)
  {
    hide Exec, HasHandler, ToInt32, SysExit, SysMalloc, SysFree, SysMemset;
    TrapIs(i, s, id);
  }

  /** Any other value of R0 indexes outside the table. */
  lemma TrapOutside(i: Instruction, s: State)
    requires i.op == TRAP && i.mode == NONE && s.regs[0] % 0x1_0000_0000 >= 32
    ensures Exec(i, s) == Stuck(UndefinedBehaviour)
  {
    hide Exec, HasHandler, ToInt32, SysExit, SysMalloc, SysFree, SysMemset;
    TrapRule(i, s);
    AsInt32(s.regs[0]);
  }

  lemma PopIs(s: State)
    ensures s.sp >= MEM_SIZE ==> ExecPop(0, s) == Done(VM_STACK_UNDERFLOW, s)
    ensures MEM_SIZE - 8 < s.sp < MEM_SIZE ==> ExecPop(0, s) == Done(VM_ILL_MEM_ACCESS, s)
    ensures s.sp + 8 <= MEM_SIZE ==> ExecPop(0, s) == Done(VM_OK, Popped(s))
  {
    hide Load64;
    if s.sp + 8 <= MEM_SIZE {
      assert s.regs[0 := Load64(s.mem, s.sp)] == [Load64(s.mem, s.sp), s.regs[1]];
    }
  }

  /** Which function each of the four numbers selects. */
  lemma TrapFour(i: Instruction, s: State, id: int)
    requires Traps(i, s, id) && 9 <= id <= 12
    ensures HasHandler(i.op, i.mode)
    ensures Exec(i, s) == if id == 9 then SysExit(s) else if id == 10 then SysMalloc(s)
                          else if id == 11 then SysFree(s) else SysMemset(s)
  {
    hide Exec, HasHandler, ToInt32, SysExit, SysMalloc, SysFree, SysMemset;
    TrapIs(i, s, id);
  }

  /** Without a word on the stack none of the four does anything. */
  lemma NothingToPop(i: Instruction, s: State, id: int)
    requires Traps(i, s, id) && 9 <= id <= 12 && s.sp + 8 > MEM_SIZE
    ensures HasHandler(i.op, i.mode)
    ensures Exec(i, s) == Done(if s.sp >= MEM_SIZE then VM_STACK_UNDERFLOW else VM_ILL_MEM_ACCESS, s)
  {
    hide Exec, HasHandler, ExecPop, Alloc, Free, FillHeap;
    TrapFour(i, s, id);
    PopIs(s);
  }

  /** EXIT (9) pops the exit code into R0 and stops the machine. */
  lemma ExitEffect(i: Instruction, s: State)
    requires Traps(i, s, 9) && s.sp + 8 <= MEM_SIZE
    ensures HasHandler(i.op, i.mode)
    ensures Exec(i, s) == Done(VM_OK, Popped(s).(running := false))
  {
    hide Exec, HasHandler, ExecPop, Popped;
    TrapFour(i, s, 9);
    PopIs(s);
  }

  /** Some free block holds n bytes. */
  ghost predicate HasSpace(h: seq<Block>, n: int) {
    exists k :: 0 <= k < |h| && h[k].free && h[k].size >= n
  }

  /** No live block shares a byte with [addr, addr + n), and no free block of n bytes begins before addr. */
  ghost predicate LowestFreeRange(h: seq<Block>, addr: int, n: int) {
    && (forall j :: 0 <= j < |h| && !h[j].free ==> h[j].begin + h[j].size <= addr || addr + n <= h[j].begin)
    && (forall j :: 0 <= j < |h| && h[j].free && h[j].size >= n ==> addr <= h[j].begin)
  }

  lemma AllocatedRange(h: seq<Block>, n: uint64)
    requires Tiled(h) && Alloc(h, n).Allocated?
    ensures LowestFreeRange(h, Alloc(h, n).addr, n)
  {
    hide Tiled, Split;
    var k := FirstFit(h, n);
    forall j | 0 <= j < |h|
      ensures !h[j].free ==> h[j].begin + h[j].size <= h[k].begin || h[k].begin + n <= h[j].begin
      ensures h[j].free && h[j].size >= n ==> h[k].begin <= h[j].begin
    {
      if j < k { TiledOrder(h, j, k); } else { TiledOrder(h, k, j); }
    }
  }

  /**
   A popped size n: with a free block of n bytes, R0 is the address of a range of n bytes in the heap
   that no live block overlapped, the lowest one a free block begins at, and that range is live from
   then on; without one the call fails and the heap stays. Nothing else changes.
   */
  ghost predicate HandsOut(s: State, n: int, o: Outcome) {
    && o.Done? && s.sp + 8 < TWO64
    && o.next == s.(regs := [o.next.regs[0], s.regs[1]], sp := s.sp + 8, heap := o.next.heap)
    && if HasSpace(s.heap, n) then
         var addr := o.next.regs[0] % TWO64;
         && o.status == VM_OK
         && HEAP_BASE <= addr && addr + n <= STACK_BASE && LowestFreeRange(s.heap, addr, n)
         && Tiled(o.next.heap) && FreeBytes(o.next.heap) == FreeBytes(s.heap) - n
         && exists size: uint64 :: size == n && Live(o.next.heap) == Live(s.heap) + multiset{(addr, size)}
       else
         o.status == VM_HEAP_OUT_OF_MEMORY && o.next.heap == s.heap
  }

  /** MALLOC (10), on the size it pops. */
  lemma MallocEffect(i: Instruction, s: State)
    requires Traps(i, s, 10) && s.sp + 8 <= MEM_SIZE && Tiled(s.heap)
    ensures HasHandler(i.op, i.mode) && HandsOut(s, Load64(s.mem, s.sp) % TWO64, Exec(i, s))
  {
    hide Exec, HasHandler, ExecPop, Load64, Alloc, Live, FreeBytes, Tiled, LowestFreeRange, ToU;
    TrapFour(i, s, 10);
    PopIs(s);
    var n := ToU(Load64(s.mem, s.sp));
    Unsigned(Load64(s.mem, s.sp));
    AllocLaw(s.heap, n);
    SpaceIsFit(s.heap, n);
    if Alloc(s.heap, n).Allocated? {
      AllocatedRange(s.heap, n);
      Unsigned(ToS(Alloc(s.heap, n).addr));
    }
  }

  lemma Unsigned(x: int64)
    ensures ToU(x) == x % TWO64
  {
  }

  lemma SpaceIsFit(h: seq<Block>, n: uint64)
    ensures HasSpace(h, n) <==> exists k :: 0 <= k < |h| && Fits(h[k], n)
  {
    if HasSpace(h, n) {
      var k :| 0 <= k < |h| && h[k].free && h[k].size >= n;
      assert Fits(h[k], n);
    }
  }

  /**
   FREE (11) pops an address into R0. Outside the heap, or where no block begins, it fails and the heap
   stays. Otherwise the first block k that begins there is free afterwards: exactly its bytes leave the
   live ones, if it was live. Nothing else changes.
   */
  lemma FreeEffect(i: Instruction, s: State, addr: int)
    requires Traps(i, s, 11) && s.sp + 8 <= MEM_SIZE && Tiled(s.heap)
    requires addr == Load64(s.mem, s.sp) % TWO64
    ensures HasHandler(i.op, i.mode) && Exec(i, s).Done?
    ensures Exec(i, s).next == Popped(s).(heap := Exec(i, s).next.heap)
    ensures !(HEAP_BASE <= addr < STACK_BASE) ==>
              Exec(i, s).status == VM_FREE_OUT_OF_THE_HEAP && Exec(i, s).next.heap == s.heap
    ensures HEAP_BASE <= addr < STACK_BASE && (forall k :: 0 <= k < |s.heap| ==> s.heap[k].begin != addr) ==>
              Exec(i, s).status == VM_MEM_ALREADY_FREE && Exec(i, s).next.heap == s.heap
    ensures forall k :: 0 <= k < |s.heap| && BeginsFirst(s.heap, k, addr) && HEAP_BASE <= addr < STACK_BASE ==>
              && Exec(i, s).status == VM_OK && Tiled(Exec(i, s).next.heap)
              && Live(s.heap) == Live(Exec(i, s).next.heap)
                                 + (if s.heap[k].free then multiset{} else multiset{(addr, s.heap[k].size)})
              && FreeBytes(Exec(i, s).next.heap)
                 == FreeBytes(s.heap) + (if s.heap[k].free then 0 else s.heap[k].size)
  {
    hide Exec, HasHandler, ExecPop, Load64, Free, Live, FreeBytes, Tiled, BeginsFirst;
    TrapFour(i, s, 11);
    PopIs(s);
    FreeRefused(s.heap, addr);
    forall k | 0 <= k < |s.heap| && BeginsFirst(s.heap, k, addr) && HEAP_BASE <= addr < STACK_BASE
      ensures Free(s.heap, addr).status == VM_OK && Tiled(Free(s.heap, addr).heap)
      ensures Live(s.heap) == Live(Free(s.heap, addr).heap)
                              + (if s.heap[k].free then multiset{} else multiset{(addr, s.heap[k].size)})
      ensures FreeBytes(Free(s.heap, addr).heap)
              == FreeBytes(s.heap) + (if s.heap[k].free then 0 else s.heap[k].size)
    {
      FreeReleases(s.heap, k, addr);
    }
  }

  /** Block k is the first one that begins at addr. */
  ghost predicate BeginsFirst(h: seq<Block>, k: nat, addr: int)
    requires k < |h|
  {
    h[k].begin == addr && forall j :: 0 <= j < k ==> h[j].begin != addr
  }

  lemma FreeRefused(h: seq<Block>, addr: uint64)
    ensures !(HEAP_BASE <= addr < STACK_BASE) ==> Free(h, addr) == Freeing(VM_FREE_OUT_OF_THE_HEAP, h)
    ensures HEAP_BASE <= addr < STACK_BASE && (forall k :: 0 <= k < |h| ==> h[k].begin != addr)
            ==> Free(h, addr) == Freeing(VM_MEM_ALREADY_FREE, h)
  {
    hide FirstAt, Release;
  }

  lemma FreeReleases(h: seq<Block>, k: nat, addr: uint64)
    requires Tiled(h) && k < |h| && BeginsFirst(h, k, addr) && HEAP_BASE <= addr < STACK_BASE
    ensures var f := Free(h, addr);
            && f.status == VM_OK && Tiled(f.heap)
            && Live(h) == Live(f.heap) + (if h[k].free then multiset{} else multiset{(addr, h[k].size)})
            && FreeBytes(f.heap) == FreeBytes(h) + (if h[k].free then 0 else h[k].size)
  {
    hide Tiled, Live, FreeBytes, Release, FirstAt;
    assert FirstAt(h, addr) == k;
    ReleaseKeepsTiling(h, k);
    ReleaseSums(h, k);
  }

  /** The three words at the top of the stack. */
  ghost predicate OnStack(s: State, first: int64, second: int64, third: int64) {
    hide Load64;
    && s.sp + 24 <= MEM_SIZE && Load64(s.mem, s.sp) == first
    && Load64(s.mem, s.sp + 8) == second && Load64(s.mem, s.sp + 16) == third
  }

  /** The machine when MEMSET has popped its three words: the last one is in R0. */
  ghost function ThreePopped(s: State, third: int64): State
    requires s.sp + 24 <= MEM_SIZE
  {
    s.(regs := [third, s.regs[1]], sp := s.sp + 24)
  }

  lemma MemsetPops(i: Instruction, s: State, first: int64, second: int64, third: int64)
    requires Traps(i, s, 12) && OnStack(s, first, second, third)
    ensures HasHandler(i.op, i.mode)
    ensures Exec(i, s) == FillHeap(ThreePopped(s, third), first % TWO64, second % 256, third % TWO64)
  {
    hide Exec, HasHandler, ExecPop, Load64, FillHeap, ToU;
    TrapFour(i, s, 12);
    PopIs(s);
    PopIs(Popped(s));
    PopIs(Popped(Popped(s)));
    LowByte(second);
    Unsigned(first);
    Unsigned(third);
  }

  /** The range [addr, addr + size) is set to the value's low byte and R0 is 0; nothing else changes. */
  ghost predicate Fills(s: State, addr: int, value: int, size: int, o: Outcome) {
    && s.sp + 24 < TWO64 && o.Done? && o.status == VM_OK
    && o.next == s.(regs := [0, s.regs[1]], sp := s.sp + 24, mem := o.next.mem)
    && forall k :: 0 <= k < MEM_SIZE ==>
         o.next.mem[k] == if addr <= k < addr + size then value % 256 else s.mem[k]
  }

  /**
   MEMSET (12) pops an address, a value and a size, in this order, and fills a range that starts in the
   heap or the stack and ends before the last byte of memory.
   */
  lemma MemsetEffect(i: Instruction, s: State, addr: int64, value: int64, size: int64)
    requires Traps(i, s, 12) && OnStack(s, addr, value, size)
    requires HEAP_BASE <= addr && size >= 0 && addr + size < MEM_SIZE
    ensures HasHandler(i.op, i.mode) && Fills(s, addr, value, size, Exec(i, s))
  {
    hide Exec, HasHandler, OnStack;
    MemsetPops(i, s, addr, value, size);
    assert addr % TWO64 == addr && size % TWO64 == size;
  }

  /**
   Any other range is refused, after the three words have been popped, unless the sum of address and
   size wraps around to a small number: then the guard lets it pass and the fill leaves the memory.
   */
  lemma MemsetRefused(i: Instruction, s: State, addr: int64, value: int64, size: int64)
    requires Traps(i, s, 12) && OnStack(s, addr, value, size)
    requires var from, n := addr % TWO64, size % TWO64; from < HEAP_BASE || from + n >= MEM_SIZE
    ensures HasHandler(i.op, i.mode)
    ensures var from, n := addr % TWO64, size % TWO64;
            Exec(i, s) == if from >= HEAP_BASE && TWO64 <= from + n < TWO64 + MEM_SIZE then Stuck(UndefinedBehaviour)
                          else Done(VM_ILL_MEM_ACCESS, ThreePopped(s, size))
  {
    hide Exec, HasHandler, OnStack, Fill, WrapU;
    MemsetPops(i, s, addr, value, size);
    WrappedSum(addr % TWO64, size % TWO64);
  }

  lemma LowByte(x: int64)
    ensures ToU(x) % 256 == x % 256
  {
  }

  lemma WrappedSum(a: uint64, b: uint64)
    ensures WrapU(a + b) == if a + b >= TWO64 then a + b - TWO64 else a + b
  {
  }

  /** With one or two words on the stack MEMSET stops where they run out, having popped them. */
  lemma MemsetRunsOut(i: Instruction, s: State)
    requires Traps(i, s, 12) && s.sp + 8 <= MEM_SIZE < s.sp + 24
    ensures HasHandler(i.op, i.mode)
    ensures var t := if s.sp + 16 > MEM_SIZE then Popped(s) else Popped(Popped(s));
            Exec(i, s) == Done(if t.sp == MEM_SIZE then VM_STACK_UNDERFLOW else VM_ILL_MEM_ACCESS, t)
  {
    hide Exec, HasHandler, ExecPop, Load64, FillHeap;
    TrapFour(i, s, 12);
    PopIs(s);
    PopIs(Popped(s));
    if s.sp + 16 <= MEM_SIZE { PopIs(Popped(Popped(s))); }
  }
}
