/**
 Byte-level laws of the 64-bit memory operations, and the swap instruction as an involution.
 */
module MemoryLaws {
  import opened Common
  import opened Words
  import opened Isa
  import opened Machine

  /** A read at the address of a write returns the written value, for every int64. */
  lemma ReadAfterWrite(m: Memory, addr: nat, v: int64)
    requires addr + 8 <= MEM_SIZE
    ensures Load64(Store64(m, addr, v), addr) == v
  {
    Pow2Words();
    assert Store64(m, addr, v)[addr..addr + 8] == Bytes(ToU(v), 8);
    BytesRoundTrip(ToU(v), 8);
  }

  /** A write changes the eight bytes at its address and no other byte. */
  lemma WriteIsLocal(m: Memory, addr: nat, v: int64)
    requires addr + 8 <= MEM_SIZE
    ensures Store64(m, addr, v)[..addr] == m[..addr]
    ensures Store64(m, addr, v)[addr..addr + 8] == Bytes(ToU(v), 8)
    ensures Store64(m, addr, v)[addr + 8..] == m[addr + 8..]
  {
  }

  /** Reads that do not overlap a write are unaffected by it. */
  lemma DisjointRead(m: Memory, a: nat, b: nat, v: int64)
    requires a + 8 <= MEM_SIZE && b + 8 <= MEM_SIZE && (a + 8 <= b || b + 8 <= a)
    ensures Load64(Store64(m, a, v), b) == Load64(m, b)
  {
    assert Store64(m, a, v)[b..b + 8] == m[b..b + 8];
  }

  /** Writing back what was read changes nothing. */
  lemma WriteBack(m: Memory, addr: nat)
    requires addr + 8 <= MEM_SIZE
    ensures Store64(m, addr, Load64(m, addr)) == m
  {
    Pow2Words();
    LittleEndianRoundTrip(m[addr..addr + 8]);
    assert m == m[..addr] + m[addr..addr + 8] + m[addr + 8..];
  }

  /** The later of two writes to one address wins. */
  lemma WriteTwice(m: Memory, addr: nat, v: int64, w: int64)
    requires addr + 8 <= MEM_SIZE
    ensures Store64(Store64(m, addr, v), addr, w) == Store64(m, addr, w)
  {
  }

  /** Writes to separate addresses commute. */
  lemma WritesCommute(m: Memory, a: nat, b: nat, v: int64, w: int64)
    requires a + 8 <= b && b + 8 <= MEM_SIZE
    ensures Store64(Store64(m, a, v), b, w) == Store64(Store64(m, b, w), a, v)
  {
    hide Bytes;
    assert Store64(Store64(m, a, v), b, w) == m[..a] + Bytes(ToU(v), 8) + m[a + 8..b] + Bytes(ToU(w), 8) + m[b + 8..];
  }

  /** The register is recovered from an address computed with it. */
  lemma OffsetIsInjective(a: int64, b: int64, offset: int64)
    ensures ToU(Add64(a, offset)) == ToU(Add64(b, offset)) <==> a == b
  {
    hide Wrap;
    WrapOnce(a + offset);
    WrapOnce(b + offset);
  }

  /**
   Executing one SWP twice restores the whole machine whenever the second execution names the
   address the first one did: with a memory operand, exactly when the address register is not the
   swapped one or the word it received is the one it held.
   */
  lemma SwapTwice(i: Instruction, s: State)
    requires i.op == SWP && HasHandler(SWP, i.mode)
    requires Exec(i, s).Done? && Exec(i, s).status == VM_OK
    ensures i.mode == REG ==> Exec(i, Exec(i, s).next) == Done(VM_OK, s)
    ensures i.mode != REG && Address(i, Exec(i, s).next) == Address(i, s) ==> Exec(i, Exec(i, s).next) == Done(VM_OK, s)
  {
    hide LittleEndian, Bytes, Load64, Store64;
    var t := Exec(i, s).next;
    if i.mode == REG {
      assert t.regs[i.a := t.regs[i.b]][i.b := t.regs[i.a]] == s.regs;
    } else {
      var addr := Address(i, s);
      ReadAfterWrite(s.mem, addr, s.regs[i.a]);
      WriteTwice(s.mem, addr, s.regs[i.a], Load64(s.mem, addr));
      WriteBack(s.mem, addr);
      assert t.regs[i.a := s.regs[i.a]] == s.regs;
    }
  }

  /** When the second execution names the same address. */
  lemma SwapAddressStays(i: Instruction, s: State)
    requires i.op == SWP && HasHandler(SWP, i.mode) && i.mode != REG
    requires Exec(i, s).Done? && Exec(i, s).status == VM_OK
    ensures Address(i, Exec(i, s).next) == Address(i, s)
            <==> i.mode == DIR || i.a != i.b || Load64(s.mem, Address(i, s)) == s.regs[i.b]
  {
    hide Load64, Store64, Add64;
    if i.mode == IDX {
      OffsetIsInjective(Exec(i, s).next.regs[i.b], s.regs[i.b], i.arg);
    }
  }
}
