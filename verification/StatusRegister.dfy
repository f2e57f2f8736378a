/**
 The flag rules of the arithmetic handlers: each setter's bit manipulation is proved to record
 a fact of exact integer arithmetic, and to leave bits 4 and up of SR alone.
 */
module StatusRegister {
  import opened Words
  import opened Machine
  import opened Vm

  /** (x >> 63) as a C condition */
  predicate SignShifted(x: int64) {
    Asr(x, 63) != 0
  }

  /** x & 1 as a C condition */
  predicate LowBit(x: int) {
    x % 2 == 1
  }

  lemma SignBit(x: int64)
    ensures Asr(x, 63) == if x < 0 then -1 else 0
    ensures SignShifted(x) <==> x < 0
    ensures LowBit(Asr(x, 63)) <==> x < 0
  {
    Pow2Words();
  }

  /** The sign of ~(a ^ b) & (a ^ res): operands agree in sign, the result does not. */
  lemma AddMaskSign(a: int64, b: int64, res: int64)
    ensures SignShifted(AddMask(a, b, res)) <==> ((a < 0) == (b < 0)) && ((a < 0) != (res < 0))
  {
    var x, y := Bitwise64(Xor, a, b), Bitwise64(Xor, a, res);
    SignOfBitwise(Xor, a, b);
    SignOfBitwise(Xor, x, -1);
    SignOfBitwise(Xor, a, res);
    SignOfBitwise(And, Not64(x), y);
    SignBit(AddMask(a, b, res));
  }

  function AddMask(a: int64, b: int64, res: int64): int64 {
    Bitwise64(And, Not64(Bitwise64(Xor, a, b)), Bitwise64(Xor, a, res))
  }

  /** The sign of (a ^ b) & (a ^ res): operands differ in sign, and so do a and the result. */
  lemma SubMaskSign(a: int64, b: int64, res: int64)
    ensures SignShifted(SubMask(a, b, res)) <==> ((a < 0) != (b < 0)) && ((a < 0) != (res < 0))
  {
    var x, y := Bitwise64(Xor, a, b), Bitwise64(Xor, a, res);
    SignOfBitwise(Xor, a, b);
    SignOfBitwise(Xor, a, res);
    SignOfBitwise(And, x, y);
    SignBit(SubMask(a, b, res));
  }

  function SubMask(a: int64, b: int64, res: int64): int64 {
    Bitwise64(And, Bitwise64(Xor, a, b), Bitwise64(Xor, a, res))
  }

  /** The overflow mask of an addition is negative exactly when a + b does not fit. */
  lemma AddOverflow(a: int64, b: int64)
    ensures SignShifted(AddMask(a, b, Wrap(a + b))) <==> !Representable(a + b)
  {
    hide SignShifted, AddMask, Wrap;
    var res := Wrap(a + b);
    WrapOnce(a + b);
    AddMaskSign(a, b, res);
    assert ((a < 0) == (b < 0)) && ((a < 0) != (res < 0)) <==> !Representable(a + b);
  }

  /** The overflow mask of a subtraction is negative exactly when a - b does not fit. */
  lemma SubOverflow(a: int64, b: int64)
    ensures SignShifted(SubMask(a, b, Wrap(a - b))) <==> !Representable(a - b)
  {
    hide SignShifted, SubMask, Wrap;
    var res := Wrap(a - b);
    WrapOnce(a - b);
    SubMaskSign(a, b, res);
    assert ((a < 0) != (b < 0)) && ((a < 0) != (res < 0)) <==> !Representable(a - b);
  }

  /** Bit 64 of a * 2^n is bit 64 - n of a. */
  lemma ShiftedOut(a: int64, n: nat)
    requires 1 <= n <= 63
    ensures Asr(a, 64 - n) == (a * Pow2(n)) / TWO64
  {
    var p, q := Pow2(n), Pow2(64 - n);
    Pow2Words();
    Pow2Add(n, 64 - n);
    CancelFactor(a, p, q);
  }

  lemma CancelFactor(a: int, p: int, q: int)
    requires p > 0 && q > 0
    ensures p * q > 0 && (a * p) / (p * q) == a / q
  {
    DivDiv(a * p, p, q);
    DivUnique(a * p, p, a, 0);
  }

  /** SR is determined by its four flags and its high bits. */
  lemma FlagsDetermine(sr: bv8, before: bv8, f: Flags)
    requires FlagsOf(sr) == f && sr & 0xF0 == before & 0xF0
    ensures sr == WithFlags(before, f)
  {
  }

  method ClearFlags(vm: VM)
    modifies vm`sr
    ensures FlagsOf(vm.sr) == Flags(false, false, false, false) && vm.sr & 0xF0 == old(vm.sr) & 0xF0
  {
    hide FlagsOf;
    vm.SetSRZF(false);
    vm.SetSRNF(false);
    vm.SetSRCF(false);
    vm.SetSROF(false);
  }

  method SetSRADD(vm: VM, a: int64, b: int64, res: int64)
    requires res == Add64(a, b)
    modifies vm`sr
    ensures vm.sr == WithFlags(old(vm.sr), Flags(res == 0, res < 0, res < a, !Representable(a + b)))
  {
    hide FlagsOf, WithFlags, Asr, AddMask, SignShifted, Wrap, Representable;
    ClearFlags(vm);
    SignBit(res);
    AddOverflow(a, b);
    if res == 0 {
      vm.SetSRZF(true);
    }
    if LowBit(Asr(res, 63)) {
      vm.SetSRNF(true);
    }
    if res < a {
      vm.SetSRCF(true);
    }
    if SignShifted(AddMask(a, b, res)) {
      vm.SetSROF(true);
    }
    FlagsDetermine(vm.sr, old(vm.sr), Flags(res == 0, res < 0, res < a, !Representable(a + b)));
  }

  method SetSRSUB(vm: VM, a: int64, b: int64, res: int64)
    requires res == Sub64(a, b)
    modifies vm`sr
    ensures vm.sr == WithFlags(old(vm.sr), Flags(res == 0, res < 0, ToU(a) < ToU(b), !Representable(a - b)))
  {
    hide FlagsOf, WithFlags, Asr, SubMask, SignShifted, Wrap, Representable;
    ClearFlags(vm);
    SignBit(res);
    SubOverflow(a, b);
    if res == 0 {
      vm.SetSRZF(true);
    }
    if LowBit(Asr(res, 63)) {
      vm.SetSRNF(true);
    }
    if ToU(a) < ToU(b) {
      vm.SetSRCF(true);
    }
    if SignShifted(SubMask(a, b, res)) {
      vm.SetSROF(true);
    }
    FlagsDetermine(vm.sr, old(vm.sr), Flags(res == 0, res < 0, ToU(a) < ToU(b), !Representable(a - b)));
  }

  method SetSRMUL(vm: VM, a: int64, b: int64, res: int64)
    requires res == Mul64(a, b)
    modifies vm`sr
    ensures vm.sr == WithFlags(old(vm.sr), Flags(res == 0, res < 0, !Representable(a * b), !Representable(a * b)))
  {
    hide FlagsOf, WithFlags, Asr;
    ClearFlags(vm);
    SignBit(res);
    var full: int := a * b;
    if res == 0 {
      vm.SetSRZF(true);
    }
    if LowBit(Asr(res, 63)) {
      vm.SetSRNF(true);
    }
    if full > INT64_MAX || full < INT64_MIN {
      vm.SetSRCF(true);
      vm.SetSROF(true);
    }
    FlagsDetermine(vm.sr, old(vm.sr), Flags(res == 0, res < 0, !Representable(a * b), !Representable(a * b)));
  }

  method SetSRDIV(vm: VM, res: int64)
    modifies vm`sr
    ensures vm.sr == WithFlags(old(vm.sr), Flags(res == 0, res < 0, false, false))
  {
    hide FlagsOf, WithFlags, Asr;
    ClearFlags(vm);
    SignBit(res);
    if res == 0 {
      vm.SetSRZF(true);
    }
    if LowBit(Asr(res, 63)) {
      vm.SetSRNF(true);
    }
    FlagsDetermine(vm.sr, old(vm.sr), Flags(res == 0, res < 0, false, false));
  }

  method SetSRLOG(vm: VM, res: int64)
    modifies vm`sr
    ensures vm.sr == WithFlags(old(vm.sr), Flags(res == 0, res < 0, false, false))
  {
    hide FlagsOf, WithFlags, Asr;
    ClearFlags(vm);
    SignBit(res);
    if res == 0 {
      vm.SetSRZF(true);
    }
    if LowBit(Asr(res, 63)) {
      vm.SetSRNF(true);
    }
    FlagsDetermine(vm.sr, old(vm.sr), Flags(res == 0, res < 0, false, false));
  }

  method SetSRNEG(vm: VM, a: int64, res: int64)
    modifies vm`sr
    ensures vm.sr == WithFlags(old(vm.sr), Flags(res == 0, res < 0, a != 0, !Representable(-(a as int))))
  {
    hide FlagsOf, WithFlags, Asr;
    ClearFlags(vm);
    SignBit(res);
    if res == 0 {
      vm.SetSRZF(true);
    }
    if LowBit(Asr(res, 63)) {
      vm.SetSRNF(true);
    }
    if a == INT64_MIN {
      vm.SetSROF(true);
    }
    if a != 0 {
      vm.SetSRCF(true);
    }
    FlagsDetermine(vm.sr, old(vm.sr), Flags(res == 0, res < 0, a != 0, !Representable(-(a as int))));
  }

  method SetSRSHL(vm: VM, a: int64, n: uint64, res: int64)
    requires 1 <= n <= 63
    modifies vm`sr
    ensures vm.sr == WithFlags(old(vm.sr),
                               Flags(res == 0, res < 0, LeavesAtTop(a, n), (res < 0) != (a < 0)))
  {
    hide FlagsOf, WithFlags;
    ClearFlags(vm);
    SignBit(res);
    SignBit(a);
    ShiftedOut(a, n);
    if res == 0 {
      vm.SetSRZF(true);
    }
    if LowBit(Asr(res, 63)) {
      vm.SetSRNF(true);
    }
    if LowBit(Asr(a, 63 - n + 1)) {
      vm.SetSRCF(true);
    }
    if Asr(res, 63) != Asr(a, 63) {
      vm.SetSROF(true);
    }
    FlagsDetermine(vm.sr, old(vm.sr), Flags(res == 0, res < 0, LeavesAtTop(a, n), (res < 0) != (a < 0)));
  }

  method SetSRSHR(vm: VM, a: int64, n: uint64, res: int64)
    requires 1 <= n <= 63
    modifies vm`sr
    ensures vm.sr == WithFlags(old(vm.sr), Flags(res == 0, res < 0, LeavesAtBottom(a, n), false))
  {
    hide FlagsOf, WithFlags;
    ClearFlags(vm);
    SignBit(res);
    if res == 0 {
      vm.SetSRZF(true);
    }
    if LowBit(Asr(res, 63)) {
      vm.SetSRNF(true);
    }
    if LowBit(Asr(a, n - 1)) {
      vm.SetSRCF(true);
    }
    FlagsDetermine(vm.sr, old(vm.sr), Flags(res == 0, res < 0, LeavesAtBottom(a, n), false));
  }
}
