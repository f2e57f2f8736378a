/**
 Fixed-width integers. A word is a mathematical integer confined to its C type; `ToU` and
 `ToS` are the two readings of one 64-bit pattern and `Wrap` is two's complement truncation.
 Bitwise operators work bit by bit on the unsigned reading.
 */
module Words {

  const TWO63: int := 0x8000_0000_0000_0000
  const TWO64: int := 0x1_0000_0000_0000_0000

  type byte = x: int | 0 <= x < 256
  type int64 = x: int | -0x8000_0000_0000_0000 <= x < 0x8000_0000_0000_0000
  type uint64 = x: int | 0 <= x < 0x1_0000_0000_0000_0000

  const INT64_MAX: int64 := 0x7fff_ffff_ffff_ffff
  const INT64_MIN: int64 := -0x8000_0000_0000_0000

  /** The cast (uint64_t) x. */
  function ToU(x: int64): uint64 {
    if x < 0 then x + TWO64 else x
  }

  /** The cast (int64_t) u. */
  function ToS(u: uint64): int64 {
    if u < TWO63 then u else u - TWO64
  }

  function WrapU(x: int): uint64 {
    x % TWO64
  }

  /** Two's complement result of an int64 computation whose exact value is x. */
  function Wrap(x: int): int64 {
    ToS(WrapU(x))
  }

  function Add64(a: int64, b: int64): int64 {
    Wrap(a + b)
  }

  function Sub64(a: int64, b: int64): int64 {
    Wrap(a - b)
  }

  function Mul64(a: int64, b: int64): int64 {
    Wrap(a * b)
  }

  function Magnitude(a: int): nat {
    if a < 0 then -a else a
  }

  lemma WrapIsExactInRange(x: int)
    ensures Wrap(x) == x <==> INT64_MIN <= x <= INT64_MAX
  {
  }

  /** Leaving the range once is corrected by one turn around the word. */
  lemma WrapOnce(x: int)
    requires -TWO64 <= x < TWO64
    ensures Wrap(x) == if x > INT64_MAX then x - TWO64 else if x < INT64_MIN then x + TWO64 else x
  {
  }

  // Powers of two

  function Pow2(n: nat): (p: nat)
    ensures p >= 1
  {
    if n == 0 then 1 else 2 * Pow2(n - 1)
  }

  lemma Pow2Doubles(n: nat)
    ensures Pow2(n + 1) == 2 * Pow2(n)
  {
  }

  lemma DoubledFactor(x: int, y: int)
    ensures 2 * (x * y) == (2 * x) * y
  {
  }

  lemma {:induction false} Pow2Add(a: nat, b: nat)
    ensures Pow2(a + b) == Pow2(a) * Pow2(b)
  {
    if a != 0 {
      hide Pow2;
      Pow2Add(a - 1, b);
      Pow2Doubles(a - 1 + b);
      Pow2Doubles(a - 1);
      DoubledFactor(Pow2(a - 1), Pow2(b));
    }
  }

  lemma Pow2Words()
    ensures Pow2(8) == 256
    ensures Pow2(62) * 2 == Pow2(63) == TWO63
    ensures Pow2(64) == TWO64
  {
    hide Pow2;
    SmallPowers();
    Pow2Add(8, 8);
    assert Pow2(16) == 0x1_0000;
    Pow2Add(16, 16);
    assert Pow2(32) == 0x1_0000_0000;
    Pow2Add(32, 32);
    Pow2Doubles(62);
    Pow2Doubles(63);
  }

  lemma SmallPowers()
    ensures Pow2(0) == 1 && Pow2(1) == 2 && Pow2(8) == 256
  {
    assert Pow2(2) == 4;
    assert Pow2(4) == 16 by { Pow2Add(2, 2); }
    Pow2Add(4, 4);
  }

  /** x >> n on an int64: the arithmetic shift rounds towards minus infinity. */
  function Asr(x: int, n: nat): int {
    x / Pow2(n)
  }

  // Bitwise operators

  datatype BitOp = And | Or | Xor

  function BitOf(op: BitOp, a: bool, b: bool): bool {
    match op
    case And => a && b
    case Or => a || b
    case Xor => a != b
  }

  /** Applies op to the n low bits of a and b. */
  function Bitwise(op: BitOp, a: nat, b: nat, n: nat): (r: nat)
    ensures r < Pow2(n)
    decreases n, a, b
  {
    if n == 0 then 0
    else (if BitOf(op, a % 2 == 1, b % 2 == 1) then 1 else 0) + 2 * Bitwise(op, a / 2, b / 2, n - 1)
  }

  function Bitwise64(op: BitOp, a: int64, b: int64): int64 {
    Pow2Words();
    ToS(Bitwise(op, ToU(a), ToU(b), 64))
  }

  /** ~x is x with every one of its 64 bits flipped. */
  function Not64(x: int64): int64 {
    Bitwise64(Xor, x, -1)
  }

  /** The top bit of a bitwise result is the operator applied to the top bits. */
  lemma {:induction false} BitwiseTopBit(op: BitOp, a: nat, b: nat, n: nat)
    requires a < Pow2(n + 1) && b < Pow2(n + 1)
    ensures Bitwise(op, a, b, n + 1) >= Pow2(n) <==> BitOf(op, a >= Pow2(n), b >= Pow2(n))
  {
    if n == 0 {
      assert Bitwise(op, a / 2, b / 2, 0) == 0;
    } else {
      BitwiseTopBit(op, a / 2, b / 2, n - 1);
    }
  }

  /** The sign of a bitwise result is the operator applied to the signs. */
  lemma SignOfBitwise(op: BitOp, a: int64, b: int64)
    ensures Bitwise64(op, a, b) < 0 <==> BitOf(op, a < 0, b < 0)
  {
    Pow2Words();
    BitwiseTopBit(op, ToU(a), ToU(b), 63);
  }

  lemma {:induction false} XorWithOnes(a: nat, n: nat)
    requires a < Pow2(n)
    ensures Bitwise(Xor, a, Pow2(n) - 1, n) == Pow2(n) - 1 - a
  {
    if n > 0 {
      assert (Pow2(n) - 1) / 2 == Pow2(n - 1) - 1;
      XorWithOnes(a / 2, n - 1);
    }
  }

  lemma NotIsMinusOneMinus(x: int64)
    ensures Not64(x) == -1 - x
  {
    Pow2Words();
    XorWithOnes(ToU(x), 64);
  }

  /** Or-ing bits above the ones in use adds them. */
  lemma {:induction false} OrAboveIsSum(low: nat, high: nat, k: nat, n: nat)
    requires low < Pow2(k) && high < Pow2(n)
    ensures Bitwise(Or, low, high * Pow2(k), k + n) == low + high * Pow2(k)
  {
    if k == 0 {
      OrZero(high, n);
    } else {
      var rest := high * Pow2(k - 1);
      assert high * Pow2(k) == 2 * rest;
      assert (high * Pow2(k)) / 2 == rest;
      OrAboveIsSum(low / 2, high, k - 1, n);
    }
  }

  lemma {:induction false} OrZero(a: nat, n: nat)
    requires a < Pow2(n)
    ensures Bitwise(Or, 0, a, n) == a
  {
    if n > 0 {
      OrZero(a / 2, n - 1);
    }
  }

  /** Bit k of an unsigned word. */
  predicate BitAt(u: nat, k: nat) {
    (u / Pow2(k)) % 2 == 1
  }

  /** Bit k of a 64-bit pattern. */
  predicate Bit(x: int64, k: nat) {
    BitAt(ToU(x), k)
  }

  lemma HalvedBit(u: nat, k: nat)
    ensures BitAt(u, k + 1) == BitAt(u / 2, k) && BitAt(u, 0) == (u % 2 == 1)
  {
    DivDiv(u, 2, Pow2(k));
    assert u / Pow2(0) == u;
  }

  /** A bitwise operator acts on every bit alone. */
  lemma {:induction false} BitwiseAt(op: BitOp, a: nat, b: nat, n: nat, k: nat)
    requires k < n
    ensures BitAt(Bitwise(op, a, b, n), k) <==> BitOf(op, BitAt(a, k), BitAt(b, k))
  {
    hide BitAt;
    var r := Bitwise(op, a, b, n);
    var m: nat := if k == 0 then 0 else k - 1;
    HalvedBit(r, m);
    HalvedBit(a, m);
    HalvedBit(b, m);
    assert r / 2 == Bitwise(op, a / 2, b / 2, n - 1);
    if k > 0 {
      BitwiseAt(op, a / 2, b / 2, n - 1, k - 1);
    }
  }

  /** Every bit of a, up to bit n, is a bit of b. */
  ghost predicate BitsWithin(a: nat, b: nat, n: nat) {
    forall k: nat :: k < n && BitAt(a, k) ==> BitAt(b, k)
  }

  lemma BitsWithinHalves(a: nat, b: nat, n: nat)
    requires n > 0
    ensures BitsWithin(a, b, n) <==> (a % 2 == 1 ==> b % 2 == 1) && BitsWithin(a / 2, b / 2, n - 1)
  {
    hide BitAt;
    HalvedBit(a, 0);
    HalvedBit(b, 0);
    forall k: nat
      ensures BitAt(a, k + 1) == BitAt(a / 2, k) && BitAt(b, k + 1) == BitAt(b / 2, k)
    {
      HalvedBit(a, k);
      HalvedBit(b, k);
    }
    if (a % 2 == 1 ==> b % 2 == 1) && BitsWithin(a / 2, b / 2, n - 1) {
      forall k: nat | k < n && BitAt(a, k)
        ensures BitAt(b, k)
      {
        if k > 0 { assert BitAt(a, k - 1 + 1) == BitAt(a / 2, k - 1); }
      }
    }
  }

  /** Or-ing a into b changes nothing exactly when every bit of a is a bit of b. */
  lemma {:induction false} OrAbsorbs(a: nat, b: nat, n: nat)
    requires a < Pow2(n) && b < Pow2(n)
    ensures Bitwise(Or, a, b, n) == b <==> BitsWithin(a, b, n)
  {
    hide BitAt, BitsWithin;
    if n > 0 {
      OrAbsorbs(a / 2, b / 2, n - 1);
      BitsWithinHalves(a, b, n);
    } else {
      NoBits(a, b);
    }
  }

  lemma NoBits(a: nat, b: nat)
    ensures BitsWithin(a, b, 0)
  {
  }

  // Little-endian byte strings

  /** The n low bytes of u, least significant first. */
  function Bytes(u: nat, n: nat): (s: seq<byte>)
    ensures |s| == n
    decreases n, u
  {
    if n == 0 then [] else [u % 256] + Bytes(u / 256, n - 1)
  }

  function LittleEndian(s: seq<byte>): (u: nat)
    ensures u < Pow2(8 * |s|)
  {
    if s == [] then 0
    else
      var rest := LittleEndian(s[1..]);
      Pow2Byte(|s[1..]|);
      s[0] + 256 * rest
  }

  lemma {:induction false} BytesRoundTrip(u: nat, n: nat)
    requires u < Pow2(8 * n)
    ensures LittleEndian(Bytes(u, n)) == u
  {
    if n > 0 {
      Pow2Byte(n - 1);
      BytesRoundTrip(u / 256, n - 1);
      assert Bytes(u, n)[1..] == Bytes(u / 256, n - 1);
    }
  }

  lemma {:induction false} LittleEndianRoundTrip(s: seq<byte>)
    ensures Bytes(LittleEndian(s), |s|) == s
  {
    if s != [] {
      LittleEndianRoundTrip(s[1..]);
      var rest := LittleEndian(s[1..]);
      assert (s[0] + 256 * rest) / 256 == rest;
      assert [s[0]] + s[1..] == s;
    }
  }

  /** Byte i of the encoding is what (uint8_t) (u >> 8 * i) extracts. */
  lemma {:induction false} BytesAt(u: nat, n: nat, i: nat)
    requires i < n
    ensures Bytes(u, n)[i] == (u / Pow2(8 * i)) % 256
  {
    if i > 0 {
      BytesAt(u / 256, n - 1, i - 1);
      Pow2Words();
      Pow2Add(8, 8 * (i - 1));
      DivDiv(u, 256, Pow2(8 * (i - 1)));
    }
  }

  lemma {:induction false} LittleEndianSnoc(s: seq<byte>, b: byte)
    ensures LittleEndian(s + [b]) == LittleEndian(s) + b * Pow2(8 * |s|)
  {
    if s == [] {
      assert (s + [b])[1..] == [];
    } else {
      assert (s + [b])[1..] == s[1..] + [b];
      LittleEndianSnoc(s[1..], b);
      LittleEndianStep(s, b, LittleEndian(s[1..]), Pow2(8 * |s[1..]|));
    }
  }

  lemma LittleEndianStep(s: seq<byte>, b: byte, rest: nat, p: nat)
    requires s != [] && rest == LittleEndian(s[1..]) && p == Pow2(8 * |s[1..]|)
    ensures s[0] + 256 * (rest + b * p) == LittleEndian(s) + b * Pow2(8 * |s|)
  {
    Pow2Byte(|s[1..]|);
    MulAssoc(256, b, p);
  }

  lemma MulAssoc(k: int, b: int, p: int)
    ensures k * (b * p) == b * (k * p)
  {
  }

  lemma Pow2Byte(n: nat)
    ensures Pow2(8 * (n + 1)) == 256 * Pow2(8 * n)
  {
    Pow2Words();
    Pow2Add(8, 8 * n);
  }

  /** One round of the byte-assembling loops: or-ing byte |s| into place extends the value. */
  lemma OrNextByte(s: seq<byte>, b: byte, i: nat)
    requires |s| == i < 8
    ensures Bitwise(Or, LittleEndian(s), ShiftByte(b, i), 64) == LittleEndian(s + [b])
  {
    Pow2Byte(7 - i);
    OrAboveIsSum(LittleEndian(s), b, 8 * i, 64 - 8 * i);
    LittleEndianSnoc(s, b);
  }

  /** (uint64_t) b << (8 * i) */
  function ShiftByte(b: byte, i: nat): (u: uint64)
    requires i < 8
    ensures u == b * Pow2(8 * i)
  {
    ShiftByteFits(b, i);
    b * Pow2(8 * i)
  }

  lemma ShiftByteFits(b: byte, i: nat)
    requires i < 8
    ensures 0 <= b * Pow2(8 * i) < TWO64
  {
    WordSplit(i);
    var p, r := Pow2(8 * i), Pow2(8 * (7 - i));
    MulAssoc(p, 256, r);
    MulMono(256 * p, 1, r);
    MulMono(p, b, 255);
    assert p * (256 * r) == (256 * p) * r;
  }

  lemma MulMono(k: nat, x: int, y: int)
    requires x <= y
    ensures k * x <= k * y
  {
  }

  lemma {:induction false} OrAssociative(a: nat, b: nat, c: nat, n: nat)
    ensures Bitwise(Or, Bitwise(Or, a, b, n), c, n) == Bitwise(Or, a, Bitwise(Or, b, c, n), n)
  {
    if n > 0 {
      OrAssociative(a / 2, b / 2, c / 2, n - 1);
    }
  }

  lemma DivDiv(u: int, a: int, b: int)
    requires a > 0 && b > 0
    ensures a * b > 0 && (u / a) / b == u / (a * b)
  {
    var q, r1 := u / a, u % a;
    var t, r2 := q / b, q % b;
    NestedQuotient(u, a, b, q, r1, t, r2);
    DivUnique(u, a * b, t, a * r2 + r1);
  }

  lemma NestedQuotient(u: int, a: int, b: int, q: int, r1: int, t: int, r2: int)
    requires 0 <= r1 < a && 0 <= r2 < b && u == a * q + r1 && q == b * t + r2
    ensures u == (a * b) * t + (a * r2 + r1) && 0 <= a * r2 + r1 < a * b
  {
    MulMono(a, 0, r2);
    MulMono(a, r2, b - 1);
    assert a * (b * t + r2) == a * (b * t) + a * r2;
    MulAssoc(a, b, t);
  }

  lemma DivUnique(u: int, d: int, q: int, r: int)
    requires d > 0 && 0 <= r < d && u == d * q + r
    ensures u / d == q && u % d == r
  {
    assert d * (u / d - q) == r - u % d;
    if u / d != q {
      MulAtLeast(d, u / d - q);
    }
  }

  lemma MulAtLeast(d: int, k: int)
    requires d > 0 && k != 0
    ensures d * k >= d || d * k <= -d
  {
  }

  /** A signed value and its unsigned reading have the same bytes. */
  lemma SignedByteAt(x: int64, i: nat)
    requires i < 8
    ensures Asr(x, 8 * i) % 256 == Bytes(ToU(x), 8)[i]
  {
    BytesAt(ToU(x), 8, i);
    WordSplit(i);
    SameLowByte(x, Pow2(8 * i), Pow2(8 * (7 - i)));
  }

  lemma SameLowByte(x: int64, p: nat, r: nat)
    requires p > 0 && p * (256 * r) == TWO64
    ensures (x / p) % 256 == (ToU(x) / p) % 256
  {
    FloorShift(x, p, 256 * r);
    if x < 0 {
      assert ToU(x) / p == x / p + 256 * r;
      DivUnique(ToU(x) / p, 256, x / p / 256 + r, x / p % 256);
    }
  }

  lemma WordSplit(i: nat)
    requires i < 8
    ensures Pow2(8 * i) * (256 * Pow2(8 * (7 - i))) == TWO64
  {
    assert 8 * (8 - i) == 8 + 8 * (7 - i) && 8 * i + 8 * (8 - i) == 64;
    Pow2Add(8, 8 * (7 - i));
    Pow2Add(8 * i, 8 * (8 - i));
    Pow2Words();
  }

  lemma FloorShift(x: int, p: int, k: int)
    requires p > 0
    ensures (x + p * k) / p == x / p + k
  {
    assert p * (x / p + k) == p * (x / p) + p * k;
    DivUnique(x + p * k, p, x / p + k, x % p);
  }
}
