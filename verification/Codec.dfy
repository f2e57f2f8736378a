/**
 The variable-length instruction encoding.
 */
module Codec {
  import opened Words
  import opened Isa

  // What the encoder and the decoder compute

  function ArgBytes(i: Instruction): seq<byte> {
    if CarriesArg(i.mode) then Bytes(ToU(i.arg), 8) else []
  }

  function Encode(i: Instruction): (s: seq<byte>)
    ensures |s| == ModeSize(i.mode)
  {
    [OpNumber(i.op), ModeNumber(i.mode)]
    + (if i.mode == NONE then [] else [i.a])
    + (if CarriesB(i.mode) then [i.b] else [])
    + ArgBytes(i)
  }

  /** The instruction with every field its mode does not carry set to zero. */
  function Normal(i: Instruction): Instruction {
    Instruction(i.op, i.mode,
                if i.mode == NONE then 0 else i.a,
                if CarriesB(i.mode) then i.b else 0,
                if CarriesArg(i.mode) then i.arg else 0)
  }

  datatype Decoding =
    | Got(consumed: nat, instr: Instruction)
    | Exits    // unknown operation code: the decoder calls exit
    | BadMode  // the mode byte indexes past the size table

  /** Or-ing the 64-bit argument found in s into what `arg` already holds. */
  function OrArg(arg: int64, s: seq<byte>): int64
    requires |s| == 8
  {
    Pow2Words();
    ToS(Bitwise(Or, ToU(arg), LittleEndian(s), 64))
  }

  /** Offset of the argument in an encoding. */
  function ArgAt(mode: Mode): nat {
    if CarriesB(mode) then 4 else 3
  }

  /** Decoding at s[at..], of which `remaining` bytes may be read, into a struct that holds `target`. */
  function DecodeOnto(target: Instruction, s: seq<byte>, at: nat, remaining: nat): Decoding
    requires at + remaining <= |s|
  {
    if remaining < 2 then Got(0, target)
    else if s[at] >= OP_COUNT then Exits
    else if s[at + 1] >= MODE_COUNT then BadMode
    else
      var op, mode := OPS[s[at]], MODES[s[at + 1]];
      if mode == NONE || remaining - 2 < ModeSize(mode) then Got(2, target.(op := op, mode := mode))
      else Got(ModeSize(mode), DecodeFields(target, op, mode, s, at))
  }

  function DecodeFields(target: Instruction, op: OpCode, mode: Mode, s: seq<byte>, at: nat): Instruction
    requires mode != NONE && at + ModeSize(mode) <= |s|
  {
    Instruction(op, mode, s[at + 2],
                if CarriesB(mode) then s[at + 3] else target.b,
                if CarriesArg(mode) then OrArg(target.arg, s[at + ArgAt(mode)..at + ModeSize(mode)]) else target.arg)
  }

  function Decode(s: seq<byte>, at: nat, remaining: nat): Decoding
    requires at + remaining <= |s|
  {
    DecodeOnto(ZEROED, s, at, remaining)
  }

  // The functions of instructions_codec.c

  /** s holds the first n bytes of `bytes` from `at` on; every other byte is as in `before`. */
  ghost predicate Placed(s: seq<byte>, before: seq<byte>, at: nat, bytes: seq<byte>, n: nat)
    requires n <= |bytes|
  {
    && at + n <= |s| == |before|
    && (forall k :: at <= k < at + n ==> s[k] == bytes[k - at])
    && (forall k :: 0 <= k < |s| && !(at <= k < at + n) ==> s[k] == before[k])
  }

  lemma PlacedThen(s: seq<byte>, mid: seq<byte>, before: seq<byte>, at: nat, bytes: seq<byte>, n: nat, tail: seq<byte>)
    requires n + |tail| == |bytes| && bytes[n..] == tail
    requires Placed(mid, before, at, bytes, n) && Placed(s, mid, at + n, tail, |tail|)
    ensures Placed(s, before, at, bytes, |bytes|)
  {
    forall k | at + n <= k < at + |bytes|
      ensures s[k] == bytes[k - at]
    {
      assert s[k] == tail[k - at - n];
    }
  }

  lemma PlacedSlices(s: seq<byte>, before: seq<byte>, at: nat, bytes: seq<byte>, n: nat)
    requires n <= |bytes| && Placed(s, before, at, bytes, n)
    ensures s[..at] == before[..at]
    ensures s[at..at + n] == bytes[..n]
    ensures s[at + n..] == before[at + n..]
  {
  }

  /** Writes the encoding of instr at `at` if it fits in `remaining` bytes; returns the length or 0. */
  method InstructionEncode(instr: Instruction, buffer: array<byte>, at: nat, remaining: nat) returns (written: nat)
    requires at + remaining <= buffer.Length
    modifies buffer
    ensures written == if ModeSize(instr.mode) <= remaining then ModeSize(instr.mode) else 0
    ensures written > 0 ==> Placed(buffer[..], old(buffer[..]), at, Encode(instr), written)
    ensures written == 0 ==> exists n: nat :: n <= remaining && n < ModeSize(instr.mode) &&
                                              Placed(buffer[..], old(buffer[..]), at, Encode(instr), n)
  {
    hide Bytes, ToU, Encode;
    ghost var before, bytes := buffer[..], Encode(instr);
    EncodeParts(instr);
    var i, room := 0, remaining;
    assert Placed(buffer[..], before, at, bytes, 0);
    if room >= 2 {
      buffer[at] := OpNumber(instr.op);
      buffer[at + 1] := ModeNumber(instr.mode);
      i := 2;
      if instr.mode == NONE {
        return i;
      }
      room := room - 2;
    } else {
      return 0;
    }
    assert Placed(buffer[..], before, at, bytes, 2);
    if room >= 1 {
      buffer[at + i] := instr.a;
      i, room := i + 1, room - 1;
    } else {
      return 0;
    }
    assert Placed(buffer[..], before, at, bytes, 3);
    if CarriesB(instr.mode) {
      if room >= 1 {
        buffer[at + i] := instr.b;
        i, room := i + 1, room - 1;
      } else {
        return 0;
      }
    }
    ghost var mid := buffer[..];
    assert Placed(mid, before, at, bytes, i);
    if CarriesArg(instr.mode) {
      if room >= 8 {
        EncodeArg(instr.arg, buffer, at + i);
        PlacedThen(buffer[..], mid, before, at, bytes, i, Bytes(ToU(instr.arg), 8));
        i := i + 8;
      } else {
        return 0;
      }
    }
    return i;
  }

  /** The argument loop of the encoder. */
  method EncodeArg(arg: int64, buffer: array<byte>, at: nat)
    requires at + 8 <= buffer.Length
    modifies buffer
    ensures Placed(buffer[..], old(buffer[..]), at, Bytes(ToU(arg), 8), 8)
  {
    ghost var before, bytes := buffer[..], Bytes(ToU(arg), 8);
    for j := 0 to 8
      invariant Placed(buffer[..], before, at, bytes, j)
    {
      SignedByteAt(arg, j);
      buffer[at + j] := Asr(arg, 8 * j) % 256;
    }
  }

  lemma EncodeParts(i: Instruction)
    ensures Encode(i)[0] == OpNumber(i.op) && Encode(i)[1] == ModeNumber(i.mode)
    ensures i.mode != NONE ==> Encode(i)[2] == i.a
    ensures CarriesB(i.mode) ==> Encode(i)[3] == i.b
    ensures CarriesArg(i.mode) ==> Encode(i)[ArgAt(i.mode)..] == Bytes(ToU(i.arg), 8)
  {
  }

  /**
   Reads one instruction at `at` into a struct that holds `target` on entry. An unknown operation
   code ends the process; a mode byte past the size table is undefined in C.
   */
  method InstructionDecode(target: Instruction, buffer: array<byte>, at: nat, remaining: nat)
    returns (decoding: Decoding)
    requires at + remaining <= buffer.Length
    requires DecodeOnto(target, buffer[..], at, remaining) != BadMode
    ensures decoding == DecodeOnto(target, buffer[..], at, remaining)
  {
    if remaining < 2 {
      return Got(0, target);
    }
    if buffer[at] >= OP_COUNT {
      return Exits;
    }
    var instr := target.(op := OPS[buffer[at]], mode := MODES[buffer[at + 1]]);
    if instr.mode == NONE {
      return Got(2, instr);
    }
    if remaining - 2 < ModeSize(instr.mode) {
      return Got(2, instr);
    }
    var consumed;
    consumed, instr := ReadFields(target, instr.op, instr.mode, buffer, at);
    return Got(consumed, instr);
  }

  /** The second half of the decoder, once the size check has passed. */
  method ReadFields(target: Instruction, op: OpCode, mode: Mode, buffer: array<byte>, at: nat)
    returns (consumed: nat, instr: Instruction)
    requires mode != NONE && at + ModeSize(mode) <= buffer.Length
    ensures instr == DecodeFields(target, op, mode, buffer[..], at)
    ensures consumed == ModeSize(mode)
  {
    hide OrArg;
    var i := 2;
    instr := target.(op := op, mode := mode, a := buffer[at + i]);
    i := i + 1;
    if CarriesB(mode) {
      instr := instr.(b := buffer[at + i]);
      i := i + 1;
    }
    assert i == ArgAt(mode);
    var arg := target.arg;
    if CarriesArg(mode) {
      arg := DecodeArg(target.arg, buffer, at + i);
      i := i + 8;
    }
    assert i == ModeSize(mode);
    return i, instr.(arg := arg);
  }

  /** The argument loop of the decoder: or-s eight bytes into what the struct already holds. */
  method DecodeArg(before: int64, buffer: array<byte>, at: nat) returns (after: int64)
    requires at + 8 <= buffer.Length
    ensures after == OrArg(before, buffer[..][at..at + 8])
  {
    ghost var bytes: seq<byte> := buffer[..][at..at + 8];
    var arg: uint64 := ToU(before);
    OrNothing(arg);
    for j := 0 to 8
      invariant arg == OrPrefix(ToU(before), bytes[..j])
    {
      OrPrefixStep(ToU(before), bytes[..j], bytes[j], j);
      assert bytes[..j + 1] == bytes[..j] + [bytes[j]];
      arg := OrPrefixWord(arg, ShiftByte(buffer[at + j], j));
    }
    assert bytes[..8] == bytes;
    return ToS(arg);
  }

  function OrPrefixWord(x: uint64, y: uint64): (r: uint64)
    ensures r == Bitwise(Or, x, y, 64)
  {
    Pow2Words();
    Bitwise(Or, x, y, 64)
  }

  function OrPrefix(arg: uint64, s: seq<byte>): nat {
    Bitwise(Or, arg, LittleEndian(s), 64)
  }

  lemma OrNothing(arg: uint64)
    ensures OrPrefix(arg, []) == arg
  {
    Pow2Words();
    OrComm(arg, 0, 64);
    OrZero(arg, 64);
  }

  lemma {:induction false} OrComm(a: nat, b: nat, n: nat)
    ensures Bitwise(Or, a, b, n) == Bitwise(Or, b, a, n)
  {
    if n > 0 {
      OrComm(a / 2, b / 2, n - 1);
    }
  }

  lemma OrPrefixStep(arg: uint64, s: seq<byte>, b: byte, j: nat)
    requires |s| == j < 8
    ensures Bitwise(Or, OrPrefix(arg, s), ShiftByte(b, j), 64) == OrPrefix(arg, s + [b])
  {
    OrAssociative(arg, LittleEndian(s), ShiftByte(b, j), 64);
    OrNextByte(s, b, j);
  }

  // Round trips

  /** s holds the encoding of i at `at`. */
  predicate EncodedAt(s: seq<byte>, at: nat, i: Instruction) {
    at + ModeSize(i.mode) <= |s| && s[at..at + ModeSize(i.mode)] == Encode(i)
  }

  /**
   Decoding an encoding returns every field the mode carries when the room offered is the
   encoding's size plus 2; with less it stops after the first two bytes.
   */
  lemma DecodeEncode(i: Instruction, s: seq<byte>, at: nat, remaining: nat)
    requires EncodedAt(s, at, i) && 2 <= remaining && at + remaining <= |s|
    ensures Decode(s, at, remaining)
            == if i.mode == NONE || remaining - 2 >= ModeSize(i.mode)
               then Got(ModeSize(i.mode), Normal(i))
               else Got(2, ZEROED.(op := i.op, mode := i.mode))
  {
    EncodedBytes(i, s, at);
    if CarriesArg(i.mode) {
      ArgRoundTrip(i.arg);
    }
  }

  lemma EncodedBytes(i: Instruction, s: seq<byte>, at: nat)
    requires EncodedAt(s, at, i)
    ensures s[at] == OpNumber(i.op) && s[at + 1] == ModeNumber(i.mode)
    ensures i.mode != NONE ==> s[at + 2] == i.a
    ensures CarriesB(i.mode) ==> s[at + 3] == i.b
    ensures CarriesArg(i.mode) ==> s[at + ArgAt(i.mode)..at + ModeSize(i.mode)] == Bytes(ToU(i.arg), 8)
  {
    var e := s[at..at + ModeSize(i.mode)];
    EncodeParts(i);
    assert s[at] == e[0] && s[at + 1] == e[1];
    if i.mode != NONE { assert s[at + 2] == e[2]; }
    if CarriesB(i.mode) { assert s[at + 3] == e[3]; }
    if CarriesArg(i.mode) { assert s[at + ArgAt(i.mode)..at + ModeSize(i.mode)] == e[ArgAt(i.mode)..]; }
  }

  lemma ArgRoundTrip(arg: int64)
    ensures OrArg(0, Bytes(ToU(arg), 8)) == arg
  {
    Pow2Words();
    BytesRoundTrip(ToU(arg), 8);
    OrZero(ToU(arg), 64);
  }

  /**
   The decoder or-s into its target: it returns the encoded argument exactly when every bit the
   target already held is a bit of that argument.
   */
  lemma DecodeNeedsZeroedTarget(target: Instruction, i: Instruction, s: seq<byte>, at: nat)
    requires CarriesArg(i.mode) && EncodedAt(s, at, i) && at + ModeSize(i.mode) + 2 <= |s|
    ensures var d := DecodeOnto(target, s, at, ModeSize(i.mode) + 2);
            d.Got? && (d.instr.arg == i.arg <==> forall k: nat :: k < 64 && Bit(target.arg, k) ==> Bit(i.arg, k))
  {
    hide OrArg, Bytes, Bitwise64, Encode, BitAt;
    EncodedBytes(i, s, at);
    OrBytes(target.arg, i.arg);
    OrAbsorbs64(target.arg, i.arg);
  }

  lemma OrBytes(before: int64, arg: int64)
    ensures OrArg(before, Bytes(ToU(arg), 8)) == Bitwise64(Or, before, arg)
  {
    Pow2Words();
    BytesRoundTrip(ToU(arg), 8);
  }

  lemma OrAbsorbs64(before: int64, arg: int64)
    ensures Bitwise64(Or, before, arg) == arg <==> forall k: nat :: k < 64 && Bit(before, k) ==> Bit(arg, k)
  {
    hide Bitwise, BitAt;
    Pow2Words();
    OrAbsorbs(ToU(before), ToU(arg), 64);
    var r: uint64 := Bitwise(Or, ToU(before), ToU(arg), 64);
    assert ToS(r) == arg <==> r == ToU(arg);
    assert BitsWithin(ToU(before), ToU(arg), 64) <==> forall k: nat :: k < 64 && Bit(before, k) ==> Bit(arg, k) by {
      forall k: nat
        ensures Bit(before, k) == BitAt(ToU(before), k) && Bit(arg, k) == BitAt(ToU(arg), k)
      {
      }
    }
  }

  /** A target that still holds 1 turns the encoding of LD R0, 0 into something else. */
  lemma DirtyTargetExample()
    ensures var i := Instruction(LD, IMM, 0, 0, 0);
            var d := DecodeOnto(ZEROED.(arg := 1), Encode(i) + [0, 0], 0, 13);
            d.Got? && d.instr.arg != i.arg
  {
    hide Encode;
    var i := Instruction(LD, IMM, 0, 0, 0);
    assert EncodedAt(Encode(i) + [0, 0], 0, i);
    DecodeNeedsZeroedTarget(ZEROED.(arg := 1), i, Encode(i) + [0, 0], 0);
    HalvedBit(1, 0);
    HalvedBit(0, 0);
    assert Bit(1, 0) && !Bit(0, 0);
  }

  /**
   The layout of an encoding: operation, mode, the registers the mode carries, then its argument with the
   least significant byte first.
   */
  lemma EncodingLayout(i: Instruction, k: nat)
    requires k < 8
    ensures var s, registers := Encode(i), if i.mode == NONE then 0 else if i.mode in {REG, IND, IDX} then 2 else 1;
            && |s| == 2 + registers + (if i.mode in {IMM, DIR, IDX} then 8 else 0)
            && s[0] == OpNumber(i.op) && s[1] == ModeNumber(i.mode)
            && (registers >= 1 ==> s[2] == i.a) && (registers == 2 ==> s[3] == i.b)
            && (i.mode in {IMM, DIR, IDX} ==> s[2 + registers + k] as int == (i.arg / Pow2(8 * k)) % 256)
  {
    hide Encode, Bytes, ToU, Pow2;
    EncodeParts(i);
    SignedByteAt(i.arg, k);
    if CarriesArg(i.mode) { assert Encode(i)[ArgAt(i.mode)..][k] == Encode(i)[ArgAt(i.mode) + k]; }
  }
}
