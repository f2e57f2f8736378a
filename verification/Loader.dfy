/**
 Whole programs: size, encoding into a buffer, loading into the machine.
 */
module Loader {
  import opened Common
  import opened Words
  import opened Isa
  import opened Machine
  import opened Vm
  import opened Codec

  /** Total encoded size. */
  function ProgSize(p: seq<Instruction>): nat {
    if p == [] then 0 else ProgSize(p[..|p| - 1]) + ModeSize(p[|p| - 1].mode)
  }

  function EncodeAll(p: seq<Instruction>): (s: seq<byte>)
    ensures |s| == ProgSize(p)
  {
    if p == [] then [] else EncodeAll(p[..|p| - 1]) + Encode(p[|p| - 1])
  }

  lemma SizeStep(p: seq<Instruction>, n: nat)
    requires n < |p|
    ensures ProgSize(p[..n + 1]) == ProgSize(p[..n]) + ModeSize(p[n].mode)
    ensures EncodeAll(p[..n + 1]) == EncodeAll(p[..n]) + Encode(p[n])
  {
    assert p[..n + 1][..n] == p[..n];
  }

  method TotalProgSize(program: seq<Instruction>) returns (total: nat)
    ensures total == ProgSize(program)
  {
    total := 0;
    for i := 0 to |program|
      invariant total == ProgSize(program[..i])
    {
      SizeStep(program, i);
      total := total + ModeSize(program[i].mode);
    }
    assert program[..|program|] == program;
  }

  /** How many instructions of p fit when the encoder is offered one byte less than the segment. */
  ghost predicate LongestFit(p: seq<Instruction>, n: nat) {
    n <= |p| && ProgSize(p[..n]) < DATA_BASE &&
    (n < |p| ==> ProgSize(p[..n + 1]) >= DATA_BASE)
  }

  lemma {:induction false} SizeGrows(p: seq<Instruction>, m: nat, n: nat)
    requires m <= n <= |p|
    ensures ProgSize(p[..m]) <= ProgSize(p[..n])
  {
    if m < n {
      SizeGrows(p, m, n - 1);
      SizeStep(p, n - 1);
    }
  }

  /** There is only one such prefix, and it is the longest one that leaves a byte free. */
  lemma LongestFitIsLongest(p: seq<Instruction>, n: nat, m: nat)
    requires LongestFit(p, n) && m <= |p|
    ensures ProgSize(p[..m]) < DATA_BASE <==> m <= n
  {
    if m <= n { SizeGrows(p, m, n); } else { SizeGrows(p, n + 1, m); }
  }

  lemma NothingEncoded(p: seq<Instruction>)
    ensures ProgSize(p[..0]) == 0 && EncodeAll(p[..0]) == []
  {
  }

  lemma Adjoining(s: seq<byte>, from: nat, to: nat)
    requires from <= to <= |s|
    ensures s[..to] == s[..from] + s[from..to]
  {
  }

  method EncodeProgram(program: seq<Instruction>, buffer: array<byte>) returns (cursor: nat, ghost n: nat)
    requires buffer.Length == DATA_BASE
    modifies buffer
    ensures LongestFit(program, n) && cursor == ProgSize(program[..n])
    ensures buffer[..cursor] == EncodeAll(program[..n])
  {
    hide Encode, ModeSize, EncodeAll, ProgSize, Placed;
    cursor, n := 0, 0;
    var i := 0;
    NothingEncoded(program);
    while i < |program|
      invariant n == i <= |program|
      invariant cursor == ProgSize(program[..i]) < DATA_BASE
      invariant buffer[..cursor] == EncodeAll(program[..i])
    {
      SizeStep(program, i);
      ghost var before := buffer[..];
      var written := InstructionEncode(program[i], buffer, cursor, DATA_BASE - cursor - 1);
      if written == 0 {
        ghost var part: nat :| part < ModeSize(program[i].mode)
                               && Placed(buffer[..], before, cursor, Encode(program[i]), part);
        PlacedSlices(buffer[..], before, cursor, Encode(program[i]), part);
        assert buffer[..cursor] == before[..cursor];
        break;
      }
      PlacedSlices(buffer[..], before, cursor, Encode(program[i]), written);
      assert Encode(program[i])[..written] == Encode(program[i]);
      Adjoining(buffer[..], cursor, cursor + written);
      cursor := cursor + written;
      i, n := i + 1, i + 1;
    }
  }

  // Decoding a whole program

  /** Decodes instruction after instruction from `at` until exactly `end` is reached. */
  function DecodeProgram(s: seq<byte>, at: nat, end: nat): Option<seq<Instruction>>
    requires end <= |s|
    decreases end - at
  {
    if at == end then Some([])
    else if at > end then None
    else
      hide Decode;
      var d := Decode(s, at, |s| - at);
      if !d.Got? || d.consumed != ModeSize(d.instr.mode) then None
      else
        var rest := DecodeProgram(s, at + d.consumed, end);
        if rest.None? then None else Some([d.instr] + rest.value)
  }

  function NormalAll(p: seq<Instruction>): seq<Instruction> {
    seq(|p|, k requires 0 <= k < |p| => Normal(p[k]))
  }

  lemma {:induction false} PrefixEncoded(p: seq<Instruction>, n: nat)
    requires n < |p|
    ensures ProgSize(p[..n]) + ModeSize(p[n].mode) <= ProgSize(p)
    ensures EncodedAt(EncodeAll(p), ProgSize(p[..n]), p[n])
  {
    hide Encode, ModeSize, EncodeAll, ProgSize;
    var last := |p| - 1;
    var q := p[..last];
    SizeStep(p, last);
    assert p[..last + 1] == p;
    if n < last {
      assert q[..n] == p[..n] && q[n] == p[n];
      PrefixEncoded(q, n);
      var at := ProgSize(p[..n]);
      SliceOfPrefix(EncodeAll(p), EncodeAll(q), at, at + ModeSize(p[n].mode));
    }
  }

  lemma NothingNormal()
    ensures NormalAll([]) == []
  {
  }

  lemma NormalSplit(p: seq<Instruction>, n: nat)
    requires n < |p|
    ensures NormalAll(p[n..]) == [Normal(p[n])] + NormalAll(p[n + 1..])
  {
  }

  lemma DecodeProgramStep(s: seq<byte>, at: nat, end: nat, i: Instruction)
    requires at + ModeSize(i.mode) <= end <= |s| && Decode(s, at, |s| - at) == Got(ModeSize(i.mode), i)
    ensures DecodeProgram(s, at, end)
            == var rest := DecodeProgram(s, at + ModeSize(i.mode), end);
               if rest.None? then None else Some([i] + rest.value)
  {
    hide Decode;
  }

  lemma NormalKeepsMode(i: Instruction)
    ensures Normal(i).mode == i.mode
  {
  }

  /** Sequential decoding of an encoded program, with two spare bytes behind it, gives it back. */
  lemma {:induction false} DecodeAfterEncode(p: seq<Instruction>, pad: seq<byte>, n: nat)
    requires n <= |p| && |pad| >= 2
    ensures DecodeProgram(EncodeAll(p) + pad, ProgSize(p[..n]), ProgSize(p)) == Some(NormalAll(p[n..]))
    decreases |p| - n
  {
    hide Encode, Decode, EncodeAll, ProgSize, NormalAll, Normal, ModeSize;
    if n == |p| {
      assert p[..|p|] == p && p[n..] == [];
      NothingNormal();
    } else {
      hide DecodeProgram;
      DecodeAfterEncode(p, pad, n + 1);
      FirstDecoded(p, pad, n);
      SizeStep(p, n);
      NormalKeepsMode(p[n]);
      DecodeProgramStep(EncodeAll(p) + pad, ProgSize(p[..n]), ProgSize(p), Normal(p[n]));
      NormalSplit(p, n);
    }
  }

  lemma FirstDecoded(p: seq<Instruction>, pad: seq<byte>, n: nat)
    requires n < |p| && |pad| >= 2
    ensures var at, s := ProgSize(p[..n]), EncodeAll(p) + pad;
            at + ModeSize(p[n].mode) <= ProgSize(p) &&
            Decode(s, at, |s| - at) == Got(ModeSize(p[n].mode), Normal(p[n]))
  {
    hide Encode, Decode;
    var at, s := ProgSize(p[..n]), EncodeAll(p) + pad;
    PrefixEncoded(p, n);
    var to := at + ModeSize(p[n].mode);
    assert s[at..to] == EncodeAll(p)[at..to];
    DecodeEncode(p[n], s, at, |s| - at);
  }

  /** The round trip over encodeProgram: what it leaves in its buffer decodes to what fitted. */
  lemma EncodeProgramRoundTrip(program: seq<Instruction>, buffer: seq<byte>, n: nat, pad: seq<byte>)
    requires LongestFit(program, n) && ProgSize(program[..n]) <= |buffer| && |pad| >= 2
    requires buffer[..ProgSize(program[..n])] == EncodeAll(program[..n])
    ensures DecodeProgram(buffer[..ProgSize(program[..n])] + pad, 0, ProgSize(program[..n]))
            == Some(NormalAll(program[..n]))
  {
    DecodeAfterEncode(program[..n], pad, 0);
    assert program[..n][0..] == program[..n];
  }

  // Loading

  class Binary {
    var entryPoint: uint64
    var codeSize: nat
    var dataSize: nat
    var bytecode: array<byte>
    var data: array<byte>

    /** The images are allocated with the sizes the header announces. */
    ghost predicate Valid()
      reads this
    {
      codeSize <= bytecode.Length && dataSize <= data.Length
    }

    ghost function Code(): seq<byte>
      requires Valid()
      reads this, bytecode
    {
      bytecode[..codeSize]
    }

    ghost function Data(): seq<byte>
      requires Valid()
      reads this, data
    {
      data[..dataSize]
    }

    constructor (bytecode: array<byte>, data: array<byte>)
      ensures this.bytecode == bytecode && this.data == data && Valid()
      ensures entryPoint == 0 && codeSize == 0 && dataSize == 0
    {
      this.bytecode, this.data := bytecode, data;
      entryPoint, codeSize, dataSize := 0, 0, 0;
    }
  }

  datatype Loading = Loading(status: VMError, state: State)

  /** The machine with code at start, data at the data segment and pc at the entry point. */
  function Load(s: State, entry: uint64, code: seq<byte>, data: seq<byte>, start: nat): Loading {
    if |code| + start >= DATA_BASE then Loading(VM_CODE_LOAD_OUT_OF_BOUNDS, s)
    else if |data| >= HEAP_BASE - DATA_BASE then Loading(VM_DATA_LOAD_OUT_OF_BOUNDS, s)
    else
      Loading(VM_OK, s.(mem := s.mem[..start] + code + s.mem[start + |code|..DATA_BASE]
                               + data + s.mem[DATA_BASE + |data|..],
                        pc := entry))
  }

  /** The C library's memcpy between two different buffers. */
  method CopyBytes(target: array<byte>, at: nat, source: array<byte>, n: nat)
    requires target != source && at + n <= target.Length && n <= source.Length
    modifies target
    ensures target[..] == old(target[..at]) + source[..n] + old(target[at + n..])
  {
    forall k | 0 <= k < n {
      target[at + k] := source[k];
    }
  }

  /** Two copies, the second one behind the first. */
  lemma CopiedInPlace(m0: seq<byte>, m1: seq<byte>, m2: seq<byte>, code: seq<byte>, data: seq<byte>, start: nat)
    requires |code| + start < DATA_BASE && |data| < HEAP_BASE - DATA_BASE && |m0| == MEM_SIZE
    requires m1 == m0[..start] + code + m0[start + |code|..]
    requires m2 == m1[..DATA_BASE] + data + m1[DATA_BASE + |data|..]
    ensures m2 == m0[..start] + code + m0[start + |code|..DATA_BASE] + data + m0[DATA_BASE + |data|..]
  {
    assert m1[..DATA_BASE] == m0[..start] + code + m0[start + |code|..DATA_BASE];
    assert m1[DATA_BASE + |data|..] == m0[DATA_BASE + |data|..];
  }

  method LoadProgram(vm: VM, bin: Binary, start: nat) returns (status: VMError)
    requires vm.Valid() && bin.Valid() && vm.memory != bin.bytecode && vm.memory != bin.data
    modifies vm`pc, vm.memory
    ensures vm.Valid()
    ensures Load(old(vm.View()), bin.entryPoint, bin.Code(), bin.Data(), start) == Loading(status, vm.View())
  {
    hide Chain, Records;
    if bin.codeSize + start >= DATA_BASE {
      return VM_CODE_LOAD_OUT_OF_BOUNDS;
    }
    if bin.dataSize >= HEAP_BASE - DATA_BASE {
      return VM_DATA_LOAD_OUT_OF_BOUNDS;
    }
    CopyBytes(vm.memory, start, bin.bytecode, bin.codeSize);
    ghost var m1 := vm.memory[..];
    CopyBytes(vm.memory, DATA_BASE, bin.data, bin.dataSize);
    CopiedInPlace(old(vm.memory[..]), m1, vm.memory[..], bin.Code(), bin.Data(), start);
    vm.pc := bin.entryPoint;
    return VM_OK;
  }
}
