/**
 The toolchain end to end: source lines, nodes, images, a loaded machine, a run.
 */
module Toolchain {
  import opened Common
  import opened Words
  import opened Machine
  import opened Vm
  import opened Cpu
  import opened Runs
  import opened Loader
  import opened Assembler
  import opened AssemblerLaws
  import opened Simulation
  import opened Parser
  import opened Render
  import opened RoundTrip
  import opened MemoryLaws
  import Ir

  // Reading a source file

  /** An entry of the node list; a line that is refused without an exit leaves its entry unwritten. */
  datatype Slot = Written(node: Ir.Node) | Unwritten

  /** The list a file gives, or the first line that ends the process. */
  datatype Source = Slots(slots: seq<Slot>) | Stopped(line: nat, result: LineResult)

  function ParseUpTo(lines: seq<string>, n: nat): Source
    requires n <= |lines|
  {
    hide ParseLine;
    if n == 0 then Slots([])
    else
      match ParseUpTo(lines, n - 1)
      case Stopped(k, r) => Stopped(k, r)
      case Slots(slots) =>
        match ParseLine(lines[n - 1])
        case Line(node) => Slots(slots + [Written(node)])
        case Blank => Slots(slots)
        case Rejected(_) => Slots(slots + [Unwritten])
        case UnsetLine => Slots(slots + [Unwritten])
        case Exits(e) => Stopped(n - 1, Exits(e))
        case LexExits(e) => Stopped(n - 1, LexExits(e))
  }

  method ReadProgram(lines: seq<string>) returns (source: Source)
    ensures source == ParseUpTo(lines, |lines|)
  {
    hide ParseLine;
    var slots: seq<Slot> := [];
    for i := 0 to |lines|
      invariant ParseUpTo(lines, i) == Slots(slots)
    {
      var r := ReadLine(lines[i]);
      match r
      case Line(node) => slots := slots + [Written(node)];
      case Blank =>
      case Rejected(_) => slots := slots + [Unwritten];
      case UnsetLine => slots := slots + [Unwritten];
      case Exits(_) => StoppedStays(lines, i + 1, |lines|); return Stopped(i, r);
      case LexExits(_) => StoppedStays(lines, i + 1, |lines|); return Stopped(i, r);
    }
    return Slots(slots);
  }

  lemma {:induction false} StoppedStays(lines: seq<string>, i: nat, n: nat)
    requires i <= n <= |lines| && ParseUpTo(lines, i).Stopped?
    ensures ParseUpTo(lines, n) == ParseUpTo(lines, i)
  {
    hide ParseLine;
    if i < n { StoppedStays(lines, i, n - 1); }
  }

  /** A program's text, each line with a spacing and comment of its own. */
  function RenderProgram(ir: Program, layout: seq<Spacing>): seq<string>
    requires |layout| == |ir|
  {
    seq(|ir|, k requires 0 <= k < |ir| => RenderSpaced(ir[k], layout[k]))
  }

  /** A file that gives exactly the nodes of a program. */
  function Listing(ir: Program): Source {
    Slots(seq(|ir|, k requires 0 <= k < |ir| => Written(ir[k])))
  }

  lemma ListingIsExact(ir: Program, ir2: Program)
    ensures Listing(ir) == Listing(ir2) <==> ir == ir2
  {
    if Listing(ir) == Listing(ir2) {
      forall k | 0 <= k < |ir|
        ensures ir[k] == ir2[k]
      {
        assert Listing(ir).slots[k] == Listing(ir2).slots[k];
      }
    }
  }

  /**
   Rendering a whole program, however it is spaced and commented, and parsing it gives the program back,
   if every node is readable.
   */
  lemma {:induction false} ProgramReadsBack(ir: Program, layout: seq<Spacing>, n: nat)
    requires n <= |ir| == |layout| && forall k :: 0 <= k < n ==> WellFormed(ir[k]) && ProperSpacing(layout[k])
    ensures ParseUpTo(RenderProgram(ir, layout), n) == Listing(ir[..n])
            <==> forall k :: 0 <= k < n ==> !Unreadable(ir[k])
    ensures ParseUpTo(RenderProgram(ir, layout), n) != Listing(ir[..n])
            ==> ParseUpTo(RenderProgram(ir, layout), n).Stopped?
  {
    hide WellFormed, Unreadable, RenderSpaced, ParseLine, ProperSpacing;
    if n > 0 {
      ProgramReadsBack(ir, layout, n - 1);
      ParseSpaced(ir[n - 1], layout[n - 1]);
      assert RenderProgram(ir, layout)[n - 1] == RenderSpaced(ir[n - 1], layout[n - 1]);
      assert ir[..n] == ir[..n - 1] + [ir[n - 1]];
      assert Listing(ir[..n]).slots == Listing(ir[..n - 1]).slots + [Written(ir[n - 1])];
    }
  }

  function ReadAll(lines: seq<string>): Source {
    ParseUpTo(lines, |lines|)
  }

  lemma {:induction false} SamePrefix(a: seq<string>, b: seq<string>, n: nat)
    requires n <= |a| && n <= |b| && a[..n] == b[..n]
    ensures ParseUpTo(a, n) == ParseUpTo(b, n)
  {
    hide ParseLine;
    if n > 0 {
      assert a[..n - 1] == a[..n][..n - 1] && b[..n - 1] == b[..n][..n - 1] && a[n - 1] == a[..n][n - 1];
      SamePrefix(a, b, n - 1);
    }
  }

  /** What two files give one after the other: the entries of both in order, up to the first line that exits. */
  lemma {:induction false} FilesConcatenate(a: seq<string>, b: seq<string>)
    ensures ReadAll(a + b)
            == match ReadAll(a)
               case Stopped(k, r) => Stopped(k, r)
               case Slots(first) =>
                 match ReadAll(b)
                 case Stopped(k, r) => Stopped(|a| + k, r)
                 case Slots(rest) => Slots(first + rest)
    decreases |b|
  {
    hide ParseLine;
    if b == [] {
      assert a + b == a;
    } else {
      var n := |b| - 1;
      FilesConcatenate(a, b[..n]);
      assert a + b == a + b[..n] + [b[n]];
      SamePrefix(a + b, a + b[..n], |a| + n);
      SamePrefix(b, b[..n], n);
    }
  }

  /**
   What one line gives: a node's entry, nothing for a blank line, an entry that is never written for a
   line that is refused, and no list at all when the line ends the process.
   */
  lemma OneLine(line: string)
    ensures ReadAll([line])
            == match ParseLine(line)
               case Line(node) => Slots([Written(node)])
               case Blank => Slots([])
               case Rejected(_) => Slots([Unwritten])
               case UnsetLine => Slots([Unwritten])
               case Exits(e) => Stopped(0, Exits(e))
               case LexExits(e) => Stopped(0, LexExits(e))
  {
    hide ParseLine;
    assert ParseUpTo([line], 0) == Slots([]);
  }

  /** A blank line anywhere leaves no trace in the list, and moves a line behind it that exits by one. */
  lemma BlankLinesVanish(before: seq<string>, blank: string, after: seq<string>)
    requires ParseLine(blank) == Blank
    ensures ReadAll(before + [blank] + after)
            == match ReadAll(before + after)
               case Slots(slots) => Slots(slots)
               case Stopped(k, r) => Stopped(if ReadAll(before).Stopped? then k else k + 1, r)
  {
    hide ParseLine, ParseUpTo, ReadAll;
    OneLine(blank);
    FilesConcatenate(before, [blank]);
    FilesConcatenate(before + [blank], after);
    FilesConcatenate(before, after);
  }

  // The loaded machine

  function Table(ir: Program): seq<Symbol> {
    Symbols(ir, |ir|)
  }

  /** The fresh machine with the program's images loaded. */
  ghost function Loaded(ir: Program): Loading
    requires AllTyped(ir)
  {
    Load(Initial(), EntryPoint(ir, Table(ir), |ir|, 0),
         CodeImage(ir, Table(ir), |ir|), DataImage(ir, Table(ir), |ir|), 0)
  }

  /** Loading at any start: the images that fit stand at start and at DATA_BASE, every other byte is kept. */
  lemma LoadInPlace(s: State, entry: uint64, code: seq<byte>, data: seq<byte>, start: nat, k: nat)
    requires start + |code| < DATA_BASE && |data| < HEAP_BASE - DATA_BASE && k < MEM_SIZE
    ensures var r := Load(s, entry, code, data, start);
            && r.status == VM_OK && r.state == s.(mem := r.state.mem, pc := entry)
            && r.state.mem[start..start + |code|] == code && r.state.mem[DATA_BASE..DATA_BASE + |data|] == data
            && (!(start <= k < start + |code|) && !(DATA_BASE <= k < DATA_BASE + |data|) ==>
                  r.state.mem[k] == s.mem[k])
  {
    var m := Load(s, entry, code, data, start).state.mem;
    assert m[start..start + |code|] == code;
    assert m[DATA_BASE..DATA_BASE + |data|] == data;
  }

  /** Code that would reach the data segment is refused first, then data that would reach the heap. */
  lemma LoadRefused(s: State, entry: uint64, code: seq<byte>, data: seq<byte>, start: nat)
    ensures start + |code| >= DATA_BASE ==>
              Load(s, entry, code, data, start) == Loading(VM_CODE_LOAD_OUT_OF_BOUNDS, s)
    ensures start + |code| < DATA_BASE && DATA_BASE + |data| >= HEAP_BASE ==>
              Load(s, entry, code, data, start) == Loading(VM_DATA_LOAD_OUT_OF_BOUNDS, s)
  {
  }

  /** Images that fit are in place after loading, and nothing but memory and pc has changed. */
  lemma LoadedInPlace(ir: Program)
    requires Assembles(ir)
    ensures Loaded(ir).status == VM_OK && HoldsCode(Loaded(ir).state.mem, ir)
    ensures Loaded(ir).state.mem[DATA_BASE..DATA_BASE + DataOffset(ir, |ir|)] == DataImage(ir, Table(ir), |ir|)
    ensures Loaded(ir).state == Initial().(mem := Loaded(ir).state.mem, pc := EntryPoint(ir, Table(ir), |ir|, 0))
  {
    hide Load, CodeImage, DataImage, EntryPoint, AcceptedUpTo, EmittedUpTo, Initial, Symbols, TextAddr, DataOffset;
    LoadInPlace(Initial(), EntryPoint(ir, Table(ir), |ir|, 0),
                CodeImage(ir, Table(ir), |ir|), DataImage(ir, Table(ir), |ir|), 0, 0);
  }

  /** What a word directive stands for. */
  function WordValue(ir: Program, n: Ir.Node): int64
    requires n.Dir? && (n.arg.Number? || n.arg.Ident?)
  {
    if n.arg.Number? then n.arg.v else ToArg(NameAddress(ir, Some(n.arg.name)))
  }

  lemma WordBytes(ir: Program, n: Ir.Node)
    requires n.Dir? && (n.dir == Ir.WORD || n.dir == Ir.ADDR) && Typed(n)
    ensures DataBytes(n) == 8 && DataOf(n, Table(ir)) == Bytes(ToU(WordValue(ir, n)), 8)
  {
    hide Symbols, LookUp, LabelIndex, AddressAt, Bytes;
    if n.arg.Ident? { TableIsComplete(ir, n.arg.name); }
  }

  /** A word directive's value can be read back at its address once the program is loaded. */
  lemma WordReadsBack(ir: Program, k: nat)
    requires Assembles(ir) && k < |ir| && ir[k].Dir? && (ir[k].dir == Ir.WORD || ir[k].dir == Ir.ADDR)
    ensures DATA_BASE + DataOffset(ir, k) + 8 <= HEAP_BASE && Typed(ir[k])
    ensures Load64(Loaded(ir).state.mem, DATA_BASE + DataOffset(ir, k)) == WordValue(ir, ir[k])
  {
    hide Loaded, DataOf, DataBytes, WordValue, Load64, EmittedUpTo, AcceptedUpTo, Table, DataOffset, TextAddr;
    NodeInMemory(ir, k);
    WordBytes(ir, ir[k]);
    BytesLoad(Loaded(ir).state.mem, DATA_BASE + DataOffset(ir, k), WordValue(ir, ir[k]));
  }

  /** The bytes of a data node stand at its offset in the loaded data segment. */
  lemma NodeInMemory(ir: Program, k: nat)
    requires Assembles(ir) && k < |ir|
    ensures DATA_BASE + DataOffset(ir, k) + DataBytes(ir[k]) <= HEAP_BASE && Typed(ir[k])
    ensures var off := DATA_BASE + DataOffset(ir, k);
            Loaded(ir).state.mem[off..off + DataBytes(ir[k])] == DataOf(ir[k], Table(ir))
  {
    hide Loaded, HoldsCode, DataImage, DataOf, DataBytes, EmittedUpTo, AcceptedUpTo, Table, DataOffset, TextAddr;
    LoadedInPlace(ir);
    NodeData(ir, Table(ir), k);
    var off := DataOffset(ir, k);
    ImageSlice(Loaded(ir).state.mem, DataImage(ir, Table(ir), |ir|), off, off + DataBytes(ir[k]));
  }

  /** A .string is in memory character for character, each as one byte, and a zero byte follows it. */
  lemma StringReadsBack(ir: Program, k: nat, j: nat)
    requires Assembles(ir) && k < |ir| && ir[k].Dir? && ir[k].dir == Ir.STRING
    ensures ir[k].arg.Text? && DATA_BASE + DataOffset(ir, k) + |ir[k].arg.text| < HEAP_BASE
    ensures var mem, off, text := Loaded(ir).state.mem, DATA_BASE + DataOffset(ir, k), ir[k].arg.text;
            && (j < |text| ==> mem[off + j] as int == text[j] as int % 256)
            && mem[off + |text|] == 0
  {
    hide Loaded, EmittedUpTo, AcceptedUpTo, Table, DataOffset, TextAddr;
    NodeInMemory(ir, k);
    var mem, off, text := Loaded(ir).state.mem, DATA_BASE + DataOffset(ir, k), ir[k].arg.text;
    var slice := mem[off..off + |text| + 1];
    assert slice[|text|] == mem[off + |text|];
    if j < |text| { assert slice[j] == mem[off + j]; }
  }

  /** A .byte is in memory as the low byte of its value. */
  lemma ByteReadsBack(ir: Program, k: nat)
    requires Assembles(ir) && k < |ir| && ir[k].Dir? && ir[k].dir == Ir.BYTE
    ensures ir[k].arg.Number? && DATA_BASE + DataOffset(ir, k) < HEAP_BASE
    ensures Loaded(ir).state.mem[DATA_BASE + DataOffset(ir, k)] as int == ir[k].arg.v as int % 256
  {
    hide Loaded, EmittedUpTo, AcceptedUpTo, Table, DataOffset, TextAddr;
    NodeInMemory(ir, k);
    var mem, off := Loaded(ir).state.mem, DATA_BASE + DataOffset(ir, k);
    assert mem[off..off + 1][0] == mem[off];
    LowByteOf(ir[k].arg.v);
  }

  lemma LowByteOf(v: int64)
    ensures ToU(v) % 256 == v % 256
  {
  }

  lemma ImageSlice(m: Memory, image: seq<byte>, i: nat, j: nat)
    requires i <= j <= |image| && DATA_BASE + |image| <= MEM_SIZE
    requires m[DATA_BASE..DATA_BASE + |image|] == image
    ensures m[DATA_BASE + i..DATA_BASE + j] == image[i..j]
  {
    forall k | i <= k < j
      ensures m[DATA_BASE + k] == image[k]
    {
      assert m[DATA_BASE..DATA_BASE + |image|][k] == m[DATA_BASE + k];
    }
    assert m[DATA_BASE + i..DATA_BASE + j] == image[i..j];
  }

  lemma BytesLoad(m: Memory, at: nat, v: int64)
    requires at + 8 <= MEM_SIZE && m[at..at + 8] == Bytes(ToU(v), 8)
    ensures Load64(m, at) == v
  {
    hide Load64, Bytes;
    assert m == m[..at] + m[at..at + 8] + m[at + 8..];
    assert Store64(m, at, v) == m;
    ReadAfterWrite(m, at, v);
  }

  // The entry point

  /** The last entry directive before node n. */
  function EntryName(ir: Program, n: nat): Option<string>
    requires n <= |ir|
  {
    if n == 0 then None
    else if ir[n - 1].Dir? && ir[n - 1].dir == Ir.ENTRY && ir[n - 1].arg.Ident? then Some(ir[n - 1].arg.name)
    else EntryName(ir, n - 1)
  }

  /** Where the run starts: at the first instruction behind the entry label, or at the first of all. */
  function StartNode(ir: Program): Option<nat> {
    match EntryName(ir, |ir|)
    case None => Some(InstrFrom(ir, 0))
    case Some(name) =>
      var j := LabelIndex(ir, name);
      if j.Some? && SectionAt(ir, j.value) != SECTION_DATA then Some(InstrFrom(ir, j.value)) else None
  }

  lemma {:induction false} EntryIsNamed(ir: Program, n: nat)
    requires n <= |ir|
    ensures EntryPoint(ir, Table(ir), n, 0) == WrapU(NameAddress(ir, EntryName(ir, n)))
  {
    hide Symbols, LookUp, LabelIndex, AddressAt;
    if n > 0 {
      EntryIsNamed(ir, n - 1);
      if ir[n - 1].Dir? && ir[n - 1].dir == Ir.ENTRY && ir[n - 1].arg.Ident? {
        TableIsComplete(ir, ir[n - 1].arg.name);
      }
    }
  }

  lemma StartAddress(ir: Program)
    requires StartNode(ir).Some?
    ensures StartNode(ir).value <= |ir|
    ensures NameAddress(ir, EntryName(ir, |ir|)) == TextAddr(ir, StartNode(ir).value) <= TextAddr(ir, |ir|)
  {
    hide LabelIndex, TextAddr, DataOffset, EntryName, SectionAt;
    var name := EntryName(ir, |ir|);
    var j := if name.Some? then LabelIndex(ir, name.value).value else 0;
    InstrFromAddr(ir, j);
    AddressesGrow(ir, j, |ir|);
    if name.None? { assert TextAddr(ir, 0) == 0 by { NoCodeYet(ir); } }
  }

  lemma NoCodeYet(ir: Program)
    ensures TextAddr(ir, 0) == 0
  {
  }

  /** A program starts at its entry label's first instruction. */
  lemma StartsAtEntry(ir: Program)
    requires Assembles(ir) && StartNode(ir).Some?
    ensures StartNode(ir).value <= |ir| && Loaded(ir).state.pc == TextAddr(ir, StartNode(ir).value)
  {
    hide Loaded, HoldsCode, EntryPoint, AcceptedUpTo, EmittedUpTo, StartNode, NameAddress, TextAddr;
    LoadedInPlace(ir);
    EntryIsNamed(ir, |ir|);
    StartAddress(ir);
  }

  lemma DataEntryAddress(ir: Program)
    requires Assembles(ir) && StartNode(ir).None?
    ensures DATA_BASE <= NameAddress(ir, EntryName(ir, |ir|)) < TWO64
  {
    hide LabelIndex, TextAddr, DataOffset, EntryName, AcceptedUpTo, EmittedUpTo, InstrFrom, SectionAt;
    EntryIsDefined(ir, |ir|);
    var j := LabelIndex(ir, EntryName(ir, |ir|).value).value;
    AddressesGrow(ir, j, |ir|);
  }

  /** An entry label in the data section makes the first cycle fail, with nothing changed. */
  lemma DataEntryFails(ir: Program)
    requires Assembles(ir) && StartNode(ir).None?
    ensures Step(Loaded(ir).state) == Done(VM_INVALID_EXECUTION_ADDRESS, Loaded(ir).state)
  {
    hide Loaded, HoldsCode, StartNode, NameAddress, EntryPoint, AcceptedUpTo, EmittedUpTo, Step, TextAddr, DataOffset;
    LoadedInPlace(ir);
    EntryIsNamed(ir, |ir|);
    DataEntryAddress(ir);
    OutsideCode(Loaded(ir).state);
  }

  lemma {:induction false} EntryIsDefined(ir: Program, n: nat)
    requires Assembles(ir) && n <= |ir| && EntryName(ir, n).Some?
    ensures LabelIndex(ir, EntryName(ir, n).value).Some?
  {
    hide LabelIndex, Symbols, LookUp, AcceptedUpTo;
    if ir[n - 1].Dir? && ir[n - 1].dir == Ir.ENTRY && ir[n - 1].arg.Ident? {
      assert SecondPassError(ir, Table(ir), n - 1) == Returned(ASM_OK);
      TableIsComplete(ir, ir[n - 1].arg.name);
    } else {
      EntryIsDefined(ir, n - 1);
    }
  }

  // End to end

  /**
   The machine that has loaded an assembled program runs it, for any number of cycles and wherever
   control goes, as one that takes the symbolic step at every node address it comes to.
   */
  lemma LoadedRunSimulates(ir: Program, n: nat)
    requires Assembles(ir) && CalmRun(Loaded(ir).state, n)
    ensures Run(Loaded(ir).state, n) == MixedRun(ir, Loaded(ir).state, n)
  {
    hide Loaded, HoldsCode, AcceptedUpTo, EmittedUpTo, CalmRun, Run, MixedRun;
    LoadedInPlace(ir);
    RunSimulates(ir, Loaded(ir).state, n);
  }

  /** The same from the source text, however it is spaced and commented: render, parse, assemble, load and run. */
  lemma SourceRunSimulates(ir: Program, layout: seq<Spacing>, n: nat)
    requires |layout| == |ir|
    requires forall k :: 0 <= k < |ir| ==> WellFormed(ir[k]) && !Unreadable(ir[k]) && ProperSpacing(layout[k])
    requires Assembles(ir) && CalmRun(Loaded(ir).state, n)
    ensures ReadAll(RenderProgram(ir, layout)) == Listing(ir)
    ensures Run(Loaded(ir).state, n) == MixedRun(ir, Loaded(ir).state, n)
  {
    hide Loaded, CalmRun, Run, MixedRun, WellFormed, Unreadable, ProperSpacing;
    ProgramReadsBack(ir, layout, |ir|);
    assert ir[..|ir|] == ir;
    LoadedRunSimulates(ir, n);
  }

  /**
   From an entry in the text section, and while control stays on instruction nodes, it runs as the
   symbolic machine alone.
   */
  lemma LoadedRunIsSymbolic(ir: Program, n: nat)
    requires Assembles(ir) && StartNode(ir).Some?
    requires SteadyRun(ir, StartNode(ir).value, Loaded(ir).state, n)
    requires SymRun(ir, StartNode(ir).value, Loaded(ir).state, n).Within?
    ensures Run(Loaded(ir).state, n) == SymRun(ir, StartNode(ir).value, Loaded(ir).state, n).outcome
  {
    hide Loaded, HoldsCode, AcceptedUpTo, EmittedUpTo, SteadyRun, StartNode, Run, SymRun;
    LoadedInPlace(ir);
    StartsAtEntry(ir);
    RunIsSymbolic(ir, StartNode(ir).value, Loaded(ir).state, n);
  }

  /**
   Conditions on the text alone: a program that cannot overwrite code, whose transfers all name
   labels, that does not run off its end and that leaves the decoder its room runs, for any number
   of cycles, exactly as the symbolic machine.
   */
  lemma NamedProgramIsSymbolic(ir: Program, n: nat)
    requires Assembles(ir) && SafeProgram(ir) && NamesTransfers(ir) && EndsInside(ir)
    requires TextAddr(ir, |ir|) <= DATA_BASE - 3
    requires StartNode(ir).Some? && StartNode(ir).value < |ir|
    ensures var symbolic := SymRun(ir, StartNode(ir).value, Loaded(ir).state, n);
            symbolic.Within? && Run(Loaded(ir).state, n) == symbolic.outcome
  {
    hide Loaded, AcceptedUpTo, EmittedUpTo, SteadyRun, NamesTransfers, EndsInside, SafeProgram, HasRoom, Run, SymRun;
    RoomForAll(ir);
    SafeProgramIsSteady(ir, StartNode(ir).value, Loaded(ir).state, n);
    StaysOnNodes(ir, StartNode(ir).value, Loaded(ir).state, n);
    LoadedRunIsSymbolic(ir, n);
  }

  /**
   Both passes, the loader and the run loop in sequence. Nothing is run when a pass fails; images
   that do not fit are refused by the loader.
   */
  method AssembleAndRun(ir: Program, vm: VM, limit: nat) returns (build: PassResult, ending: Ending)
    requires AllTyped(ir) && vm.Valid() && vm.View() == Initial()
    requires Assembles(ir) ==> Run(Loaded(ir).state, limit) != Stuck(UndefinedBehaviour)
    modifies vm, vm.registers, vm.memory, vm.nodes
    ensures vm.Valid()
    ensures build == Returned(ASM_OK) <==> Accepted(ir) && EmittedUpTo(ir, Table(ir), |ir|)
    ensures Accepted(ir) ==> build == Returned(ASM_OK) || build == Returned(ASM_LABEL_UNDEFINED)
    ensures build != Returned(ASM_OK) ==> vm.View() == Initial()
    ensures build == Returned(ASM_OK) && !Assembles(ir) ==>
              ending == Status(Loaded(ir).status) && Loaded(ir).status != VM_OK && vm.View() == Initial()
    ensures Assembles(ir) ==> Run(Loaded(ir).state, limit) == Observed(ending, vm.View())
  {
    hide Run, Load, Step, Chain, Records, CodeImage, DataImage, EntryPoint, Initial;
    hide TextAddr, DataOffset, Symbols, AcceptedUpTo, EmittedUpTo, FirstPassReports, SecondPassReports;
    ending := Status(VM_OK);
    var code, data := new byte[0], new byte[0];
    var bin := new Binary(code, data);
    var ass := new Assembly(bin);
    build := FirstPass(ass, ir);
    ReportsDecide(ir, Table(ir), build, build);
    if build != Returned(ASM_OK) {
      return;
    }
    build := SecondPass(ass, ir);
    ReportsDecide(ir, Table(ir), build, build);
    PassesAgreeOnLists(ir, build);
    if build != Returned(ASM_OK) {
      return;
    }
    var status := LoadProgram(vm, bin, 0);
    assert Loaded(ir) == Loading(status, vm.View());
    LoadingFits(ir);
    if status != VM_OK {
      return build, Status(status);
    }
    ending := VmRun(vm, limit);
  }

  lemma LoadingFits(ir: Program)
    requires AllTyped(ir) && Accepted(ir) && EmittedUpTo(ir, Table(ir), |ir|)
    ensures Loaded(ir).status == VM_OK <==> Assembles(ir)
    ensures Loaded(ir).status != VM_OK ==> Loaded(ir).state == Initial()
  {
    hide CodeImage, DataImage, EntryPoint, AcceptedUpTo, EmittedUpTo;
  }
}
