# BSVM in Dafny

BSVM is a toolchain around a 64-bit register machine: a lexer and line parser, a two-pass
assembler, a variable-length instruction codec, a loader, and a virtual machine with flags, a
stack, segmented memory and a heap kept as a linked list of blocks. This project models those
layers so that they compose, and proves what holds of them over all programs, all states and
all runs. `dafny verify dfyconfig.toml` checks every file.

## How it is organised

Each layer has two faces. One is a specification on values: functions from a state, a text or a
node list to a result. The other is the code itself in its own imperative form (classes whose
methods update fields, arrays and a linked list in place, loops over buffers), proved to compute
exactly that specification. The laws are lemmas about the specification.

| layer | specification | imperative form | laws |
|---|---|---|---|
| words, instruction set | `Words`, `Isa` | | `Words` |
| machine | `Machine` | `Vm`, `MemoryUnit`, `StatusRegister`, `AluHandlers`, `DataHandlers`, `ControlHandlers`, `Syscalls`, `Dispatch` | `Effects`, `SyscallLaws`, `MemoryLaws`, `InstructionLaws`, `Compare`, `Invariants`, `Calls` |
| heap | `Heap` | `Allocator` | `HeapLaws` |
| codec, loader, fetch | `Codec`, `Loader`, `Cpu` | the methods of the same modules | `Codec`, `Loader`, `Runs` |
| assembler | `Ir`, `Assembler` | the methods of `Assembler` | `Acceptance`, `AssemblerLaws`, `Simulation`, `NodeEffects`, `Subroutines` |
| lexer, parser | `Lexer`, `Parser` | the methods of the same modules | `Render`, `RoundTrip`, `Refusals` |
| all together | `Toolchain` | `ReadProgram`, `AssembleAndRun` | `Toolchain`, `Example`, `FasExample` |

In `Machine`, the operand of an instruction is fetched by its addressing mode and one rule per
operation is applied, with flags stated in exact integer arithmetic. The hundred-odd handlers
are methods on the machine object, each proved against that one rule, and so are the dispatch
tables. An outcome is `Done(status, state)`, or `Stuck` where the C program has no defined
continuation inside the machine: undefined behaviour, the decoder's `exit`, a foreign syscall. The
methods return an `Ending`, a status or the way control left; only undefined behaviour is excluded
by their preconditions.

`Effects` and `SyscallLaws` say what every instruction does without naming those rules: which
register holds which integer afterwards, which bytes and flag bits change, where each mode finds its
operand, which error comes first, and that nothing else changes. `Acceptance` does the same for what
the assembler accepts and makes of each operand kind, and `NodeEffects` joins the two at the source.

In `Simulation`, the symbolic machine's program counter is a node of the list, labels are found
by name, falling through means the next instruction node, and a transfer to the instruction's
own address falls through, as `src/runtime/cpu.c:30` makes it. The theorem chain goes from the
layout of nodes, through the bytes the second pass emits and what fetching decodes, to whole
runs, and in `Toolchain` to rendered source text. Control may leave the nodes, by a computed
transfer into the middle of an instruction, and come back: `MixedRun` follows the bytes in between
and takes the symbolic step at every node address. `SymRun` needs no bytes at all and covers the
runs that never leave; which programs those are for certain is decided on their text, and
`Subroutines` shows it of well-bracketed calls and returns.

## Where code and intention part

The model follows the code. Each of these is stated exactly rather than assumed away:

- The decoder subtracts 2 from its room and then compares it with the full instruction size, and
  fetching passes one byte less than the segment. A node therefore needs *fetch room*; code that
  ends at or below `DATA_BASE - 3` has it everywhere (`Simulation.RoomForAll`), and without it a
  step is `VM_TRUNCATED_INSTR` (`Simulation.StepSimulates`); the loader accepts such programs
  (`Example.FullSegmentFits`).
- The decoder or-s the argument into its target: on which targets that is harmless
  (`Codec.DecodeNeedsZeroedTarget`), and one on which it is not (`Codec.DirtyTargetExample`).
- Indirect FAS stores at the register's number and so reaches the code segment
  (`FasExample.RewriterRewrites`); indexed FAS with equal registers computes its second address from the
  loaded value and can fail half done (`Runs.FailureIsAtomic`, `FasExample.FailureLeavesATrace`).
- Indirect JNE tests the opposite polarity, and no other mode does (`Compare.JneByInequality`).
- ADD's carry compares signed values: what it means (`Compare.AddCarryMeaning`), when it is the
  unsigned carry (`Compare.AddCarryIsUnsigned`), and an input for which it is not.
- An exact-fit allocation leaves an empty block that shares its neighbour's begin, and free takes
  the first block with that begin: when free and alloc-then-free do what one expects
  (`HeapLaws.FreeLaw`, `HeapLaws.AllocThenFree`), a reachable heap in which a release is lost, and
  a reachable empty allocation at `STACK_BASE` that free refuses (`HeapLaws.UnfreeableAllocation`).
- `[-k]` is never accepted, and `[name]` reads the end of the line itself, so it cannot stand
  before a second operand (`RoundTrip.ParseAfterRender`). A bracketed 2^63 wraps to a negative
  address that no line can be rendered for (`RoundTrip.OverflowedAddress`). The escaped quote stands for a tab.

The repository's README disagrees with its code here, and the model follows the code: the README
lists an immediate SWP, which has no handler; it gives `read` the id 2, which the table has at
index 1; it has PUSH store before it moves the stack pointer; and it lists memset's arguments in
an order that, pushed as its own example pushes arguments, exchanges address and value.

## Model

| member | source | states |
|---|---|---|
| Toolchain.SourceRunSimulates | src/runtime/cpu.c:10-35 | End to end, wherever control goes: a readable program that both passes accept, written in any spacing with any comments and parsed, is read back node for node, and once assembled and loaded every run whose executed instructions leave the code segment alone equals the run that takes the symbolic step at every node address it comes to |
| Toolchain.LoadedRunSimulates | src/runtime/loader.c:40-56 | The same from the node list on |
| Toolchain.LoadedRunIsSymbolic | src/runtime/loader.c:40-56 | With no entry directive or an entry label in the text section, and in runs in which control stays on instruction nodes that have their fetch room and leave the code alone, the run is that of the symbolic machine from the entry label, to the same status and state |
| Toolchain.NamedProgramIsSymbolic | src/runtime/loader.c:40-56 | Conditions on the text alone: no RST, indirect FAS or indexed FAS with equal registers, every transfer names a label that an instruction follows, no RTN, the last instruction is a HALT or a JMP or CALL elsewhere, code ends at or below DATA_BASE - 3, the entry is an instruction; then every run, of any length, is the symbolic machine's |
| Simulation.RunSimulates | src/runtime/cpu.c:10-35 | Whole-run simulation: from any state holding the code image, any run of any length whose executed instructions leave the code segment alone equals the run that takes the symbolic step at node addresses and decodes bytes elsewhere |
| Simulation.EveryNodeStepIsSymbolic | src/runtime/cpu.c:10-35 | In any such run, at whatever moment pc is the layout address of node i, the step is the symbolic step at node i, or VM_TRUNCATED_INSTR without fetch room |
| Simulation.RunIsSymbolic | src/runtime/cpu.c:10-35 | While control stays on instruction nodes that have their fetch room and leave the code alone, the machine and the symbolic machine run in lockstep and end with the same status in the same state |
| Simulation.StaysOnNodes | src/runtime/cpu.c:29-34 | Programs without RTN and RST, whose jumps and calls all name labels that an instruction follows and that do not run off their end, never leave their nodes |
| Simulation.StepStays | src/runtime/cpu.c:29-34 | One step at a node that is no RTN or RST, whose transfer is named and that cannot run off the end, goes to an instruction node, stops the machine, or fails |
| Subroutines.CallReturnsToNode | src/runtime/instructions.c:1302-1451 | A CALL at node i whose bracket closes resumes at the first instruction node behind it (just behind the RTN when the RTN sits there), with sp and the stack restored |
| Subroutines.BodyStaysOnNodes | src/runtime/instructions.c:1200-1451 | Programs with subroutines: from an instruction node every well-bracketed stretch of CALL, PUSH, POP and RTN of any depth that leaves the machine running ends at an instruction node with the program in memory, for programs that cannot overwrite code, whose jumps and calls all name labels that an instruction follows and whose last instruction is a HALT, a JMP elsewhere or an RTN not behind a CALL |
| Subroutines.BracketStaysOnNodes | src/runtime/instructions.c:1302-1451 | The same for one bracket |
| Subroutines.StoppedStaysStopped | src/runtime/instructions.c:1462-1467 | No instruction but RST (TRAP apart) starts a stopped machine |
| Simulation.LeftToFallThrough | src/runtime/cpu.c:29-34 | Which instructions leave pc to the fall-through, and that a closing HALT, JMP or CALL does not run past the end |
| Simulation.SafeProgramIsSteady | src/runtime/cpu.c:10-35 | Every run of a program without RST, indirect FAS and indexed FAS with equal registers, each node having its fetch room, is such a run |
| Simulation.StepSimulates | src/runtime/cpu.c:10-35 | One step at a node: with fetch room the machine steps as the symbolic machine does (labels by name, fall-through to the next instruction node, own-address transfers fall through); without it the step is VM_TRUNCATED_INSTR and changes nothing |
| Simulation.FetchesNode | src/runtime/cpu.c:12-20 | The bytes at the layout address of node i decode to the symbolic instruction of node i exactly when the node has its fetch room |
| Simulation.SameInstr | src/toolchain/assembler.c:285-318 | The instruction emitted through the symbol table is the one with names resolved by position in the list |
| Simulation.ImmediateTransfer | src/runtime/instructions.c:1303-1322 | A successful immediate jump or call either leaves pc or arrives at its argument, which lies in the code segment |
| Simulation.DirectTarget | src/toolchain/assembler.c:285-318 | A jump or call that names a label and transfers lands on the layout address of the label's definition |
| Simulation.DirectedIsAdvance | src/runtime/cpu.c:29-34 | Where the symbolic machine goes next is laid out where the real pc arrives, fall-through included |
| Simulation.SymStepLands | src/runtime/cpu.c:29-34 | The symbolic machine only ever goes to instruction nodes or the end of the list, with pc at their address |
| Simulation.NodesAreApart | src/toolchain/assembler.c:199-209 | Different instruction nodes have different addresses |
| Simulation.NodeAtOwnAddress | src/toolchain/assembler.c:199-209 | Looking up the address of an instruction node finds that node |
| Simulation.LeavesForNoNode | src/runtime/cpu.c:29-34 | The symbolic machine stops following only when pc is the address of no instruction node |
| Simulation.RoomForAll | src/runtime/instructions_codec.c:85-88 | Code that ends at or below DATA_BASE - 3 gives every node its fetch room |
| Simulation.StepHoldsCode | src/runtime/cpu.c:10-35 | A step at a node whose execution leaves the code segment alone keeps the code image in memory |
| Toolchain.LoadedInPlace | src/runtime/loader.c:40-56 | After loading both images are in place and nothing but memory and pc differs from the fresh machine |
| Toolchain.WordReadsBack | src/toolchain/assembler.c:247-263 | A .word or .addr directive's value (for .addr with a name, the address of the label) can be read back at its data address once the program is loaded |
| Toolchain.StringReadsBack | src/toolchain/assembler.c:271-273 | A .string stands in the loaded data segment character for character, each as its low byte, with a zero byte behind the last one |
| Toolchain.ByteReadsBack | src/toolchain/assembler.c:243-246 | A .byte stands there as the low byte of its value |
| Toolchain.LoadInPlace | src/runtime/loader.c:50-53 | For any start address: both images stand in their places, pc is the entry point, and every other byte and field is kept |
| Toolchain.LoadRefused | src/runtime/loader.c:43-48 | Which of the two errors refuses images that do not fit, with nothing changed |
| NodeEffects.LoadAtNode | src/runtime/instructions.c:1067-1122 | A step at an accepted node LD Ra, operand leaves in Ra what the operand is worth as it is written: a number, a label's address, a register, or in brackets the word at a number, a label, a label plus offset, a register, or a register plus offset; pc is the next node's address |
| NodeEffects.LabelledWord | src/toolchain/assembler.c:301-317 | With `x: .word v` in the loaded program, LD Ra, [x] leaves v in Ra and LD Ra, x leaves the address at which v stands |
| NodeEffects.NodeReads | src/toolchain/assembler.c:283-317 | The instruction of any accepted two-operand node reads as its second operand what the node's second operand is worth |
| NodeEffects.DataLabelAddress | src/toolchain/assembler.c:154-166 | A label in the data section stands for the offset of the first data directive behind it |
| Toolchain.StartsAtEntry | src/toolchain/assembler.c:266-270 | After loading, pc is the address of the first instruction behind the entry label, or of the first instruction when there is no entry directive |
| Toolchain.DataEntryFails | src/runtime/cpu.c:12-14 | An entry label in the data section makes the first cycle return VM_INVALID_EXECUTION_ADDRESS with nothing changed |
| Toolchain.LoadingFits | src/runtime/loader.c:43-48 | Loading succeeds exactly when both images are shorter than their segments; otherwise the machine is untouched |
| Toolchain.AssembleAndRun | src/runtime/loader.c:40-56 | First pass, second pass, loader and run loop in sequence: the build succeeds exactly when both passes accept, and past the first pass can only report an undefined label; a failed build or load leaves the fresh machine; otherwise ending and machine are those of Run on the loaded state, exits and host syscalls included |
| Toolchain.ReadProgram | src/toolchain/parser.c:564-610 | Reads lines in order: nodes are listed, blank lines dropped, a line refused without an exit takes an entry that is never written, and the first line that exits ends the run |
| Toolchain.ProgramReadsBack | src/toolchain/parser.c:564-610 | Writing a whole program line by line, each line spaced and commented in any way, and parsing it gives the program back if and only if no node has an unreadable operand |
| Toolchain.FilesConcatenate | src/toolchain/parser.c:583-603 | Two files read one after the other give the entries of both in order, up to the first line that exits |
| Toolchain.OneLine | src/toolchain/parser.c:594-603 | What a single line adds: a node's entry, nothing when blank, an unwritten entry when refused, or the end of the process |
| Toolchain.BlankLinesVanish | src/toolchain/parser.c:595-600 | A blank line inserted anywhere leaves no trace in the list |
| Toolchain.ListingIsExact | src/toolchain/parser.c:564-610 | What a file gives determines the program |
| RoundTrip.ParseAfterRender | src/toolchain/parser.c:247-561 | Parse after render, for every label, directive and instruction with valid names and quote-free strings and all int64 numbers: the line parses back to the node, except that a negative bracketed address and a bracketed name before a second operand exit with PARSER_SYNTAX_ERROR |
| RoundTrip.ParseSpaced | src/toolchain/lexer.c:23-85 | Spacing is free: any blanks and tabs before the line, behind its first word, around the comma or before the colon, and at the end, and any comment without a newline or NUL, leave what the line parses to unchanged, for every well-formed node |
| RoundTrip.BlankLine | src/toolchain/parser.c:542-544 | A line of blanks and an optional comment is blank |
| RoundTrip.TrailerEnds | src/toolchain/lexer.c:75-85 | Blanks, an optional comment and the newline read as the end of the line, and reading on finds the end again |
| RoundTrip.ReparseIsStable | src/toolchain/parser.c:535-561 | Any accepted line has a canonical line that parses to the same node, if and only if no bracketed address overflowed to a negative number |
| RoundTrip.OverflowedAddress | src/toolchain/lexer.c:107-125 | JMP with the address 2^63 in brackets is an accepted line without one: the lexer wraps it to the least int64 |
| RoundTrip.ParsedIsWellFormed | src/toolchain/parser.c:535-561 | The parser yields only nodes with valid names and quote-free strings, and `[name]` only as last operand |
| RoundTrip.OperandBack | src/toolchain/parser.c:342-479 | Each of the eight operand forms is read back before a comma or the end of the line, and which two are refused |
| RoundTrip.OperandWellFormed | src/toolchain/parser.c:342-479 | What an accepted operand can be; a bracketed name has consumed the end of the line |
| RoundTrip.EndStays | src/toolchain/lexer.c:66-85 | Reading on after the end of the line yields the end again, comments included |
| RoundTrip.LexSigned | src/toolchain/lexer.c:107-125 | Every int64 is read back, the least one through the wrapped magnitude 2^63 |
| RoundTrip.OffsetBack | src/toolchain/parser.c:413-473 | A signed offset and its bracket are read back for every int64 |
| RoundTrip.TokenWellFormed | src/toolchain/lexer.c:127-186 | Name tokens are valid names and string tokens hold no quote |
| Render.ScanDigits | src/toolchain/lexer.c:107-125 | A digit string is read to its value modulo the last step's wrap, as number and as register |
| Render.LexString | src/toolchain/lexer.c:127-171 | An escaped string literal is read back character for character |
| Render.LexName | src/toolchain/lexer.c:173-185 | A valid name is read as one identifier token |
| Render.LexUpper | src/toolchain/lexer.c:187-199 | An upper-case word of two or more letters is read as one mnemonic token |
| Render.LexRegister | src/toolchain/lexer.c:86-105 | Every register 0 to 255 is read back |
| Render.LookupMnemonic | src/toolchain/parser.c:183-191 | Prefix matching finds the right operation for every full mnemonic |
| Render.LookupDirective | src/toolchain/parser.c:194-202 | Prefix matching finds the right directive for every full directive name |
| Render.MnemonicsAreApart | src/toolchain/parser.c:26-58 | No mnemonic is a prefix of another one |
| Refusals.Abbreviation | src/toolchain/parser.c:183-191 | A word stands for the first operation in numeric order whose mnemonic begins with it |
| Refusals.NoOperation | src/toolchain/parser.c:183-191 | No operation is found if and only if no mnemonic begins with the word |
| Refusals.AbbreviatedDirective | src/toolchain/parser.c:194-202 | A name stands for the one directive whose name begins with it |
| Refusals.UnknownOperation | src/toolchain/parser.c:482-488 | Every line that begins with a word no mnemonic begins with exits with PARSER_UNKNOWN_INSTR |
| Refusals.UnknownDirective | src/toolchain/parser.c:250-258 | What a dot is followed by: a name no directive begins with, no name, or no token, and how each ends the process |
| Refusals.BadBeginning | src/toolchain/parser.c:545-556 | Lines that begin with brackets, a comma or a colon, and with a sign, are refused without an exit |
| Refusals.NumberFirst | src/toolchain/parser.c:551-556 | So are lines that begin with a number |
| Refusals.RegisterFirst | src/toolchain/parser.c:551-556 | And with a register |
| Refusals.LabelRefused | src/toolchain/parser.c:310-339 | A name alone, a name before anything but a colon, and anything behind the colon: which error each is |
| Refusals.RegisterTooHigh | src/toolchain/parser.c:376-384 | Every register above 255 as an operand exits with PARSER_INVALID_REGISTER |
| Refusals.BracketedRegisterWraps | src/toolchain/parser.c:456-461 | In brackets the number is cut to its low byte instead |
| Refusals.BracketedBaseWraps | src/toolchain/parser.c:445-451 | So is the base register of an indexed operand |
| Refusals.BracketedNothing | src/toolchain/parser.c:464-473 | A sign, a literal or a mnemonic behind the bracket is not refused: with a number and a closing bracket the operand has no kind |
| Refusals.StringOperand | src/toolchain/parser.c:475-477 | A string literal as an operand exits with PARSER_INVALID_ARGS |
| Refusals.FirstNotFollowed | src/toolchain/parser.c:504-516 | Anything but a comma or the end behind a first operand: which error it is |
| Refusals.OperandIsNoToken | src/toolchain/parser.c:490-491 | A lexer error behind a mnemonic ends the process |
| Refusals.StrangeCharacter | src/toolchain/lexer.c:200-201 | Which characters begin no token |
| Refusals.SingleSlash | src/toolchain/lexer.c:74-85 | A slash that is not doubled is no token |
| Refusals.BadString | src/toolchain/lexer.c:127-171 | A literal without its closing quote, and one with an unknown escape: which error each is |
| Refusals.Escapes | src/toolchain/lexer.c:9-19 | What each of the six escapes adds to the literal |
| Refusals.NumberTooLong | src/toolchain/lexer.c:107-125 | Digits are refused as soon as ten times the value before the next one passes INT64_MAX, for numbers and registers |
| Lexer.StringsHaveNoQuote | src/toolchain/lexer.c:9-19 | No literal yields a quote: the escaped quote stands for a tab |
| Lexer.LexerState.NextToken | src/toolchain/lexer.c:21-202 | Token, status and new cursor are those of Lex: blanks, punctuation, comments, registers, numbers, strings, names, mnemonics |
| Lexer.LexerState.VisibleToken | src/toolchain/lexer.c:36-202 | The same without leading blanks |
| Lexer.LexerState.ReadRegister | src/toolchain/lexer.c:86-105 | The digits behind R with the 128-bit overflow guard |
| Lexer.LexerState.ReadNumber | src/toolchain/lexer.c:107-125 | The digits of a number with the same guard; the sum wraps |
| Lexer.LexerState.ReadString | src/toolchain/lexer.c:127-171 | A literal with its escapes, or a missing quote, or an unknown escape |
| Lexer.LexerState.ReadWord | src/toolchain/lexer.c:173-185 | The longest run of word characters |
| Lexer.LexerState.ReadUpper | src/toolchain/lexer.c:187-199 | The longest run of upper-case letters |
| Lexer.LexerState.SkipRestOfLine | src/toolchain/lexer.c:75-85 | Stops at the newline or terminator that ends a comment |
| Parser.FirstMatch | src/toolchain/parser.c:183-202 | The first table entry of which the text is a prefix, or the table's length |
| Parser.OpTable | src/toolchain/parser.c:183-191 | Returns the operation of the first matching mnemonic |
| Parser.DirTable | src/toolchain/parser.c:194-202 | Returns the directive of the first matching name |
| Parser.ReadOperand | src/toolchain/parser.c:342-479 | One operand behind its first token: value, position, or which error or exit |
| Parser.ReadBracket | src/toolchain/parser.c:386-474 | The bracketed forms: two tokens are read first, then decided |
| Parser.ReadOffset | src/toolchain/parser.c:464-473 | Sign, number and closing bracket; the lexer status is not looked at |
| Parser.ReadEnd | src/toolchain/parser.c:524-531 | End of line, or the error for what stands there |
| Parser.ReadInstr | src/toolchain/parser.c:482-533 | An instruction with zero, one or two operands, every error path included |
| Parser.ReadDir | src/toolchain/parser.c:247-308 | A directive and its optional argument, every error path included |
| Parser.ReadLabel | src/toolchain/parser.c:310-339 | A label and its colon, every error path included |
| Parser.ReadLine | src/toolchain/parser.c:535-561 | The whole line: node, blank, refused, or the exit it takes |
| Assembler.FirstPass | src/toolchain/assembler.c:132-213 | Reports the first node that is rejected and why, or leaves the symbol table of the whole list and both image sizes |
| Assembler.SecondPass | src/toolchain/assembler.c:216-325 | Reports the first node that cannot be emitted and why, or leaves exactly the code image, the data image and the entry point of the list |
| Assembler.GetModeFromOperands | src/toolchain/assembler.c:80-128 | Mode and status for every pair of operand kinds and argument count |
| Assembler.IsInSymbolTable | src/toolchain/assembler.c:40-48 | Found if and only if some entry has the name |
| Assembler.GetSymbolAddr | src/toolchain/assembler.c:69-77 | The address of the first entry with the name, if any |
| Assembler.BuildInstr | src/toolchain/assembler.c:283-317 | Fails exactly on a name that is not in the table, else yields the node's instruction |
| Assembler.EmitCode | src/toolchain/assembler.c:319-320 | Appends the node's encoding to the code image and keeps what was there |
| Assembler.EmitInstruction | src/toolchain/assembler.c:280-321 | The errors of an instruction node in order, or its encoding appended |
| Assembler.EmitData | src/toolchain/assembler.c:243-274 | Appends the directive's bytes to the data image and keeps what was there |
| Assembler.EmitDirective | src/toolchain/assembler.c:241-278 | Section switches, entry point and data, with their errors |
| Acceptance.AcceptedExactly | src/toolchain/assembler.c:132-213 | The first pass accepts a list if and only if no label is defined twice, at most one entry directive occurs, every label stands behind a section directive, every instruction behind a last section directive .text with operands of kinds its operation takes, and every data directive behind a last section directive .data with an argument of its kind |
| Acceptance.TakesIsHandled | src/toolchain/assembler.c:80-128 | Which operand kinds each operation can be assembled with, as an if and only if with the mode selection and the handler table |
| Acceptance.InstructionReport | src/toolchain/assembler.c:199-209 | What the first pass reports at an instruction, in order, in terms of the operands and the directives before it |
| Acceptance.LabelReport | src/toolchain/assembler.c:154-166 | What it reports at a label |
| Acceptance.DirectiveReport | src/toolchain/assembler.c:167-197 | What it reports at a directive |
| Acceptance.TwoOperandFields | src/toolchain/assembler.c:283-317 | Operand kind by operand kind, the instruction of an accepted node with two operands: numbers and names are immediate, registers a register pair, bracketed numbers, names and names plus offset direct, bracketed registers indirect, registers plus offset indexed; arguments are congruent to address plus offset modulo 2^64 |
| Acceptance.OneOperandFields | src/toolchain/assembler.c:283-317 | The same with one operand, whose register is in field a, and with none |
| Acceptance.SectionIsLast | src/toolchain/assembler.c:189-194 | The section in force is that of the last section directive |
| AssemblerLaws.PassesAgree | src/toolchain/assembler.c:216-325 | On a list the first pass accepts, the second pass fails at a node exactly when the node names an undefined label, and then with ASM_LABEL_UNDEFINED |
| AssemblerLaws.PassesAgreeOnLists | src/toolchain/assembler.c:216-325 | So on such a list the second pass as a whole returns ASM_OK or ASM_LABEL_UNDEFINED |
| AssemblerLaws.TableIsComplete | src/toolchain/assembler.c:132-213 | The table finds exactly the names defined somewhere in the list, at their first definition's address |
| AssemblerLaws.LabelsAreUnique | src/toolchain/assembler.c:154-166 | In an accepted list a label's definition is its only one and lies in a section |
| AssemblerLaws.LabelIsNextItem | src/toolchain/assembler.c:154-166 | A label's address is where the first instruction, or data directive, of its section at or after the label is laid out (the end of the image if there is none) |
| AssemblerLaws.AcceptedIsTyped | src/toolchain/assembler.c:167-197 | Accepted directives have arguments of the kind the second pass reads, .word with a name apart |
| AssemblerLaws.NodeCode | src/toolchain/assembler.c:280-321 | Each node's bytes sit at its layout address in the final code image |
| AssemblerLaws.NodeData | src/toolchain/assembler.c:241-278 | Each directive's bytes sit at its layout offset in the final data image |
| AssemblerLaws.ByteOwner | src/toolchain/assembler.c:280-321 | Every byte of the code image is emitted by exactly one node |
| AssemblerLaws.DataByteOwner | src/toolchain/assembler.c:241-278 | Every byte of the data image is emitted by exactly one node |
| AssemblerLaws.CodeByte | src/toolchain/assembler.c:280-321 | Each byte of the code image is the byte of its owner's encoding at that offset |
| AssemblerLaws.DataByte | src/toolchain/assembler.c:241-278 | Each byte of the data image is the byte of its owning data directive at that offset |
| Codec.InstructionEncode | src/runtime/instructions_codec.c:18-66 | Writes exactly the mode's size of bytes, or returns 0 having written a proper prefix inside the room offered; all other bytes are kept |
| Codec.EncodeArg | src/runtime/instructions_codec.c:54-63 | Little-endian bytes of the argument, all others kept |
| Codec.InstructionDecode | src/runtime/instructions_codec.c:68-107 | Fields and consumed count on what the target held before, or the exit on an unknown operation code |
| Codec.ReadFields | src/runtime/instructions_codec.c:90-106 | The fields the mode carries |
| Codec.DecodeArg | src/runtime/instructions_codec.c:95-104 | Or-s the eight bytes into what the target held |
| Codec.DecodeEncode | src/runtime/instructions_codec.c:18-107 | Round trip: with the mode's size plus 2 in room, decoding an encoding onto a zeroed target gives every field the mode carries; with any smaller room of at least 2 it stops after two bytes |
| Codec.EncodingLayout | src/runtime/instructions_codec.c:18-66 | Where every field of an instruction stands in its bytes, and its length, mode by mode |
| Codec.DecodeNeedsZeroedTarget | src/runtime/instructions_codec.c:95-104 | A dirty target yields the encoded argument if and only if each of its 64 bits that is set is set in that argument |
| Codec.DirtyTargetExample | src/runtime/instructions_codec.c:95-104 | A target still holding 1 turns LD R0, 0 into another instruction |
| Loader.TotalProgSize | src/runtime/loader.c:14-21 | The sum of the mode sizes |
| Loader.EncodeProgram | src/runtime/loader.c:24-38 | Stops at the longest prefix that leaves one byte of the segment free; the buffer holds its encoding and the result is its total size |
| Loader.LongestFitIsLongest | src/runtime/loader.c:24-38 | Exactly the prefixes up to that one fit |
| Loader.DecodeAfterEncode | src/runtime/instructions_codec.c:68-107 | Decoding an encoded program instruction by instruction, with two spare bytes behind it, gives the program |
| Loader.EncodeProgramRoundTrip | src/runtime/loader.c:14-38 | What encodeProgram leaves in its buffer decodes to exactly the instructions that fitted |
| Loader.CopyBytes | src/runtime/loader.c:50-51 | memcpy between different buffers |
| Loader.LoadProgram | src/runtime/loader.c:40-56 | Refuses oversized images with nothing changed, else puts both in place and sets pc |
| Cpu.CpuStep | src/runtime/cpu.c:10-35 | Ending and whole machine after a step are those of Step: address check, decode or its exit, size check, handler look-up, handler or host syscall, fall-through |
| Cpu.StepOf | src/runtime/cpu.c:10-35 | A step that fetches i runs its handler and advances; the fall-through address is inside the code segment |
| Cpu.RunGoesOn | src/runtime/vm.c:39-45 | A run that has failed or stopped stays as it is for any further cycles; any other goes on from where it is |
| Cpu.StepRefused | src/runtime/cpu.c:10-35 | Why a step runs nothing, by pc and the two bytes there: outside the code, no room, unknown operation code, mode byte past the table, no handler |
| Cpu.VmRun | src/runtime/vm.c:39-45 | The run loop cut off after a number of cycles |
| Vm.VM.InitVM | src/runtime/vm.c:15-27 | Every field has its initial value and the heap is one free block |
| Vm.VM.SetSROF | src/runtime/vm.c:92-98 | Its flag reads back as the value set and every other bit of SR is kept |
| Vm.VM.SetSRNF | src/runtime/vm.c:104-110 | Its flag reads back as the value set and every other bit of SR is kept |
| Vm.VM.SetSRZF | src/runtime/vm.c:116-122 | Its flag reads back as the value set and every other bit of SR is kept |
| Vm.VM.SetSRCF | src/runtime/vm.c:128-134 | Its flag reads back as the value set and every other bit of SR is kept |
| Runs.HarmlessRunKeepsCode | src/runtime/cpu.c:17 | Code immutability and stable fetch: at every moment of a run that executes no RST, indirect FAS or indexed FAS with equal registers, no byte below DATA_BASE has changed and every pc decodes to what it did at the start |
| Runs.HarmlessRunIsCalm | src/runtime/instructions.c:1028-1451 | In such a run each executed instruction meets the exact condition for leaving the code alone |
| Runs.CodeNeverChanges | src/runtime/cpu.c:17 | The same at every moment of a run whose executed instructions each meet that exact condition |
| Runs.CalmAfter | src/runtime/cpu.c:17 | And after any number of successful steps of it |
| Runs.SafeCodeIsHarmless | src/runtime/instructions.c:1028-1451 | Over code in which no address decodes to one of the three, every run is harmless, whatever it executes and wherever it jumps |
| Runs.StepKeepsCode | src/runtime/cpu.c:17 | One step leaves the code segment unchanged if and only if the fetched instruction meets a condition on the state before |
| Runs.FetchReadsCodeOnly | src/runtime/cpu.c:17 | Fetching depends on the code segment only |
| Runs.FasRewritesCode | src/runtime/instructions.c:1269-1283 | An indirect FAS of register 0 overwrites the first code byte: the exclusion is needed |
| Runs.ReachableHeapIsDisjoint | src/runtime/allocator.c:9-49 | In every state a run reaches, two different blocks share no byte and all lie in the heap |
| Runs.FailureIsAtomic | src/runtime/cpu.c:29-34 | A failing step that is not a TRAP leaves the whole machine as it was if and only if it is not a FAS whose second address, computed from the value just loaded, is refused |
| Runs.TornFasExample | src/runtime/instructions.c:1286-1299 | A state in which that FAS leaves its register changed |
| Runs.PcIsContained | src/runtime/cpu.c:12-32 | A successful step leaves the code segment exactly when it is a CALL by register or memory, or an RTN, with a negative target; the next step is then VM_INVALID_EXECUTION_ADDRESS with nothing changed |
| Runs.CallTarget | src/runtime/instructions.c:1324-1451 | Where a successful CALL or RTN goes, and that its signed target passed the range test |
| Runs.ForwardStep | src/runtime/cpu.c:30-32 | A forward step advances pc by one only onto its own mode byte, which never decodes to a transfer |
| Runs.ForwardProgramsStop | src/runtime/vm.c:39-45 | A forward run makes at most (DATA_BASE - entry) / 2 steps that leave it running |
| Runs.ForwardRunTerminates | src/runtime/vm.c:39-45 | So the run loop has stopped within (DATA_BASE - entry) / 2 + 1 cycles |
| Runs.RunStops | src/runtime/vm.c:39-45 | The loop has stopped exactly when no such step sequence exists |
| Invariants.RunKeepsOk | src/runtime/vm.c:39-45 | Every run of any length keeps: sp a multiple of 8 in [STACK_BASE, MEM_SIZE], SR bits 4 to 7, and the heap tiled; RST and the modelled syscalls included |
| Invariants.StepKeepsOk | src/runtime/cpu.c:10-35 | Every step keeps them |
| Invariants.InitialIsOk | src/runtime/vm.c:15-27 | The fresh machine has them |
| Invariants.StackNeverFaults | src/runtime/instructions.c:1200-1250 | Under the invariant PUSH refuses only a full stack or its register, POP only an empty stack or its register, and RTN only an empty stack or a target past the code segment, always having a value to compare |
| Invariants.CallNeverFaults | src/runtime/instructions.c:1302-1431 | Under the invariant CALL, in each of its five modes, succeeds if and only if the stack has room and its target passes the range test; it reports a full stack exactly when the stack is full, and only four statuses refuse it; it is undefined only when it reads its target past 2^64 - 8 |
| Invariants.ExecKeepsCode | src/runtime/memory.c:23-32 | No other instruction changes a byte below DATA_BASE |
| Invariants.CodeUnchangedIff | src/runtime/instructions.c:1253-1299 | Exactly which executions leave the code segment unchanged, by the state before: RST only over zeroed code; indirect or indexed FAS only if its second address is refused, lies above the code, or already holds 1 |
| Calls.CallReturns | src/runtime/instructions.c:1302-1451 | A CALL followed by any well-bracketed body and its RTN resumes at the call's own successor with sp and every stack byte at or above the old sp restored; an RTN that sits on that successor falls through by its own two bytes |
| Calls.BodyKeepsStack | src/runtime/instructions.c:1200-1250 | Every well-bracketed stretch of CALL, PUSH, POP and RTN, at any depth, gives the stack back |
| Calls.OpensBelow | src/runtime/instructions.c:1201-1235 | PUSH and CALL store one word just below sp; CALL stores the address behind itself |
| Allocator.VmAlloc | src/runtime/allocator.c:9-29 | On the linked list: the status, the address and the new list of records are those of a first-fit split |
| Allocator.VmFree | src/runtime/allocator.c:31-49 | On the linked list: range error, unknown address, or release of the first match merged with a free successor |
| Allocator.CutNode | src/runtime/allocator.c:18-27 | Splicing in the rest node keeps an acyclic list that records the split |
| Allocator.ReleaseNode | src/runtime/allocator.c:40-47 | Marking the node and merging its successor keeps an acyclic list that records the release |
| Allocator.AbsorbNext | src/runtime/allocator.c:42-47 | Unlinking the merged node does |
| Allocator.FindFit | src/runtime/allocator.c:11-15 | Stops at the first free node that is large enough |
| Allocator.FindAt | src/runtime/allocator.c:35-38 | Stops at the first node with that begin |
| HeapLaws.EveryHistoryTiles | src/runtime/vm.c:22-26 | After every sequence of allocations and releases from initVM the blocks are contiguous from HEAP_BASE to STACK_BASE and their sizes sum to 256 |
| HeapLaws.BlocksAreDisjoint | src/runtime/allocator.c:9-49 | Two different blocks of a tiled heap share no byte and lie in the heap |
| HeapLaws.BytesAreConserved | src/runtime/allocator.c:9-49 | Sizes of a tiled heap sum to the segment |
| HeapLaws.AllocLaw | src/runtime/allocator.c:11-28 | Succeeds if and only if some free block fits; returns the first; free bytes drop by exactly size; exactly that range becomes live; the heap stays tiled |
| HeapLaws.AllocIsDisjoint | src/runtime/allocator.c:11-28 | The returned range overlaps no live block |
| HeapLaws.FreeLaw | src/runtime/allocator.c:31-48 | Freeing any live block succeeds if and only if it begins below STACK_BASE; it takes that block out of the live ones if and only if it succeeds and no earlier block begins there, or the first that does is a live block empty like itself; free bytes rise by its size when it is the first, and stay otherwise |
| HeapLaws.SharedBeginIsEmpty | src/runtime/allocator.c:20-24 | Blocks that share the begin of a later one are empty |
| HeapLaws.FreeErrors | src/runtime/allocator.c:31-38 | Free succeeds exactly for an address in the heap at which some block begins; a failing free changes nothing |
| HeapLaws.FreeTwiceLaw | src/runtime/allocator.c:35-48 | Freeing an address whose first block is free already succeeds and changes neither the live blocks nor the free bytes |
| HeapLaws.AllocThenFree | src/runtime/allocator.c:9-49 | Freeing what was just allocated restores the list exactly if and only if the address lies below STACK_BASE and no earlier block begins there |
| HeapLaws.UnfreeableAllocation | src/runtime/allocator.c:33 | A reachable allocation, of 0 bytes at STACK_BASE in a full heap, that free refuses although no earlier block begins there |
| HeapLaws.LostRelease | src/runtime/allocator.c:37 | A reachable heap in which freeing a live block succeeds and changes nothing |
| Heap.FirstFit | src/runtime/allocator.c:11-15 | The first block that is free and large enough, or the list's length |
| Heap.FirstAt | src/runtime/allocator.c:35-38 | The first block with that begin, or the list's length |
| Machine.Bounds | src/runtime/memory.c:11 | Inside exactly when the eight bytes lie in memory; past 2^64 - 8 the sum in the guard wraps |
| Machine.DataBounds | src/runtime/instructions.c:65-70 | Inside exactly when the eight bytes lie in memory at or above DATA_BASE |
| MemoryUnit.MemRead64 | src/runtime/memory.c:10-20 | Little-endian value, or the guard's error with the out-parameter untouched |
| MemoryUnit.MemWrite64 | src/runtime/memory.c:23-32 | Eight bytes stored and all others kept, or the guard's error with nothing changed |
| MemoryLaws.ReadAfterWrite | src/runtime/memory.c:10-32 | Read after write at one address, for every int64 |
| MemoryLaws.WriteIsLocal | src/runtime/memory.c:23-32 | A write changes its eight bytes and no other |
| MemoryLaws.DisjointRead | src/runtime/memory.c:10-32 | Reads that do not overlap a write are unaffected |
| MemoryLaws.WriteBack | src/runtime/memory.c:10-32 | Writing back what was read changes nothing |
| MemoryLaws.WriteTwice | src/runtime/memory.c:23-32 | The later of two writes at one address counts |
| MemoryLaws.WritesCommute | src/runtime/memory.c:23-32 | Writes that do not overlap commute |
| MemoryLaws.SwapTwice | src/runtime/instructions.c:1124-1198 | SWP twice restores register and memory whenever the second address is the first |
| MemoryLaws.SwapAddressStays | src/runtime/instructions.c:1136-1198 | The second address is the first if and only if the mode is direct, the address register is not the swapped one, or the word it received is the one it held |
| InstructionLaws.ArithmeticIsModular | src/runtime/instructions.c:33-45 | ADD, SUB and MUL are exact modulo 2^64, and exact if and only if the integer result fits in int64 |
| InstructionLaws.DivisionTruncates | src/runtime/instructions.c:348-361 | DIV rounds towards zero: the remainder is smaller than the divisor and has the dividend's sign |
| InstructionLaws.LogicIsBitwise | src/runtime/instructions.c:572-803 | AND, OR and XOR act on each of the 64 bits alone |
| InstructionLaws.UnaryTwice | src/runtime/instructions.c:549-556 | NEG and NOT undo themselves for every register value |
| InstructionLaws.StoreThenLoad | src/runtime/instructions.c:1029-1121 | A load sees what a store at the same address put there, whatever modes the two use |
| InstructionLaws.PushThenPop | src/runtime/instructions.c:1201-1250 | POP takes back the word PUSH put down; only the word below sp is different afterwards |
| InstructionLaws.FetchAndSetTwice | src/runtime/instructions.c:1253-1267 | Direct FAS as a lock: the first gets the old word, the next at that address gets 1 |
| InstructionLaws.MemsetFromStack | src/runtime/instructions.c:1995-2021 | MEMSET takes address, value and size off the stack in this order, sets exactly that range and leaves 0 in R0 |
| Effects.ArithmeticEffect | src/runtime/instructions.c:33-332 | ADD, SUB and MUL in all five modes: register a holds the int64 congruent to the exact result modulo 2^64, the other register and everything but SR stay, and each flag bit is what the exact result says |
| Effects.DivisionEffect | src/runtime/instructions.c:348-447 | DIV in all five modes: quotient by its remainder, the two refused cases, flags, and nothing else changed |
| Effects.LogicEffect | src/runtime/instructions.c:572-803 | AND, OR and XOR in all five modes: every bit of register a is the connective of the two bits in its place; flags; nothing else changed |
| Effects.ShiftEffect | src/runtime/instructions.c:837-1026 | SHL and SHR in all five modes: a * 2^n modulo 2^64, floor(a / 2^n), the bit shifted out in C, and undefined counts |
| Effects.CompareEffect | src/runtime/instructions.c:449-526 | CMP in all five modes keeps the registers and sets each flag by the exact difference |
| Effects.UnaryEffect | src/runtime/instructions.c:549-814 | NEG leaves the int64 congruent to -x, NOT leaves -1 - x, with their flags, or refuse the register |
| Effects.OperandRefused | src/runtime/instructions.c:60-78 | The errors of every operation that reads an operand, in order: registers, code segment, end of memory; and when the guard itself wraps |
| Effects.LoadEffect | src/runtime/instructions.c:1067-1122 | LD in all five modes leaves the operand in register a and changes nothing else |
| Effects.SwapRegisters | src/runtime/instructions.c:1125-1134 | SWP between registers: each holds what the other held |
| Effects.SwapWithMemory | src/runtime/instructions.c:1136-1198 | SWP with memory: the word goes to the register, the register to the word |
| Effects.StoreEffect | src/runtime/instructions.c:1029-1065 | ST in its three modes: which bytes change, or which error |
| Effects.PushLaw | src/runtime/instructions.c:1201-1235 | PUSH: the word below sp, sp, or which error first |
| Effects.PopLaw | src/runtime/instructions.c:1237-1250 | POP: register, sp, or which error first |
| Effects.FetchAndSetEffect | src/runtime/instructions.c:1253-1300 | FAS in its three modes: the loaded word, and where 1 is stored: at the address, at the register's number in indirect mode, at an address recomputed after the load in indexed mode |
| Effects.FetchAndSetRefused | src/runtime/instructions.c:1253-1300 | When FAS is refused and when it reads past the register file |
| Effects.CallEffect | src/runtime/instructions.c:1303-1345 | CALL immediate and by register: return address, sp and pc, or which error |
| Effects.CallThroughMemory | src/runtime/instructions.c:1347-1431 | CALL direct, indirect and indexed: the same, with the target read from memory in any segment |
| Effects.ReturnEffect | src/runtime/instructions.c:1434-1451 | RTN: pc and sp, or which error |
| Effects.JumpNotTaken | src/runtime/instructions.c:1548-1817 | A jump whose condition on the flag bits fails does nothing |
| Effects.JumpEffect | src/runtime/instructions.c:1469-1489 | Jumps immediate and by register: pc is the target, or VM_INVALID_JMP |
| Effects.JumpThroughMemory | src/runtime/instructions.c:1491-1546 | Jumps direct, indirect and indexed: where the target is read, and which error |
| Effects.JumpRefused | src/runtime/instructions.c:1478-1546 | Register jumps refuse registers above 2 and read past the register file for register 2 |
| Effects.TransfersIsTaken | src/runtime/instructions.c:1573-1817 | On which of the bits Z, N and O each jump transfers, for any SR |
| Effects.PlainEffects | src/runtime/instructions.c:1455-1467 | NOP, HALT and RST |
| Effects.FreshMachine | src/runtime/vm.c:15-27 | Every field of the fresh machine |
| Effects.HandlersByMode | src/runtime/instructions.c:2124-2364 | The handler table by columns: which operations each mode has |
| Effects.SizeByParts | include/instructions.h:57-65 | An encoding is two bytes, one for each register of the mode, and eight for its argument |
| Effects.LoadedBytes | src/runtime/memory.c:10-21 | The eight bytes at an address are the bytes of the word loaded there, least significant first |
| Effects.StoredBytes | src/runtime/memory.c:23-32 | A store puts them there and keeps every other byte |
| SyscallLaws.MallocEffect | src/runtime/instructions.c:1968-1981 | TRAP 10 on a popped size n and a tiled heap: it succeeds if and only if some free block has n bytes; then R0 is the address of a range of n bytes in the heap that no live block overlapped, the lowest a fitting free block begins at, and exactly that range became live; otherwise VM_HEAP_OUT_OF_MEMORY and the heap stays; nothing else changes |
| SyscallLaws.FreeEffect | src/runtime/instructions.c:1983-1993 | TRAP 11 on a popped address: outside the heap, or where no block begins, which error and the heap stays; otherwise exactly the bytes of the first block that begins there leave the live ones; nothing else changes |
| SyscallLaws.MemsetEffect | src/runtime/instructions.c:1995-2021 | TRAP 12: exactly the range is set to the value's low byte, R0 is 0, sp rises by 24; nothing else changes |
| SyscallLaws.MemsetRefused | src/runtime/instructions.c:1995-2021 | Every other range is refused after the three pops, unless the sum in the guard wraps around |
| SyscallLaws.MemsetRunsOut | src/runtime/instructions.c:1995-2021 | With one or two words on the stack it stops where they run out, having popped them |
| SyscallLaws.ExitEffect | src/runtime/instructions.c:1828-1836 | TRAP 9 pops the exit code into R0 and stops the machine |
| SyscallLaws.NothingToPop | src/runtime/instructions.c:1828-2021 | Without a word on the stack none of the four does anything, and which error it is |
| SyscallLaws.TrapTable | src/runtime/instructions.c:2091-2122 | Which numbers have no function, and which are the host's |
| SyscallLaws.TrapFour | src/runtime/instructions.c:2091-2122 | Which of the four functions numbers 9 to 12 select |
| SyscallLaws.TrapOutside | src/runtime/instructions.c:2111-2122 | Any other value of the low 32 bits of R0 indexes outside the table |
| Example.SelfJumpHalts | src/runtime/cpu.c:30-32 | A five-node program, in any spacing, goes through the whole chain; its jump to its own address falls through and it halts in two cycles |
| Example.SelfJumpIsSymbolic | src/runtime/cpu.c:30-32 | It meets the conditions on the text alone, so each of its runs is the symbolic machine's |
| Example.FullSegmentFits | src/runtime/instructions_codec.c:85-88 | A program of 1023 code bytes that both passes accept and that fits, whose last instruction has no fetch room |
| Example.LastInstructionIsTruncated | src/runtime/cpu.c:17-20 | The step at that instruction is VM_TRUNCATED_INSTR and changes nothing |
| Example.OneCallReturns | src/runtime/instructions.c:1302-1451 | A concrete CALL and RTN that form a bracket: the run is back at the successor, still running, with the stack restored |
| Example.OneCallStaysOnNodes | src/runtime/instructions.c:1302-1451 | That program meets the conditions for staying on its nodes across the call and the return |
| FasExample.RewriterRewrites | src/runtime/instructions.c:1269-1283 | Loaded and run for two cycles, LD R0, 1024; FAS R1, [R0] has overwritten its own first operation code |
| FasExample.FailureLeavesATrace | src/runtime/instructions.c:1286-1299 | Loaded and run for two cycles, LD R0, 1024; FAS R0, [R0+0] over the word 5000 fails with R0 changed |
| Compare.CompareAndBranch | src/runtime/instructions.c:449-526 | Two machine steps: after CMP in any mode an immediate jump transfers exactly when the relation of its mnemonic holds between the two integers, own-address targets falling through |
| Compare.CompareThenTaken | src/runtime/instructions.c:1572-1817 | After CMP in any of its modes, jumps of all modes are taken by the signed order of the operands (indirect JNE by equality) |
| Compare.FlagsDecideOrder | src/runtime/instructions.c:121-138 | Z, N and O of a - b decide the signed order of a and b even when the subtraction overflows |
| Compare.JneByInequality | src/runtime/instructions.c:1615-1653 | JNE is taken exactly on inequality, for all operands, if and only if its mode is not the indirect one |
| Compare.FlagsRoundTrip | src/runtime/vm.c:92-138 | The four flags are read back as written and bits 4 to 7 survive |
| Compare.AddCarryMeaning | src/runtime/instructions.c:13-30 | What ADD's signed carry test means: the sign of b flipped by overflow |
| Compare.AddCarryIsUnsigned | src/runtime/instructions.c:24 | Exactly when it is the unsigned carry |
| Compare.AddCarryCounterexample | src/runtime/instructions.c:24 | An input for which it is not |
| Compare.SubAndMulFlags | src/runtime/instructions.c:121-244 | C of SUB is the unsigned borrow; O says the exact integer result was lost |
| Compare.ShlCarry | src/runtime/instructions.c:828-830 | C of SHL is bit 64 - n of the operand, the last bit shifted out |
| Compare.ShiftFlags | src/runtime/instructions.c:816-938 | SHL is a * 2^n modulo 2^64, SHR is floor(a / 2^n), and C of SHR is the last bit shifted out |
| StatusRegister.SetSRADD | src/runtime/instructions.c:13-30 | Flags of the exact sum, carry by signed comparison; bits 4 to 7 of SR kept |
| StatusRegister.SetSRSUB | src/runtime/instructions.c:121-138 | Flags of the exact difference, carry by unsigned comparison; bits 4 to 7 of SR kept |
| StatusRegister.SetSRMUL | src/runtime/instructions.c:228-244 | C and O exactly when the exact product does not fit; bits 4 to 7 of SR kept |
| StatusRegister.SetSRDIV | src/runtime/instructions.c:334-345 | Zero and negative only; bits 4 to 7 of SR kept |
| StatusRegister.SetSRLOG | src/runtime/instructions.c:558-569 | Zero and negative only; bits 4 to 7 of SR kept |
| StatusRegister.SetSRNEG | src/runtime/instructions.c:529-546 | Flags of 0 - a; bits 4 to 7 of SR kept |
| StatusRegister.SetSRSHL | src/runtime/instructions.c:816-833 | C is bit 64 of the exact product, O a change of sign; bits 4 to 7 of SR kept |
| StatusRegister.SetSRSHR | src/runtime/instructions.c:924-938 | C is the last bit shifted out; bits 4 to 7 of SR kept |
| StatusRegister.AddOverflow | src/runtime/instructions.c:27-29 | The sign of the overflow mask is set exactly when a + b does not fit in int64 |
| StatusRegister.SubOverflow | src/runtime/instructions.c:135-137 | The same for a - b |
| StatusRegister.ShiftedOut | src/runtime/instructions.c:816-834 | a >> (64 - n) is the part of a * 2^n above 2^64 |
| AluHandlers.InstrADD | src/runtime/instructions.c:33-44 | ADD immediate: status, registers and SR are those of the one rule for ADD on the operand its mode fetches, with the common error order |
| AluHandlers.InstrADDR | src/runtime/instructions.c:47-57 | ADD register: status, registers and SR are those of the one rule for ADD on the operand its mode fetches, with the common error order |
| AluHandlers.InstrADDD | src/runtime/instructions.c:60-77 | ADD direct: status, registers and SR are those of the one rule for ADD on the operand its mode fetches, with the common error order |
| AluHandlers.InstrADDI | src/runtime/instructions.c:80-98 | ADD indirect: status, registers and SR are those of the one rule for ADD on the operand its mode fetches, with the common error order |
| AluHandlers.InstrADDX | src/runtime/instructions.c:101-119 | ADD indexed: status, registers and SR are those of the one rule for ADD on the operand its mode fetches, with the common error order |
| AluHandlers.InstrSUB | src/runtime/instructions.c:141-151 | SUB immediate: status, registers and SR are those of the one rule for SUB on the operand its mode fetches, with the common error order |
| AluHandlers.InstrSUBR | src/runtime/instructions.c:154-164 | SUB register: status, registers and SR are those of the one rule for SUB on the operand its mode fetches, with the common error order |
| AluHandlers.InstrSUBD | src/runtime/instructions.c:167-184 | SUB direct: status, registers and SR are those of the one rule for SUB on the operand its mode fetches, with the common error order |
| AluHandlers.InstrSUBI | src/runtime/instructions.c:187-205 | SUB indirect: status, registers and SR are those of the one rule for SUB on the operand its mode fetches, with the common error order |
| AluHandlers.InstrSUBX | src/runtime/instructions.c:208-226 | SUB indexed: status, registers and SR are those of the one rule for SUB on the operand its mode fetches, with the common error order |
| AluHandlers.InstrMUL | src/runtime/instructions.c:247-257 | MUL immediate: status, registers and SR are those of the one rule for MUL on the operand its mode fetches, with the common error order |
| AluHandlers.InstrMULR | src/runtime/instructions.c:260-270 | MUL register: status, registers and SR are those of the one rule for MUL on the operand its mode fetches, with the common error order |
| AluHandlers.InstrMULD | src/runtime/instructions.c:273-290 | MUL direct: status, registers and SR are those of the one rule for MUL on the operand its mode fetches, with the common error order |
| AluHandlers.InstrMULI | src/runtime/instructions.c:293-311 | MUL indirect: status, registers and SR are those of the one rule for MUL on the operand its mode fetches, with the common error order |
| AluHandlers.InstrMULX | src/runtime/instructions.c:314-332 | MUL indexed: status, registers and SR are those of the one rule for MUL on the operand its mode fetches, with the common error order |
| AluHandlers.InstrDIV | src/runtime/instructions.c:348-360 | DIV immediate: status, registers and SR are those of the one rule for DIV on the operand its mode fetches, with the common error order |
| AluHandlers.InstrDIVR | src/runtime/instructions.c:363-375 | DIV register: status, registers and SR are those of the one rule for DIV on the operand its mode fetches, with the common error order |
| AluHandlers.InstrDIVD | src/runtime/instructions.c:378-398 | DIV direct: status, registers and SR are those of the one rule for DIV on the operand its mode fetches, with the common error order |
| AluHandlers.InstrDIVI | src/runtime/instructions.c:401-422 | DIV indirect: status, registers and SR are those of the one rule for DIV on the operand its mode fetches, with the common error order |
| AluHandlers.InstrDIVX | src/runtime/instructions.c:425-446 | DIV indexed: status, registers and SR are those of the one rule for DIV on the operand its mode fetches, with the common error order |
| AluHandlers.InstrCMP | src/runtime/instructions.c:449-457 | CMP immediate: status, registers and SR are those of the one rule for CMP on the operand its mode fetches, with the common error order |
| AluHandlers.InstrCMPR | src/runtime/instructions.c:460-468 | CMP register: status, registers and SR are those of the one rule for CMP on the operand its mode fetches, with the common error order |
| AluHandlers.InstrCMPD | src/runtime/instructions.c:471-487 | CMP direct: status, registers and SR are those of the one rule for CMP on the operand its mode fetches, with the common error order |
| AluHandlers.InstrCMPI | src/runtime/instructions.c:490-506 | CMP indirect: status, registers and SR are those of the one rule for CMP on the operand its mode fetches, with the common error order |
| AluHandlers.InstrCMPX | src/runtime/instructions.c:509-526 | CMP indexed: status, registers and SR are those of the one rule for CMP on the operand its mode fetches, with the common error order |
| AluHandlers.InstrAND | src/runtime/instructions.c:572-580 | AND immediate: status, registers and SR are those of the one rule for AND on the operand its mode fetches, with the common error order |
| AluHandlers.InstrANDR | src/runtime/instructions.c:583-591 | AND register: status, registers and SR are those of the one rule for AND on the operand its mode fetches, with the common error order |
| AluHandlers.InstrANDD | src/runtime/instructions.c:594-609 | AND direct: status, registers and SR are those of the one rule for AND on the operand its mode fetches, with the common error order |
| AluHandlers.InstrANDI | src/runtime/instructions.c:612-628 | AND indirect: status, registers and SR are those of the one rule for AND on the operand its mode fetches, with the common error order |
| AluHandlers.InstrANDX | src/runtime/instructions.c:631-647 | AND indexed: status, registers and SR are those of the one rule for AND on the operand its mode fetches, with the common error order |
| AluHandlers.InstrOR | src/runtime/instructions.c:650-658 | OR immediate: status, registers and SR are those of the one rule for OR on the operand its mode fetches, with the common error order |
| AluHandlers.InstrORR | src/runtime/instructions.c:661-669 | OR register: status, registers and SR are those of the one rule for OR on the operand its mode fetches, with the common error order |
| AluHandlers.InstrORD | src/runtime/instructions.c:672-687 | OR direct: status, registers and SR are those of the one rule for OR on the operand its mode fetches, with the common error order |
| AluHandlers.InstrORI | src/runtime/instructions.c:690-706 | OR indirect: status, registers and SR are those of the one rule for OR on the operand its mode fetches, with the common error order |
| AluHandlers.InstrORX | src/runtime/instructions.c:709-725 | OR indexed: status, registers and SR are those of the one rule for OR on the operand its mode fetches, with the common error order |
| AluHandlers.InstrXOR | src/runtime/instructions.c:728-736 | XOR immediate: status, registers and SR are those of the one rule for XOR on the operand its mode fetches, with the common error order |
| AluHandlers.InstrXORR | src/runtime/instructions.c:739-747 | XOR register: status, registers and SR are those of the one rule for XOR on the operand its mode fetches, with the common error order |
| AluHandlers.InstrXORD | src/runtime/instructions.c:750-765 | XOR direct: status, registers and SR are those of the one rule for XOR on the operand its mode fetches, with the common error order |
| AluHandlers.InstrXORI | src/runtime/instructions.c:768-784 | XOR indirect: status, registers and SR are those of the one rule for XOR on the operand its mode fetches, with the common error order |
| AluHandlers.InstrXORX | src/runtime/instructions.c:787-803 | XOR indexed: status, registers and SR are those of the one rule for XOR on the operand its mode fetches, with the common error order |
| AluHandlers.InstrSHL | src/runtime/instructions.c:837-847 | SHL immediate: status, registers and SR are those of the one rule for SHL on the operand its mode fetches, with the common error order |
| AluHandlers.InstrSHLR | src/runtime/instructions.c:850-860 | SHL register: status, registers and SR are those of the one rule for SHL on the operand its mode fetches, with the common error order |
| AluHandlers.InstrSHLD | src/runtime/instructions.c:863-880 | SHL direct: status, registers and SR are those of the one rule for SHL on the operand its mode fetches, with the common error order |
| AluHandlers.InstrSHLI | src/runtime/instructions.c:883-901 | SHL indirect: status, registers and SR are those of the one rule for SHL on the operand its mode fetches, with the common error order |
| AluHandlers.InstrSHLX | src/runtime/instructions.c:904-922 | SHL indexed: status, registers and SR are those of the one rule for SHL on the operand its mode fetches, with the common error order |
| AluHandlers.InstrSHR | src/runtime/instructions.c:942-951 | SHR immediate: status, registers and SR are those of the one rule for SHR on the operand its mode fetches, with the common error order |
| AluHandlers.InstrSHRR | src/runtime/instructions.c:954-964 | SHR register: status, registers and SR are those of the one rule for SHR on the operand its mode fetches, with the common error order |
| AluHandlers.InstrSHRD | src/runtime/instructions.c:967-984 | SHR direct: status, registers and SR are those of the one rule for SHR on the operand its mode fetches, with the common error order |
| AluHandlers.InstrSHRI | src/runtime/instructions.c:987-1005 | SHR indirect: status, registers and SR are those of the one rule for SHR on the operand its mode fetches, with the common error order |
| AluHandlers.InstrSHRX | src/runtime/instructions.c:1008-1026 | SHR indexed: status, registers and SR are those of the one rule for SHR on the operand its mode fetches, with the common error order |
| AluHandlers.InstrNEG | src/runtime/instructions.c:549-556 | 0 - a with its flags |
| AluHandlers.InstrNOT | src/runtime/instructions.c:805-813 | Bitwise complement with the logical flags |
| DataHandlers.InstrSTD | src/runtime/instructions.c:1029-1038 | Stores a register, direct address; code segment and bounds refused first |
| DataHandlers.InstrSTI | src/runtime/instructions.c:1041-1051 | Stores a register, indirect address; code segment and bounds refused first |
| DataHandlers.InstrSTX | src/runtime/instructions.c:1054-1064 | Stores a register, indexed address; code segment and bounds refused first |
| DataHandlers.InstrLD | src/runtime/instructions.c:1067-1074 | Loads by the common operand rule, immediate |
| DataHandlers.InstrLDR | src/runtime/instructions.c:1077-1084 | Loads by the common operand rule, register |
| DataHandlers.InstrLDD | src/runtime/instructions.c:1087-1096 | Loads by the common operand rule, direct |
| DataHandlers.InstrLDI | src/runtime/instructions.c:1099-1109 | Loads by the common operand rule, indirect |
| DataHandlers.InstrLDX | src/runtime/instructions.c:1112-1122 | Loads by the common operand rule, indexed |
| DataHandlers.InstrSWPR | src/runtime/instructions.c:1125-1133 | Exchanges a register with its register operand |
| DataHandlers.InstrSWPD | src/runtime/instructions.c:1136-1154 | Exchanges a register with its direct operand |
| DataHandlers.InstrSWPI | src/runtime/instructions.c:1157-1176 | Exchanges a register with its indirect operand |
| DataHandlers.InstrSWPX | src/runtime/instructions.c:1179-1198 | Exchanges a register with its indexed operand |
| DataHandlers.InstrPUSH | src/runtime/instructions.c:1201-1216 | Pushes one word; sp does not move when the push fails |
| DataHandlers.InstrPUSHR | src/runtime/instructions.c:1219-1234 | Pushes one word; sp does not move when the push fails |
| DataHandlers.InstrPOP | src/runtime/instructions.c:1237-1250 | Pops one word, or fails with sp and register unchanged |
| DataHandlers.InstrFASD | src/runtime/instructions.c:1253-1266 | Loads and then stores 1, direct, with the guard and the store address the code has |
| DataHandlers.InstrFASI | src/runtime/instructions.c:1269-1283 | Loads and then stores 1, indirect, with the guard and the store address the code has |
| DataHandlers.InstrFASX | src/runtime/instructions.c:1286-1300 | Loads and then stores 1, indexed, with the guard and the store address the code has |
| ControlHandlers.InstrCALL | src/runtime/instructions.c:1303-1321 | Pushes the return address and transfers, immediate; a failing call leaves sp |
| ControlHandlers.InstrCALLR | src/runtime/instructions.c:1324-1344 | Pushes the return address and transfers, register; a failing call leaves sp |
| ControlHandlers.InstrCALLD | src/runtime/instructions.c:1347-1371 | Pushes the return address and transfers, direct; a failing call leaves sp |
| ControlHandlers.InstrCALLI | src/runtime/instructions.c:1374-1401 | Pushes the return address and transfers, indirect; a failing call leaves sp |
| ControlHandlers.InstrCALLX | src/runtime/instructions.c:1404-1431 | Pushes the return address and transfers, indexed; a failing call leaves sp |
| ControlHandlers.InstrRTN | src/runtime/instructions.c:1434-1451 | Pops the target; refuses an empty stack or a target past the code segment |
| ControlHandlers.InstrNOP | src/runtime/instructions.c:1455-1459 | Changes nothing |
| ControlHandlers.InstrRST | src/runtime/instructions.c:1462-1467 | The machine is the initial one again |
| ControlHandlers.InstrHALT | src/runtime/instructions.c:1820-1824 | Stops the run loop |
| ControlHandlers.Jump | src/runtime/instructions.c:1469-1476 | The transfer itself, immediate: target or which error |
| ControlHandlers.JumpR | src/runtime/instructions.c:1478-1489 | The transfer itself, register: target or which error |
| ControlHandlers.JumpD | src/runtime/instructions.c:1491-1505 | The transfer itself, direct: target or which error |
| ControlHandlers.JumpI | src/runtime/instructions.c:1507-1525 | The transfer itself, indirect: target or which error |
| ControlHandlers.JumpX | src/runtime/instructions.c:1527-1545 | The transfer itself, indexed: target or which error |
| ControlHandlers.InstrJMP | src/runtime/instructions.c:1548-1550 | JMP, immediate: transfers exactly when its condition on the flags holds |
| ControlHandlers.InstrJMPR | src/runtime/instructions.c:1553-1555 | JMP, register: transfers exactly when its condition on the flags holds |
| ControlHandlers.InstrJMPD | src/runtime/instructions.c:1558-1560 | JMP, direct: transfers exactly when its condition on the flags holds |
| ControlHandlers.InstrJMPI | src/runtime/instructions.c:1563-1565 | JMP, indirect: transfers exactly when its condition on the flags holds |
| ControlHandlers.InstrJMPX | src/runtime/instructions.c:1568-1570 | JMP, indexed: transfers exactly when its condition on the flags holds |
| ControlHandlers.InstrJEQ | src/runtime/instructions.c:1573-1580 | JEQ, immediate: transfers exactly when its condition on the flags holds |
| ControlHandlers.InstrJEQR | src/runtime/instructions.c:1583-1588 | JEQ, register: transfers exactly when its condition on the flags holds |
| ControlHandlers.InstrJEQD | src/runtime/instructions.c:1591-1596 | JEQ, direct: transfers exactly when its condition on the flags holds |
| ControlHandlers.InstrJEQI | src/runtime/instructions.c:1599-1604 | JEQ, indirect: transfers exactly when its condition on the flags holds |
| ControlHandlers.InstrJEQX | src/runtime/instructions.c:1607-1612 | JEQ, indexed: transfers exactly when its condition on the flags holds |
| ControlHandlers.InstrJNE | src/runtime/instructions.c:1615-1621 | JNE, immediate: transfers exactly when its condition on the flags holds |
| ControlHandlers.InstrJNER | src/runtime/instructions.c:1624-1629 | JNE, register: transfers exactly when its condition on the flags holds |
| ControlHandlers.InstrJNED | src/runtime/instructions.c:1632-1637 | JNE, direct: transfers exactly when its condition on the flags holds |
| ControlHandlers.InstrJNEI | src/runtime/instructions.c:1640-1645 | JNE, indirect: transfers exactly when its condition on the flags holds |
| ControlHandlers.InstrJNEX | src/runtime/instructions.c:1648-1653 | JNE, indexed: transfers exactly when its condition on the flags holds |
| ControlHandlers.InstrJLE | src/runtime/instructions.c:1660-1665 | JLE, immediate: transfers exactly when its condition on the flags holds |
| ControlHandlers.InstrJLER | src/runtime/instructions.c:1668-1673 | JLE, register: transfers exactly when its condition on the flags holds |
| ControlHandlers.InstrJLED | src/runtime/instructions.c:1676-1681 | JLE, direct: transfers exactly when its condition on the flags holds |
| ControlHandlers.InstrJLEI | src/runtime/instructions.c:1684-1689 | JLE, indirect: transfers exactly when its condition on the flags holds |
| ControlHandlers.InstrJLEX | src/runtime/instructions.c:1692-1697 | JLE, indexed: transfers exactly when its condition on the flags holds |
| ControlHandlers.InstrJLT | src/runtime/instructions.c:1700-1705 | JLT, immediate: transfers exactly when its condition on the flags holds |
| ControlHandlers.InstrJLTR | src/runtime/instructions.c:1708-1713 | JLT, register: transfers exactly when its condition on the flags holds |
| ControlHandlers.InstrJLTD | src/runtime/instructions.c:1716-1721 | JLT, direct: transfers exactly when its condition on the flags holds |
| ControlHandlers.InstrJLTI | src/runtime/instructions.c:1724-1729 | JLT, indirect: transfers exactly when its condition on the flags holds |
| ControlHandlers.InstrJLTX | src/runtime/instructions.c:1732-1737 | JLT, indexed: transfers exactly when its condition on the flags holds |
| ControlHandlers.InstrJGE | src/runtime/instructions.c:1740-1745 | JGE, immediate: transfers exactly when its condition on the flags holds |
| ControlHandlers.InstrJGER | src/runtime/instructions.c:1748-1753 | JGE, register: transfers exactly when its condition on the flags holds |
| ControlHandlers.InstrJGED | src/runtime/instructions.c:1756-1761 | JGE, direct: transfers exactly when its condition on the flags holds |
| ControlHandlers.InstrJGEI | src/runtime/instructions.c:1764-1769 | JGE, indirect: transfers exactly when its condition on the flags holds |
| ControlHandlers.InstrJGEX | src/runtime/instructions.c:1772-1777 | JGE, indexed: transfers exactly when its condition on the flags holds |
| ControlHandlers.InstrJGT | src/runtime/instructions.c:1780-1785 | JGT, immediate: transfers exactly when its condition on the flags holds |
| ControlHandlers.InstrJGTR | src/runtime/instructions.c:1788-1793 | JGT, register: transfers exactly when its condition on the flags holds |
| ControlHandlers.InstrJGTD | src/runtime/instructions.c:1796-1801 | JGT, direct: transfers exactly when its condition on the flags holds |
| ControlHandlers.InstrJGTI | src/runtime/instructions.c:1804-1809 | JGT, indirect: transfers exactly when its condition on the flags holds |
| ControlHandlers.InstrJGTX | src/runtime/instructions.c:1812-1817 | JGT, indexed: transfers exactly when its condition on the flags holds |
| Syscalls.SyscallEXIT | src/runtime/instructions.c:1828-1836 | Pops the code and stops the machine |
| Syscalls.SyscallMALLOC | src/runtime/instructions.c:1968-1981 | Pops a size and puts the address of the first fit into R0 |
| Syscalls.SyscallFREE | src/runtime/instructions.c:1983-1993 | Pops an address and releases its block |
| Syscalls.SyscallMEMSET | src/runtime/instructions.c:1995-2021 | Pops address, value and size and fills that part of memory |
| Syscalls.MemsetRange | src/runtime/instructions.c:1995-2021 | The guarded fill: bytes in range set, all others kept, or refused |
| Dispatch.DispatchADD | src/runtime/instructions.c:2128-2134 | Any mode of ADD has the effect of the one rule for ADD |
| Dispatch.DispatchSUB | src/runtime/instructions.c:2136-2142 | Any mode of SUB has the effect of the one rule for SUB |
| Dispatch.DispatchMUL | src/runtime/instructions.c:2144-2150 | Any mode of MUL has the effect of the one rule for MUL |
| Dispatch.DispatchDIV | src/runtime/instructions.c:2152-2158 | Any mode of DIV has the effect of the one rule for DIV |
| Dispatch.DispatchCMP | src/runtime/instructions.c:2160-2166 | Any mode of CMP has the effect of the one rule for CMP |
| Dispatch.DispatchAND | src/runtime/instructions.c:2172-2178 | Any mode of AND has the effect of the one rule for AND |
| Dispatch.DispatchOR | src/runtime/instructions.c:2180-2186 | Any mode of OR has the effect of the one rule for OR |
| Dispatch.DispatchXOR | src/runtime/instructions.c:2188-2194 | Any mode of XOR has the effect of the one rule for XOR |
| Dispatch.DispatchSHL | src/runtime/instructions.c:2196-2202 | Any mode of SHL has the effect of the one rule for SHL |
| Dispatch.DispatchSHR | src/runtime/instructions.c:2204-2210 | Any mode of SHR has the effect of the one rule for SHR |
| Dispatch.DispatchST | src/runtime/instructions.c:2216-2220 | Any mode of ST has the effect of the one rule for ST |
| Dispatch.DispatchLD | src/runtime/instructions.c:2222-2228 | Any mode of LD has the effect of the one rule for LD |
| Dispatch.DispatchSWP | src/runtime/instructions.c:2230-2235 | Any mode of SWP has the effect of the one rule for SWP |
| Dispatch.DispatchPUSH | src/runtime/instructions.c:2237-2240 | Any mode of PUSH has the effect of the one rule for PUSH |
| Dispatch.DispatchFAS | src/runtime/instructions.c:2246-2250 | Any mode of FAS has the effect of the one rule for FAS |
| Dispatch.DispatchCALL | src/runtime/instructions.c:2252-2258 | Any mode of CALL has the effect of the one rule for CALL |
| Dispatch.DispatchJMP | src/runtime/instructions.c:2268-2274 | Any mode of JMP has the effect of the one rule for JMP |
| Dispatch.DispatchJEQ | src/runtime/instructions.c:2276-2282 | Any mode of JEQ has the effect of the one rule for JEQ |
| Dispatch.DispatchJNE | src/runtime/instructions.c:2284-2290 | Any mode of JNE has the effect of the one rule for JNE |
| Dispatch.DispatchJLE | src/runtime/instructions.c:2292-2298 | Any mode of JLE has the effect of the one rule for JLE |
| Dispatch.DispatchJLT | src/runtime/instructions.c:2300-2306 | Any mode of JLT has the effect of the one rule for JLT |
| Dispatch.DispatchJGE | src/runtime/instructions.c:2308-2314 | Any mode of JGE has the effect of the one rule for JGE |
| Dispatch.DispatchJGT | src/runtime/instructions.c:2316-2322 | Any mode of JGT has the effect of the one rule for JGT |
| Dispatch.InstrTRAP | src/runtime/instructions.c:2111-2122 | Selects the syscall by the low 32 bits of R0: one of the four modelled syscalls, the unknown id, or control passing to the host with the machine untouched |
| Dispatch.DispatchAlu | src/runtime/instructions.c:2332-2364 | All fifty arithmetic entries equal operand fetch by mode followed by one operation rule |
| Dispatch.DispatchJump | src/runtime/instructions.c:2332-2364 | All jump entries equal one condition rule and one transfer rule by mode |
| Dispatch.DispatchData | src/runtime/instructions.c:2332-2364 | All data entries equal their rule by mode |
| Dispatch.DispatchControl | src/runtime/instructions.c:2332-2364 | The remaining entries |
| Dispatch.CallHandler | src/runtime/instructions.c:2400-2408 | Every entry of the handler table has exactly the effect Exec assigns to its operation and mode |

## Left out

- The syscalls WRITE, READ, OPEN, CLOSE, PRINT, READ_INT, READ_STR, MEMCPY and the dumps: host effects or an unguarded copy; executing one hands the unchanged machine to the host (`Departs(ForeignCall)`), and the run ends there.
- `src/format/binary.c`, `src/bin/main_bsm.c`, `src/bin/main_bsvm.c`: file headers and command lines; the assembler's images are handed to the loader directly.
- Every print and error-string function, line and column bookkeeping, `free_IRNode`, `destroyVM`.
- `malloc`, `realloc` and `free` of buffers, and the growth of the symbol and node arrays: sequences and fresh arrays stand for them; unlinked heap nodes are dropped rather than freed.
- `fgets` and its 255-character limit: a file is a sequence of lines. What stands behind a line's terminator is read as NUL.
- `memReadByte` and `memWriteByte`, which no handler uses.
- Toolchain.ReadProgram: an entry whose line `parse_line` refused without exiting, or whose operand kind was left unset, is `Unwritten`; what the C array holds there is not modelled, and the assembler is stated for lists without such entries.
- Cpu.VmRun: runs at most a given number of cycles, because the C loop need not end; statements about runs hold for every such number.
- Cpu.CpuStep: starts the decoder from a zeroed instruction; the C struct is uninitialised. It excludes states in which the C code is undefined: a mode byte outside the modes, an address past 2^64 - 8, a shift count outside 1 to 63, INT64_MIN / -1, a register jump through register 2, a syscall index outside the table. `Toolchain.AssembleAndRun`, `Dispatch.CallHandler` and `Dispatch.InstrTRAP` exclude the same.
- Syscalls.SyscallMALLOC: on failure the C function copies an uninitialised local into R0; the model writes 0.
- Assembler.SecondPass: takes lists without a `.word` that names a label; the C code emits a pointer value for those, which no function of the list determines. The addressing-mode status starts as ASM_OK.
- Assembler.EmitData: the same restriction.
- Assembler.EmitDirective: the same restriction.
- Parser.ReadBracket: when the first token in brackets is neither name, register nor number the C function succeeds with the operand's kind unset; the model reports `Unset`.
- Lexer.LexerState.ReadNumber: a sum past INT64_MAX wraps to two's complement, where C leaves signed overflow undefined; negating INT64_MIN likewise.
- Names hold no NUL and characters are compared as they stand: locale-dependent character classes are not modelled.
- RoundTrip.ParseSpaced: blanks inside brackets, behind a minus sign and behind a directive's dot, which the lexer skips too, and a missing gap behind the first word are not among the spacings it ranges over.
