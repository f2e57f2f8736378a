/**
 Parsing after rendering. Every node the parser can produce is rendered as one line, and the
 parser reads that line back, apart from two kinds of operand that its grammar cannot read where
 they stand; those always exit with PARSER_SYNTAX_ERROR.
 */
module RoundTrip {
  import opened Common
  import opened Words
  import opened Isa
  import opened Lexer
  import opened Parser
  import opened Render
  import Ir

  // Nodes that have a rendering

  /** The operands an instruction can have: no string literal, and names the lexer reads as names. */
  predicate InstrOperand(o: Ir.Operand) {
    match o
    case Absent => false
    case Text(_) => false
    case Ident(name) => ValidName(name)
    case MemIdent(name) => ValidName(name)
    case MemIdentOffset(name, _) => ValidName(name)
    case _ => true
  }

  predicate DirOperand(o: Ir.Operand) {
    match o
    case Absent => true
    case Number(_) => true
    case Ident(name) => ValidName(name)
    case Text(text) => '\"' !in text
    case _ => false
  }

  predicate WellFormed(n: Ir.Node) {
    match n
    case Label(name) => ValidName(name)
    case Dir(_, arg) => DirOperand(arg)
    case Instr(_, a, b) =>
      if a == Ir.Absent then b == Ir.Absent
      else InstrOperand(a) && (b != Ir.Absent ==> InstrOperand(b))
  }

  /** A negative address in brackets is never accepted. */
  predicate NegativeAddress(o: Ir.Operand) {
    o.MemNumber? && o.v < 0
  }

  /** `[name]` reads the end of the line itself, so it cannot stand first of two operands. */
  predicate Unreadable(n: Ir.Node) {
    n.Instr? && (NegativeAddress(n.a) || NegativeAddress(n.b) || (n.a.MemIdent? && n.b != Ir.Absent))
  }

  // Numbers

  function Opposite(v: int): int {
    -v
  }

  lemma NegateBack(v: int64)
    ensures Neg64(v) == Wrap(Opposite(v)) && Neg64(Neg64(v)) == v && Wrap(v) == v
  {
    WrapIsExactInRange(v);
    WrapOnce(Opposite(v));
    WrapOnce(Opposite(Neg64(v)));
  }

  /** A signed number is a number token, behind a minus token when it is negative. */
  lemma LexSigned(text: string, i: nat, v: int64)
    requires Occurs(text, i, Signed(v)) && !IsDigit(CharAt(text, i + |Signed(v)|))
    ensures v >= 0 ==> Lex(text, i) == Lexed(Num(v), LEX_OK, i + |Signed(v)|)
    ensures v < 0 ==> Lex(text, i) == Lexed(Minus, LEX_OK, i + 1)
    ensures v < 0 ==> Lex(text, i + 1) == Lexed(Num(Neg64(v)), LEX_OK, i + |Signed(v)|)
  {
    hide Lex, Decimal, Neg64, Wrap, Occurs;
    NegateBack(v);
    if v < 0 {
      OccursParts(text, i, "-", Decimal(Magnitude(v)));
      OccursChar(text, i, "-", 0);
      LexPunctuation(text, i);
      LexDecimal(text, i + 1, Magnitude(v));
    } else {
      LexDecimal(text, i, v);
    }
  }

  /** An offset behind a name or register: its sign, its magnitude, the closing bracket. */
  lemma OffsetBack(text: string, i: nat, k: int64)
    requires Occurs(text, i, OffsetTail(k))
    ensures Lex(text, i) == Lexed(if k < 0 then Minus else Plus, LEX_OK, i + 1)
    ensures ParseOffset(text, i + 1, k < 0) == Parsed(k, i + |OffsetTail(k)|)
  {
    hide Lex, Decimal, Neg64, Wrap, Occurs;
    var ds := Decimal(Magnitude(k));
    NegateBack(k);
    OccursParts(text, i, Sign(k), ds + "]");
    OccursChar(text, i, Sign(k), 0);
    LexPunctuation(text, i);
    OccursParts(text, i + 1, ds, "]");
    OccursChar(text, i + 1 + |ds|, "]", 0);
    LexDecimal(text, i + 1, Magnitude(k));
    LexPunctuation(text, i + 1 + |ds|);
  }

  // Ends

  predicate EndsOperand(c: char) {
    c == ',' || c == '/' || c == '\n' || c == '\0' || IsBlank(c)
  }

  /** The token at j, blanks and comments aside, is the end of the line. */
  predicate EndsAt(text: string, j: nat) {
    Lex(text, j).status == LEX_OK && IsEndOfInstr(Lex(text, j).token)
  }

  /** The line ends at j, and reading on finds its end again. */
  predicate LineEnds(text: string, j: nat) {
    EndsAt(text, j) && EndsAt(text, Lex(text, j).next) && EndsOperand(CharAt(text, j)) && CharAt(text, j) != ','
  }

  /** An operand may stop at j: a comma or the end of the line follows. */
  predicate Delimited(text: string, j: nat) {
    EndsOperand(CharAt(text, j)) && (EndsAt(text, j) || (Lex(text, j).status == LEX_OK && Lex(text, j).token == Comma))
  }

  /** Where the newline stands, and at the end of the text, the line ends. */
  lemma PlainEnd(text: string, j: nat)
    requires CharAt(text, j) == '\n' || CharAt(text, j) == '\0'
    requires CharAt(text, j + 1) == '\n' || CharAt(text, j + 1) == '\0'
    ensures LineEnds(text, j)
  {
    hide Lex;
    LexPunctuation(text, j);
    LexPunctuation(text, j + 1);
  }

  lemma {:induction false} CommentRun(text: string, i: nat, c: string)
    requires Occurs(text, i, c + "\n") && '\n' !in c && '\0' !in c
    ensures SkipComment(text, i) == i + |c| && CharAt(text, i + |c|) == '\n'
    decreases |c|
  {
    OccursChar(text, i, c + "\n", 0);
    if c != [] {
      assert c[0] in c && c + "\n" == [c[0]] + (c[1..] + "\n");
      OccursParts(text, i, [c[0]], c[1..] + "\n");
      CommentRun(text, i + 1, c[1..]);
    }
  }

  /** A comment reads as the newline behind it, which is left to be read. */
  lemma CommentEnd(text: string, i: nat, c: string)
    requires Occurs(text, i, "//" + c + "\n") && '\n' !in c && '\0' !in c && |text| == i + |c| + 3
    ensures LineEnds(text, i)
  {
    hide SkipComment;
    var j := i + 2 + |c|;
    assert "//" + c + "\n" == "//" + (c + "\n");
    OccursParts(text, i, "//", c + "\n");
    OccursChar(text, i, "//", 0);
    OccursChar(text, i, "//", 1);
    CommentRun(text, i + 2, c);
    Visible(text, i);
    assert Lex(text, i) == Lexed(Newline, LEX_OK, j);
    LexPunctuation(text, j);
  }

  /** Whatever its blanks and its comment, the end of a line is the end of the line. */
  lemma TrailerEnds(text: string, j: nat, sp: Spacing)
    requires ProperSpacing(sp) && Occurs(text, j, Trailer(sp)) && |text| == j + |Trailer(sp)|
    ensures LineEnds(text, j)
  {
    hide Lex, Occurs;
    var close := (if sp.comment.Some? then "//" + sp.comment.value else []) + "\n";
    OccursParts(text, j, sp.tail, close);
    BlanksSkipped(text, j, sp.tail);
    var i := j + |sp.tail|;
    if sp.comment.Some? {
      CommentEnd(text, i, sp.comment.value);
    } else {
      OccursChar(text, i, close, 0);
      PlainEnd(text, i);
    }
    OccursChar(text, j, sp.tail + close, 0);
  }

  // Operands

  /** What the parser makes of a rendered operand that ends at position j. */
  function ReadBack(text: string, o: Ir.Operand, j: nat): Parse<Ir.Operand> {
    if NegativeAddress(o) then Failed(PARSER_SYNTAX_ERROR)
    else if !o.MemIdent? then Parsed(o, j)
    else if EndsAt(text, j) then Parsed(o, Lex(text, j).next)
    else Failed(PARSER_SYNTAX_ERROR)
  }

  /** Reading one operand from position i: its first token, then the rest. */
  function OperandAt(text: string, i: nat): Parse<Ir.Operand> {
    var t := Lex(text, i);
    if t.status != LEX_OK || IsEndOfInstr(t.token) then Unset else ParseOperand(text, t.next, t.token)
  }

  lemma PlainBack(text: string, i: nat, o: Ir.Operand)
    requires o.Number? || o.Register? || (o.Ident? && ValidName(o.name))
    requires Occurs(text, i, RenderOperand(o)) && EndsOperand(CharAt(text, i + |RenderOperand(o)|))
    ensures OperandAt(text, i) == Parsed(o, i + |RenderOperand(o)|)
  {
    hide Lex, Decimal, Neg64, Signed, ParseBracket;
    match o
    case Number(v) => LexSigned(text, i, v); NegateBack(v);
    case Register(r) => LexRegister(text, i, r);
    case Ident(name) => LexName(text, i, name);
    case _ =>
  }

  lemma Opened(text: string, i: nat, inner: string)
    requires Occurs(text, i, "[" + inner)
    ensures OperandAt(text, i) == ParseBracket(text, i + 1) && Occurs(text, i + 1, inner)
  {
    hide Lex, ParseBracket;
    OccursParts(text, i, "[", inner);
    OccursChar(text, i, "[", 0);
    LexPunctuation(text, i);
  }

  lemma AddressBack(text: string, i: nat, v: int64)
    requires Occurs(text, i, Signed(v) + "]")
    ensures ParseBracket(text, i) == if v < 0 then Failed(PARSER_SYNTAX_ERROR)
                                     else Parsed(Ir.MemNumber(v), i + |Signed(v)| + 1)
  {
    hide Lex, Decimal, Neg64, Signed, ParseOffset, ExpectEnd;
    OccursParts(text, i, Signed(v), "]");
    var j := i + |Signed(v)|;
    OccursChar(text, j, "]", 0);
    LexSigned(text, i, v);
    LexPunctuation(text, j);
  }

  lemma RegisterBack(text: string, i: nat, r: byte)
    requires Occurs(text, i, RegisterName(r) + "]")
    ensures ParseBracket(text, i) == Parsed(Ir.MemRegister(r), i + |RegisterName(r)| + 1)
  {
    hide Lex, RegisterName, ParseOffset, ExpectEnd;
    OccursParts(text, i, RegisterName(r), "]");
    var j := i + |RegisterName(r)|;
    OccursChar(text, j, "]", 0);
    LexRegister(text, i, r);
    LexPunctuation(text, j);
  }

  lemma IndexedBack(text: string, i: nat, r: byte, k: int64)
    requires Occurs(text, i, RegisterName(r) + OffsetTail(k))
    ensures ParseBracket(text, i)
            == Parsed(Ir.MemIndexed(r, k), i + |RegisterName(r)| + |OffsetTail(k)|)
  {
    hide Lex, RegisterName, ParseOffset, ExpectEnd, Decimal, Occurs;
    var tail := OffsetTail(k);
    OccursParts(text, i, RegisterName(r), tail);
    var j := i + |RegisterName(r)|;
    OccursChar(text, j, tail, 0);
    assert !IsWord(tail[0]);
    LexRegister(text, i, r);
    OffsetBack(text, j, k);
  }

  lemma NameOffsetBack(text: string, i: nat, name: string, k: int64)
    requires ValidName(name) && Occurs(text, i, name + OffsetTail(k))
    ensures ParseBracket(text, i)
            == Parsed(Ir.MemIdentOffset(name, k), i + |name| + |OffsetTail(k)|)
  {
    hide Lex, ParseOffset, ExpectEnd, Decimal, Occurs, ValidName;
    var tail := OffsetTail(k);
    OccursParts(text, i, name, tail);
    var j := i + |name|;
    OccursChar(text, j, tail, 0);
    assert !IsWord(tail[0]);
    LexName(text, i, name);
    OffsetBack(text, j, k);
  }

  lemma NameBack(text: string, i: nat, name: string)
    requires ValidName(name) && Occurs(text, i, name + "]")
    requires Delimited(text, i + |name| + 1)
    ensures ParseBracket(text, i) == ReadBack(text, Ir.MemIdent(name), i + |name| + 1)
  {
    hide Lex, ParseOffset, Occurs, ValidName, CharAt, EndsOperand;
    OccursParts(text, i, name, "]");
    var j := i + |name|;
    OccursChar(text, j, "]", 0);
    LexName(text, i, name);
    LexPunctuation(text, j);
  }

  /** Every operand form, read back before a comma or the end of the line. */
  lemma OperandBack(text: string, i: nat, o: Ir.Operand)
    requires InstrOperand(o)
    requires Occurs(text, i, RenderOperand(o)) && Delimited(text, i + |RenderOperand(o)|)
    ensures OperandAt(text, i) == ReadBack(text, o, i + |RenderOperand(o)|)
  {
    hide OperandAt, Occurs, Signed, RegisterName, ParseBracket, ValidName, OffsetTail, CharAt, EndsAt;
    match o
    case MemIdent(name) =>
      Opened(text, i, name + "]");
      NameBack(text, i + 1, name);
    case MemNumber(v) =>
      Opened(text, i, Signed(v) + "]");
      AddressBack(text, i + 1, v);
    case MemRegister(r) =>
      Opened(text, i, RegisterName(r) + "]");
      RegisterBack(text, i + 1, r);
    case MemIndexed(r, k) =>
      Opened(text, i, RegisterName(r) + OffsetTail(k));
      IndexedBack(text, i + 1, r, k);
    case MemIdentOffset(name, k) =>
      Opened(text, i, name + OffsetTail(k));
      NameOffsetBack(text, i + 1, name, k);
    case Number(_) => PlainBack(text, i, o);
    case Register(_) => PlainBack(text, i, o);
    case Ident(_) => PlainBack(text, i, o);
  }

  // Lines

  lemma WholeOccurs(text: string)
    ensures Occurs(text, 0, text)
  {
    assert text[0..|text|] == text;
  }

  /** Blanks before an operand are skipped. */
  lemma BlanksThenOperand(text: string, i: nat, w: string)
    requires Occurs(text, i, w) && Blanks(w)
    ensures OperandAt(text, i) == OperandAt(text, i + |w|)
  {
    hide Lex;
    BlanksSkipped(text, i, w);
  }

  /** The end of the line completes a node. */
  lemma EndBack(text: string, j: nat, node: Ir.Node)
    requires EndsAt(text, j)
    ensures AsLine(ExpectEnd(text, j, node)) == Line(node)
  {
    hide Lex;
  }

  /** The character behind blanks w, or the first of them, is no part of a word. */
  lemma FollowedByBlanks(text: string, i: nat, w: string, rest: string)
    requires Occurs(text, i, w + rest) && Blanks(w) && rest != [] && !IsWord(rest[0])
    ensures !IsWord(CharAt(text, i)) && (EndsOperand(rest[0]) ==> EndsOperand(CharAt(text, i)))
  {
    OccursChar(text, i, w + rest, 0);
  }

  /** A comma behind blanks is the next token, and what ends before them is delimited. */
  lemma CommaAt(text: string, j: nat, w: string, rest: string)
    requires Occurs(text, j, w + ("," + rest)) && Blanks(w)
    ensures Lex(text, j) == Lexed(Comma, LEX_OK, j + |w| + 1) && Delimited(text, j)
    ensures Occurs(text, j + |w| + 1, rest)
  {
    hide Lex, Occurs;
    FollowedByBlanks(text, j, w, "," + rest);
    OccursParts(text, j, w, "," + rest);
    BlanksSkipped(text, j, w);
    OccursParts(text, j + |w|, ",", rest);
    OccursChar(text, j + |w|, ",", 0);
    LexPunctuation(text, j + |w|);
  }

  /** The second operand and the end of the line. */
  lemma SecondBack(text: string, j: nat, op: OpCode, a: Ir.Operand, b: Ir.Operand, sp: Spacing)
    requires ProperSpacing(sp) && InstrOperand(b)
    requires Occurs(text, j, SecondTail(b, sp)) && LineEnds(text, j + |SecondTail(b, sp)|)
    ensures Delimited(text, j)
    ensures AsLine(ParseSecond(text, j, op, a))
            == if NegativeAddress(b) then Exits(PARSER_SYNTAX_ERROR) else Line(Ir.Instr(op, a, b))
  {
    hide Lex, Occurs, RenderOperand, ParseOperand, ExpectEnd, InstrOperand, Blanks, CharAt, EndsOperand;
    OperandsArePresent(b);
    CommaAt(text, j, sp.before, sp.after + RenderOperand(b));
    var i := j + |sp.before| + 1;
    OccursParts(text, i, sp.after, RenderOperand(b));
    BlanksThenOperand(text, i, sp.after);
    var k := i + |sp.after| + |RenderOperand(b)|;
    OperandBack(text, i + |sp.after|, b);
    EndBack(text, k, Ir.Instr(op, a, b));
    EndBack(text, Lex(text, k).next, Ir.Instr(op, a, b));
  }

  /** Where the line ends there is no second operand. */
  lemma NoSecond(text: string, j: nat, op: OpCode, a: Ir.Operand)
    requires EndsAt(text, j)
    ensures AsLine(ParseSecond(text, j, op, a)) == Line(Ir.Instr(op, a, Ir.Absent))
  {
    hide Lex;
  }

  lemma OperandsBack(text: string, i: nat, op: OpCode, a: Ir.Operand, b: Ir.Operand, sp: Spacing)
    requires ProperSpacing(sp) && WellFormed(Ir.Instr(op, a, b)) && a != Ir.Absent
    requires Occurs(text, i, OperandTail(a, b, sp)) && LineEnds(text, i + |OperandTail(a, b, sp)|)
    ensures AsLine(ParseInstr(text, i, MnemonicOf(op)))
            == if Unreadable(Ir.Instr(op, a, b)) then Exits(PARSER_SYNTAX_ERROR) else Line(Ir.Instr(op, a, b))
  {
    hide Lex, Occurs, RenderOperand, ParseOperand, ParseSecond, InstrOperand, MnemonicOf, OpLookup, Blanks;
    hide CharAt, EndsOperand;
    LookupMnemonic(op);
    var rest := SecondTail(b, sp);
    OccursParts(text, i, sp.gap, RenderOperand(a) + rest);
    BlanksThenOperand(text, i, sp.gap);
    OccursParts(text, i + |sp.gap|, RenderOperand(a), rest);
    var j := i + |sp.gap| + |RenderOperand(a)|;
    if b == Ir.Absent {
      NoSecond(text, j, op, a);
      NoSecond(text, Lex(text, j).next, op, a);
    } else {
      SecondBack(text, j, op, a, b, sp);
      CommaAt(text, j, sp.before, sp.after + RenderOperand(b));
    }
    OperandBack(text, i + |sp.gap|, a);
  }

  /** A word is followed by its operand tail or by the end of the line, so it ends there. */
  lemma WordStops(text: string, i: nat, tail: string, sp: Spacing, rest: string)
    requires ProperSpacing(sp) && (tail == [] || tail == sp.gap + rest)
    requires Occurs(text, i, tail) && LineEnds(text, i + |tail|)
    ensures !IsWord(CharAt(text, i))
  {
    hide Lex;
    if tail != [] { OccursChar(text, i, tail, 0); }
  }

  lemma InstrBack(text: string, i: nat, op: OpCode, a: Ir.Operand, b: Ir.Operand, sp: Spacing)
    requires ProperSpacing(sp) && WellFormed(Ir.Instr(op, a, b))
    requires Lex(text, 0) == Lex(text, i)
    requires Occurs(text, i, RenderBody(Ir.Instr(op, a, b), sp))
    requires LineEnds(text, i + |RenderBody(Ir.Instr(op, a, b), sp)|)
    ensures var n := Ir.Instr(op, a, b);
            ParseLine(text) == if Unreadable(n) then Exits(PARSER_SYNTAX_ERROR) else Line(n)
  {
    hide Lex, Occurs, MnemonicOf, ParseInstr, WellFormed, Unreadable, RenderOperand, Blanks, CharAt, SecondTail;
    var m, tail := MnemonicOf(op), OperandTail(a, b, sp);
    OccursParts(text, i, m, tail);
    WordStops(text, i + |m|, tail, sp, RenderOperand(a) + SecondTail(b, sp));
    MnemonicIsUpper(op);
    LexUpper(text, i, m);
    if a == Ir.Absent {
      NoOperands(text, i + |m|, op, b);
    } else {
      OperandsBack(text, i + |m|, op, a, b, sp);
    }
  }

  lemma NoOperands(text: string, i: nat, op: OpCode, b: Ir.Operand)
    requires WellFormed(Ir.Instr(op, Ir.Absent, b)) && EndsAt(text, i)
    ensures !Unreadable(Ir.Instr(op, Ir.Absent, b))
    ensures AsLine(ParseInstr(text, i, MnemonicOf(op))) == Line(Ir.Instr(op, Ir.Absent, b))
  {
    hide Lex, MnemonicOf, OpLookup;
    LookupMnemonic(op);
  }

  lemma ArgToken(text: string, i: nat, d: Ir.DirType, arg: Ir.Operand)
    requires DirOperand(arg) && arg != Ir.Absent
    requires Occurs(text, i, RenderOperand(arg)) && EndsOperand(CharAt(text, i + |RenderOperand(arg)|))
    ensures ParseDirArg(text, i, d) == ExpectEnd(text, i + |RenderOperand(arg)|, Ir.Dir(d, arg))
  {
    hide Lex, Occurs, Signed, ExpectEnd, ValidName, EscapeText, Neg64, CharAt;
    match arg
    case Number(v) => LexSigned(text, i, v); NegateBack(v);
    case Ident(name) => LexName(text, i, name);
    case Text(s) => LexString(text, i, s);
  }

  lemma ArgSkips(text: string, i: nat, d: Ir.DirType, w: string)
    requires Occurs(text, i, w) && Blanks(w)
    ensures ParseDirArg(text, i, d) == ParseDirArg(text, i + |w|, d)
  {
    hide Lex, ExpectEnd;
    BlanksSkipped(text, i, w);
  }

  lemma ArgBack(text: string, i: nat, d: Ir.DirType, arg: Ir.Operand, sp: Spacing)
    requires ProperSpacing(sp) && DirOperand(arg)
    requires Occurs(text, i, ArgTail(arg, sp)) && LineEnds(text, i + |ArgTail(arg, sp)|)
    ensures AsLine(ParseDirArg(text, i, d)) == Line(Ir.Dir(d, arg))
  {
    hide Lex, Occurs, ExpectEnd, DirOperand, RenderOperand, CharAt, Blanks;
    if arg != Ir.Absent {
      OccursParts(text, i, sp.gap, RenderOperand(arg));
      ArgSkips(text, i, d, sp.gap);
      var j := i + |sp.gap| + |RenderOperand(arg)|;
      ArgToken(text, i + |sp.gap|, d, arg);
      EndBack(text, j, Ir.Dir(d, arg));
    }
  }

  lemma DirBody(d: Ir.DirType, arg: Ir.Operand, sp: Spacing)
    ensures var body, name, tail := RenderBody(Ir.Dir(d, arg), sp), DirectiveName(d), ArgTail(arg, sp);
            && body == "." + (name + tail) && |body| == 1 + |name| + |tail|
            && (tail == [] || tail == sp.gap + RenderOperand(arg))
  {
    hide DirectiveName, RenderOperand;
  }

  /** The dot and the name of a directive's line, and what is left behind them. */
  lemma DirWords(text: string, i: nat, d: Ir.DirType, arg: Ir.Operand, sp: Spacing)
    requires ProperSpacing(sp)
    requires Occurs(text, i, RenderBody(Ir.Dir(d, arg), sp)) && LineEnds(text, i + |RenderBody(Ir.Dir(d, arg), sp)|)
    ensures var j := i + 1 + |DirectiveName(d)|;
            && Lex(text, i) == Lexed(Dot, LEX_OK, i + 1)
            && Lex(text, i + 1) == Lexed(Name(DirectiveName(d)), LEX_OK, j)
            && Occurs(text, j, ArgTail(arg, sp)) && LineEnds(text, j + |ArgTail(arg, sp)|)
  {
    hide Lex, Occurs, DirectiveName, DirLookup, RenderOperand, ValidName, CharAt, Blanks;
    hide LineEnds, ProperSpacing, IsWord, RenderBody, ArgTail;
    var name, tail := DirectiveName(d), ArgTail(arg, sp);
    DirBody(d, arg, sp);
    OccursParts(text, i, ".", name + tail);
    OccursChar(text, i, ".", 0);
    LexPunctuation(text, i);
    OccursParts(text, i + 1, name, tail);
    WordStops(text, i + 1 + |name|, tail, sp, RenderOperand(arg));
    LookupDirective(d);
    LexName(text, i + 1, name);
  }

  lemma DirBack(text: string, i: nat, d: Ir.DirType, arg: Ir.Operand, sp: Spacing)
    requires ProperSpacing(sp) && DirOperand(arg)
    requires Lex(text, 0) == Lex(text, i)
    requires Occurs(text, i, RenderBody(Ir.Dir(d, arg), sp)) && LineEnds(text, i + |RenderBody(Ir.Dir(d, arg), sp)|)
    ensures ParseLine(text) == Line(Ir.Dir(d, arg))
  {
    hide Lex, Occurs, DirectiveName, DirLookup, ParseDirArg, DirOperand, RenderBody, ArgTail, LineEnds, AsLine;
    hide ProperSpacing, ParseLine;
    DirWords(text, i, d, arg, sp);
    LookupDirective(d);
    ArgBack(text, i + 1 + |DirectiveName(d)|, d, arg, sp);
    DirLine(text, i + 1, i + 1 + |DirectiveName(d)|, d, arg);
  }

  lemma DirLine(text: string, i: nat, j: nat, d: Ir.DirType, arg: Ir.Operand)
    requires Lex(text, 0) == Lexed(Dot, LEX_OK, i) && Lex(text, i) == Lexed(Name(DirectiveName(d)), LEX_OK, j)
    requires DirLookup(DirectiveName(d)) == Some(d) && AsLine(ParseDirArg(text, j, d)) == Line(Ir.Dir(d, arg))
    ensures ParseLine(text) == Line(Ir.Dir(d, arg))
  {
    hide Lex, DirectiveName, DirLookup, ParseDirArg;
  }

  lemma LabelBody(name: string, sp: Spacing)
    ensures var body := RenderBody(Ir.Label(name), sp);
            body == name + (sp.before + ":") && |body| == |name| + |sp.before| + 1
  {
  }

  lemma LabelBack(text: string, i: nat, name: string, sp: Spacing)
    requires ProperSpacing(sp) && ValidName(name)
    requires Lex(text, 0) == Lex(text, i)
    requires Occurs(text, i, RenderBody(Ir.Label(name), sp)) && LineEnds(text, i + |RenderBody(Ir.Label(name), sp)|)
    ensures ParseLine(text) == Line(Ir.Label(name))
  {
    hide Lex, Occurs, ValidName, ExpectEnd, Blanks, CharAt, EndsOperand, RenderBody;
    LabelBody(name, sp);
    OccursParts(text, i, name, sp.before + ":");
    var j := i + |name|;
    FollowedByBlanks(text, j, sp.before, ":");
    OccursParts(text, j, sp.before, ":");
    var k := j + |sp.before|;
    BlanksSkipped(text, j, sp.before);
    OccursChar(text, k, ":", 0);
    LexName(text, i, name);
    LexPunctuation(text, k);
    EndBack(text, k + 1, Ir.Label(name));
  }

  /**
   Spacing is free. However a rendered node is spaced with blanks and tabs, and whatever comment stands
   behind it, its line parses to the node exactly when its operands stand where the grammar can read
   them; otherwise the parser exits with a syntax error.
   */
  lemma ParseSpaced(n: Ir.Node, sp: Spacing)
    requires WellFormed(n) && ProperSpacing(sp)
    ensures ParseLine(RenderSpaced(n, sp)) == if Unreadable(n) then Exits(PARSER_SYNTAX_ERROR) else Line(n)
  {
    hide ParseLine, RenderBody, InstrOperand, Lex, Occurs, ValidName, DirOperand, LineEnds, Blanks, Trailer;
    var text, body, i := RenderSpaced(n, sp), RenderBody(n, sp), |sp.lead|;
    WholeOccurs(text);
    OccursParts(text, 0, sp.lead, body + Trailer(sp));
    BlanksSkipped(text, 0, sp.lead);
    OccursParts(text, i, body, Trailer(sp));
    TrailerEnds(text, i + |body|, sp);
    match n
    case Label(name) => LabelBack(text, i, name, sp);
    case Dir(d, arg) => DirBack(text, i, d, arg, sp);
    case Instr(op, a, b) => InstrBack(text, i, op, a, b, sp);
  }

  /** A line of blanks and an optional comment is blank. */
  lemma BlankLine(sp: Spacing)
    requires ProperSpacing(sp)
    ensures ParseLine(Trailer(sp)) == Blank
  {
    hide Lex, Trailer;
    WholeOccurs(Trailer(sp));
    TrailerEnds(Trailer(sp), 0, sp);
  }

  /**
   The round trip. A rendered node parses back to itself exactly when its operands stand where
   the grammar can read them; otherwise the parser exits with a syntax error.
   */
  lemma ParseAfterRender(n: Ir.Node)
    requires WellFormed(n)
    ensures ParseLine(RenderLine(n)) == if Unreadable(n) then Exits(PARSER_SYNTAX_ERROR) else Line(n)
  {
    hide ParseLine, WellFormed, Unreadable, RenderSpaced;
    CanonicalIsProper();
    ParseSpaced(n, CANONICAL);
  }

  // What the parser can produce

  /** A line as it is read from a file: no NUL, and no newline but the last character. */
  predicate ProperLine(text: string) {
    forall k :: 0 <= k < |text| ==> text[k] != '\0' && (text[k] == '\n' ==> k == |text| - 1)
  }

  lemma {:induction false} WordsOnly(text: string, i: nat)
    ensures forall k :: i <= k < WordEnd(text, i) ==> IsWord(CharAt(text, k))
    decreases |text| - i
  {
    if IsWord(CharAt(text, i)) { WordsOnly(text, i + 1); }
  }

  lemma {:induction false} CommentEnds(text: string, i: nat)
    ensures CharAt(text, SkipComment(text, i)) == '\n' || CharAt(text, SkipComment(text, i)) == '\0'
    decreases |text| - i
  {
    if CharAt(text, i) != '\n' && CharAt(text, i) != '\0' { CommentEnds(text, i + 1); }
  }

  /** Tokens carry valid names and quote-free strings. */
  lemma TokenWellFormed(text: string, i: nat)
    ensures Lex(text, i).token.Name? ==> ValidName(Lex(text, i).token.text)
    ensures Lex(text, i).token.Str? ==> '\"' !in Lex(text, i).token.text
  {
    hide ScanNumber, ScanRegister, ScanString, WordEnd, UpperEnd, SkipComment;
    var j := SkipBlanks(text, i);
    StringsHaveNoQuote(text, j + 1, []);
    WordsOnly(text, j + 1);
    if IsLower(CharAt(text, j)) {
      var name := text[j..WordEnd(text, j + 1)];
      forall k | 0 <= k < |name|
        ensures IsWord(name[k])
      {
        assert name[k] == CharAt(text, j + k);
      }
    }
  }

  /** Once the end of the line has been read, reading on yields the end again. */
  lemma EndStays(text: string, i: nat)
    requires ProperLine(text) && Lex(text, i).status == LEX_OK && IsEndOfInstr(Lex(text, i).token)
    ensures Lex(text, Lex(text, i).next).status == LEX_OK && IsEndOfInstr(Lex(text, Lex(text, i).next).token)
  {
    hide ScanNumber, ScanRegister, ScanString, WordEnd, UpperEnd, SkipComment, Lex;
    var j := SkipBlanks(text, i);
    assert Lex(text, i) == LexVisible(text, j) by { LexIs(text, i); }
    StringsHaveNoQuote(text, j + 1, []);
    CommentEnds(text, j + 2);
    LexPunctuationAgain(text, Lex(text, i).next);
  }

  lemma LexIs(text: string, i: nat)
    ensures Lex(text, i) == LexVisible(text, SkipBlanks(text, i))
  {
  }

  lemma LexPunctuationAgain(text: string, i: nat)
    ensures CharAt(text, i) == '\n' || CharAt(text, i) == '\0'
            ==> Lex(text, i).status == LEX_OK && IsEndOfInstr(Lex(text, i).token)
  {
    if Punctuation(CharAt(text, i)).Some? { LexPunctuation(text, i); }
  }

  lemma EndWellFormed<T>(text: string, i: nat, value: T)
    requires ProperLine(text) && ExpectEnd(text, i, value).Parsed?
    ensures ExpectEnd(text, i, value).value == value
    ensures Lex(text, ExpectEnd(text, i, value).next).status == LEX_OK
    ensures IsEndOfInstr(Lex(text, ExpectEnd(text, i, value).next).token)
  {
    hide Lex;
    EndStays(text, i);
  }

  lemma OperandWellFormed(text: string, i: nat, t: Token)
    requires ProperLine(text) && (t.Name? ==> ValidName(t.text))
    requires ParseOperand(text, i, t).Parsed?
    ensures InstrOperand(ParseOperand(text, i, t).value)
    ensures ParseOperand(text, i, t).value.MemIdent?
            ==> Lex(text, ParseOperand(text, i, t).next).status == LEX_OK
                && IsEndOfInstr(Lex(text, ParseOperand(text, i, t).next).token)
  {
    hide Lex, ValidName, ParseOffset, ExpectEnd;
    var u := Lex(text, i);
    TokenWellFormed(text, i);
    if t == OpenBracket && u.status == LEX_OK && u.token.Name? {
      var end := Lex(text, u.next).next;
      if ExpectEnd(text, end, Ir.MemIdent(u.token.text)).Parsed? {
        EndWellFormed(text, end, Ir.MemIdent(u.token.text));
      }
    }
  }

  lemma InstrWellFormed(text: string, i: nat, mnemonic: string)
    requires ProperLine(text) && ParseInstr(text, i, mnemonic).Parsed?
    ensures var n := ParseInstr(text, i, mnemonic).value;
            WellFormed(n) && n.Instr? && !(n.a.MemIdent? && n.b != Ir.Absent)
  {
    hide Lex, ValidName, ParseOperand, OpLookup, ExpectEnd, InstrOperand;
    var t := Lex(text, i);
    TokenWellFormed(text, i);
    if !IsEndOfInstr(t.token) {
      OperandWellFormed(text, t.next, t.token);
      var a := ParseOperand(text, t.next, t.token);
      OperandsArePresent(a.value);
      SecondWellFormed(text, a.next, OpLookup(mnemonic).value, a.value);
    }
  }

  lemma OperandsArePresent(o: Ir.Operand)
    requires InstrOperand(o)
    ensures o != Ir.Absent
  {
  }

  lemma SecondWellFormed(text: string, j: nat, op: OpCode, a: Ir.Operand)
    requires ProperLine(text) && ParseSecond(text, j, op, a).Parsed?
    ensures var n := ParseSecond(text, j, op, a).value;
            && n.Instr? && n == Ir.Instr(op, a, n.b) && (n.b != Ir.Absent ==> InstrOperand(n.b))
            && (Lex(text, j).status == LEX_OK && IsEndOfInstr(Lex(text, j).token) ==> n.b == Ir.Absent)
  {
    hide Lex, ValidName, ParseOperand, ExpectEnd, InstrOperand;
    var u := Lex(text, j);
    if !IsEndOfInstr(u.token) {
      var v := Lex(text, u.next);
      TokenWellFormed(text, u.next);
      OperandWellFormed(text, v.next, v.token);
      var b := ParseOperand(text, v.next, v.token);
      EndWellFormed(text, b.next, Ir.Instr(op, a, b.value));
    }
  }

  lemma DirWellFormed(text: string, i: nat)
    requires ProperLine(text) && ParseDir(text, i).Parsed?
    ensures WellFormed(ParseDir(text, i).value) && ParseDir(text, i).value.Dir?
  {
    hide Lex, ValidName, ExpectEnd, DirLookup;
    var d := Lex(text, i);
    var dir, t := DirLookup(d.token.text).value, Lex(text, d.next);
    TokenWellFormed(text, d.next);
    match t.token
    case Num(v) => EndWellFormed(text, t.next, Ir.Dir(dir, Ir.Number(v)));
    case Minus =>
      var n := Lex(text, t.next);
      EndWellFormed(text, n.next, Ir.Dir(dir, Ir.Number(Neg64(n.token.number))));
    case Name(name) => EndWellFormed(text, t.next, Ir.Dir(dir, Ir.Ident(name)));
    case Str(s) => EndWellFormed(text, t.next, Ir.Dir(dir, Ir.Text(s)));
    case _ =>
  }

  lemma LabelWellFormed(text: string, i: nat, name: string)
    requires ProperLine(text) && ParseLabel(text, i, name).Parsed?
    ensures ParseLabel(text, i, name).value == Ir.Label(name)
  {
    hide Lex, ExpectEnd;
    EndWellFormed(text, Lex(text, i).next, Ir.Label(name));
  }

  /** The parser produces well-formed nodes only, and `[name]` only as the last operand. */
  lemma ParsedIsWellFormed(text: string)
    requires ProperLine(text) && ParseLine(text).Line?
    ensures var n := ParseLine(text).node; WellFormed(n) && !(n.Instr? && n.a.MemIdent? && n.b != Ir.Absent)
  {
    hide Lex, ValidName, ParseDir, ParseInstr, ParseLabel, DirOperand, InstrOperand;
    var t := Lex(text, 0);
    TokenWellFormed(text, 0);
    if t.token == Dot {
      DirWellFormed(text, t.next);
    } else if t.token.Name? {
      LabelWellFormed(text, t.next, t.token.text);
    } else if t.token.Mnemonic? {
      InstrWellFormed(text, t.next, t.token.text);
    }
  }

  /**
   Any accepted line, however it is spaced, abbreviated or commented, has a canonical line that
   parses to the same node, unless a bracketed address overflowed to a negative number.
   */
  lemma ReparseIsStable(text: string)
    requires ProperLine(text) && ParseLine(text).Line?
    ensures var n := ParseLine(text).node;
            ParseLine(RenderLine(n)) == Line(n)
            <==> !(n.Instr? && (NegativeAddress(n.a) || NegativeAddress(n.b)))
  {
    hide ParseLine, RenderLine;
    ParsedIsWellFormed(text);
    ParseAfterRender(ParseLine(text).node);
  }

  /**
   Such an address: JMP [9223372036854775808] is accepted with the least int64 as its address, and
   the line the renderer writes for that node is not.
   */
  lemma OverflowedAddress()
    ensures var text, n := "JMP" + (" [" + (Decimal(TWO63) + "]\n")), Ir.Instr(JMP, Ir.MemNumber(INT64_MIN), Ir.Absent);
            && ProperLine(text) && ParseLine(text) == Line(n)
            && ParseLine(RenderLine(n)) == Exits(PARSER_SYNTAX_ERROR)
  {
    hide Lex, Occurs, RenderLine, Decimal, ParseInstr;
    var ds := Decimal(TWO63);
    var text := "JMP" + (" [" + (ds + "]\n"));
    DecimalValue(TWO63);
    OverflowIsProper(ds);
    WholeOccurs(text);
    OccursParts(text, 0, "JMP", " [" + (ds + "]\n"));
    OccursChar(text, 3, " [" + (ds + "]\n"), 0);
    LexUpper(text, 0, "JMP");
    OverflowReads(text);
    ParseAfterRender(Ir.Instr(JMP, Ir.MemNumber(INT64_MIN), Ir.Absent));
  }

  lemma OverflowReads(text: string)
    requires Occurs(text, 3, " [" + (Decimal(TWO63) + "]\n"))
    ensures AsLine(ParseInstr(text, 3, "JMP")) == Line(Ir.Instr(JMP, Ir.MemNumber(INT64_MIN), Ir.Absent))
  {
    hide Lex, Occurs, OpLookup, Decimal, ParseOperand;
    var ds := Decimal(TWO63);
    var j := 5 + |ds|;
    OccursParts(text, 3, " [", ds + "]\n");
    OccursChar(text, 3, " [", 0);
    OccursChar(text, 3, " [", 1);
    OccursParts(text, 5, ds, "]\n");
    OccursChar(text, j, "]\n", 0);
    OccursChar(text, j, "]\n", 1);
    BlankSkipped(text, 3);
    LexPunctuation(text, 4);
    OverflowOperand(text);
    LexPunctuation(text, j + 1);
    LookupMnemonic(JMP);
    assert MnemonicOf(JMP) == "JMP";
  }

  lemma OverflowOperand(text: string)
    requires Occurs(text, 5, Decimal(TWO63)) && CharAt(text, 5 + |Decimal(TWO63)|) == ']'
    ensures ParseOperand(text, 5, OpenBracket) == Parsed(Ir.MemNumber(INT64_MIN), 6 + |Decimal(TWO63)|)
  {
    hide Lex, Occurs, Decimal, ParseOffset, ExpectEnd;
    var j := 5 + |Decimal(TWO63)|;
    LexDecimal(text, 5, TWO63);
    LexPunctuation(text, j);
  }

  lemma OverflowIsProper(ds: string)
    requires Digits(ds)
    ensures ProperLine("JMP" + (" [" + (ds + "]\n")))
  {
  }
}
