/**
 The canonical text of a node, and what the lexer makes of its pieces.
 */
module Render {
  import opened Common
  import opened Words
  import opened Isa
  import opened Lexer
  import opened Parser
  import Ir

  // Rendering

  function DigitChar(d: nat): (c: char)
    requires d < 10
    ensures IsDigit(c) && DigitValue(c) == d
  {
    ('0' as int + d) as char
  }

  function Decimal(n: nat): (s: string)
    ensures |s| >= 1
  {
    if n < 10 then [DigitChar(n)] else Decimal(n / 10) + [DigitChar(n % 10)]
  }

  function Signed(v: int64): string {
    if v < 0 then "-" + Decimal(Magnitude(v)) else Decimal(v)
  }

  function Sign(k: int64): string {
    if k < 0 then "-" else "+"
  }

  /** What follows the base inside brackets. */
  function OffsetTail(k: int64): string {
    Sign(k) + (Decimal(Magnitude(k)) + "]")
  }

  function EscapeChar(c: char): string {
    if c == '\n' then "\\n"
    else if c == '\t' then "\\t"
    else if c == '\r' then "\\r"
    else if c == '\\' then "\\\\"
    else if c == '\0' then "\\0"
    else [c]
  }

  function EscapeText(s: string): string {
    if s == [] then [] else EscapeChar(s[0]) + EscapeText(s[1..])
  }

  function RegisterName(r: byte): string {
    "R" + Decimal(r)
  }

  function RenderOperand(o: Ir.Operand): string {
    match o
    case Absent => []
    case Number(v) => Signed(v)
    case Register(r) => RegisterName(r)
    case Ident(name) => name
    case Text(text) => "\"" + EscapeText(text) + "\""
    case MemIdent(name) => "[" + (name + "]")
    case MemNumber(v) => "[" + (Signed(v) + "]")
    case MemRegister(r) => "[" + (RegisterName(r) + "]")
    case MemIndexed(r, k) => "[" + (RegisterName(r) + OffsetTail(k))
    case MemIdentOffset(name, k) => "[" + (name + OffsetTail(k))
  }

  function MnemonicOf(op: OpCode): string {
    match op
    case ADD => "ADD"
    case SUB => "SUB"
    case MUL => "MUL"
    case DIV => "DIV"
    case CMP => "CMP"
    case NEG => "NEG"
    case AND => "AND"
    case OR => "OR"
    case XOR => "XOR"
    case NOT => "NOT"
    case SHL => "SHL"
    case SHR => "SHR"
    case ST => "ST"
    case LD => "LD"
    case SWP => "SWP"
    case PUSH => "PUSH"
    case POP => "POP"
    case FAS => "FAS"
    case CALL => "CALL"
    case RTN => "RTN"
    case NOP => "NOP"
    case RST => "RST"
    case JMP => "JMP"
    case JEQ => "JEQ"
    case JNE => "JNE"
    case JLE => "JLE"
    case JLT => "JLT"
    case JGE => "JGE"
    case JGT => "JGT"
    case HALT => "HALT"
    case TRAP => "TRAP"
  }

  function DirectiveName(d: Ir.DirType): string {
    match d
    case STRING => "string"
    case ADDR => "addr"
    case ENTRY => "entry"
    case WORD => "word"
    case BYTE => "byte"
    case TEXT => "text"
    case DATA => "data"
  }

  /**
   What is free in a line: blanks before it, behind its first word, on both sides of the comma (before the
   colon of a label) and at its end, and a comment.
   */
  datatype Spacing = Spacing(lead: string, gap: string, before: string, after: string, tail: string,
                             comment: Option<string>)

  const CANONICAL := Spacing("", " ", "", " ", "", None)

  ghost predicate Blanks(w: string) {
    forall k :: 0 <= k < |w| ==> w[k] == ' ' || w[k] == '\t'
  }

  /** Blanks are spaces and tabs, the gap is not empty, and a comment stays on its line. */
  ghost predicate ProperSpacing(sp: Spacing) {
    && Blanks(sp.lead) && Blanks(sp.gap) && Blanks(sp.before) && Blanks(sp.after) && Blanks(sp.tail)
    && sp.gap != [] && (sp.comment.Some? ==> '\n' !in sp.comment.value && '\0' !in sp.comment.value)
  }

  lemma CanonicalIsProper()
    ensures ProperSpacing(CANONICAL)
  {
  }

  function SecondTail(b: Ir.Operand, sp: Spacing): string {
    if b == Ir.Absent then [] else sp.before + ("," + (sp.after + RenderOperand(b)))
  }

  function OperandTail(a: Ir.Operand, b: Ir.Operand, sp: Spacing): string {
    if a == Ir.Absent then [] else sp.gap + (RenderOperand(a) + SecondTail(b, sp))
  }

  function ArgTail(arg: Ir.Operand, sp: Spacing): string {
    if arg == Ir.Absent then [] else sp.gap + RenderOperand(arg)
  }

  function RenderBody(n: Ir.Node, sp: Spacing): string {
    match n
    case Label(name) => name + (sp.before + ":")
    case Dir(d, arg) => "." + (DirectiveName(d) + ArgTail(arg, sp))
    case Instr(op, a, b) => MnemonicOf(op) + OperandTail(a, b, sp)
  }

  /** The end of a line, newline included. */
  function Trailer(sp: Spacing): string {
    sp.tail + ((if sp.comment.Some? then "//" + sp.comment.value else []) + "\n")
  }

  /** A node's line, with its newline. */
  function RenderSpaced(n: Ir.Node, sp: Spacing): string {
    sp.lead + (RenderBody(n, sp) + Trailer(sp))
  }

  function RenderLine(n: Ir.Node): string {
    RenderSpaced(n, CANONICAL)
  }

  // Text positions

  /** `piece` stands in the text at position i. */
  predicate Occurs(text: string, i: nat, piece: string) {
    i + |piece| <= |text| && text[i..i + |piece|] == piece
  }

  lemma OccursParts(text: string, i: nat, a: string, b: string)
    requires Occurs(text, i, a + b)
    ensures Occurs(text, i, a) && Occurs(text, i + |a|, b)
  {
    var s := text[i..i + |a + b|];
    assert text[i..i + |a|] == s[..|a|];
    assert text[i + |a|..i + |a| + |b|] == s[|a|..];
  }

  lemma OccursChar(text: string, i: nat, piece: string, k: nat)
    requires Occurs(text, i, piece) && k < |piece|
    ensures CharAt(text, i + k) == piece[k]
  {
    assert text[i..i + |piece|][k] == piece[k];
  }

  lemma Visible(text: string, i: nat)
    requires !IsBlank(CharAt(text, i))
    ensures Lex(text, i) == LexVisible(text, i)
  {
  }

  lemma BlankSkipped(text: string, i: nat)
    requires IsBlank(CharAt(text, i))
    ensures Lex(text, i) == Lex(text, i + 1)
  {
  }

  /** A run of blanks is skipped. */
  lemma {:induction false} BlanksSkipped(text: string, i: nat, w: string)
    requires Occurs(text, i, w) && Blanks(w)
    ensures Lex(text, i) == Lex(text, i + |w|)
    decreases |w|
  {
    if w != [] {
      hide Lex;
      OccursChar(text, i, w, 0);
      BlankSkipped(text, i);
      assert w == [w[0]] + w[1..];
      OccursParts(text, i, [w[0]], w[1..]);
      BlanksSkipped(text, i + 1, w[1..]);
    }
  }

  /** A punctuation character is lexed where it stands. */
  lemma LexPunctuation(text: string, i: nat)
    requires Punctuation(CharAt(text, i)).Some?
    ensures Lex(text, i) == Lexed(Punctuation(CharAt(text, i)).value, LEX_OK, i + 1)
  {
    Visible(text, i);
  }

  // Numbers and registers

  ghost predicate Digits(ds: string) {
    forall k :: 0 <= k < |ds| ==> IsDigit(ds[k])
  }

  /** The value of digits ds read behind the value v. */
  function Horner(v: nat, ds: string): nat
    requires forall k :: 0 <= k < |ds| ==> IsDigit(ds[k])
    decreases |ds|
  {
    if ds == [] then v else Horner(v * 10 + DigitValue(ds[0]), ds[1..])
  }

  lemma {:induction false} HornerGrows(v: nat, ds: string)
    requires Digits(ds)
    ensures Horner(v, ds) >= v
    decreases |ds|
  {
    if ds != [] { HornerGrows(v * 10 + DigitValue(ds[0]), ds[1..]); }
  }

  lemma {:induction false} HornerSnoc(v: nat, ds: string, c: char)
    requires Digits(ds) && IsDigit(c)
    ensures Horner(v, ds + [c]) == Horner(v, ds) * 10 + DigitValue(c)
    decreases |ds|
  {
    if ds == [] {
      assert (ds + [c])[1..] == [];
    } else {
      assert (ds + [c])[1..] == ds[1..] + [c];
      HornerSnoc(v * 10 + DigitValue(ds[0]), ds[1..], c);
    }
  }

  lemma {:induction false} DecimalValue(n: nat)
    ensures Digits(Decimal(n)) && Horner(0, Decimal(n)) == n
  {
    if n < 10 {
      assert Decimal(n)[1..] == [];
    } else {
      DecimalValue(n / 10);
      HornerSnoc(0, Decimal(n / 10), DigitChar(n % 10));
    }
  }

  lemma {:induction false} HornerTenfold(v: nat, ds: string)
    requires Digits(ds) && ds != []
    ensures Horner(v, ds) >= 10 * v
  {
    HornerGrows(v * 10 + DigitValue(ds[0]), ds[1..]);
  }

  /** Digits are read to their value; the last one may wrap 2^63 to the least integer. */
  lemma {:induction false} ScanDigits(text: string, i: nat, v: nat, ds: string)
    requires Digits(ds) && Occurs(text, i, ds) && !IsDigit(CharAt(text, i + |ds|))
    requires v <= INT64_MAX && Horner(v, ds) <= TWO63
    ensures ScanNumber(text, i, v) == Scanned(Wrap(Horner(v, ds)), true, i + |ds|)
    ensures ScanRegister(text, i, v) == Scanned(Horner(v, ds), true, i + |ds|)
    decreases |ds|
  {
    WrapIsExactInRange(v);
    if ds != [] {
      hide IsDigit, Wrap;
      var w := v * 10 + DigitValue(ds[0]);
      OccursChar(text, i, ds, 0);
      assert ds == [ds[0]] + ds[1..];
      OccursParts(text, i, [ds[0]], ds[1..]);
      HornerGrows(w, ds[1..]);
      WrapIsExactInRange(w);
      if ds[1..] != [] {
        HornerTenfold(w, ds[1..]);
        ScanDigits(text, i + 1, w, ds[1..]);
      }
    }
  }

  lemma LexDecimal(text: string, i: nat, n: nat)
    requires Occurs(text, i, Decimal(n)) && !IsDigit(CharAt(text, i + |Decimal(n)|)) && n <= TWO63
    ensures Lex(text, i) == Lexed(Num(Wrap(n)), LEX_OK, i + |Decimal(n)|)
  {
    hide ScanNumber, ScanRegister, Decimal, ScanString, Wrap;
    var ds := Decimal(n);
    DecimalValue(n);
    OccursChar(text, i, ds, 0);
    assert ds == [ds[0]] + ds[1..];
    OccursParts(text, i, [ds[0]], ds[1..]);
    ScanDigits(text, i + 1, DigitValue(ds[0]), ds[1..]);
    Visible(text, i);
  }

  lemma LexRegister(text: string, i: nat, r: byte)
    requires Occurs(text, i, RegisterName(r)) && !IsDigit(CharAt(text, i + |RegisterName(r)|))
    ensures Lex(text, i) == Lexed(Reg(r), LEX_OK, i + |RegisterName(r)|)
  {
    hide ScanNumber, ScanRegister, Decimal, ScanString;
    var ds := Decimal(r);
    DecimalValue(r);
    OccursParts(text, i, "R", ds);
    OccursChar(text, i, "R", 0);
    OccursChar(text, i + 1, ds, 0);
    ScanDigits(text, i + 1, 0, ds);
    Visible(text, i);
  }

  // Words

  /** Letters, digits and the underscore. */
  predicate NameChar(c: char) {
    '0' <= c <= '9' || 'A' <= c <= 'Z' || 'a' <= c <= 'z' || c == '_'
  }

  predicate ValidName(s: string) {
    s != [] && 'a' <= s[0] <= 'z' && forall k :: 0 <= k < |s| ==> NameChar(s[k])
  }

  lemma {:induction false} WordRun(text: string, i: nat, w: string)
    requires Occurs(text, i, w) && (forall k :: 0 <= k < |w| ==> IsWord(w[k])) && !IsWord(CharAt(text, i + |w|))
    ensures WordEnd(text, i) == i + |w|
    decreases |w|
  {
    if w != [] {
      OccursChar(text, i, w, 0);
      assert w == [w[0]] + w[1..];
      OccursParts(text, i, [w[0]], w[1..]);
      WordRun(text, i + 1, w[1..]);
    }
  }

  lemma {:induction false} UpperRun(text: string, i: nat, w: string)
    requires Occurs(text, i, w) && (forall k :: 0 <= k < |w| ==> IsUpper(w[k])) && !IsUpper(CharAt(text, i + |w|))
    ensures UpperEnd(text, i) == i + |w|
    decreases |w|
  {
    if w != [] {
      OccursChar(text, i, w, 0);
      assert w == [w[0]] + w[1..];
      OccursParts(text, i, [w[0]], w[1..]);
      UpperRun(text, i + 1, w[1..]);
    }
  }

  lemma LexName(text: string, i: nat, name: string)
    requires ValidName(name) && Occurs(text, i, name) && !IsWord(CharAt(text, i + |name|))
    ensures Lex(text, i) == Lexed(Name(name), LEX_OK, i + |name|)
  {
    hide ScanNumber, ScanRegister, ScanString, WordEnd;
    OccursChar(text, i, name, 0);
    assert name == [name[0]] + name[1..];
    OccursParts(text, i, [name[0]], name[1..]);
    WordRun(text, i + 1, name[1..]);
    Visible(text, i);
  }

  lemma LexUpper(text: string, i: nat, w: string)
    requires |w| >= 2 && (forall k :: 0 <= k < |w| ==> IsUpper(w[k]))
    requires Occurs(text, i, w) && !IsUpper(CharAt(text, i + |w|))
    ensures Lex(text, i) == Lexed(Mnemonic(w), LEX_OK, i + |w|)
  {
    hide ScanNumber, ScanRegister, ScanString, UpperEnd;
    OccursChar(text, i, w, 0);
    OccursChar(text, i, w, 1);
    assert w == [w[0]] + w[1..];
    OccursParts(text, i, [w[0]], w[1..]);
    UpperRun(text, i + 1, w[1..]);
    Visible(text, i);
  }

  // Strings

  lemma EscapedParts(text: string, i: nat, s: string)
    requires s != [] && Occurs(text, i, EscapeText(s) + "\"")
    ensures Occurs(text, i, EscapeChar(s[0]))
    ensures Occurs(text, i + |EscapeChar(s[0])|, EscapeText(s[1..]) + "\"")
    ensures |EscapeText(s)| == |EscapeChar(s[0])| + |EscapeText(s[1..])|
  {
    hide EscapeChar, Occurs;
    var e, rest := EscapeChar(s[0]), EscapeText(s[1..]);
    assert EscapeText(s) == e + rest;
    assert EscapeText(s) + "\"" == e + (rest + "\"");
    OccursParts(text, i, e, rest + "\"");
  }

  lemma ScanClosing(text: string, i: nat, acc: string)
    requires Occurs(text, i, EscapeText([]) + "\"")
    ensures EscapeText([]) == [] && ScanString(text, i, acc) == Lexed(Str(acc), LEX_OK, i + 1)
  {
    OccursChar(text, i, EscapeText([]) + "\"", 0);
  }

  lemma {:induction false} ScanEscaped(text: string, i: nat, acc: string, s: string)
    requires '\"' !in s && Occurs(text, i, EscapeText(s) + "\"")
    ensures ScanString(text, i, acc) == Lexed(Str(acc + s), LEX_OK, i + |EscapeText(s)| + 1)
    decreases |s|
  {
    hide ScanString, EscapeChar, EscapeText, Occurs;
    if s == [] {
      ScanClosing(text, i, acc);
      assert acc + s == acc;
    } else {
      EscapedParts(text, i, s);
      OneEscaped(text, i, acc, s[0]);
      ScanEscaped(text, i + |EscapeChar(s[0])|, acc + [s[0]], s[1..]);
      assert acc + [s[0]] + s[1..] == acc + s;
    }
  }

  lemma OneEscaped(text: string, i: nat, acc: string, c: char)
    requires c != '\"' && Occurs(text, i, EscapeChar(c))
    ensures ScanString(text, i, acc) == ScanString(text, i + |EscapeChar(c)|, acc + [c])
  {
    OccursChar(text, i, EscapeChar(c), 0);
    if |EscapeChar(c)| == 2 { OccursChar(text, i, EscapeChar(c), 1); }
  }

  lemma LexString(text: string, i: nat, s: string)
    requires '\"' !in s && Occurs(text, i, "\"" + EscapeText(s) + "\"")
    ensures Lex(text, i) == Lexed(Str(s), LEX_OK, i + |EscapeText(s)| + 2)
  {
    hide ScanNumber, ScanRegister, EscapeText;
    assert "\"" + EscapeText(s) + "\"" == "\"" + (EscapeText(s) + "\"");
    OccursParts(text, i, "\"", EscapeText(s) + "\"");
    OccursChar(text, i, "\"", 0);
    ScanEscaped(text, i + 1, [], s);
    assert [] + s == s;
    Visible(text, i);
  }

  // Tables

  lemma MnemonicIsUpper(op: OpCode)
    ensures 2 <= |MnemonicOf(op)| <= 4 && forall k :: 0 <= k < |MnemonicOf(op)| ==> IsUpper(MnemonicOf(op)[k])
  {
  }

  /** The operation that a mnemonic's first two or three characters single out. */
  function Signature(s: string): (char, char, char)
    requires |s| >= 2
  {
    (s[0], s[1], if |s| >= 3 then s[2] else ' ')
  }

  function BySignature(k: (char, char, char)): nat {
    match k.0
    case 'A' => if k.1 == 'D' then 0 else 6
    case 'S' =>
      if k.1 == 'U' then 1 else if k.1 == 'T' then 12 else if k.1 == 'W' then 14
      else if k.2 == 'L' then 10 else 11
    case 'M' => 2
    case 'D' => 3
    case 'C' => if k.1 == 'M' then 4 else 18
    case 'N' => if k.1 == 'E' then 5 else if k.2 == 'T' then 9 else 20
    case 'O' => 7
    case 'X' => 8
    case 'L' => 13
    case 'P' => if k.1 == 'U' then 15 else 16
    case 'F' => 17
    case 'R' => if k.1 == 'T' then 19 else 21
    case 'J' =>
      if k.1 == 'M' then 22 else if k.1 == 'E' then 23 else if k.1 == 'N' then 24
      else if k.1 == 'L' then (if k.2 == 'E' then 25 else 26)
      else if k.2 == 'E' then 27 else 28
    case 'H' => 29
    case _ => 30
  }

  lemma MnemonicSignature(op: OpCode)
    ensures |MnemonicOf(op)| >= 2 && BySignature(Signature(MnemonicOf(op))) == OpNumber(op)
    ensures |MnemonicOf(op)| == 2 <==> op in {OR, ST, LD}
  {
    if OpNumber(op) < 15 { LowSignature(op); } else { HighSignature(op); }
  }

  lemma LowSignature(op: OpCode)
    requires OpNumber(op) < 15
    ensures |MnemonicOf(op)| >= 2 && BySignature(Signature(MnemonicOf(op))) == OpNumber(op)
    ensures |MnemonicOf(op)| == 2 <==> op in {OR, ST, LD}
  {
  }

  lemma HighSignature(op: OpCode)
    requires OpNumber(op) >= 15
    ensures |MnemonicOf(op)| >= 3 && BySignature(Signature(MnemonicOf(op))) == OpNumber(op)
  {
  }

  /** No mnemonic is a prefix of another one. */
  lemma MnemonicsAreApart(op: OpCode, other: OpCode)
    requires MatchesPrefix(MnemonicOf(other), MnemonicOf(op))
    ensures op == other
  {
    hide BySignature;
    MnemonicSignature(op);
    MnemonicSignature(other);
    var s, full := MnemonicOf(op), MnemonicOf(other);
    assert s[0] == full[0] && s[1] == full[1];
    if |s| >= 3 {
      assert s[2] == full[2];
      assert Signature(s) == Signature(full);
    } else {
      ShortMnemonics(op, other);
    }
    assert OPS[OpNumber(op)] == op && OPS[OpNumber(other)] == other;
  }

  lemma ShortMnemonics(op: OpCode, other: OpCode)
    requires op in {OR, ST, LD}
    requires |MnemonicOf(other)| >= 2
    requires MnemonicOf(other)[0] == MnemonicOf(op)[0] && MnemonicOf(other)[1] == MnemonicOf(op)[1]
    ensures op == other
  {
  }

  /** Looking up a full mnemonic finds its operation. */
  lemma LookupMnemonic(op: OpCode)
    ensures OpLookup(MnemonicOf(op)) == Some(op)
  {
    hide MnemonicOf, FirstMatch, OpNumber, MatchesPrefix;
    var s, n := MnemonicOf(op), OpNumber(op);
    var k := FirstMatch(MNEMONICS, s);
    TableAt(n);
    assert MatchesPrefix(MNEMONICS[n], s) by { MatchesItself(s); }
    assert k <= n;
    TableAt(k);
    MnemonicsAreApart(op, OPS[k]);
  }

  lemma MatchesItself(s: string)
    ensures MatchesPrefix(s, s)
  {
    assert s[..|s|] == s;
  }

  /** The two tables run in step. */
  lemma TableAt(k: nat)
    requires k < OP_COUNT
    ensures |OPS| == |MNEMONICS| == OP_COUNT && MNEMONICS[k] == MnemonicOf(OPS[k])
  {
    if k < 16 { LowTable(k); } else if k < 24 { MiddleTable(k); } else { HighTable(k); }
  }

  lemma LowTable(k: nat)
    requires k < 16
    ensures MNEMONICS[k] == MnemonicOf(OPS[k])
  {
  }

  lemma MiddleTable(k: nat)
    requires 16 <= k < 24
    ensures MNEMONICS[k] == MnemonicOf(OPS[k])
  {
  }

  lemma HighTable(k: nat)
    requires 24 <= k < OP_COUNT
    ensures MNEMONICS[k] == MnemonicOf(OPS[k])
  {
  }

  lemma LookupDirective(d: Ir.DirType)
    ensures DirLookup(DirectiveName(d)) == Some(d) && ValidName(DirectiveName(d))
  {
    var s, names := DirectiveName(d), DirNames();
    var n :=
      match d
      case STRING => 0 case ADDR => 1 case ENTRY => 2 case WORD => 3 case BYTE => 4 case TEXT => 5 case DATA => 6;
    assert names[n] == s && MatchesPrefix(names[n], s);
    var k := FirstMatch(names, s);
    assert k <= n;
    assert names[k][0] == s[0];
  }
}
