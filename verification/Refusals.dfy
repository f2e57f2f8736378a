/**
 What the parser looks up and what it refuses: abbreviated words, unknown words, operands of the wrong
 kind, and text that is no token. Every law is about all lines that begin in a certain way.
 */
module Refusals {
  import opened Common
  import opened Words
  import opened Isa
  import opened Lexer
  import opened Parser
  import opened Render
  import opened RoundTrip
  import Ir

  // Looking up words

  /** Operation k of the table is the first one whose mnemonic begins with the word. */
  ghost predicate FirstToBegin(k: nat, s: string)
    requires k < |OPS|
  {
    s <= MnemonicOf(OPS[k]) && forall j :: 0 <= j < k ==> !(s <= MnemonicOf(OPS[j]))
  }

  /** A word stands for the first operation in numeric order whose mnemonic begins with it. */
  lemma Abbreviation(s: string, op: OpCode)
    ensures OpLookup(s) == Some(op) <==> exists k :: 0 <= k < |OPS| && OPS[k] == op && FirstToBegin(k, s)
  {
    hide MnemonicOf, FirstMatch, OPS, MNEMONICS;
    var k := FirstMatch(MNEMONICS, s);
    TableAt(0);
    forall j | 0 <= j < OP_COUNT
      ensures MNEMONICS[j] == MnemonicOf(OPS[j])
    {
      TableAt(j);
    }
    if k < OP_COUNT { assert FirstToBegin(k, s); }
    if j :| 0 <= j < |OPS| && OPS[j] == op && FirstToBegin(j, s) { assert j == k; }
  }

  /** No operation is found exactly when no mnemonic begins with the word. */
  lemma NoOperation(s: string)
    ensures OpLookup(s).None? <==> forall op :: !(s <= MnemonicOf(op))
  {
    hide MnemonicOf, FirstMatch, OpNumber;
    var k := FirstMatch(MNEMONICS, s);
    TableAt(0);
    if k < OP_COUNT { TableAt(k); }
    forall op
      ensures k == OP_COUNT ==> !(s <= MnemonicOf(op))
    {
      TableAt(OpNumber(op));
    }
  }

  /** A name stands for the directive whose name begins with it; there is at most one. */
  lemma AbbreviatedDirective(s: string, d: Ir.DirType)
    requires s != []
    ensures DirLookup(s) == Some(d) <==> s <= DirectiveName(d)
  {
    hide FirstMatch;
    var k, n := FirstMatch(DirNames(), s), DirNumber(d);
    assert DirNames()[n] == DirectiveName(d);
    if k < |DIRECTIVES| {
      assert DirNames()[k] == DirectiveName(DIRECTIVES[k].1);
      assert DirNames()[k][0] == s[0];
      if s <= DirectiveName(d) { assert DirectiveName(d)[0] == s[0]; }
    }
  }

  function DirNumber(d: Ir.DirType): (n: nat)
    ensures n < |DIRECTIVES| && DIRECTIVES[n].1 == d
  {
    match d
    case STRING => 0 case ADDR => 1 case ENTRY => 2 case WORD => 3 case BYTE => 4 case TEXT => 5 case DATA => 6
  }

  // How lines begin

  predicate IsUpperWord(w: string) {
    |w| >= 2 && forall k :: 0 <= k < |w| ==> 'A' <= w[k] <= 'Z'
  }

  /** A line that begins with a word no mnemonic begins with ends the process. */
  lemma UnknownOperation(text: string, w: string)
    requires IsUpperWord(w) && Occurs(text, 0, w) && !IsUpper(CharAt(text, |w|))
    requires forall op :: !(w <= MnemonicOf(op))
    ensures ParseLine(text) == Exits(PARSER_UNKNOWN_INSTR)
  {
    hide Lex, OpLookup, Occurs;
    LexUpper(text, 0, w);
    NoOperation(w);
  }

  /** So does a dot before a name no directive begins with, and before anything else than a name. */
  lemma UnknownDirective(text: string)
    requires CharAt(text, 0) == '.'
    ensures var t := Lex(text, 1);
            && (t.status != LEX_OK ==> ParseLine(text) == LexExits(t.status))
            && (t.status == LEX_OK && !t.token.Name? ==> ParseLine(text) == Exits(PARSER_SYNTAX_ERROR))
            && (t.status == LEX_OK && t.token.Name?
                && (forall d :: !(t.token.text <= DirectiveName(d))) ==>
                  ParseLine(text) == Exits(PARSER_UNKNOWN_DIR))
  {
    hide Lex, DirLookup, ParseDirArg, ValidName;
    LexPunctuation(text, 0);
    TokenWellFormed(text, 1);
    var t := Lex(text, 1);
    if t.token.Name? {
      NamesAreNotEmpty(t.token.text);
      forall d
        ensures DirLookup(t.token.text) == Some(d) <==> t.token.text <= DirectiveName(d)
      {
        AbbreviatedDirective(t.token.text, d);
      }
    }
  }

  lemma NamesAreNotEmpty(name: string)
    requires ValidName(name)
    ensures name != []
  {
  }

  /** A line cannot begin with punctuation, a number or a register; it is refused, and reading goes on. */
  lemma BadBeginning(text: string)
    ensures CharAt(text, 0) in {'[', ']', ',', ':'} ==> ParseLine(text) == Rejected(PARSER_SYNTAX_ERROR)
    ensures CharAt(text, 0) in {'+', '-'} ==> ParseLine(text) == Rejected(PARSER_UNKNOWN_INSTR)
  {
    hide Lex;
    if Punctuation(CharAt(text, 0)).Some? { LexPunctuation(text, 0); }
  }

  lemma NumberFirst(text: string, n: nat)
    requires n <= INT64_MAX && Occurs(text, 0, Decimal(n)) && !IsDigit(CharAt(text, |Decimal(n)|))
    ensures ParseLine(text) == Rejected(PARSER_UNKNOWN_INSTR)
  {
    hide Lex, Decimal, Occurs;
    LexDecimal(text, 0, n);
  }

  lemma RegisterFirst(text: string, r: byte)
    requires Occurs(text, 0, RegisterName(r)) && !IsDigit(CharAt(text, |RegisterName(r)|))
    ensures ParseLine(text) == Rejected(PARSER_UNKNOWN_INSTR)
  {
    hide Lex, RegisterName, Occurs;
    LexRegister(text, 0, r);
  }

  // Labels

  /**
   A name at the beginning of a line must be followed by a colon and the end of the line: the errors for
   a name alone, and for anything else behind the name or behind the colon.
   */
  lemma LabelRefused(text: string, name: string)
    requires ValidName(name) && Occurs(text, 0, name) && !IsWord(CharAt(text, |name|))
    requires Lex(text, |name|).status == LEX_OK
    ensures var c := Lex(text, |name|);
            var e := Lex(text, c.next);
            && (IsEndOfInstr(c.token) ==> ParseLine(text) == Exits(PARSER_SYNTAX_ERROR))
            && (!IsEndOfInstr(c.token) && c.token != Colon ==> ParseLine(text) == Exits(PARSER_TOO_MANY_OPE))
            && (c.token == Colon && e.status == LEX_OK && !IsEndOfInstr(e.token) ==>
                  ParseLine(text) == Exits(if e.token in {Comma, Dot, OpenBracket, CloseBracket, Colon}
                                           then PARSER_SYNTAX_ERROR else PARSER_TOO_MANY_OPE))
  {
    hide Lex, Occurs, ValidName;
    LexName(text, 0, name);
  }

  // Operands

  /** The text begins with a mnemonic, a space and the operand text. */
  predicate Begins(text: string, op: OpCode, operand: string) {
    hide MnemonicOf, Occurs;
    Occurs(text, 0, MnemonicOf(op) + (" " + operand))
  }

  /** Up to the operand such a line is read without an error. */
  lemma BeginsLine(text: string, op: OpCode, operand: string)
    requires Begins(text, op, operand)
    ensures var i := |MnemonicOf(op)| + 1;
            Occurs(text, i, operand) && ParseLine(text) == AsLine(ParseInstr(text, i, MnemonicOf(op)))
  {
    hide Lex, Occurs, MnemonicOf, OpLookup, ParseOperand, ParseSecond;
    var m := MnemonicOf(op);
    OccursParts(text, 0, m, " " + operand);
    OccursParts(text, |m|, " ", operand);
    OccursChar(text, |m|, " ", 0);
    MnemonicIsUpper(op);
    LexUpper(text, 0, m);
    BlankSkipped(text, |m|);
  }

  /** A token at the operand's place that no operand begins with. */
  lemma FirstRefused(text: string, i: nat, op: OpCode)
    requires Lex(text, i).status == LEX_OK && !IsEndOfInstr(Lex(text, i).token)
    requires ParseOperand(text, Lex(text, i).next, Lex(text, i).token).Failed?
    ensures ParseInstr(text, i, MnemonicOf(op))
            == Failed(ParseOperand(text, Lex(text, i).next, Lex(text, i).token).error)
  {
    hide Lex, MnemonicOf, OpLookup, ParseOperand;
    LookupMnemonic(op);
  }

  lemma LexAnyRegister(text: string, i: nat, r: nat)
    requires Occurs(text, i, "R" + Decimal(r)) && !IsDigit(CharAt(text, i + 1 + |Decimal(r)|)) && r <= TWO63
    ensures Lex(text, i) == Lexed(Reg(r), LEX_OK, i + 1 + |Decimal(r)|)
  {
    hide ScanNumber, ScanRegister, Decimal, ScanString;
    var ds := Decimal(r);
    DecimalValue(r);
    OccursParts(text, i, "R", ds);
    OccursChar(text, i, "R", 0);
    OccursChar(text, i + 1, ds, 0);
    ScanDigits(text, i + 1, 0, ds);
    Visible(text, i);
  }

  /** Registers above 255 are no operands. */
  lemma RegisterTooHigh(text: string, op: OpCode, r: nat)
    requires 255 < r <= TWO63 && Begins(text, op, "R" + Decimal(r))
    requires !IsDigit(CharAt(text, |MnemonicOf(op)| + 2 + |Decimal(r)|))
    ensures ParseLine(text) == Exits(PARSER_INVALID_REGISTER)
  {
    hide Lex, Occurs, MnemonicOf, Decimal, ParseLine, Begins, ParseInstr, IsDigit;
    BeginsLine(text, op, "R" + Decimal(r));
    LexAnyRegister(text, |MnemonicOf(op)| + 1, r);
    FirstRefused(text, |MnemonicOf(op)| + 1, op);
  }

  /** In brackets there is no such check: the number is cut to its low byte. */
  lemma BracketedRegisterWraps(text: string, i: nat, r: nat)
    requires r <= TWO63 && Occurs(text, i, "R" + Decimal(r) + "]")
    ensures ParseBracket(text, i) == Parsed(Ir.MemRegister(r % 256), i + |Decimal(r)| + 2)
  {
    hide Lex, Decimal, ParseOffset, ExpectEnd;
    OccursParts(text, i, "R" + Decimal(r), "]");
    var j := i + 1 + |Decimal(r)|;
    OccursChar(text, j, "]", 0);
    LexAnyRegister(text, i, r);
    LexPunctuation(text, j);
  }

  lemma BracketedBaseWraps(text: string, i: nat, r: nat, k: int64)
    requires r <= TWO63 && Occurs(text, i, "R" + Decimal(r) + OffsetTail(k))
    ensures ParseBracket(text, i) == Parsed(Ir.MemIndexed(r % 256, k), i + |Decimal(r)| + 1 + |OffsetTail(k)|)
  {
    hide Lex, Decimal, ParseOffset, ExpectEnd, Occurs, CharAt;
    var tail := OffsetTail(k);
    OccursParts(text, i, "R" + Decimal(r), tail);
    var j := i + 1 + |Decimal(r)|;
    OccursChar(text, j, tail, 0);
    LexAnyRegister(text, i, r);
    OffsetBack(text, j, k);
  }

  /** Other tokens behind the bracket are not refused: a number and a bracket complete an operand of no kind. */
  lemma BracketedNothing(text: string, i: nat)
    requires var t := Lex(text, i);
             var u := Lex(text, t.next);
             && t.status == LEX_OK && (t.token == Plus || t.token.Str? || t.token.Mnemonic?)
             && u.status == LEX_OK && !IsEndOfInstr(u.token)
             && Lex(text, u.next).token.Num? && Lex(text, Lex(text, u.next).next).token == CloseBracket
    ensures ParseBracket(text, i) == Unset
  {
    hide Lex;
  }

  /** A string literal is no operand of an instruction. */
  lemma StringOperand(text: string, op: OpCode, s: string)
    requires '\"' !in s && Begins(text, op, "\"" + EscapeText(s) + "\"")
    ensures ParseLine(text) == Exits(PARSER_INVALID_ARGS)
  {
    hide Lex, Occurs, MnemonicOf, EscapeText, ParseLine, Begins, ParseInstr;
    BeginsLine(text, op, "\"" + EscapeText(s) + "\"");
    LexString(text, |MnemonicOf(op)| + 1, s);
    FirstRefused(text, |MnemonicOf(op)| + 1, op);
  }

  /** Behind a first operand stand a comma or the end of the line; the errors for anything else. */
  lemma FirstNotFollowed(text: string, op: OpCode, r: byte, j: nat)
    requires Begins(text, op, RegisterName(r)) && j == |MnemonicOf(op)| + 1 + |RegisterName(r)|
    requires !IsDigit(CharAt(text, j)) && Lex(text, j).status == LEX_OK
    requires !IsEndOfInstr(Lex(text, j).token) && Lex(text, j).token != Comma
    ensures ParseLine(text) == Exits(if Lex(text, j).token in {Dot, OpenBracket, CloseBracket, Colon}
                                     then PARSER_SYNTAX_ERROR else PARSER_TOO_MANY_OPE)
  {
    hide Lex, Occurs, MnemonicOf, RegisterName, ParseLine, Begins, OpLookup;
    BeginsLine(text, op, RegisterName(r));
    LexRegister(text, |MnemonicOf(op)| + 1, r);
    LookupMnemonic(op);
  }

  // No token

  /** Whatever stands in a line behind a mnemonic, a lexer error there ends the process. */
  lemma OperandIsNoToken(text: string, op: OpCode, operand: string)
    requires Begins(text, op, operand) && Lex(text, |MnemonicOf(op)| + 1).status != LEX_OK
    ensures ParseLine(text) == LexExits(Lex(text, |MnemonicOf(op)| + 1).status)
  {
    hide Lex, Occurs, MnemonicOf, ParseLine, Begins, OpLookup, ParseOperand;
    BeginsLine(text, op, operand);
    LookupMnemonic(op);
  }

  /** Characters that begin no token, and a slash that is not doubled. */
  lemma StrangeCharacter(text: string, i: nat)
    requires var c := CharAt(text, i);
             && c !in {' ', '\t', '.', ',', '[', ']', ':', '+', '-', '\n', '\0', '\"', '/'}
             && !('0' <= c <= '9') && !('a' <= c <= 'z') && !('A' <= c <= 'Z')
    ensures Lex(text, i) == Lexed(Eof, LEX_INVALID_TOKEN, i)
  {
  }

  lemma SingleSlash(text: string, i: nat)
    requires CharAt(text, i) == '/' && CharAt(text, i + 1) != '/'
    ensures Lex(text, i) == Lexed(Eof, LEX_INVALID_TOKEN, i)
  {
  }

  /** A literal whose closing quote is missing, and one with a backslash before any but six characters. */
  lemma BadString(text: string, i: nat, s: string)
    requires '\"' !in s && Occurs(text, i, "\"" + EscapeText(s))
    ensures var end := i + 1 + |EscapeText(s)|;
            && (CharAt(text, end) == '\0' ==> Lex(text, i).status == LEX_MISSING_QUOTE)
            && (CharAt(text, end) == '\\' && CharAt(text, end + 1) !in {'n', 't', 'r', '\"', '\\', '0'} ==>
                  Lex(text, i).status == LEX_UNKNOWN_ESCAPE)
  {
    hide EscapeText, ScanNumber, ScanRegister, ScanString;
    OccursParts(text, i, "\"", EscapeText(s));
    OccursChar(text, i, "\"", 0);
    ScanUpTo(text, i + 1, [], s);
    ScanStops(text, i + 1 + |EscapeText(s)|, [] + s);
    Visible(text, i);
  }

  lemma {:induction false} ScanUpTo(text: string, i: nat, acc: string, s: string)
    requires '\"' !in s && Occurs(text, i, EscapeText(s))
    ensures ScanString(text, i, acc) == ScanString(text, i + |EscapeText(s)|, acc + s)
    decreases |s|
  {
    hide ScanString, EscapeChar, EscapeText, Occurs;
    if s == [] {
      NothingEscaped();
      assert acc + s == acc;
    } else {
      var e, rest := EscapeChar(s[0]), s[1..];
      EscapedSplit(s, rest);
      OccursParts(text, i, e, EscapeText(rest));
      OneEscaped(text, i, acc, s[0]);
      ScanUpTo(text, i + |e|, acc + [s[0]], rest);
      assert acc + [s[0]] + rest == acc + s;
    }
  }

  lemma NothingEscaped()
    ensures EscapeText([]) == []
  {
  }

  lemma EscapedSplit(s: string, rest: string)
    requires s != [] && rest == s[1..]
    ensures EscapeText(s) == EscapeChar(s[0]) + EscapeText(rest)
    ensures |EscapeText(s)| == |EscapeChar(s[0])| + |EscapeText(rest)|
    ensures '\"' !in s ==> s[0] != '\"' && '\"' !in rest
  {
  }

  lemma ScanStops(text: string, i: nat, acc: string)
    ensures CharAt(text, i) == '\0' ==> ScanString(text, i, acc).status == LEX_MISSING_QUOTE
    ensures CharAt(text, i) == '\\' && CharAt(text, i + 1) !in {'n', 't', 'r', '\"', '\\', '0'}
            ==> ScanString(text, i, acc).status == LEX_UNKNOWN_ESCAPE
  {
  }

  /** What each escape stands for: a quote behind a backslash becomes a tab. */
  lemma Escapes(text: string, i: nat, acc: string)
    requires CharAt(text, i) == '\\'
    ensures CharAt(text, i + 1) == 'n' ==> ScanString(text, i, acc) == ScanString(text, i + 2, acc + ['\n'])
    ensures CharAt(text, i + 1) == 't' ==> ScanString(text, i, acc) == ScanString(text, i + 2, acc + ['\t'])
    ensures CharAt(text, i + 1) == 'r' ==> ScanString(text, i, acc) == ScanString(text, i + 2, acc + ['\r'])
    ensures CharAt(text, i + 1) == '\"' ==> ScanString(text, i, acc) == ScanString(text, i + 2, acc + ['\t'])
    ensures CharAt(text, i + 1) == '\\' ==> ScanString(text, i, acc) == ScanString(text, i + 2, acc + ['\\'])
    ensures CharAt(text, i + 1) == '0' ==> ScanString(text, i, acc) == ScanString(text, i + 2, acc + ['\0'])
  {
  }

  /** A number of ten times INT64_MAX or more, leading digits apart, is no token. */
  lemma {:induction false} NumberTooLong(text: string, i: nat, v: nat, ds: string, d: char)
    requires Digits(ds) && Horner(v, ds) <= INT64_MAX && Horner(v, ds) * 10 > INT64_MAX
    requires IsDigit(d) && Occurs(text, i, ds + [d]) && v <= INT64_MAX
    ensures ScanNumber(text, i, v) == Scanned(0, false, i + |ds|)
    ensures ScanRegister(text, i, v) == Scanned(0, false, i + |ds|)
    decreases |ds|
  {
    hide IsDigit, Wrap;
    OccursChar(text, i, ds + [d], 0);
    WrapIsExactInRange(v);
    if ds != [] {
      var w := v * 10 + DigitValue(ds[0]);
      HornerGrows(w, ds[1..]);
      WrapIsExactInRange(w);
      assert ds + [d] == [ds[0]] + (ds[1..] + [d]);
      OccursParts(text, i, [ds[0]], ds[1..] + [d]);
      NumberTooLong(text, i + 1, w, ds[1..], d);
    }
  }
}
