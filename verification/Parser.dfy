/**
 The line parser: from one line of text to one node.
 */
module Parser {
  import opened Common
  import opened Words
  import opened Isa
  import opened Lexer
  import Ir

  datatype ParserError =
    | PARSER_INVALID_ARGS
    | PARSER_INVALID_REGISTER
    | PARSER_UNKNOWN_DIR
    | PARSER_UNKNOWN_INSTR
    | PARSER_SYNTAX_ERROR
    | PARSER_TOO_MANY_OPE

  /** What a parsing function makes of the text from the cursor on. */
  datatype Parse<+T> =
    | Parsed(value: T, next: nat)
    | Failed(error: ParserError)
    | LexFailed(status: LexStatus)  // a lexer error: the process exits
    | Unset                         // success, but the operand's kind was never written

  /** What parse_line does. Errors inside a directive, label or instruction exit the process. */
  datatype LineResult =
    | Line(node: Ir.Node)
    | Blank
    | Rejected(error: ParserError)
    | Exits(error: ParserError)
    | LexExits(status: LexStatus)
    | UnsetLine

  // Tables

  const MNEMONICS: seq<string> := [
    "ADD", "SUB", "MUL", "DIV", "CMP", "NEG", "AND", "OR", "XOR", "NOT", "SHL", "SHR",
    "ST", "LD", "SWP", "PUSH", "POP", "FAS", "CALL", "RTN", "NOP", "RST",
    "JMP", "JEQ", "JNE", "JLE", "JLT", "JGE", "JGT", "HALT", "TRAP"]

  const DIRECTIVES: seq<(string, Ir.DirType)> := [
    ("string", Ir.STRING), ("addr", Ir.ADDR), ("entry", Ir.ENTRY), ("word", Ir.WORD),
    ("byte", Ir.BYTE), ("text", Ir.TEXT), ("data", Ir.DATA)]

  /** !strncmp(full, s, |s|): s is a prefix of the table's entry. */
  predicate MatchesPrefix(full: string, s: string) {
    |s| <= |full| && full[..|s|] == s
  }

  function FirstMatch(table: seq<string>, s: string, i: nat := 0): (k: nat)
    requires i <= |table|
    ensures i <= k <= |table|
    ensures k < |table| ==> MatchesPrefix(table[k], s)
    ensures forall j :: i <= j < k ==> !MatchesPrefix(table[j], s)
    decreases |table| - i
  {
    if i == |table| || MatchesPrefix(table[i], s) then i else FirstMatch(table, s, i + 1)
  }

  function OpLookup(s: string): Option<OpCode> {
    var k := FirstMatch(MNEMONICS, s);
    if k < |OPS| then Some(OPS[k]) else None
  }

  function DirNames(): (names: seq<string>)
    ensures |names| == |DIRECTIVES|
  {
    seq(|DIRECTIVES|, k requires 0 <= k < |DIRECTIVES| => DIRECTIVES[k].0)
  }

  function DirLookup(s: string): Option<Ir.DirType> {
    var k := FirstMatch(DirNames(), s);
    if k < |DIRECTIVES| then Some(DIRECTIVES[k].1) else None
  }

  predicate IsSyntaxElement(t: Token) {
    t == Comma || t == Dot || t == OpenBracket || t == CloseBracket || t == Colon
  }

  predicate IsEndOfInstr(t: Token) {
    t == Eof || t == Newline
  }

  function Neg64(v: int64): int64 {
    Sub64(0, v)
  }

  // What each function accepts

  /** The end of the line, or the error for what stands there instead. */
  function ExpectEnd<T>(text: string, i: nat, value: T): Parse<T> {
    var t := Lex(text, i);
    if t.status != LEX_OK then LexFailed(t.status)
    else if IsEndOfInstr(t.token) then Parsed(value, t.next)
    else if IsSyntaxElement(t.token) then Failed(PARSER_SYNTAX_ERROR)
    else Failed(PARSER_TOO_MANY_OPE)
  }

  /** A number and a closing bracket behind a sign. The lexer's status is not looked at here. */
  function ParseOffset(text: string, i: nat, neg: bool): Parse<int64> {
    var n := Lex(text, i);
    if !n.token.Num? then Failed(PARSER_SYNTAX_ERROR)
    else
      var c := Lex(text, n.next);
      if c.token != CloseBracket then Failed(PARSER_SYNTAX_ERROR)
      else Parsed(if neg then Neg64(n.token.number) else n.token.number, c.next)
  }

  /** What follows an opening bracket: two tokens are read before anything is decided. */
  function ParseBracket(text: string, i: nat): Parse<Ir.Operand> {
    var t := Lex(text, i);
    if t.status != LEX_OK then LexFailed(t.status)
    else
      var u := Lex(text, t.next);
      if u.status != LEX_OK then LexFailed(u.status)
      else if IsEndOfInstr(t.token) || IsSyntaxElement(t.token) || IsEndOfInstr(u.token) then
        Failed(PARSER_SYNTAX_ERROR)
      else
        match t.token
        case Minus => Failed(PARSER_SYNTAX_ERROR)
        case Num(v) =>
          if u.token == CloseBracket then Parsed(Ir.MemNumber(v), u.next) else Failed(PARSER_SYNTAX_ERROR)
        case Name(name) =>
          if u.token == Minus || u.token == Plus then
            match ParseOffset(text, u.next, u.token == Minus)
            case Parsed(k, next) => Parsed(Ir.MemIdentOffset(name, k), next)
            case Failed(e) => Failed(e)
            case LexFailed(e) => LexFailed(e)
            case Unset => Unset
          else if u.token != CloseBracket then Failed(PARSER_SYNTAX_ERROR)
          else ExpectEnd(text, u.next, Ir.MemIdent(name))
        case Reg(r) =>
          if u.token == Minus || u.token == Plus then
            match ParseOffset(text, u.next, u.token == Minus)
            case Parsed(k, next) => Parsed(Ir.MemIndexed(r % 256, k), next)
            case Failed(e) => Failed(e)
            case LexFailed(e) => LexFailed(e)
            case Unset => Unset
          else if u.token != CloseBracket then Failed(PARSER_SYNTAX_ERROR)
          else Parsed(Ir.MemRegister(r % 256), u.next)
        case _ =>
          var k := ParseOffset(text, u.next, false);
          if k.Parsed? then Unset else Failed(PARSER_SYNTAX_ERROR)
  }

  /** An operand whose first token has been read. */
  function ParseOperand(text: string, i: nat, t: Token): Parse<Ir.Operand> {
    match t
    case Name(name) => Parsed(Ir.Ident(name), i)
    case Minus =>
      var n := Lex(text, i);
      if n.status != LEX_OK then LexFailed(n.status)
      else if n.token.Num? then Parsed(Ir.Number(Neg64(n.token.number)), n.next)
      else Failed(PARSER_SYNTAX_ERROR)
    case Num(v) => Parsed(Ir.Number(v), i)
    case Reg(r) => if r > 255 then Failed(PARSER_INVALID_REGISTER) else Parsed(Ir.Register(r), i)
    case OpenBracket => ParseBracket(text, i)
    case _ => Failed(PARSER_INVALID_ARGS)
  }

  function ParseInstr(text: string, i: nat, mnemonic: string): Parse<Ir.Node> {
    var op := OpLookup(mnemonic);
    if op.None? then Failed(PARSER_UNKNOWN_INSTR)
    else
      var t := Lex(text, i);
      if t.status != LEX_OK then LexFailed(t.status)
      else if IsEndOfInstr(t.token) then Parsed(Ir.Instr(op.value, Ir.Absent, Ir.Absent), t.next)
      else
        match ParseOperand(text, t.next, t.token)
        case Failed(e) => Failed(e)
        case LexFailed(e) => LexFailed(e)
        case Unset => Unset
        case Parsed(a, j) => ParseSecond(text, j, op.value, a)
  }

  /** What follows the first operand. */
  function ParseSecond(text: string, j: nat, op: OpCode, a: Ir.Operand): Parse<Ir.Node> {
    var u := Lex(text, j);
    if u.status != LEX_OK then LexFailed(u.status)
    else if IsEndOfInstr(u.token) then Parsed(Ir.Instr(op, a, Ir.Absent), u.next)
    else if u.token != Comma then
      Failed(if IsSyntaxElement(u.token) then PARSER_SYNTAX_ERROR else PARSER_TOO_MANY_OPE)
    else
      var v := Lex(text, u.next);
      if v.status != LEX_OK then LexFailed(v.status)
      else
        match ParseOperand(text, v.next, v.token)
        case Failed(e) => Failed(e)
        case LexFailed(e) => LexFailed(e)
        case Unset => Unset
        case Parsed(b, k) => ExpectEnd(text, k, Ir.Instr(op, a, b))
  }

  function ParseDir(text: string, i: nat): Parse<Ir.Node> {
    var d := Lex(text, i);
    if d.status != LEX_OK then LexFailed(d.status)
    else if !d.token.Name? then Failed(PARSER_SYNTAX_ERROR)
    else if DirLookup(d.token.text).None? then Failed(PARSER_UNKNOWN_DIR)
    else ParseDirArg(text, d.next, DirLookup(d.token.text).value)
  }

  function ParseDirArg(text: string, i: nat, dir: Ir.DirType): Parse<Ir.Node> {
    var t := Lex(text, i);
    if t.status != LEX_OK then LexFailed(t.status)
    else
      match t.token
      case Num(v) => ExpectEnd(text, t.next, Ir.Dir(dir, Ir.Number(v)))
      case Minus =>
        var n := Lex(text, t.next);
        if n.status != LEX_OK then LexFailed(n.status)
        else if n.token.Num? then ExpectEnd(text, n.next, Ir.Dir(dir, Ir.Number(Neg64(n.token.number))))
        else Failed(PARSER_SYNTAX_ERROR)
      case Name(name) => ExpectEnd(text, t.next, Ir.Dir(dir, Ir.Ident(name)))
      case Str(s) => ExpectEnd(text, t.next, Ir.Dir(dir, Ir.Text(s)))
      case _ =>
        if IsEndOfInstr(t.token) then Parsed(Ir.Dir(dir, Ir.Absent), t.next)
        else if IsSyntaxElement(t.token) then Failed(PARSER_SYNTAX_ERROR)
        else Failed(PARSER_INVALID_ARGS)
  }

  function ParseLabel(text: string, i: nat, name: string): Parse<Ir.Node> {
    var c := Lex(text, i);
    if c.status != LEX_OK then LexFailed(c.status)
    else if c.token != Colon then
      Failed(if IsEndOfInstr(c.token) then PARSER_SYNTAX_ERROR else PARSER_TOO_MANY_OPE)
    else ExpectEnd(text, c.next, Ir.Label(name))
  }

  function AsLine(p: Parse<Ir.Node>): LineResult {
    match p
    case Parsed(node, _) => Line(node)
    case Failed(e) => Exits(e)
    case LexFailed(e) => LexExits(e)
    case Unset => UnsetLine
  }

  function ParseLine(text: string): LineResult {
    var t := Lex(text, 0);
    if t.status != LEX_OK then LexExits(t.status)
    else if IsEndOfInstr(t.token) then Blank
    else if t.token == Dot then AsLine(ParseDir(text, t.next))
    else if IsSyntaxElement(t.token) then Rejected(PARSER_SYNTAX_ERROR)
    else if t.token.Name? then AsLine(ParseLabel(text, t.next, t.token.text))
    else if t.token.Mnemonic? then AsLine(ParseInstr(text, t.next, t.token.text))
    else Rejected(PARSER_UNKNOWN_INSTR)
  }

  // The functions of parser.c, over the lexer object

  method OpTable(s: string) returns (op: Option<OpCode>)
    ensures op == OpLookup(s)
  {
    for i := 0 to |OPS|
      invariant FirstMatch(MNEMONICS, s, i) == FirstMatch(MNEMONICS, s)
    {
      if MatchesPrefix(MNEMONICS[i], s) {
        return Some(OPS[i]);
      }
    }
    return None;
  }

  method DirTable(s: string) returns (dir: Option<Ir.DirType>)
    ensures dir == DirLookup(s)
  {
    for i := 0 to |DIRECTIVES|
      invariant FirstMatch(DirNames(), s, i) == FirstMatch(DirNames(), s)
    {
      if MatchesPrefix(DIRECTIVES[i].0, s) {
        return Some(DIRECTIVES[i].1);
      }
    }
    return None;
  }

  method ReadEnd<T>(lexer: LexerState, value: T) returns (r: Parse<T>)
    modifies lexer`cursor
    ensures r == ExpectEnd(lexer.text, old(lexer.cursor), value)
    ensures r.Parsed? ==> lexer.cursor == r.next
  {
    var tok, status := lexer.NextToken();
    if status != LEX_OK {
      return LexFailed(status);
    }
    if !IsEndOfInstr(tok) && IsSyntaxElement(tok) {
      return Failed(PARSER_SYNTAX_ERROR);
    } else if !IsEndOfInstr(tok) {
      return Failed(PARSER_TOO_MANY_OPE);
    }
    return Parsed(value, lexer.cursor);
  }

  method ReadOffset(lexer: LexerState, neg: bool) returns (r: Parse<int64>)
    modifies lexer`cursor
    ensures r == ParseOffset(lexer.text, old(lexer.cursor), neg)
    ensures r.Parsed? ==> lexer.cursor == r.next
  {
    hide Lex;
    var tok, status := lexer.NextToken();
    if !tok.Num? {
      return Failed(PARSER_SYNTAX_ERROR);
    }
    var offset := if neg then Neg64(tok.number) else tok.number;
    tok, status := lexer.NextToken();
    if tok != CloseBracket {
      return Failed(PARSER_SYNTAX_ERROR);
    }
    return Parsed(offset, lexer.cursor);
  }

  method ReadOperand(lexer: LexerState, first: Token) returns (r: Parse<Ir.Operand>)
    modifies lexer`cursor
    ensures r == ParseOperand(lexer.text, old(lexer.cursor), first)
    ensures r.Parsed? ==> lexer.cursor == r.next
  {
    hide Lex;
    var tok, status := first, LEX_OK;
    if tok.Name? {
      return Parsed(Ir.Ident(tok.text), lexer.cursor);
    } else if tok == Minus {
      tok, status := lexer.NextToken();
      if status != LEX_OK {
        return LexFailed(status);
      }
      if tok.Num? {
        return Parsed(Ir.Number(Neg64(tok.number)), lexer.cursor);
      }
      return Failed(PARSER_SYNTAX_ERROR);
    } else if tok.Num? {
      return Parsed(Ir.Number(tok.number), lexer.cursor);
    } else if tok.Reg? {
      if tok.reg > 255 {
        return Failed(PARSER_INVALID_REGISTER);
      }
      return Parsed(Ir.Register(tok.reg), lexer.cursor);
    } else if tok == OpenBracket {
      r := ReadBracket(lexer);
    } else {
      return Failed(PARSER_INVALID_ARGS);
    }
  }

  method ReadBracket(lexer: LexerState) returns (r: Parse<Ir.Operand>)
    modifies lexer`cursor
    ensures r == ParseBracket(lexer.text, old(lexer.cursor))
    ensures r.Parsed? ==> lexer.cursor == r.next
  {
    hide Lex;
    var tok, status := lexer.NextToken();
    if status != LEX_OK {
      return LexFailed(status);
    }
    var suiv;
    suiv, status := lexer.NextToken();
    if status != LEX_OK {
      return LexFailed(status);
    }
    if IsEndOfInstr(tok) || IsSyntaxElement(tok) || IsEndOfInstr(suiv) {
      return Failed(PARSER_SYNTAX_ERROR);
    }
    var neg := false;
    if tok == Minus || tok.Num? {
      if tok == Minus {
        if !suiv.Num? {
          return Failed(PARSER_SYNTAX_ERROR);
        }
        neg := true;
      }
      if suiv != CloseBracket {
        return Failed(PARSER_SYNTAX_ERROR);
      }
      return Parsed(Ir.MemNumber(tok.number), lexer.cursor);
    } else if tok.Name? {
      if suiv == Minus || suiv == Plus {
        neg := suiv == Minus;
      } else if suiv != CloseBracket {
        return Failed(PARSER_SYNTAX_ERROR);
      } else {
        r := ReadEnd(lexer, Ir.MemIdent(tok.text));
        return;
      }
    } else if tok.Reg? {
      if suiv == Minus || suiv == Plus {
        neg := suiv == Minus;
      } else if suiv != CloseBracket {
        return Failed(PARSER_SYNTAX_ERROR);
      } else {
        return Parsed(Ir.MemRegister(tok.reg % 256), lexer.cursor);
      }
    }
    var offset := ReadOffset(lexer, neg);
    r := AsIndexed(tok, offset);
  }

  /** The operand an offset completes; for any other first token its kind stays unset. */
  function AsIndexed(t: Token, p: Parse<int64>): Parse<Ir.Operand> {
    match p
    case Failed(e) => Failed(e)
    case LexFailed(e) => LexFailed(e)
    case Unset => Unset
    case Parsed(k, next) =>
      if t.Name? then Parsed(Ir.MemIdentOffset(t.text, k), next)
      else if t.Reg? then Parsed(Ir.MemIndexed(t.reg % 256, k), next)
      else Unset
  }

  method ReadInstr(lexer: LexerState, mnemonic: string) returns (r: Parse<Ir.Node>)
    modifies lexer`cursor
    ensures r == ParseInstr(lexer.text, old(lexer.cursor), mnemonic)
  {
    hide Lex, ParseOperand, ExpectEnd, OpLookup;
    var op := OpTable(mnemonic);
    if op.None? {
      return Failed(PARSER_UNKNOWN_INSTR);
    }
    var tok, status := lexer.NextToken();
    if status != LEX_OK {
      return LexFailed(status);
    }
    if IsEndOfInstr(tok) {
      return Parsed(Ir.Instr(op.value, Ir.Absent, Ir.Absent), lexer.cursor);
    }
    var a := ReadOperand(lexer, tok);
    match a {
      case Failed(e) => return Failed(e);
      case LexFailed(e) => return LexFailed(e);
      case Unset => return Unset;
      case Parsed(_, _) =>
    }
    tok, status := lexer.NextToken();
    if status != LEX_OK {
      return LexFailed(status);
    }
    if !IsEndOfInstr(tok) && tok != Comma {
      if IsSyntaxElement(tok) {
        return Failed(PARSER_SYNTAX_ERROR);
      }
      return Failed(PARSER_TOO_MANY_OPE);
    } else if IsEndOfInstr(tok) {
      return Parsed(Ir.Instr(op.value, a.value, Ir.Absent), lexer.cursor);
    }
    tok, status := lexer.NextToken();
    if status != LEX_OK {
      return LexFailed(status);
    }
    var b := ReadOperand(lexer, tok);
    match b {
      case Failed(e) => return Failed(e);
      case LexFailed(e) => return LexFailed(e);
      case Unset => return Unset;
      case Parsed(_, _) =>
    }
    r := ReadEnd(lexer, Ir.Instr(op.value, a.value, b.value));
  }

  method ReadDir(lexer: LexerState) returns (r: Parse<Ir.Node>)
    modifies lexer`cursor
    ensures r == ParseDir(lexer.text, old(lexer.cursor))
  {
    hide Lex, ExpectEnd, DirLookup;
    var tok, status := lexer.NextToken();
    if status != LEX_OK {
      return LexFailed(status);
    }
    if !tok.Name? {
      return Failed(PARSER_SYNTAX_ERROR);
    }
    var dir := DirTable(tok.text);
    if dir.None? {
      return Failed(PARSER_UNKNOWN_DIR);
    }
    tok, status := lexer.NextToken();
    if status != LEX_OK {
      return LexFailed(status);
    }
    var arg;
    if tok.Num? {
      arg := Ir.Number(tok.number);
    } else if tok == Minus {
      tok, status := lexer.NextToken();
      if status != LEX_OK {
        return LexFailed(status);
      }
      if !tok.Num? {
        return Failed(PARSER_SYNTAX_ERROR);
      }
      arg := Ir.Number(Neg64(tok.number));
    } else if tok.Name? {
      arg := Ir.Ident(tok.text);
    } else if tok.Str? {
      arg := Ir.Text(tok.text);
    } else if IsEndOfInstr(tok) {
      return Parsed(Ir.Dir(dir.value, Ir.Absent), lexer.cursor);
    } else if IsSyntaxElement(tok) {
      return Failed(PARSER_SYNTAX_ERROR);
    } else {
      return Failed(PARSER_INVALID_ARGS);
    }
    r := ReadEnd(lexer, Ir.Dir(dir.value, arg));
  }

  method ReadLabel(lexer: LexerState, name: string) returns (r: Parse<Ir.Node>)
    modifies lexer`cursor
    ensures r == ParseLabel(lexer.text, old(lexer.cursor), name)
  {
    hide Lex, ExpectEnd;
    var tok, status := lexer.NextToken();
    if status != LEX_OK {
      return LexFailed(status);
    }
    if tok != Colon {
      if IsEndOfInstr(tok) {
        return Failed(PARSER_SYNTAX_ERROR);
      }
      return Failed(PARSER_TOO_MANY_OPE);
    }
    r := ReadEnd(lexer, Ir.Label(name));
  }

  method ReadLine(text: string) returns (r: LineResult)
    ensures r == ParseLine(text)
  {
    hide Lex, ParseDir, ParseLabel, ParseInstr;
    var lexer := new LexerState(text);
    var tok, status := lexer.NextToken();
    if status != LEX_OK {
      return LexExits(status);
    }
    if IsEndOfInstr(tok) {
      return Blank;
    }
    if tok != Dot && IsSyntaxElement(tok) {
      return Rejected(PARSER_SYNTAX_ERROR);
    }
    var p;
    if tok == Dot {
      p := ReadDir(lexer);
    } else if tok.Name? {
      p := ReadLabel(lexer, tok.text);
    } else if tok.Mnemonic? {
      p := ReadInstr(lexer, tok.text);
    } else {
      return Rejected(PARSER_UNKNOWN_INSTR);
    }
    return AsLine(p);
  }
}
