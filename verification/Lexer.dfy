/**
 The lexer. A line is a NUL-terminated character array; what lies behind the terminator is
 taken to be NUL as well.
 */
module Lexer {
  import opened Common
  import opened Words

  datatype Token =
    | OpenBracket | CloseBracket | Comma | Dot | Colon | Plus | Minus | Newline | Eof
    | Str(text: string)
    | Num(number: int64)
    | Name(text: string)
    | Reg(reg: uint64)
    | Mnemonic(text: string)

  datatype LexStatus = LEX_OK | LEX_MISSING_QUOTE | LEX_INVALID_TOKEN | LEX_UNKNOWN_ESCAPE

  /** One call of the lexer: the token, the status, and where the cursor is left. */
  datatype Lexed = Lexed(token: Token, status: LexStatus, next: nat)

  // Characters

  predicate IsDigit(c: char) { '0' <= c <= '9' }

  predicate IsLower(c: char) { 'a' <= c <= 'z' }

  predicate IsUpper(c: char) { 'A' <= c <= 'Z' }

  predicate IsWord(c: char) { IsDigit(c) || IsLower(c) || IsUpper(c) || c == '_' }

  predicate IsBlank(c: char) { c == ' ' || c == '\t' }

  function DigitValue(c: char): (d: nat)
    requires IsDigit(c)
    ensures d < 10
  {
    c as int - '0' as int
  }

  /** The character at the cursor. */
  function CharAt(text: string, i: nat): char {
    if i < |text| then text[i] else '\0'
  }

  /** The character an escape stands for; the escaped quote stands for a tab. */
  function EscapeSequence(c: char): Option<char> {
    match c
    case 'n' => Some('\n')
    case 't' => Some('\t')
    case 'r' => Some('\r')
    case '\"' => Some('\t')
    case '\\' => Some('\\')
    case '0' => Some('\0')
    case _ => None
  }

  function Punctuation(c: char): Option<Token> {
    match c
    case '.' => Some(Dot)
    case ',' => Some(Comma)
    case '[' => Some(OpenBracket)
    case ']' => Some(CloseBracket)
    case ':' => Some(Colon)
    case '+' => Some(Plus)
    case '-' => Some(Minus)
    case '\n' => Some(Newline)
    case '\0' => Some(Eof)
    case _ => None
  }

  // Scanning

  function SkipBlanks(text: string, i: nat): (j: nat)
    ensures i <= j && !IsBlank(CharAt(text, j))
    ensures forall k :: i <= k < j ==> IsBlank(CharAt(text, k))
    decreases |text| - i
  {
    if IsBlank(CharAt(text, i)) then SkipBlanks(text, i + 1) else i
  }

  function SkipComment(text: string, i: nat): (j: nat)
    ensures i <= j
    decreases |text| - i
  {
    if CharAt(text, i) == '\n' || CharAt(text, i) == '\0' then i else SkipComment(text, i + 1)
  }

  /** End of the run of word characters from i on. */
  function WordEnd(text: string, i: nat): (j: nat)
    ensures i <= j && (i <= |text| ==> j <= |text|)
    decreases |text| - i
  {
    if IsWord(CharAt(text, i)) then WordEnd(text, i + 1) else i
  }

  function UpperEnd(text: string, i: nat): (j: nat)
    ensures i <= j && (i <= |text| ==> j <= |text|)
    decreases |text| - i
  {
    if IsUpper(CharAt(text, i)) then UpperEnd(text, i + 1) else i
  }

  datatype Scanned = Scanned(value: int, ok: bool, next: nat)

  /** The digits of a number; the guard looks at value * 10 only. */
  function ScanNumber(text: string, i: nat, value: int64): (r: Scanned)
    ensures r.ok ==> INT64_MIN <= r.value <= INT64_MAX
    decreases |text| - i
  {
    if !IsDigit(CharAt(text, i)) then Scanned(value, true, i)
    else if value * 10 > INT64_MAX then Scanned(0, false, i)
    else ScanNumber(text, i + 1, Wrap(value * 10 + DigitValue(CharAt(text, i))))
  }

  function ScanRegister(text: string, i: nat, reg: uint64): (r: Scanned)
    ensures 0 <= r.value < TWO64
    decreases |text| - i
  {
    if !IsDigit(CharAt(text, i)) then Scanned(reg, true, i)
    else if reg * 10 > INT64_MAX then Scanned(0, false, i)
    else ScanRegister(text, i + 1, reg * 10 + DigitValue(CharAt(text, i)))
  }

  /** The body of a string literal from i on, appended to acc. */
  function ScanString(text: string, i: nat, acc: string): Lexed
    decreases |text| - i
  {
    var c := CharAt(text, i);
    if c == '\"' then Lexed(Str(acc), LEX_OK, i + 1)
    else if c == '\0' then Lexed(Str([]), LEX_MISSING_QUOTE, i)
    else if c == '\\' then
      var e := EscapeSequence(CharAt(text, i + 1));
      if e.None? then Lexed(Str([]), LEX_UNKNOWN_ESCAPE, i + 1) else ScanString(text, i + 2, acc + [e.value])
    else ScanString(text, i + 1, acc + [c])
  }

  /** One token from position i on. */
  function Lex(text: string, i: nat): Lexed {
    LexVisible(text, SkipBlanks(text, i))
  }

  function LexVisible(text: string, i: nat): Lexed {
    var c := CharAt(text, i);
    if Punctuation(c).Some? then Lexed(Punctuation(c).value, LEX_OK, i + 1)
    else if c == '/' && CharAt(text, i + 1) == '/' then
      var j := SkipComment(text, i + 2);
      Lexed(if CharAt(text, j) == '\n' then Newline else Eof, LEX_OK, j)
    else if c == 'R' && IsDigit(CharAt(text, i + 1)) then
      var r := ScanRegister(text, i + 1, 0);
      Lexed(Reg(r.value), if r.ok then LEX_OK else LEX_INVALID_TOKEN, r.next)
    else if IsDigit(c) then
      var n := ScanNumber(text, i + 1, DigitValue(c));
      Lexed(Num(if n.ok then n.value else 0), if n.ok then LEX_OK else LEX_INVALID_TOKEN, n.next)
    else if c == '\"' then ScanString(text, i + 1, [])
    else if IsLower(c) then Lexed(Name(text[i..WordEnd(text, i + 1)]), LEX_OK, WordEnd(text, i + 1))
    else if IsUpper(c) then Lexed(Mnemonic(text[i..UpperEnd(text, i + 1)]), LEX_OK, UpperEnd(text, i + 1))
    else Lexed(Eof, LEX_INVALID_TOKEN, i)
  }

  /** No string literal yields a quote character: the escaped quote is a tab. */
  lemma {:induction false} StringsHaveNoQuote(text: string, i: nat, acc: string)
    requires '\"' !in acc
    ensures ScanString(text, i, acc).token.Str? && '\"' !in ScanString(text, i, acc).token.text
    decreases |text| - i
  {
    var c := CharAt(text, i);
    if c != '\"' && c != '\0' {
      if c == '\\' {
        var e := EscapeSequence(CharAt(text, i + 1));
        if e.Some? { StringsHaveNoQuote(text, i + 2, acc + [e.value]); }
      } else {
        StringsHaveNoQuote(text, i + 1, acc + [c]);
      }
    }
  }

  // The lexer object

  class LexerState {
    var text: string
    var cursor: nat

    constructor (text: string)
      ensures this.text == text && cursor == 0
    {
      this.text, this.cursor := text, 0;
    }

    function Current(): char
      reads this
    {
      CharAt(text, cursor)
    }

    method NextToken() returns (token: Token, status: LexStatus)
      modifies this`cursor
      ensures Lexed(token, status, cursor) == Lex(text, old(cursor))
    {
      hide ScanNumber, ScanRegister, ScanString;
      while Current() == ' ' || Current() == '\t'
        invariant SkipBlanks(text, cursor) == SkipBlanks(text, old(cursor))
        decreases |text| - cursor
      {
        cursor := cursor + 1;
      }
      token, status := VisibleToken();
    }

    /** The token at the cursor, which is not at a blank. */
    method VisibleToken() returns (token: Token, status: LexStatus)
      modifies this`cursor
      ensures Lexed(token, status, cursor) == LexVisible(text, old(cursor))
    {
      hide ScanNumber, ScanRegister, ScanString, WordEnd, UpperEnd, SkipComment;
      match Current() {
        case '.' => cursor := cursor + 1; return Dot, LEX_OK;
        case ',' => cursor := cursor + 1; return Comma, LEX_OK;
        case '[' => cursor := cursor + 1; return OpenBracket, LEX_OK;
        case ']' => cursor := cursor + 1; return CloseBracket, LEX_OK;
        case ':' => cursor := cursor + 1; return Colon, LEX_OK;
        case '+' => cursor := cursor + 1; return Plus, LEX_OK;
        case '-' => cursor := cursor + 1; return Minus, LEX_OK;
        case '\n' => cursor := cursor + 1; return Newline, LEX_OK;
        case '\0' => cursor := cursor + 1; return Eof, LEX_OK;
        case _ =>
      }
      if Current() == '/' && CharAt(text, cursor + 1) == '/' {
        cursor := cursor + 2;
        SkipRestOfLine();
        return (if Current() == '\n' then Newline else Eof), LEX_OK;
      }
      if Current() == 'R' {
        cursor := cursor + 1;
        var reg, len, ok := ReadRegister();
        if !ok {
          return Reg(0), LEX_INVALID_TOKEN;
        }
        if len > 0 {
          return Reg(reg), LEX_OK;
        }
        cursor := cursor - 1;
      }
      if IsDigit(Current()) {
        var value, ok := ReadNumber();
        return Num(value), if ok then LEX_OK else LEX_INVALID_TOKEN;
      }
      if Current() == '\"' {
        cursor := cursor + 1;
        token, status := ReadString();
        return;
      }
      if IsLower(Current()) {
        var word := ReadWord();
        return Name(word), LEX_OK;
      }
      if IsUpper(Current()) {
        var word := ReadUpper();
        return Mnemonic(word), LEX_OK;
      }
      return Eof, LEX_INVALID_TOKEN;
    }

    method ReadWord() returns (word: string)
      requires cursor < |text|
      modifies this`cursor
      ensures cursor == WordEnd(text, old(cursor) + 1) && word == text[old(cursor)..cursor]
    {
      var start := cursor;
      cursor := cursor + 1;
      while IsWord(Current())
        invariant start < cursor <= |text| && WordEnd(text, cursor) == WordEnd(text, start + 1)
        decreases |text| - cursor
      {
        cursor := cursor + 1;
      }
      return text[start..cursor];
    }

    method ReadUpper() returns (word: string)
      requires cursor < |text|
      modifies this`cursor
      ensures cursor == UpperEnd(text, old(cursor) + 1) && word == text[old(cursor)..cursor]
    {
      var start := cursor;
      cursor := cursor + 1;
      while IsUpper(Current())
        invariant start < cursor <= |text| && UpperEnd(text, cursor) == UpperEnd(text, start + 1)
        decreases |text| - cursor
      {
        cursor := cursor + 1;
      }
      return text[start..cursor];
    }

    method SkipRestOfLine()
      modifies this`cursor
      ensures cursor == SkipComment(text, old(cursor))
    {
      while Current() != '\n' && Current() != '\0'
        invariant SkipComment(text, cursor) == SkipComment(text, old(cursor))
        decreases |text| - cursor
      {
        cursor := cursor + 1;
      }
    }

    /** The digits behind an R. */
    method ReadRegister() returns (reg: uint64, len: nat, ok: bool)
      modifies this`cursor
      ensures Scanned(reg, ok, cursor) == ScanRegister(text, old(cursor), 0)
      ensures len == 0 <==> !IsDigit(CharAt(text, old(cursor)))
      ensures len == 0 ==> ok && cursor == old(cursor)
      ensures !ok ==> reg == 0
    {
      reg, len := 0, 0;
      while IsDigit(Current())
        invariant cursor == old(cursor) + len
        invariant len > 0 ==> IsDigit(CharAt(text, old(cursor)))
        invariant ScanRegister(text, cursor, reg) == ScanRegister(text, old(cursor), 0)
        decreases |text| - cursor
      {
        if reg * 10 > INT64_MAX {
          return 0, len + 1, false;
        }
        reg := reg * 10 + DigitValue(Current());
        cursor := cursor + 1;
        len := len + 1;
      }
      return reg, len, true;
    }

    method ReadNumber() returns (value: int64, ok: bool)
      requires IsDigit(Current())
      modifies this`cursor
      ensures var n := ScanNumber(text, old(cursor) + 1, DigitValue(CharAt(text, old(cursor))));
              ok == n.ok && cursor == n.next && value == if n.ok then n.value else 0
    {
      value := DigitValue(Current());
      cursor := cursor + 1;
      ghost var n := ScanNumber(text, cursor, value);
      while IsDigit(Current())
        invariant ScanNumber(text, cursor, value) == n
        decreases |text| - cursor
      {
        if value * 10 > INT64_MAX {
          return 0, false;
        }
        value := Wrap(value * 10 + DigitValue(Current()));
        cursor := cursor + 1;
      }
      return value, true;
    }

    /** The literal behind its opening quote. */
    method ReadString() returns (token: Token, status: LexStatus)
      modifies this`cursor
      ensures Lexed(token, status, cursor) == ScanString(text, old(cursor), [])
    {
      var str: string := [];
      while Current() != '\0' && Current() != '\"'
        invariant ScanString(text, cursor, str) == ScanString(text, old(cursor), [])
        decreases |text| - cursor
      {
        if Current() == '\\' {
          cursor := cursor + 1;
          var e := EscapeSequence(Current());
          if e.None? {
            return Str([]), LEX_UNKNOWN_ESCAPE;
          }
          str := str + [e.value];
        } else {
          str := str + [Current()];
        }
        cursor := cursor + 1;
      }
      if Current() != '\"' {
        return Str([]), LEX_MISSING_QUOTE;
      }
      cursor := cursor + 1;
      return Str(str), LEX_OK;
    }
  }
}
