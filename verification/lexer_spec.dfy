/** Reading tokens, as functions from the characters left to a token and the characters
    left after it. This is the part of the lexer the JSON reader depends on. */
module LexerSpec {
  import opened Text

  // ------------------------------------------------------------------
  //  Characters
  // ------------------------------------------------------------------

  const NEWLINE: int := 10
  const RETURN: int := 13
  const QUOTE: int := 34
  const APOSTROPHE: int := 39
  const BACKTICK: int := 96
  const BACKSLASH: int := 92
  const STAR: int := 42
  const SLASH: int := 47
  const QUESTION: int := 63
  const LINE_SEPARATOR: int := 0x2028
  const PARAGRAPH_SEPARATOR: int := 0x2029
  const CONTINUATION: int := -2
  const END: int := -1

  /** The table of the characters above ASCII that are letters. */
  type Letters = int -> bool

  predicate IsLineTerminator(c: int) {
    c == NEWLINE || c == RETURN || c == LINE_SEPARATOR || c == PARAGRAPH_SEPARATOR
  }

  predicate IsWhiteSpace(c: int) {
    c == 9 || c == 11 || c == 12 || c == 32 || c == 0xA0 || c == 0x1680 || c == 0x180E || 0x2000 <= c <= 0x200A
    || c == 0x202F || c == 0x205F || c == 0x3000 || c == 0xFEFF
  }

  predicate IsHexDigit(c: int) {
    IsDigit(c) || 65 <= c <= 70 || 97 <= c <= 102
  }

  /** NUL, the last two codes of each plane and the surrogates. */
  predicate IsInvalid(c: int) {
    c == 0 || c % 0x10000 >= 0xFFFE || 0xD800 <= c <= 0xDFFF
  }

  predicate IsLetter(letters: Letters, c: int) {
    65 <= c <= 90 || 97 <= c <= 122 || c == 95 || c == 36
    || (c >= 0x7F && !IsWhiteSpace(c) && !IsLineTerminator(c) && !IsInvalid(c) && letters(c))
  }

  /** The next character, or the end mark. */
  function Peek(s: Text): int {
    if s == [] then END else s[0]
  }

  function Rest(s: Text): Text {
    if s == [] then [] else s[1..]
  }

  /** A character put back. The end mark and NUL cannot be. */
  function Unread(c: int, s: Text): Text {
    if 0 < c < 0x110000 then [c] + s else s
  }

  /** The input with every end of line as one newline. The character after a lone carriage
      return is taken as it is, even if it is another carriage return. */
  function Normal(s: Text): Text {
    if s == [] then []
    else if s[0] != RETURN then [s[0]] + Normal(s[1..])
    else if |s| == 1 then [NEWLINE]
    else if s[1] == NEWLINE then [NEWLINE] + Normal(s[2..])
    else [NEWLINE] + Unread(s[1], Normal(s[2..]))
  }

  /** Characters other than a carriage return are kept. */
  lemma {:induction false} NormalKeeps(a: Text, b: Text)
    requires RETURN !in a
    ensures Normal(a + b) == a + Normal(b)
  {
    if a == [] {
      assert a + b == b;
    } else {
      assert (a + b)[1..] == a[1..] + b;
      NormalKeeps(a[1..], b);
    }
  }

  /** An end of line of either kind is one newline. */
  lemma {:induction false} EndsOfLine(a: Text, c: int, b: Text)
    requires RETURN !in a && 0 < c < 0x110000 && c != RETURN && c != NEWLINE
    ensures Normal(a + [RETURN, NEWLINE] + b) == a + [NEWLINE] + Normal(b)
    ensures Normal(a + [NEWLINE] + b) == a + [NEWLINE] + Normal(b)
    ensures Normal(a + [RETURN, c] + b) == a + [NEWLINE, c] + Normal(b)
    ensures Normal(a + [RETURN]) == a + [NEWLINE]
  {
    assert a + [RETURN, NEWLINE] + b == a + ([RETURN, NEWLINE] + b) && ([RETURN, NEWLINE] + b)[2..] == b;
    assert a + [NEWLINE] + b == (a + [NEWLINE]) + b;
    assert a + [RETURN, c] + b == a + ([RETURN, c] + b) && ([RETURN, c] + b)[2..] == b;
    NormalKeeps(a, [RETURN, NEWLINE] + b);
    NormalKeeps(a + [NEWLINE], b);
    NormalKeeps(a, [RETURN, c] + b);
    NormalKeeps(a, [RETURN]);
  }

  // ------------------------------------------------------------------
  //  Escapes and strings
  // ------------------------------------------------------------------

  function HexValue(c: int): int {
    if c <= 57 then c - 48 else if c <= 70 then c - 55 else c - 87
  }

  /** Up to `max` more hexadecimal digits, after `n` was read. */
  function ReadHex(n: int, max: nat, s: Text): (r: (int, Text))
    ensures |r.1| <= |s|
    decreases max
  {
    if max > 0 && IsHexDigit(Peek(s)) then ReadHex(n * 16 + HexValue(Peek(s)), max - 1, Rest(s))
    else (n, Unread(Peek(s), Rest(s)))
  }

  /** No digit at all gives -1. */
  function ReadHexNumber(max: nat, s: Text): (r: (int, Text))
    ensures |r.1| <= |s|
  {
    if max == 0 || !IsHexDigit(Peek(s)) then (-1, Unread(Peek(s), Rest(s))) else ReadHex(0, max, s)
  }

  /** The character an escape sequence stands for, '?' if it is none. Extended escape
      sequences are off. */
  function Escape(continuation: bool, s: Text): (r: (int, Text))
    ensures |r.1| <= |s|
  {
    var (c, t) := (Peek(s), Rest(s));
    if c == 117 then ReadHexNumber(4, t)                           // u
    else if c == 120 || c == 88 then ReadHexNumber(2, t)           // x X
    else if c == APOSTROPHE || c == QUOTE || c == BACKSLASH then (c, t)
    else if c == 98 then (8, t)                                    // b
    else if c == 102 then (12, t)                                  // f
    else if c == 110 then (10, t)                                  // n
    else if c == 114 then (13, t)                                  // r
    else if c == 116 then (9, t)                                   // t
    else if c == 118 then (11, t)                                  // v
    else if c == NEWLINE || c == LINE_SEPARATOR || c == PARAGRAPH_SEPARATOR then
      if continuation then (CONTINUATION, t) else (QUESTION, Unread(c, t))
    else if c == 48 then (0, t)
    else (QUESTION, t)
  }

  /** The characters up to the closing quote. The end of the input and a line terminator
      end the string as well; that is reported, but what was read is kept. */
  function ReadString(quote: int, s: Text): (r: (Text, Text))
    ensures |r.1| <= |s|
    decreases |s|
  {
    var (c, t) := (Peek(s), Rest(s));
    if c == quote || c < 0 || IsLineTerminator(c) then ([], t)
    else
      var (d, u) := if c == BACKSLASH then Escape(quote != BACKTICK, t) else (c, t);
      var (text, v) := ReadString(quote, u);
      (if d == CONTINUATION then text else [d] + text, v)
  }

  // ------------------------------------------------------------------
  //  Tokens
  // ------------------------------------------------------------------

  datatype Token =
    | EndOfInput
    | OpenCurly | CloseCurly | OpenSquare | CloseSquare | Colon | Comma | Add | Subtract
    | Null | True | False
    | Str(text: Text)
    | Int(value: int)
    | Word(name: Text)  // an identifier or another keyword
    | Other             // a token no JSON text contains
    | TooBig            // std::stoull() throws
    | Unmodelled        // floating point, hexadecimal and the __FILE__ and __LINE__ names

  /** Letters and digits, which may be escaped; an escape that is neither ends the name and
      is dropped. `c` is already read. */
  function ReadName(letters: Letters, c: int, s: Text): (r: (Text, Text))
    ensures |r.1| <= |s| + 1
    ensures c != BACKSLASH && (IsLetter(letters, c) || IsDigit(c)) ==> |r.1| <= |s|
    ensures c == BACKSLASH || c < 0 ==> |r.1| <= |s|
    decreases |s| + if c < 0 then 0 else 1
  {
    var (d, t) := if c == BACKSLASH then Escape(false, s) else (c, s);
    if !(IsLetter(letters, d) || IsDigit(d)) || d < 0 then
      ([], if c == BACKSLASH then t else Unread(d, t))
    else
      var (name, u) := ReadName(letters, Peek(t), Rest(t));
      ([d] + name, u)
  }

  const NULL_NAME: Text := [110, 117, 108, 108]
  const TRUE_NAME: Text := [116, 114, 117, 101]
  const FALSE_NAME: Text := [102, 97, 108, 115, 101]
  const NAN_NAME: Text := [78, 97, 78]
  const INFINITY_NAME: Text := [73, 110, 102, 105, 110, 105, 116, 121]
  const FILE_NAME: Text := [95, 95, 70, 73, 76, 69, 95, 95]
  const LINE_NAME: Text := [95, 95, 76, 73, 78, 69, 95, 95]

  function Keyword(name: Text): Token {
    if name == NULL_NAME then Null
    else if name == TRUE_NAME then True
    else if name == FALSE_NAME then False
    else if name == NAN_NAME || name == INFINITY_NAME || name == FILE_NAME || name == LINE_NAME then Unmodelled
    else Word(name)
  }

  /** The longest run of digits. */
  function Digits(s: Text): (r: Text)
    ensures |r| <= |s| && r == s[..|r|]
    ensures forall i :: 0 <= i < |r| ==> IsDigit(r[i])
    ensures |r| < |s| ==> !IsDigit(s[|r|])
  {
    if s == [] || !IsDigit(s[0]) then [] else [s[0]] + Digits(s[1..])
  }

  /** A number that begins with the digit `c`. A leading zero is a number of its own. */
  function ReadNumber(letters: Letters, c: int, s: Text): (r: (Token, Text))
    requires IsDigit(c)
    ensures |r.1| <= |s|
  {
    var digits := if c == ZERO then [] else Digits(s);
    var t := s[|digits|..];
    var next := Peek(t);
    var n := Number([c] + digits);
    var token :=
      if next == 46 || next == 101 || next == 69 || (c == ZERO && (next == 120 || next == 88)) then Unmodelled
      else if n >= 0x1_0000_0000_0000_0000 then TooBig
      else if IsLetter(letters, next) then Int(-1)
      else Int(Wrap64(n));
    (token, Unread(next, Rest(t)))
  }

  /** What follows a line comment. */
  function SkipLine(s: Text): (r: Text)
    ensures |r| <= |s|
  {
    if s == [] then []
    else if IsLineTerminator(s[0]) || s[0] < 0 then s[1..]
    else SkipLine(s[1..])
  }

  /** What follows a block comment; `star` says that a star was just read. A NUL ends the
      comment too. */
  function SkipBlock(star: bool, s: Text): (r: Text)
    ensures |r| <= |s|
    decreases |s|
  {
    if s == [] then []
    else if star && s[0] == SLASH then s[1..]
    else if s[0] <= 0 then s[1..]
    else SkipBlock(s[0] == STAR, s[1..])
  }

  /** An operator or a parenthesis, which makes or starts a token of its own. */
  predicate IsOperator(c: int) {
    c == 60 || c == 62 || c == 33 || c == 61 || c == 126 || c == 42 || c == 37 || c == 63 || c == 38 || c == 94
    || c == 124 || c == 46 || c == 40 || c == 41 || c == 59
  }

  function Single(c: int): Token {
    if c == 91 then OpenSquare else if c == 93 then CloseSquare
    else if c == 123 then OpenCurly else if c == 125 then CloseCurly
    else if c == 44 then Comma else if c == 58 then Colon
    else if c == 43 then Add else if c == MINUS then Subtract
    else Other
  }

  /** The next token and what follows it. After `Other`, `TooBig` and `Unmodelled` the
      rest is not meaningful: the reader stops there. */
  function Lex(letters: Letters, s: Text): (r: (Token, Text))
    ensures |r.1| <= |s|
    ensures r.0 != EndOfInput ==> |r.1| < |s|
    decreases |s|
  {
    var (c, t) := (Peek(s), Rest(s));
    if c < 0 then (EndOfInput, t)
    else if IsWhiteSpace(c) || IsLineTerminator(c) || IsInvalid(c) then Lex(letters, t)
    else if IsLetter(letters, c) || c == BACKSLASH then
      var (name, u) := ReadName(letters, c, t);
      if name == [] then Lex(letters, u) else (Keyword(name), u)
    else if IsDigit(c) then ReadNumber(letters, c, t)
    else if c == QUOTE || c == APOSTROPHE then
      var (text, u) := ReadString(c, t);
      (Str(text), u)
    else if c == 58 && (Peek(t) == 61 || Peek(t) == 58) then (Other, Rest(t))
    else if (c == 43 || c == MINUS) && (Peek(t) == 61 || Peek(t) == c) then (Other, Rest(t))
    else if c == 58 || c == 43 || c == MINUS then (Single(c), Unread(Peek(t), Rest(t)))
    else if c == 91 || c == 93 || c == 123 || c == 125 || c == 44 then (Single(c), t)
    else if c == SLASH then
      if Peek(t) == SLASH then Lex(letters, SkipLine(Rest(t)))
      else if Peek(t) == STAR then Lex(letters, SkipBlock(false, Rest(t)))
      else (Other, Unread(Peek(t), Rest(t)))
    else if c == BACKTICK then (Other, ReadString(c, t).1)
    else if IsOperator(c) then (Other, t)
    else if c == 0x221E || c == 0xFFFD then (Unmodelled, t)
    else Lex(letters, t)
  }
}
