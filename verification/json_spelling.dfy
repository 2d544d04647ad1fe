/** The texts the reader accepts for a value: spaces and comments between the tokens, either quote, any escape,
    a plus sign, members in any order. */
module JsonSpelling {
  import opened Text
  import opened LexerSpec
  import opened JsonText
  import opened JsonRoundTrip
  import opened JsonValues

  // ------------------------------------------------------------------
  //  Between the tokens
  // ------------------------------------------------------------------

  /** White space and ends of line, by their codes. */
  predicate IsBlank(c: int) {
    c in {9, 10, 11, 12, 13, 32, 0xA0, 0x1680, 0x180E, 0x2028, 0x2029, 0x202F, 0x205F, 0x3000, 0xFEFF} || 0x2000 <= c <= 0x200A
  }

  datatype Gap = Blank(c: int) | LineComment(body: Text) | BlockComment(body: Text)

  function GapText(g: Gap): (r: Text)
    ensures r != []
  {
    match g
    case Blank(c) => [c]
    case LineComment(body) => [47, 47] + body + [10]
    case BlockComment(body) => [47, 42] + body + [42, 47]
  }

  predicate LegalGap(g: Gap) {
    match g
    case Blank(c) => IsBlank(c)
    case LineComment(body) => forall i :: 0 <= i < |body| ==> 0 <= body[i] && body[i] !in {10, 13, 0x2028, 0x2029}
    case BlockComment(body) =>
      && (forall i :: 0 <= i < |body| ==> 0 < body[i])
      && forall i :: 0 <= i < |body| - 1 ==> !(body[i] == 42 && body[i + 1] == 47)
  }

  function GapsText(gs: seq<Gap>): Text {
    if gs == [] then [] else GapText(gs[0]) + GapsText(gs[1..])
  }

  predicate LegalGaps(gs: seq<Gap>) {
    forall i :: 0 <= i < |gs| ==> LegalGap(gs[i])
  }

  lemma {:induction false} BlankIsSkipped(letters: Letters, c: int, s: Text)
    requires IsBlank(c)
    ensures Lex(letters, [c] + s) == Lex(letters, s)
  {
    hide ReadName, ReadNumber, ReadString, SkipLine, SkipBlock;
    assert ([c] + s)[1..] == s;
  }

  lemma {:induction false} LineIsSkipped(body: Text, s: Text)
    requires LegalGap(LineComment(body))
    ensures SkipLine(body + [10] + s) == s
  {
    var t := body + [10] + s;
    if body == [] {
      assert t[1..] == s;
    } else {
      assert t[1..] == body[1..] + [10] + s;
      assert LegalGap(LineComment(body[1..]));
      LineIsSkipped(body[1..], s);
    }
  }

  lemma {:induction false} BlockIsSkipped(star: bool, body: Text, s: Text)
    requires LegalGap(BlockComment(body)) && !(star && body != [] && body[0] == 47)
    ensures SkipBlock(star, body + [42, 47] + s) == s
    decreases |body|
  {
    var t := body + [42, 47] + s;
    if body == [] {
      assert t[0] == 42 && t[1..] == [47] + s && ([47] + s)[1..] == s;
    } else {
      assert t[1..] == body[1..] + [42, 47] + s;
      assert LegalGap(BlockComment(body[1..])) by {
        assert forall i :: 0 <= i < |body[1..]| ==> body[1..][i] == body[i + 1];
      }
      BlockIsSkipped(body[0] == 42, body[1..], s);
    }
  }

  lemma {:induction false} SlashStarts(letters: Letters, c: int, t: Text)
    requires c == SLASH || c == STAR
    ensures Lex(letters, [SLASH, c] + t) == Lex(letters, if c == SLASH then SkipLine(t) else SkipBlock(false, t))
  {
    hide ReadName, ReadNumber, ReadString, SkipLine, SkipBlock;
    assert ([SLASH, c] + t)[1..] == [c] + t && ([c] + t)[1..] == t;
  }

  lemma {:induction false} GapIsSkipped(letters: Letters, g: Gap, s: Text)
    requires LegalGap(g)
    ensures Lex(letters, GapText(g) + s) == Lex(letters, s)
  {
    hide Lex, SkipLine, SkipBlock;
    match g
    case Blank(c) => BlankIsSkipped(letters, c, s);
    case LineComment(body) =>
      LineIsSkipped(body, s);
      assert GapText(g) + s == [SLASH, SLASH] + (body + [10] + s);
      SlashStarts(letters, SLASH, body + [10] + s);
    case BlockComment(body) =>
      BlockIsSkipped(false, body, s);
      assert GapText(g) + s == [SLASH, STAR] + (body + [42, 47] + s);
      SlashStarts(letters, STAR, body + [42, 47] + s);
  }

  /** White space and comments before a token do not matter. */
  lemma {:induction false} GapsAreSkipped(letters: Letters, gs: seq<Gap>, s: Text)
    requires LegalGaps(gs)
    ensures Lex(letters, GapsText(gs) + s) == Lex(letters, s)
  {
    hide Lex, LegalGap, GapText;
    if gs == [] {
      assert GapsText(gs) + s == s;
    } else {
      var more := GapsText(gs[1..]) + s;
      Assoc(GapText(gs[0]), GapsText(gs[1..]), s);
      GapIsSkipped(letters, gs[0], more);
      GapsAreSkipped(letters, gs[1..], s);
    }
  }

  /** In particular white space alone. */
  lemma {:induction false} WhiteSpaceIsSkipped(letters: Letters, w: Text, s: Text)
    requires forall i :: 0 <= i < |w| ==> IsBlank(w[i])
    ensures Lex(letters, w + s) == Lex(letters, s)
  {
    hide Lex, IsBlank;
    if w == [] {
      assert w + s == s;
    } else {
      assert w + s == [w[0]] + (w[1..] + s);
      BlankIsSkipped(letters, w[0], w[1..] + s);
      WhiteSpaceIsSkipped(letters, w[1..], s);
    }
  }

  // ------------------------------------------------------------------
  //  Strings
  // ------------------------------------------------------------------

  /** How one character is written in a string. */
  datatype CharForm =
    | Raw(c: int)                                    // as it is
    | Letter(code: int)                              // a backslash and a letter, a quote or a backslash
    | Unicode(h1: int, h2: int, h3: int, h4: int)    // backslash u and four digits
    | Byte(upper: bool, h1: int, h2: int)            // backslash x or X and two digits

  /** The value of a hexadecimal digit, in either case. */
  function DigitValue(c: int): int {
    if 48 <= c <= 57 then c - 48 else if 65 <= c <= 70 then c - 65 + 10 else c - 97 + 10
  }

  predicate IsHex(c: int) {
    48 <= c <= 57 || 65 <= c <= 70 || 97 <= c <= 102
  }

  function FormText(f: CharForm): Text {
    match f
    case Raw(c) => [c]
    case Letter(code) => [92, code]
    case Unicode(h1, h2, h3, h4) => [92, 117, h1, h2, h3, h4]
    case Byte(upper, h1, h2) => [92, if upper then 88 else 120, h1, h2]
  }

  /** The letters with a meaning of their own: b, f, n, r, t, v and 0. */
  function LetterMeans(code: int): int {
    if code == 98 then 8 else if code == 102 then 12 else if code == 110 then 10 else if code == 114 then 13
    else if code == 116 then 9 else if code == 118 then 11 else if code == 48 then 0 else code
  }

  function FormMeans(f: CharForm): int {
    match f
    case Raw(c) => c
    case Letter(code) => LetterMeans(code)
    case Unicode(h1, h2, h3, h4) => ((DigitValue(h1) * 16 + DigitValue(h2)) * 16 + DigitValue(h3)) * 16 + DigitValue(h4)
    case Byte(_, h1, h2) => DigitValue(h1) * 16 + DigitValue(h2)
  }

  predicate LegalForm(quote: int, f: CharForm) {
    match f
    case Raw(c) => 0 < c < 0x110000 && c != quote && c != 92 && c !in {10, 13, 0x2028, 0x2029}
    case Letter(code) => code in {34, 39, 92, 98, 102, 110, 114, 116, 118, 48}
    case Unicode(h1, h2, h3, h4) => IsHex(h1) && IsHex(h2) && IsHex(h3) && IsHex(h4)
    case Byte(_, h1, h2) => IsHex(h1) && IsHex(h2)
  }

  predicate LegalForms(quote: int, fs: seq<CharForm>) {
    forall i :: 0 <= i < |fs| ==> LegalForm(quote, fs[i])
  }

  /** The characters, the closing quote, and what follows. */
  function StringTail(quote: int, fs: seq<CharForm>, rest: Text): (r: Text)
    ensures r != []
  {
    if fs == [] then [quote] + rest else FormText(fs[0]) + StringTail(quote, fs[1..], rest)
  }

  function Meaning(fs: seq<CharForm>): Text {
    if fs == [] then [] else [FormMeans(fs[0])] + Meaning(fs[1..])
  }

  lemma {:induction false} HexStep(n: int, max: nat, h: int, t: Text)
    requires IsHex(h)
    ensures ReadHex(n, max + 1, [h] + t) == ReadHex(n * 16 + DigitValue(h), max, t)
    ensures ReadHexNumber(max + 1, [h] + t) == ReadHex(0, max + 1, [h] + t)
  {
    assert ([h] + t)[1..] == t;
  }

  lemma {:induction false} HexEnds(n: int, t: Text)
    requires t != [] && 0 < t[0] < 0x110000
    ensures ReadHex(n, 0, t) == (n, t)
  {
    assert [t[0]] + t[1..] == t;
  }

  lemma {:induction false} HexTwo(h1: int, h2: int, t: Text)
    requires IsHex(h1) && IsHex(h2) && t != [] && 0 < t[0] < 0x110000
    ensures ReadHexNumber(2, [h1, h2] + t) == (DigitValue(h1) * 16 + DigitValue(h2), t)
  {
    hide ReadHex, ReadHexNumber, DigitValue;
    assert [h1, h2] + t == [h1] + ([h2] + t);
    HexStep(0, 1, h1, [h2] + t);
    HexStep(DigitValue(h1), 0, h2, t);
    HexEnds(DigitValue(h1) * 16 + DigitValue(h2), t);
  }

  lemma {:induction false} HexFour(h1: int, h2: int, h3: int, h4: int, t: Text)
    requires IsHex(h1) && IsHex(h2) && IsHex(h3) && IsHex(h4) && t != [] && 0 < t[0] < 0x110000
    ensures ReadHexNumber(4, [h1, h2, h3, h4] + t) == (FormMeans(Unicode(h1, h2, h3, h4)), t)
  {
    hide ReadHex, ReadHexNumber, DigitValue;
    var a := DigitValue(h1);
    var b := a * 16 + DigitValue(h2);
    var c := b * 16 + DigitValue(h3);
    assert [h1, h2, h3, h4] + t == [h1] + ([h2] + ([h3] + ([h4] + t)));
    HexStep(0, 3, h1, [h2] + ([h3] + ([h4] + t)));
    HexStep(a, 2, h2, [h3] + ([h4] + t));
    HexStep(b, 1, h3, [h4] + t);
    HexStep(c, 0, h4, t);
    HexEnds(c * 16 + DigitValue(h4), t);
  }

  lemma {:induction false} EscapeMeans(quote: int, f: CharForm, t: Text)
    requires LegalForm(quote, f) && !f.Raw? && t != [] && 0 < t[0] < 0x110000
    ensures Escape(true, FormText(f)[1..] + t) == (FormMeans(f), t)
  {
    hide ReadHexNumber, DigitValue;
    var s := FormText(f)[1..] + t;
    match f {
      case Letter(code) =>
        assert s == [code] + t && s[1..] == t;
      case Unicode(h1, h2, h3, h4) =>
        assert s[0] == 117 && s[1..] == [h1, h2, h3, h4] + t;
        HexFour(h1, h2, h3, h4, t);
      case Byte(upper, h1, h2) =>
        assert s[0] == (if upper then 88 else 120) && s[1..] == [h1, h2] + t;
        HexTwo(h1, h2, t);
    }
  }

  lemma {:induction false} FormIsPositive(quote: int, f: CharForm)
    requires LegalForm(quote, f)
    ensures FormMeans(f) >= 0
    ensures FormText(f) != [] && 0 < FormText(f)[0] < 0x110000
  {
  }

  lemma {:induction false} TailBegins(quote: int, fs: seq<CharForm>, rest: Text)
    requires LegalForms(quote, fs) && (quote == QUOTE || quote == APOSTROPHE)
    ensures 0 < StringTail(quote, fs, rest)[0] < 0x110000
  {
    if fs != [] {
      FormIsPositive(quote, fs[0]);
    }
  }

  lemma {:induction false} OneForm(quote: int, f: CharForm, t: Text)
    requires LegalForm(quote, f) && (quote == QUOTE || quote == APOSTROPHE) && t != [] && 0 < t[0] < 0x110000
    ensures var (text, rest) := ReadString(quote, t); ReadString(quote, FormText(f) + t) == ([FormMeans(f)] + text, rest)
  {
    hide Escape, DigitValue;
    FormIsPositive(quote, f);
    var s := FormText(f) + t;
    if f.Raw? {
      assert s[1..] == t && FormMeans(f) == f.c;
    } else {
      EscapeMeans(quote, f, t);
      assert s[0] == BACKSLASH && s[1..] == FormText(f)[1..] + t;
    }
  }

  /** A string means what its characters mean, however each is written. */
  lemma {:induction false} StringMeans(quote: int, fs: seq<CharForm>, rest: Text)
    requires LegalForms(quote, fs) && (quote == QUOTE || quote == APOSTROPHE)
    ensures ReadString(quote, StringTail(quote, fs, rest)) == (Meaning(fs), rest)
  {
    hide LegalForm, FormText, FormMeans;
    if fs == [] {
      assert ([quote] + rest)[1..] == rest;
    } else {
      var t := StringTail(quote, fs[1..], rest);
      TailBegins(quote, fs[1..], rest);
      StringMeans(quote, fs[1..], rest);
      OneForm(quote, fs[0], t);
    }
  }

  // ------------------------------------------------------------------
  //  Tokens
  // ------------------------------------------------------------------

  /** A token, as it is written. */
  datatype Spelled =
    | Mark(c: int)      // a bracket, a comma or a colon
    | Sign(c: int)      // plus or minus
    | NullWord | TrueWord | FalseWord
    | Digits(n: nat)
    | Quotes(quote: int, forms: seq<CharForm>)

  predicate LegalToken(p: Spelled) {
    match p
    case Mark(c) => c in {91, 93, 123, 125, 44, 58}
    case Sign(c) => c == 43 || c == 45
    case Digits(n) => n < 0x8000_0000_0000_0000 || n == 0x8000_0000_0000_0000
    case Quotes(quote, forms) => (quote == 34 || quote == 39) && LegalForms(quote, forms)
    case _ => true
  }

  /** The token and the text after it. */
  function TokenText(p: Spelled, t: Text): (r: Text)
    ensures r != []
  {
    match p
    case Mark(c) => [c] + t
    case Sign(c) => [c] + t
    case NullWord => [110, 117, 108, 108] + t
    case TrueWord => [116, 114, 117, 101] + t
    case FalseWord => [102, 97, 108, 115, 101] + t
    case Digits(n) => Decimal(n) + t
    case Quotes(quote, forms) => [quote] + StringTail(quote, forms, t)
  }

  function TokenOf(p: Spelled): Token {
    match p
    case Mark(c) =>
      if c == 91 then OpenSquare else if c == 93 then CloseSquare else if c == 123 then OpenCurly
      else if c == 125 then CloseCurly else if c == 44 then Comma else Colon
    case Sign(c) => if c == 43 then Add else Subtract
    case NullWord => Null
    case TrueWord => True
    case FalseWord => False
    case Digits(n) => Int(Wrap64(n))
    case Quotes(_, forms) => Str(Meaning(forms))
  }

  /** What may follow the token directly. */
  predicate MayFollow(letters: Letters, p: Spelled, t: Text) {
    match p
    case NullWord | TrueWord | FalseWord | Digits(_) => Delim(letters, t)
    case Sign(c) => t != [] && 0 < t[0] < 0x110000 && t[0] != 61 && t[0] != c
    case Mark(c) => c == 58 ==> t != [] && 0 < t[0] < 0x110000 && t[0] != 61 && t[0] != 58
    case Quotes(_, _) => true
  }

  lemma {:induction false} LexSign(letters: Letters, c: int, t: Text)
    requires (c == 43 || c == 45) && MayFollow(letters, Sign(c), t)
    ensures Lex(letters, [c] + t) == (TokenOf(Sign(c)), t)
  {
    hide ReadName, ReadNumber, ReadString, SkipLine, SkipBlock;
    assert Rest([c] + t) == t;
    Stays(letters, t);
  }

  lemma {:induction false} LexString(letters: Letters, quote: int, forms: seq<CharForm>, t: Text)
    requires LegalToken(Quotes(quote, forms))
    ensures Lex(letters, [quote] + StringTail(quote, forms, t)) == (Str(Meaning(forms)), t)
  {
    hide ReadName, ReadNumber, ReadString, SkipLine, SkipBlock;
    var s := StringTail(quote, forms, t);
    assert ([quote] + s)[1..] == s;
    StringMeans(quote, forms, t);
  }

  lemma {:induction false} LexWord(letters: Letters, p: Spelled, t: Text)
    requires (p == NullWord || p == TrueWord || p == FalseWord) && MayFollow(letters, p, t)
    ensures Lex(letters, TokenText(p, t)) == (TokenOf(p), t)
  {
    hide Lex;
    var name := if p == NullWord then NULL_NAME else if p == TrueWord then TRUE_NAME else FALSE_NAME;
    LexName(letters, name, t);
    assert TRUE_NAME[0] != NULL_NAME[0] && FALSE_NAME[0] != NULL_NAME[0] && FALSE_NAME[0] != TRUE_NAME[0];
  }

  /** One token. */
  lemma {:induction false} LexToken(letters: Letters, p: Spelled, t: Text)
    requires LegalToken(p) && MayFollow(letters, p, t)
    ensures Lex(letters, TokenText(p, t)) == (TokenOf(p), t)
  {
    hide Lex;
    match p
    case Mark(c) =>
      if c == 58 {
        LexColon(letters, t);
      } else {
        LexBracket(letters, c, t);
      }
    case Sign(c) => LexSign(letters, c, t);
    case Digits(n) => LexDecimal(letters, n, t);
    case Quotes(quote, forms) => LexString(letters, quote, forms, t);
    case _ => LexWord(letters, p, t);
  }
}
