/** Reading undoes printing, down to the characters. */
module JsonRoundTrip {
  import opened Text
  import opened LexerSpec
  import opened JsonText

  // ------------------------------------------------------------------
  //  Strings
  // ------------------------------------------------------------------

  /** The characters each escaper writes so that they can be read back. */
  predicate Safe(e: Escaper, c: int) {
    IsUnicode(c) && (e.Corrected? || (c != BACKSLASH && c != LINE_SEPARATOR && c != PARAGRAPH_SEPARATOR))
  }

  predicate AllSafe(e: Escaper, s: Text) {
    forall i :: 0 <= i < |s| ==> Safe(e, s[i])
  }

  /** What stands in the text from some character of a string on. */
  function Tail(e: Escaper, s: Text, rest: Text): (t: Text)
    ensures t != []
  {
    EscapeAll(e, s) + [QUOTE] + rest
  }

  lemma {:induction false} TailStep(e: Escaper, s: Text, rest: Text)
    requires s != []
    ensures Tail(e, s, rest) == EscapeChar(e, s[0]) + Tail(e, s[1..], rest)
  {
  }

  lemma {:induction false} ReadHexStep(n: nat, d: nat, max: nat, t: Text)
    requires d < 16
    ensures IsHexDigit(HexDigit(d))
    ensures ReadHex(n, max + 1, [HexDigit(d)] + t) == ReadHex(n * 16 + d, max, t)
  {
    assert ([HexDigit(d)] + t)[1..] == t;
  }

  predicate FitsIn(n: nat, w: nat) {
    if w == 0 then n == 0 else FitsIn(n / 16, w - 1)
  }

  /** `m` shifted up by `w` digits, plus `n`. */
  function ShiftUp(m: nat, n: nat, w: nat): nat {
    if w == 0 then m else ShiftUp(m, n / 16, w - 1) * 16 + n % 16
  }

  lemma {:induction false} ReadHexDigits(m: nat, n: nat, w: nat, k: nat, t: Text)
    requires FitsIn(n, w)
    ensures ReadHex(m, w + k, Hex(n, w) + t) == ReadHex(ShiftUp(m, n, w), k, t)
    decreases w
  {
    if w == 0 {
      assert Hex(n, w) + t == t;
    } else {
      Assoc(Hex(n / 16, w - 1), [HexDigit(n % 16)], t);
      ReadHexDigits(m, n / 16, w - 1, k + 1, [HexDigit(n % 16)] + t);
      ReadHexStep(ShiftUp(m, n / 16, w - 1), n % 16, k, t);
    }
  }

  lemma {:induction false} FourDigits(n: nat)
    requires n < 0x10000
    ensures FitsIn(n, 4) && ShiftUp(0, n, 4) == n
  {
    var a := n / 16;
    var b := a / 16;
    var c := b / 16;
    assert c / 16 == 0;
    assert FitsIn(c, 1) && FitsIn(b, 2) && FitsIn(a, 3);
    assert ShiftUp(0, c, 1) == c && ShiftUp(0, b, 2) == b && ShiftUp(0, a, 3) == a;
  }

  lemma {:induction false} HexStarts(n: nat, w: nat)
    requires w > 0
    ensures Hex(n, w) != [] && IsHexDigit(Hex(n, w)[0])
    decreases n, w
  {
    if w > 1 {
      HexStarts(n / 16, w - 1);
    } else if n / 16 > 0 {
      HexDigitsStart(n / 16);
    }
  }

  lemma {:induction false} HexDigitsStart(n: nat)
    requires n > 0
    ensures Hex(n, 0) != [] && IsHexDigit(Hex(n, 0)[0])
  {
    if n / 16 > 0 { HexDigitsStart(n / 16); }
  }

  /** Four digits are read back as the number, and the next character is put back. */
  lemma {:induction false} ReadHex4(n: nat, t: Text)
    requires n < 0x10000 && t != [] && 0 < t[0] < 0x110000
    ensures ReadHexNumber(4, Hex(n, 4) + t) == (n, t)
  {
    FourDigits(n);
    ReadHexDigits(0, n, 4, 0, t);
    HexStarts(n, 4);
    assert [t[0]] + t[1..] == t;
  }

  /** One step of `read_string()` on a backslash. */
  lemma {:induction false} ReadEscape(d: int, t: Text, u: Text)
    requires Escape(true, t) == (d, u)
    ensures var r := ReadString(QUOTE, u);
      ReadString(QUOTE, [BACKSLASH] + t) == (if d == CONTINUATION then r.0 else [d] + r.0, r.1)
  {
    assert ([BACKSLASH] + t)[1..] == t;
  }

  lemma {:induction false} ReadLetterEscape(d: int, c: int, t: Text)
    requires Escape(true, [d] + t) == (c, t) && c != CONTINUATION
    ensures var r := ReadString(QUOTE, t);
      ReadString(QUOTE, [BACKSLASH, d] + t) == ([c] + r.0, r.1)
  {
    assert [BACKSLASH, d] + t == [BACKSLASH] + ([d] + t);
    ReadEscape(c, [d] + t, t);
  }

  lemma {:induction false} ReadUnicodeEscape(n: nat, t: Text)
    requires n < 0x10000 && t != [] && 0 < t[0] < 0x110000
    ensures var r := ReadString(QUOTE, t);
      ReadString(QUOTE, [BACKSLASH, 117] + Hex(n, 4) + t) == ([n] + r.0, r.1)
  {
    ReadHex4(n, t);
    var u := Hex(n, 4) + t;
    assert ([117] + u)[1..] == u;
    assert [BACKSLASH, 117] + Hex(n, 4) + t == [BACKSLASH] + ([117] + u);
    ReadEscape(n, [117] + u, t);
  }

  /** The letter of a two character escape. */
  function Letter(c: int): int {
    if c == 8 then 98 else if c == 12 then 102 else if c == 10 then 110 else if c == 13 then 114
    else if c == 9 then 116 else c
  }

  predicate HasLetter(e: Escaper, c: int) {
    c == 8 || c == 12 || c == 10 || c == 13 || c == 9 || c == QUOTE || (e.Corrected? && c == BACKSLASH)
  }

  lemma {:induction false} LetterEscapes(e: Escaper, c: int, t: Text)
    requires HasLetter(e, c)
    ensures EscapeChar(e, c) == [BACKSLASH, Letter(c)] && Escape(true, [Letter(c)] + t) == (c, t)
  {
    assert ([Letter(c)] + t)[1..] == t;
  }

  lemma {:induction false} OtherEscapes(e: Escaper, c: int)
    requires Safe(e, c) && !HasLetter(e, c)
    ensures var long := c < 0x20 || c == LINE_SEPARATOR || c == PARAGRAPH_SEPARATOR;
      EscapeChar(e, c) == if long then [BACKSLASH, 117] + Hex(c, 4) else [c]
  {
  }

  lemma {:induction false} ReadPlain(c: int, t: Text)
    requires c >= 0 && c != QUOTE && c != BACKSLASH && !IsLineTerminator(c)
    ensures var r := ReadString(QUOTE, t);
      ReadString(QUOTE, [c] + t) == ([c] + r.0, r.1)
  {
    assert ([c] + t)[1..] == t;
  }

  /** One character, whatever follows it. */
  lemma {:induction false} ReadChar(e: Escaper, c: int, t: Text)
    requires Safe(e, c) && t != [] && 0 < t[0] < 0x110000
    ensures var r := ReadString(QUOTE, t);
      ReadString(QUOTE, EscapeChar(e, c) + t) == ([c] + r.0, r.1)
  {
    if HasLetter(e, c) {
      LetterEscapes(e, c, t);
      ReadLetterEscape(Letter(c), c, t);
    } else {
      OtherEscapes(e, c);
      if c < 0x20 || c == LINE_SEPARATOR || c == PARAGRAPH_SEPARATOR {
        ReadUnicodeEscape(c, t);
      } else {
        ReadPlain(c, t);
      }
    }
  }

  lemma {:induction false} TailStart(e: Escaper, s: Text, rest: Text)
    requires forall i :: 0 <= i < |s| ==> IsUnicode(s[i])
    ensures 0 < Tail(e, s, rest)[0] < 0x110000
  {
    if s != [] {
      TailStep(e, s, rest);
    }
  }

  lemma {:induction false} ReadClose(e: Escaper, rest: Text)
    ensures ReadString(QUOTE, Tail(e, [], rest)) == ([], rest)
  {
    assert Tail(e, [], rest)[1..] == rest;
  }

  /** A string of safe characters is read back, and nothing beyond its closing quote. */
  lemma {:induction false} ReadSafe(e: Escaper, s: Text, rest: Text)
    requires AllSafe(e, s)
    ensures ReadString(QUOTE, Tail(e, s, rest)) == (s, rest)
  {
    hide EscapeChar, Tail;
    if s == [] {
      ReadClose(e, rest);
    } else {
      ReadSafe(e, s[1..], rest);
      TailStep(e, s, rest);
      TailStart(e, s[1..], rest);
      ReadChar(e, s[0], Tail(e, s[1..], rest));
      assert [s[0]] + s[1..] == s;
    }
  }
}
