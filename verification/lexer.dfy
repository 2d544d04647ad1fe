/** The lexer as the parser uses it: a stream that can be read ahead and put back. */
module Lexing {
  import opened Text
  import opened LexerSpec

  /** The characters put back, the last one first. */
  ghost function Reversed(s: seq<int>): (r: Text)
    ensures |r| == |s|
  {
    if s == [] then [] else [s[|s| - 1]] + Reversed(s[..|s| - 1])
  }

  class Lexer {
    const letters: Letters
    /** What the input stream still holds. */
    var input: Text
    var unget: seq<int>
    /** The character `f_char_type` was last computed for. */
    var last: int

    constructor (input: Text, letters: Letters)
      ensures Left() == Normal(input) && this.letters == letters
    {
      this.input, this.letters := input, letters;
      unget, last := [], END;
    }

    /** What is still to be read. */
    ghost function Left(): Text
      reads this
    {
      Reversed(unget) + Normal(input)
    }

    method Getc() returns (c: int)
      modifies this
      ensures c == Peek(old(Left())) && Left() == Rest(old(Left())) && (last == c || (last == RETURN && c == NEWLINE))
    {
      if unget != [] {
        c := unget[|unget| - 1];
        unget := unget[..|unget| - 1];
        last := c;
      } else {
        c := GetcInput();
      }
    }

    /** The end of a line is one newline, however it is written. */
    method GetcInput() returns (c: int)
      requires unget == []
      modifies this
      ensures c == Peek(old(Left())) && Left() == Rest(old(Left())) && (last == c || (last == RETURN && c == NEWLINE))
    {
      assert forall t: Text :: [] + t == t;
      c := Read();
      last := c;
      if c == RETURN {
        c := Read();
        if c != NEWLINE {
          Ungetc(c);
        }
        c := NEWLINE;
      }
    }

    /** The next character of the input stream. */
    method Read() returns (c: int)
      modifies this`input
      ensures c == Peek(old(input)) && input == Rest(old(input))
    {
      c := END;
      if input != [] {
        c, input := input[0], input[1..];
      }
    }

    method Ungetc(c: int)
      modifies this`unget
      ensures Left() == Unread(c, old(Left()))
    {
      if 0 < c < 0x110000 {
        unget := unget + [c];
        assert unget[..|unget| - 1] == old(unget);
      }
    }

    /** Up to `max` hexadecimal digits; the character after them is put back. */
    method ReadHex(max: nat) returns (result: int)
      requires max > 0
      modifies this
      ensures (result, Left()) == ReadHexNumber(max, old(Left()))
    {
      ghost var s := Left();
      result := 0;
      var c := Getc();
      var p := 0;
      while IsHexDigit(c) && p < max
        invariant c == Peek(s) && Left() == Rest(s) && 0 <= p <= max
        invariant p == 0 ==> s == old(Left()) && result == 0
        invariant p > 0 ==> IsHexDigit(Peek(old(Left())))
        invariant LexerSpec.ReadHex(0, max, old(Left())) == LexerSpec.ReadHex(result, max - p, s)
      {
        result := result * 16 + HexValue(c);
        s := Rest(s);
        c := Getc();
        p := p + 1;
      }
      Ungetc(c);
      if p == 0 {
        result := -1;
      }
    }

    method EscapeSequence(continuation: bool) returns (c: int)
      modifies this
      ensures (c, Left()) == Escape(continuation, old(Left()))
    {
      c := Getc();
      if c == 117 {
        c := ReadHex(4);
      } else if c == 120 || c == 88 {
        c := ReadHex(2);
      } else if c == APOSTROPHE || c == QUOTE || c == BACKSLASH {
      } else if c == 98 {
        c := 8;
      } else if c == 102 {
        c := 12;
      } else if c == 110 {
        c := 10;
      } else if c == 114 {
        c := 13;
      } else if c == 116 {
        c := 9;
      } else if c == 118 {
        c := 11;
      } else if c == NEWLINE || c == LINE_SEPARATOR || c == PARAGRAPH_SEPARATOR {
        if continuation {
          c := CONTINUATION;
        } else {
          Ungetc(c);
          c := QUESTION;
        }
      } else if c == 48 {
        c := 0;
      } else {
        c := QUESTION;
      }
    }

    method ReadString(quote: int) returns (text: Text)
      modifies this
      ensures (text, Left()) == LexerSpec.ReadString(quote, old(Left()))
    {
      text := [];
      ghost var s := Left();
      ghost var all := LexerSpec.ReadString(quote, s);
      assert [] + all.0 == all.0;
      var c := Getc();
      while c != quote
        invariant c == Peek(s) && Left() == Rest(s)
        invariant text + LexerSpec.ReadString(quote, s).0 == all.0 && LexerSpec.ReadString(quote, s).1 == all.1
        decreases |s|
      {
        assert text + [] == text;
        if c < 0 || IsLineTerminator(c) {
          return;
        }
        if c == BACKSLASH {
          c := EscapeSequence(quote != BACKTICK);
        }
        s := Left();
        ghost var more := LexerSpec.ReadString(quote, s).0;
        AppendOne(text, c, more);
        if c != CONTINUATION {
          text := text + [c];
        }
        c := Getc();
      }
      assert text + [] == text;
    }

    /** The loop of read_identifier(); `first` is already read. */
    method ReadIdentifier(first: int) returns (name: Text)
      modifies this
      ensures (name, Left()) == ReadName(letters, first, old(Left()))
    {
      name := [];
      var c := first;
      ghost var s := Left();
      ghost var all := ReadName(letters, first, s);
      assert [] + all.0 == all.0;
      while true
        invariant Left() == s
        invariant name + ReadName(letters, c, s).0 == all.0 && ReadName(letters, c, s).1 == all.1
        decreases |s| + if c < 0 then 0 else 1
      {
        assert name + [] == name;
        if c == BACKSLASH {
          c := EscapeSequence(false);
          if !(IsLetter(letters, c) || IsDigit(c)) || c < 0 {
            return;
          }
        } else if !(IsLetter(letters, c) || IsDigit(c)) || c < 0 {
          Ungetc(c);
          return;
        }
        ghost var more := ReadName(letters, Peek(Left()), Rest(Left())).0;
        AppendOne(name, c, more);
        name := name + [c];
        c := Getc();
        s := Left();
      }
    }

    /** The digits from `first` on, which is already read, and the character after them. */
    method ReadDigits(first: int) returns (next: int, digits: Text)
      requires IsDigit(first)
      modifies this
      ensures digits == [first] + Digits(old(Left()))
      ensures var t := old(Left())[|digits| - 1..]; next == Peek(t) && Left() == Unread(next, Rest(t))
      ensures last == next || (last == RETURN && next == NEWLINE)
    {
      hide Left;
      ghost var s := Left();
      ghost var k := 0;
      assert [first] + Digits(s) == [first] + Digits(s[0..]) && s[0..] == s;
      digits := [first];
      next := Getc();
      while IsDigit(next)
        invariant 0 <= k <= |s| && next == Peek(s[k..]) && Left() == Rest(s[k..]) && |digits| == k + 1
        invariant digits + Digits(s[k..]) == [first] + Digits(s)
        invariant last == next || (last == RETURN && next == NEWLINE)
        decreases |s| - k
      {
        assert k < |s| && next == s[k];
        MoreDigits(s, k);
        AppendOne(digits, next, Digits(s[k + 1..]));
        digits := digits + [next];
        k := k + 1;
        next := Getc();
      }
      assert digits + [] == digits;
      assert Digits(s[k..]) == [];
      Ungetc(next);
    }

    /** The sign has its own token. The test for a letter after the number comes later. */
    method ReadNumber(first: int) returns (token: Token)
      requires IsDigit(first)
      modifies this
      ensures (Checked(token), Left()) == LexerSpec.ReadNumber(letters, first, old(Left()))
    {
      hide Number, Wrap64, Left, IsLetter, Digits;
      ghost var s := Left();
      assert s[0..] == s;
      EndOfLine(letters);
      var next, digits;
      if first == ZERO {
        next := Getc();
        Ungetc(next);
        digits := [ZERO];
        assert [ZERO] + [] == [ZERO];
        if next == 120 || next == 88 {
          return Unmodelled;
        }
      } else {
        next, digits := ReadDigits(first);
      }
      if next == 46 || next == 101 || next == 69 {
        return Unmodelled;
      }
      var n := Number(digits);
      token := if n >= 0x1_0000_0000_0000_0000 then TooBig else Int(Wrap64(n));
    }

    /** A number cannot be followed by a letter. */
    function Checked(token: Token): Token
      reads this
    {
      if token.Int? && IsLetter(letters, last) then Int(-1) else token
    }

    method SkipLine()
      modifies this
      ensures Left() == LexerSpec.SkipLine(old(Left()))
    {
      var c := Getc();
      while !IsLineTerminator(c) && c >= 0
        invariant LexerSpec.SkipLine(old(Left())) == if IsLineTerminator(c) || c < 0 then Left() else LexerSpec.SkipLine(Left())
        decreases |Left()|, if c < 0 then 0 else 1
      {
        c := Getc();
      }
    }

    method SkipBlock()
      modifies this
      ensures Left() == LexerSpec.SkipBlock(false, old(Left()))
    {
      var c := Getc();
      while c > 0
        invariant LexerSpec.SkipBlock(false, old(Left())) == if c <= 0 then Left() else LexerSpec.SkipBlock(c == STAR, Left())
        decreases |Left()|, if c <= 0 then 0 else 1
      {
        var star := c == STAR;
        c := Getc();
        if star && c == SLASH {
          c := END;
        }
      }
    }

    /** The next token; white space, comments and characters that start nothing are skipped. */
    method GetToken() returns (token: Token)
      modifies this
      ensures (Checked(token), Left()) == Lex(letters, old(Left()))
    {
      hide LexerSpec.ReadNumber, LexerSpec.ReadString, ReadName, LexerSpec.SkipLine, LexerSpec.SkipBlock, Left;
      while true
        invariant Lex(letters, Left()) == Lex(letters, old(Left()))
        decreases |Left()|
      {
        var c := Getc();
        if c < 0 {
          return EndOfInput;
        }
        if IsWhiteSpace(c) || IsLineTerminator(c) || IsInvalid(c) {
        } else if IsLetter(letters, c) || c == BACKSLASH {
          var name := ReadIdentifier(c);
          if name != [] {
            return Keyword(name);
          }
        } else if IsDigit(c) {
          token := ReadNumber(c);
          return;
        } else if c == QUOTE || c == APOSTROPHE {
          var text := ReadString(c);
          return Str(text);
        } else if c == BACKTICK {
          var text := ReadString(c);
          return Other;
        } else if c == 58 || c == 43 || c == MINUS {
          var d := Getc();
          if d == 61 || d == c {
            return Other;
          }
          Ungetc(d);
          return Single(c);
        } else if c == SLASH {
          var d := Getc();
          if d == SLASH {
            SkipLine();
          } else if d == STAR {
            SkipBlock();
          } else {
            Ungetc(d);
            return Other;
          }
        } else if c == 91 || c == 93 || c == 123 || c == 125 || c == 44 {
          return Single(c);
        } else if IsOperator(c) {
          return Other;
        } else if c == 0x221E || c == 0xFFFD {
          return Unmodelled;
        }
      }
    }

    method GetNextToken() returns (token: Token)
      modifies this
      ensures (token, Left()) == Lex(letters, old(Left()))
    {
      token := GetToken();
      if token.Int? && IsLetter(letters, last) {
        token := Int(-1);
      }
    }
  }

  lemma {:induction false} MoreDigits(s: Text, k: nat)
    requires k < |s| && IsDigit(s[k])
    ensures Digits(s[k..]) == [s[k]] + Digits(s[k + 1..]) && Rest(s[k..]) == s[k + 1..] && Peek(s[k..]) == s[k]
  {
    assert s[k..][1..] == s[k + 1..];
  }

  lemma {:induction false} EndOfLine(letters: Letters)
    ensures !IsLetter(letters, RETURN) && !IsLetter(letters, NEWLINE)
  {
  }

  lemma {:induction false} AppendOne(a: Text, c: int, b: Text)
    ensures a + ([c] + b) == a + [c] + b
  {
  }
}
