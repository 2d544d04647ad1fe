/** Exactly which strings survive `append_string()` followed by `read_string()`: those without
    a backslash, U+2028 and U+2029. */
module JsonStrings {
  import opened Text
  import opened LexerSpec
  import opened JsonText
  import opened JsonRoundTrip

  /** The characters that cost a backslash in the text. */
  predicate Special(c: int) {
    0 <= c < 0x20 || c == QUOTE || c == BACKSLASH
  }

  function Specials(s: Text): (r: Text) {
    if s == [] then [] else (if Special(s[0]) then [s[0]] else []) + Specials(s[1..])
  }

  predicate Unicode(s: Text) {
    forall i :: 0 <= i < |s| ==> IsUnicode(s[i])
  }

  /** `o` is not `s`: it has fewer special characters, or others, or it is shorter. Without
      `strict` it may have the same length. */
  predicate Worse(o: Text, s: Text, strict: bool) {
    || |Specials(o)| < |Specials(s)|
    || (|Specials(o)| == |Specials(s)| && (Specials(o) != Specials(s) || |o| < |s| || (!strict && |o| == |s|)))
  }

  lemma {:induction false} SpecialsCons(c: int, s: Text)
    ensures Specials([c] + s) == if Special(c) then [c] + Specials(s) else Specials(s)
  {
    assert ([c] + s)[1..] == s;
  }

  lemma {:induction false} WorseCons(c: int, o: Text, s: Text, strict: bool)
    requires Worse(o, s, strict)
    ensures Worse([c] + o, [c] + s, strict)
  {
    SpecialsCons(c, o);
    SpecialsCons(c, s);
    if Special(c) && Specials(o) != Specials(s) {
      assert ([c] + Specials(o))[1..] == Specials(o) && ([c] + Specials(s))[1..] == Specials(s);
    }
  }

  /** Characters that stand for themselves. */
  predicate Plain(c: int) {
    IsUnicode(c) && !Special(c)
  }

  predicate AllPlain(p: Text) {
    forall i :: 0 <= i < |p| ==> Plain(p[i])
  }

  lemma {:induction false} PlainPrefix(p: Text, s: Text, rest: Text)
    requires AllPlain(p)
    ensures Tail(AsIs, p + s, rest) == p + Tail(AsIs, s, rest)
    ensures Specials(p + s) == Specials(s)
    ensures Unicode(s) ==> Unicode(p + s)
  {
    hide Tail;
    if p == [] {
      assert p + s == s;
    } else {
      assert (p + s)[1..] == p[1..] + s;
      PlainPrefix(p[1..], s, rest);
      TailStep(AsIs, p + s, rest);
      Assoc([p[0]], p[1..], Tail(AsIs, s, rest));
      assert [p[0]] + p[1..] == p;
    }
  }

  lemma {:induction false} HexPlain(n: nat, w: nat)
    ensures AllPlain(Hex(n, w))
    decreases n, w
  {
    if n > 0 || w > 0 {
      HexPlain(n / 16, if w == 0 then 0 else w - 1);
    }
  }

  lemma {:induction false} HexHead(s: Text, rest: Text)
    requires Unicode(s) && IsHexDigit(Tail(AsIs, s, rest)[0])
    ensures s != [] && Plain(s[0]) && Tail(AsIs, s, rest) == [s[0]] + Tail(AsIs, s[1..], rest)
  {
    if s != [] {
      TailStep(AsIs, s, rest);
    }
  }

  lemma {:induction false} PlainCons(s: Text, k: nat)
    requires s != [] && k < |s| && Plain(s[0]) && AllPlain(s[1..][..k])
    ensures AllPlain(s[..k + 1]) && s[1..][k..] == s[k + 1..]
  {
    assert s[..k + 1] == [s[0]] + s[1..][..k];
  }

  /** Hexadecimal digits are taken from the front of the string. */
  lemma {:induction false} HexRun(n: int, max: nat, s: Text, rest: Text) returns (v: int, k: nat)
    requires Unicode(s)
    ensures k <= |s| && AllPlain(s[..k])
    ensures ReadHex(n, max, Tail(AsIs, s, rest)) == (v, Tail(AsIs, s[k..], rest))
    decreases max
  {
    hide Tail;
    TailStart(AsIs, s, rest);
    var t := Tail(AsIs, s, rest);
    if max > 0 && IsHexDigit(t[0]) {
      HexHead(s, rest);
      var t' := Tail(AsIs, s[1..], rest);
      ReadHexMore(n, max - 1, s[0], t');
      v, k := HexRun(n * 16 + HexValue(s[0]), max - 1, s[1..], rest);
      PlainCons(s, k);
      k := k + 1;
    } else {
      v, k := n, 0;
      assert s[0..] == s;
      assert [t[0]] + t[1..] == t;
    }
  }

  lemma {:induction false} ReadHexMore(n: int, max: nat, c: int, t: Text)
    requires IsHexDigit(c)
    ensures ReadHex(n, max + 1, [c] + t) == ReadHex(n * 16 + HexValue(c), max, t)
  {
    assert ([c] + t)[1..] == t;
  }

  lemma {:induction false} HexNumber(max: nat, s: Text, rest: Text) returns (v: int, k: nat)
    requires Unicode(s)
    ensures k <= |s| && AllPlain(s[..k])
    ensures ReadHexNumber(max, Tail(AsIs, s, rest)) == (v, Tail(AsIs, s[k..], rest))
  {
    v, k := HexRun(0, max, s, rest);
    var t := Tail(AsIs, s, rest);
    TailStart(AsIs, s, rest);
    if max == 0 || !IsHexDigit(t[0]) {
      v, k := -1, 0;
      assert s[0..] == s;
      assert [t[0]] + t[1..] == t;
    }
  }

  /** What a backslash that was not escaped does: it takes one escape sequence out of the
      characters after it, and what is left is the text of some other string `w`. */
  ghost predicate Bites(s: Text, rest: Text, v: int, w: Text)
    requires s != []
  {
    && Unicode(w)
    && Escape(true, Tail(AsIs, s[1..], rest)) == (v, Tail(AsIs, w, rest))
    && (|Specials(w)| + 2 == |Specials(s)| || (Specials(s) == [BACKSLASH] + Specials(w) && |w| + 2 <= |s|))
  }

  lemma {:induction false} SpecialsOfTwo(s: Text)
    requires |s| >= 2
    ensures Specials(s) == (if Special(s[0]) then [s[0]] else []) + ((if Special(s[1]) then [s[1]] else []) + Specials(s[2..]))
  {
    assert s[1..][1..] == s[2..];
  }

  /** The backslash takes the one the printer wrote for the next character. */
  lemma {:induction false} BitesSpecial(s: Text, rest: Text) returns (w: Text)
    requires Unicode(s) && |s| >= 2 && s[0] == BACKSLASH && Special(s[1]) && s[1] != QUOTE
    ensures Bites(s, rest, BACKSLASH, w)
  {
    hide EscapeAll;
    var d, s'' := s[1], s[2..];
    var p := EscapeChar(AsIs, d)[1..];
    assert AllPlain(p) by {
      HexPlain(d % 0x1_0000_0000, 4);
      if |EscapeChar(AsIs, d)| > 2 { assert p == [117] + Hex(d % 0x1_0000_0000, 4); }
    }
    w := p + s'';
    PlainPrefix(p, s'', rest);
    TailStep(AsIs, s[1..], rest);
    assert s[1..][1..] == s'';
    var t := Tail(AsIs, s[1..], rest);
    assert EscapeChar(AsIs, d) == [BACKSLASH] + p;
    Assoc([BACKSLASH], p, Tail(AsIs, s'', rest));
    assert t[1..] == p + Tail(AsIs, s'', rest);
    SpecialsOfTwo(s);
  }

  /** The backslash takes a character that stands for itself, and perhaps some more. */
  lemma {:induction false} BitesPlain(s: Text, rest: Text) returns (v: int, w: Text)
    requires Unicode(s) && |s| >= 2 && s[0] == BACKSLASH && !Special(s[1])
    ensures Bites(s, rest, v, w)
  {
    hide Tail, Escape, ReadHexNumber;
    var d, s' := s[1], s[2..];
    SpecialsOfTwo(s);
    PlainHead(s[1..], rest);
    assert s[1..][1..] == s';
    if d == 117 || d == 120 || d == 88 {
      var k;
      v, k := HexNumber(if d == 117 then 4 else 2, s', rest);
      w := s'[k..];
      HexEscapes(d, Tail(AsIs, s', rest));
      PlainSpecials(s', k);
    } else {
      v := PlainEscapes(d, Tail(AsIs, s', rest));
      w := s';
    }
  }

  lemma {:induction false} PlainHead(s: Text, rest: Text)
    requires Unicode(s) && s != [] && !Special(s[0])
    ensures Tail(AsIs, s, rest) == [s[0]] + Tail(AsIs, s[1..], rest)
  {
    TailStep(AsIs, s, rest);
  }

  lemma {:induction false} PlainSpecials(s: Text, k: nat)
    requires k <= |s| && AllPlain(s[..k])
    ensures Specials(s[k..]) == Specials(s)
  {
    if k == 0 {
      assert s[0..] == s;
    } else {
      assert s[..k][0] == s[0];
      assert s[1..][..k - 1] == s[..k][1..] && s[1..][k - 1..] == s[k..];
      PlainSpecials(s[1..], k - 1);
    }
  }

  lemma {:induction false} HexEscapes(d: int, t: Text)
    requires d == 117 || d == 120 || d == 88
    ensures Escape(true, [d] + t) == ReadHexNumber(if d == 117 then 4 else 2, t)
  {
    assert ([d] + t)[1..] == t;
  }

  /** The character stands for itself, for another one or for nothing; none is put back. */
  lemma {:induction false} PlainEscapes(d: int, t: Text) returns (v: int)
    requires Plain(d) && d != 117 && d != 120 && d != 88
    ensures Escape(true, [d] + t) == (v, t)
  {
    assert ([d] + t)[1..] == t;
    v := Escape(true, [d] + t).0;
  }

  /** Reading never gives characters back. */
  lemma {:induction false} ReadConsumes(s: Text)
    requires s != []
    ensures |ReadString(QUOTE, s).1| < |s|
  {
  }

  /** If reading stops where the text of `s` ends, what it read is at best `s`, and it is not
      `s` when `s` holds a character that is not safe. */
  lemma {:induction false} NotReadBack(s: Text, rest: Text)
    requires Unicode(s) && ReadString(QUOTE, Tail(AsIs, s, rest)).1 == rest
    ensures Worse(ReadString(QUOTE, Tail(AsIs, s, rest)).0, s, !AllSafe(AsIs, s))
    decreases |Specials(s)|, |s|
  {
    if s == [] {
      assert Tail(AsIs, s, rest)[1..] == rest;
    } else if s[0] != BACKSLASH {
      NotReadBackStep(s, rest);
    } else if |s| == 1 {
      LastBackslash(s, rest);
    } else if s[1] == QUOTE {
      EarlyClose(s, rest);
    } else {
      var v, w;
      if Special(s[1]) { v := BACKSLASH; w := BitesSpecial(s, rest); } else { v, w := BitesPlain(s, rest); }
      BittenReadBack(s, rest, v, w);
    }
  }

  lemma {:induction false} NotReadBackStep(s: Text, rest: Text)
    requires Unicode(s) && s != [] && s[0] != BACKSLASH && ReadString(QUOTE, Tail(AsIs, s, rest)).1 == rest
    ensures Worse(ReadString(QUOTE, Tail(AsIs, s, rest)).0, s, !AllSafe(AsIs, s))
    decreases |Specials(s)|, |s|, 0
  {
    var t := Tail(AsIs, s[1..], rest);
    TailStep(AsIs, s, rest);
    NotATerminator(s[0], t, rest);
    TailStart(AsIs, s[1..], rest);
    ReadChar(AsIs, s[0], t);
    SpecialsCons(s[0], s[1..]);
    assert [s[0]] + s[1..] == s;
    NotReadBack(s[1..], rest);
    assert AllSafe(AsIs, s[1..]) ==> AllSafe(AsIs, s);
    WorseCons(s[0], ReadString(QUOTE, t).0, s[1..], !AllSafe(AsIs, s[1..]));
  }

  /** A line terminator written as it is ends the string before `t` is read. */
  lemma {:induction false} NotATerminator(c: int, t: Text, rest: Text)
    requires IsUnicode(c) && c != BACKSLASH && |t| > |rest|
    requires ReadString(QUOTE, EscapeChar(AsIs, c) + t).1 == rest
    ensures Safe(AsIs, c)
  {
    assert c == LINE_SEPARATOR || c == PARAGRAPH_SEPARATOR ==> ReadString(QUOTE, [c] + t).1 == ([c] + t)[1..];
    assert |([c] + t)[1..]| > |rest|;
  }

  /** A backslash at the end takes the closing quote; reading goes on beyond it. */
  lemma {:induction false} LastBackslash(s: Text, rest: Text)
    requires s == [BACKSLASH] && ReadString(QUOTE, Tail(AsIs, s, rest)).1 == rest
    ensures Worse(ReadString(QUOTE, Tail(AsIs, s, rest)).0, s, true)
  {
    BackslashTakesQuote(rest);
    if rest != [] {
      ReadConsumes(rest);
      assert false;
    } else {
      SpecialsCons(QUOTE, []);
      SpecialsCons(BACKSLASH, []);
      assert [QUOTE] + [] == [QUOTE] && [BACKSLASH] + [] == [BACKSLASH];
      assert [QUOTE][0] != [BACKSLASH][0];
    }
  }

  lemma {:induction false} BackslashTakesQuote(rest: Text)
    ensures var r := ReadString(QUOTE, rest);
      ReadString(QUOTE, Tail(AsIs, [BACKSLASH], rest)) == ([QUOTE] + r.0, r.1)
  {
    TailStep(AsIs, [BACKSLASH], rest);
    assert [BACKSLASH][1..] == [];
    assert [] + [QUOTE] + rest == [QUOTE] + rest;
    assert ([QUOTE] + rest)[1..] == rest;
    ReadEscape(QUOTE, [QUOTE] + rest, rest);
  }

  /** A backslash before a quote takes the printer's backslash; the quote closes the string
      and the rest of the text is left over. */
  lemma {:induction false} EarlyClose(s: Text, rest: Text)
    requires |s| >= 2 && s[0] == BACKSLASH && s[1] == QUOTE
    ensures ReadString(QUOTE, Tail(AsIs, s, rest)).1 != rest
  {
    var t := Tail(AsIs, s[1..][1..], rest);
    TailStep(AsIs, s, rest);
    TailStep(AsIs, s[1..], rest);
    assert Tail(AsIs, s, rest) == [BACKSLASH] + ([BACKSLASH] + ([QUOTE] + t));
    assert ([BACKSLASH] + ([QUOTE] + t))[1..] == [QUOTE] + t;
    ReadEscape(BACKSLASH, [BACKSLASH] + ([QUOTE] + t), [QUOTE] + t);
    assert ([QUOTE] + t)[1..] == t;
    assert |t| > |rest|;
  }

  lemma {:induction false} BittenReadBack(s: Text, rest: Text, v: int, w: Text)
    requires Unicode(s) && s != [] && s[0] == BACKSLASH && ReadString(QUOTE, Tail(AsIs, s, rest)).1 == rest
    requires Bites(s, rest, v, w)
    ensures Worse(ReadString(QUOTE, Tail(AsIs, s, rest)).0, s, true)
    decreases |Specials(s)|, |s|, 0
  {
    TailStep(AsIs, s, rest);
    ReadEscape(v, Tail(AsIs, s[1..], rest), Tail(AsIs, w, rest));
    NotReadBack(w, rest);
    var o := ReadString(QUOTE, Tail(AsIs, w, rest)).0;
    assert Worse(o, w, false);
    SpecialsCons(v, o);
    if v != CONTINUATION && Special(v) && v == BACKSLASH && Specials(o) != Specials(w) {
      assert ([v] + Specials(o))[1..] == Specials(o) && ([v] + Specials(w))[1..] == Specials(w);
    }
    if v != CONTINUATION && Special(v) && v != BACKSLASH {
      assert ([v] + Specials(o))[0] != ([BACKSLASH] + Specials(w))[0];
    }
  }

  /** The string law of `append_string()` as it is: a string of Unicode characters is read
      back, with nothing more and nothing less, exactly when all its characters are safe. */
  lemma {:induction false} StringRoundTrip(s: Text, rest: Text)
    requires Unicode(s)
    ensures ReadString(QUOTE, EscapeAll(AsIs, s) + [QUOTE] + rest) == (s, rest) <==> AllSafe(AsIs, s)
  {
    if AllSafe(AsIs, s) {
      ReadSafe(AsIs, s, rest);
    } else if ReadString(QUOTE, Tail(AsIs, s, rest)).1 == rest {
      NotReadBack(s, rest);
    }
  }

  /** The shortest failure: one backslash comes back as a quote, or not at all. */
  lemma {:induction false} BackslashIsLost()
    ensures ReadString(QUOTE, EscapeAll(AsIs, [BACKSLASH]) + [QUOTE]) == ([QUOTE], [])
  {
    assert EscapeAll(AsIs, [BACKSLASH]) + [QUOTE] == [BACKSLASH] + ([QUOTE] + []);
    assert ([QUOTE] + [])[1..] == [];
    ReadEscape(QUOTE, [QUOTE] + [], []);
    assert ReadString(QUOTE, []) == ([], []);
  }
}
