/** The environment variable is cut in words the way a shell does it. */
module EnvironmentWords {

  predicate IsSpace(c: char) {
    c == ' ' || '\t' <= c <= '\r'
  }

  predicate IsQuote(c: char) {
    c == '"' || c == '\''
  }

  /** The characters up to the quote, which may be missing, and what follows it. */
  function Quoted(quote: char, s: string): (r: (string, string))
    ensures |r.1| <= |s|
  {
    if s == [] then ([], [])
    else if s[0] == quote then ([], s[1..])
    else
      var (a, rest) := Quoted(quote, s[1..]);
      ([s[0]] + a, rest)
  }

  function Ended(a: string): seq<string> {
    if a != [] then [a] else []
  }

  /** The words of `s`, when `a` was read of the first one. */
  function Words(a: string, s: string): seq<string>
    decreases |s|
  {
    if s == [] then Ended(a)
    else if IsSpace(s[0]) then Ended(a) + Words([], s[1..])
    else if IsQuote(s[0]) then
      var (q, rest) := Quoted(s[0], s[1..]);
      Words(a + q, rest)
    else Words(a + [s[0]], s[1..])
  }

  lemma {:induction false} Drop(s: string, i: nat)
    requires i < |s|
    ensures s[i..][0] == s[i] && s[i..][1..] == s[i + 1..]
  {
  }

  lemma {:induction false} Assoc<T>(a: seq<T>, b: seq<T>, c: seq<T>)
    ensures a + (b + c) == a + b + c
  {
  }

  /** The characters up to the closing quote are added to `a0`. */
  method ReadQuoted(s: string, i0: nat, quote: char, a0: string) returns (a: string, i: nat)
    requires i0 <= |s|
    ensures i0 <= i <= |s|
    ensures var q := Quoted(quote, s[i0..]); a == a0 + q.0 && s[i..] == q.1
  {
    a, i := a0, i0;
    ghost var q := Quoted(quote, s[i0..]);
    while i < |s| && s[i] != quote
      invariant i0 <= i <= |s|
      invariant a0 + q.0 == a + Quoted(quote, s[i..]).0 && q.1 == Quoted(quote, s[i..]).1
    {
      Drop(s, i);
      Assoc(a, [s[i]], Quoted(quote, s[i + 1..]).0);
      a := a + [s[i]];
      i := i + 1;
    }
    assert a + [] == a;
    if i < |s| {
      Drop(s, i);
      i := i + 1;
    } else {
      assert s[i..] == [];
    }
  }

  method SkipSpaces(s: string, i0: nat) returns (i: nat)
    requires i0 <= |s|
    ensures i0 <= i <= |s| && Words([], s[i..]) == Words([], s[i0..])
  {
    i := i0;
    while i < |s| && IsSpace(s[i])
      invariant i0 <= i <= |s| && Words([], s[i..]) == Words([], s[i0..])
    {
      Drop(s, i);
      assert [] + Words([], s[i + 1..]) == Words([], s[i + 1..]);
      i := i + 1;
    }
  }

  /** The loop inside `reset()`. */
  method Tokenize(s: string) returns (args: seq<string>)
    ensures args == Words([], s)
  {
    args := [];
    var a := [];
    var i := 0;
    assert s[0..] == s && [] + Words([], s) == Words([], s);
    while i < |s|
      invariant 0 <= i <= |s| && Words([], s) == args + Words(a, s[i..])
      decreases |s| - i
    {
      Drop(s, i);
      if IsSpace(s[i]) {
        Assoc(args, Ended(a), Words([], s[i + 1..]));
        assert args + [] == args;
        if a != [] {
          args := args + [a];
          a := [];
        }
        i := SkipSpaces(s, i + 1);
      } else if IsQuote(s[i]) {
        a, i := ReadQuoted(s, i + 1, s[i], a);
      } else {
        a := a + [s[i]];
        i := i + 1;
      }
    }
    assert s[i..] == [] && args + [] == args;
    if a != [] {
      args := args + [a];
    }
  }

  // ------------------------------------------------------------------
  //  Writing words so that they are read back
  // ------------------------------------------------------------------

  /** A character in the quotes it is not. */
  function QuoteChar(c: char): string {
    if c == '"' then ['\'', c, '\''] else ['"', c, '"']
  }

  /** Each character by itself, and a pair of quotes at the end. */
  function Quote(w: string): string {
    if w == [] then ['"', '"'] else QuoteChar(w[0]) + Quote(w[1..])
  }

  function Line(ws: seq<string>): string {
    if ws == [] then [] else Quote(ws[0]) + [' '] + Line(ws[1..])
  }

  function NotEmpty(ws: seq<string>): seq<string> {
    if ws == [] then [] else Ended(ws[0]) + NotEmpty(ws[1..])
  }

  lemma {:induction false} CharBack(a: string, c: char, rest: string)
    ensures Words(a, QuoteChar(c) + rest) == Words(a + [c], rest)
  {
    var q := QuoteChar(c);
    var s := q + rest;
    assert s[1..] == [c] + ([q[0]] + rest);
    assert s[1..][1..] == [q[0]] + rest && s[1..][1..][1..] == rest;
    assert Quoted(q[0], s[1..][1..]) == ([], rest);
    assert [c] + [] == [c] && s[1..][0] == c != q[0];
    assert Quoted(q[0], s[1..]) == ([c], rest);
  }

  lemma {:induction false} QuoteBack(a: string, w: string, rest: string)
    ensures Words(a, Quote(w) + rest) == Words(a + w, rest)
    decreases |w|
  {
    if w == [] {
      var s := Quote(w) + rest;
      assert a + [] == a;
      assert s[1..] == ['"'] + rest && s[1..][1..] == rest;
      assert Quoted('"', s[1..]) == ([], rest);
    } else {
      Assoc(QuoteChar(w[0]), Quote(w[1..]), rest);
      CharBack(a, w[0], Quote(w[1..]) + rest);
      QuoteBack(a + [w[0]], w[1..], rest);
      assert a + [w[0]] + w[1..] == a + w;
    }
  }

  /** Quoted words with a space after each come back as they are, but for the empty ones. */
  lemma {:induction false} LineBack(ws: seq<string>)
    ensures Words([], Line(ws)) == NotEmpty(ws)
  {
    if ws != [] {
      var rest := [' '] + Line(ws[1..]);
      assert Line(ws) == Quote(ws[0]) + rest;
      QuoteBack([], ws[0], rest);
      assert [] + ws[0] == ws[0];
      assert rest[1..] == Line(ws[1..]);
      LineBack(ws[1..]);
    }
  }

  lemma {:induction false} NoneEmpty(ws: seq<string>)
    ensures |NotEmpty(ws)| <= |ws|
    ensures NotEmpty(ws) == ws <==> "" !in ws
  {
    if ws != [] {
      NoneEmpty(ws[1..]);
      assert [ws[0]] + ws[1..] == ws;
      assert NotEmpty(ws) == ws && ws[0] != [] ==> NotEmpty(ws)[1..] == ws[1..];
    }
  }

  /** The cutting undoes the quoting exactly when no word is empty. */
  lemma {:induction false} QuotingRoundTrip(ws: seq<string>)
    ensures Words([], Line(ws)) == ws <==> "" !in ws
  {
    LineBack(ws);
    NoneEmpty(ws);
  }

  /** No word that is cut is empty. */
  lemma {:induction false} NeverEmpty(a: string, s: string)
    ensures "" !in Words(a, s)
    decreases |s|
  {
    if s == [] {
    } else if IsSpace(s[0]) {
      NeverEmpty([], s[1..]);
    } else if IsQuote(s[0]) {
      var q := Quoted(s[0], s[1..]);
      NeverEmpty(a + q.0, q.1);
    } else {
      NeverEmpty(a + [s[0]], s[1..]);
    }
  }

  predicate Nowhere(c: char, ws: seq<string>) {
    forall i :: 0 <= i < |ws| ==> c !in ws[i]
  }

  lemma {:induction false} QuotedFrom(c: char, quote: char, s: string)
    requires c !in s
    ensures c !in Quoted(quote, s).0 && c !in Quoted(quote, s).1
  {
    if s != [] && s[0] != quote {
      QuotedFrom(c, quote, s[1..]);
    }
  }

  /** The characters of the words are characters of the text. */
  lemma {:induction false} WordsFrom(c: char, a: string, s: string)
    requires c !in a && c !in s
    ensures Nowhere(c, Words(a, s))
    decreases |s|
  {
    if s == [] {
    } else if IsSpace(s[0]) {
      WordsFrom(c, [], s[1..]);
    } else if IsQuote(s[0]) {
      var q := Quoted(s[0], s[1..]);
      QuotedFrom(c, s[0], s[1..]);
      WordsFrom(c, a + q.0, q.1);
    } else {
      WordsFrom(c, a + [s[0]], s[1..]);
    }
  }

  lemma {:induction false} QuoteFrom(c: char, w: string)
    requires c !in w && !IsQuote(c)
    ensures c !in Quote(w)
  {
    if w != [] {
      QuoteFrom(c, w[1..]);
    }
  }

  lemma {:induction false} LineFrom(c: char, ws: seq<string>)
    requires Nowhere(c, ws) && !IsQuote(c) && c != ' '
    ensures c !in Line(ws)
  {
    if ws != [] {
      QuoteFrom(c, ws[0]);
      LineFrom(c, ws[1..]);
    }
  }

  /** Some value of the environment variable, which ends at its first NUL, gives these words exactly
      when none of them is empty or holds a NUL. */
  lemma {:induction false} WhatCanBeGiven(ws: seq<string>)
    ensures (exists s :: '\0' !in s && Words([], s) == ws) <==> "" !in ws && Nowhere('\0', ws)
  {
    QuotingRoundTrip(ws);
    if "" !in ws && Nowhere('\0', ws) {
      LineFrom('\0', ws);
      assert '\0' !in Line(ws) && Words([], Line(ws)) == ws;
    }
    if s :| '\0' !in s && Words([], s) == ws {
      NeverEmpty([], s);
      WordsFrom('\0', [], s);
    }
  }
}
