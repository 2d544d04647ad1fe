/** What the cutting of the environment variable in words means, character by character. */
module EnvironmentLaws {
  import opened EnvironmentWords

  /** What `isspace()` accepts. */
  predicate Blank(c: char) {
    c == ' ' || c == '\t' || c == '\n' || c as int == 11 || c as int == 12 || c == '\r'
  }

  /** Where a character stands. */
  datatype Place = Outside | Inside(quote: char)

  function Next(p: Place, c: char): Place {
    match p
    case Outside => if c == '"' || c == '\'' then Inside(c) else Outside
    case Inside(quote) => if c == quote then Outside else p
  }

  /** The place after `s`. */
  function After(p: Place, s: string): Place
    decreases |s|
  {
    if s == [] then p else After(Next(p, s[0]), s[1..])
  }

  /** The characters of `s` but for the blanks outside quotes and the quotes that quote. */
  function Kept(p: Place, s: string): string
    decreases |s|
  {
    if s == [] then []
    else if Next(p, s[0]) != p || (p.Outside? && Blank(s[0])) then Kept(Next(p, s[0]), s[1..])
    else [s[0]] + Kept(p, s[1..])
  }

  /** No blank of `s` is outside quotes. */
  predicate NoBreak(p: Place, s: string)
    decreases |s|
  {
    s == [] || (!(p.Outside? && Blank(s[0])) && NoBreak(Next(p, s[0]), s[1..]))
  }

  function Concat(ws: seq<string>): string {
    if ws == [] then [] else ws[0] + Concat(ws[1..])
  }

  lemma {:induction false} QuotedMeans(quote: char, s: string)
    ensures var (q, rest) := Quoted(quote, s);
      && Kept(Inside(quote), s) == q + Kept(Outside, rest)
      && (NoBreak(Inside(quote), s) <==> NoBreak(Outside, rest))
  {
    if s != [] && s[0] == quote {
      assert [] + Kept(Outside, s[1..]) == Kept(Outside, s[1..]);
    } else if s != [] {
      QuotedMeans(quote, s[1..]);
      var (q, rest) := Quoted(quote, s[1..]);
      Assoc([s[0]], q, Kept(Outside, rest));
    }
  }

  /** A quoted part that ends in `s` is the same in a longer line. */
  lemma {:induction false} QuotedEnds(quote: char, s: string, t: string)
    requires After(Inside(quote), s) == Outside
    ensures Quoted(quote, s + t) == (Quoted(quote, s).0, Quoted(quote, s).1 + t)
    ensures After(Outside, Quoted(quote, s).1) == Outside
  {
    assert s != [];
    assert (s + t)[1..] == s[1..] + t;
    if s[0] != quote {
      QuotedEnds(quote, s[1..], t);
    }
  }

  lemma {:induction false} ConcatSplit(a: seq<string>, b: seq<string>)
    ensures Concat(a + b) == Concat(a) + Concat(b)
  {
    if a == [] {
      assert a + b == b;
    } else {
      assert (a + b)[1..] == a[1..] + b;
      ConcatSplit(a[1..], b);
    }
  }

  lemma {:induction false} OneEnded(a: string)
    ensures Concat(Ended(a)) == a
  {
    assert a + [] == a;
  }

  /** The words, joined, are the characters of the line, in order, but for those. */
  lemma {:induction false} NothingElseIsLost(a: string, s: string)
    ensures Concat(Words(a, s)) == a + Kept(Outside, s)
    decreases |s|
  {
    if s == [] {
      OneEnded(a);
      assert a + [] == a;
    } else if IsSpace(s[0]) {
      OneEnded(a);
      ConcatSplit(Ended(a), Words([], s[1..]));
      NothingElseIsLost([], s[1..]);
      assert [] + Kept(Outside, s[1..]) == Kept(Outside, s[1..]);
    } else if IsQuote(s[0]) {
      var (q, rest) := Quoted(s[0], s[1..]);
      QuotedMeans(s[0], s[1..]);
      NothingElseIsLost(a + q, rest);
      Assoc(a, q, Kept(Outside, rest));
    } else {
      NothingElseIsLost(a + [s[0]], s[1..]);
      Assoc(a, [s[0]], Kept(Outside, s[1..]));
    }
  }

  /** A line is cut at each blank outside quotes. */
  lemma {:induction false} CutAtBlanks(a: string, s: string, c: char, t: string)
    requires After(Outside, s) == Outside && Blank(c)
    ensures Words(a, s + [c] + t) == Words(a, s) + Words([], t)
    decreases |s|
  {
    var u := [c] + t;
    assert s + [c] + t == s + u;
    if s == [] {
      assert s + u == u && u[1..] == t;
    } else {
      assert (s + u)[1..] == s[1..] + u;
      assert s[1..] + u == s[1..] + [c] + t;
      if IsSpace(s[0]) {
        CutAtBlanks([], s[1..], c, t);
        Assoc(Ended(a), Words([], s[1..]), Words([], t));
      } else if IsQuote(s[0]) {
        var (q, rest) := Quoted(s[0], s[1..]);
        QuotedEnds(s[0], s[1..], u);
        assert rest + u == rest + [c] + t;
        CutAtBlanks(a + q, rest, c, t);
      } else {
        CutAtBlanks(a + [s[0]], s[1..], c, t);
      }
    }
  }

  /** And nowhere else: what stands between two of them is one word, or none if nothing is left of it. */
  lemma {:induction false} OneWord(a: string, s: string)
    requires NoBreak(Outside, s)
    ensures Words(a, s) == Ended(a + Kept(Outside, s))
    decreases |s|
  {
    if s == [] {
      assert a + [] == a;
    } else if IsQuote(s[0]) {
      var (q, rest) := Quoted(s[0], s[1..]);
      QuotedMeans(s[0], s[1..]);
      OneWord(a + q, rest);
      Assoc(a, q, Kept(Outside, rest));
    } else {
      OneWord(a + [s[0]], s[1..]);
      Assoc(a, [s[0]], Kept(Outside, s[1..]));
    }
  }

  /** A word without blanks and quotes. */
  predicate Simple(w: string) {
    w != [] && forall i :: 0 <= i < |w| ==> !Blank(w[i]) && w[i] != '"' && w[i] != '\''
  }

  predicate AllBlank(s: string) {
    forall i :: 0 <= i < |s| ==> Blank(s[i])
  }

  /** Words with blanks between them, before and after. */
  function Spaced(ws: seq<string>, gaps: seq<string>): string
    requires |gaps| == |ws| + 1
  {
    if ws == [] then gaps[0] else gaps[0] + ws[0] + Spaced(ws[1..], gaps[1..])
  }

  lemma {:induction false} SimpleIsKept(w: string)
    requires forall i :: 0 <= i < |w| ==> !Blank(w[i]) && w[i] != '"' && w[i] != '\''
    ensures After(Outside, w) == Outside && NoBreak(Outside, w) && Kept(Outside, w) == w
  {
    if w != [] {
      SimpleIsKept(w[1..]);
    }
  }

  lemma {:induction false} GapIsNothing(gap: string, s: string)
    requires AllBlank(gap)
    ensures Words([], gap + s) == Words([], s)
  {
    if gap == [] {
      assert gap + s == s;
    } else {
      var t := gap[1..] + s;
      assert gap + s == [] + [gap[0]] + t;
      CutAtBlanks([], [], gap[0], t);
      GapIsNothing(gap[1..], s);
      assert [] + Words([], t) == Words([], t);
    }
  }

  /** Simple words are cut to exactly those words, however many blanks are between them. */
  lemma {:induction false} SpacedWordsComeBack(ws: seq<string>, gaps: seq<string>)
    requires |gaps| == |ws| + 1 && (forall i :: 0 <= i < |ws| ==> Simple(ws[i]))
    requires forall i :: 0 <= i < |gaps| ==> AllBlank(gaps[i]) && (0 < i < |ws| ==> gaps[i] != [])
    ensures Words([], Spaced(ws, gaps)) == ws
  {
    if ws == [] {
      assert gaps[0] + [] == gaps[0];
      GapIsNothing(gaps[0], []);
    } else {
      var w, more := ws[0], Spaced(ws[1..], gaps[1..]);
      Assoc(gaps[0], w, more);
      GapIsNothing(gaps[0], w + more);
      SpacedBegins(ws[1..], gaps[1..]);
      FirstWord(w, more);
      SpacedWordsComeBack(ws[1..], gaps[1..]);
      assert [w] + ws[1..] == ws;
    }
  }

  lemma {:induction false} FirstWord(w: string, more: string)
    requires Simple(w) && (more != [] ==> Blank(more[0]))
    ensures Words([], w + more) == [w] + Words([], more)
  {
    SimpleIsKept(w);
    OneWord([], w);
    assert [] + w == w;
    if more == [] {
      assert w + more == w;
    } else {
      assert w + more == w + [more[0]] + more[1..];
      CutAtBlanks([], w, more[0], more[1..]);
      assert more == [more[0]] + more[1..];
      GapIsNothing([more[0]], more[1..]);
    }
  }

  lemma {:induction false} SpacedBegins(ws: seq<string>, gaps: seq<string>)
    requires |gaps| == |ws| + 1 && AllBlank(gaps[0]) && (ws != [] ==> gaps[0] != [])
    ensures Spaced(ws, gaps) != [] ==> Blank(Spaced(ws, gaps)[0])
  {
  }
}
