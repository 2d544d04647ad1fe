/** Every text of a value is read as that value, whatever stands between its tokens and however they are written. */
module JsonSyntax {
  import opened Text
  import opened LexerSpec
  import opened JsonText
  import opened JsonValues
  import opened JsonSpelling

  /** A value as it is written. The sign of a number is 0 (none), 43 or 45. */
  datatype Syntax =
    | Constant(word: Spelled)
    | Numeral(sign: int, n: nat)
    | Chars(quote: int, forms: seq<CharForm>)
    | Brackets(items: seq<Syntax>)
    | Braces(pairs: seq<Pair>)

  datatype Pair = Pair(quote: int, forms: seq<CharForm>, value: Syntax)

  predicate LegalSyntax(x: Syntax)
    decreases x, 1
  {
    match x
    case Constant(word) => word.NullWord? || word.TrueWord? || word.FalseWord?
    case Numeral(sign, n) => (sign == 0 || sign == 43 || sign == 45) && (n < 0x8000_0000_0000_0000 || (sign == 45 && n == 0x8000_0000_0000_0000))
    case Chars(quote, forms) => LegalToken(Quotes(quote, forms))
    case Brackets(items) => forall i :: 0 <= i < |items| ==> LegalSyntax(items[i])
    case Braces(pairs) => forall i :: 0 <= i < |pairs| ==> LegalPair(pairs[i])
  }

  predicate LegalPair(p: Pair)
    decreases p, 2
  {
    LegalToken(Quotes(p.quote, p.forms)) && LegalSyntax(p.value)
  }

  /** Its tokens. */
  function Tokens(x: Syntax): (r: seq<Spelled>)
    ensures r != []
    decreases x, 1
  {
    match x
    case Constant(word) => [word]
    case Numeral(sign, n) => if sign == 0 then [Digits(n)] else [Sign(sign), Digits(n)]
    case Chars(quote, forms) => [Quotes(quote, forms)]
    case Brackets(items) => [Mark(91)] + (ItemTokens(items) + [Mark(93)])
    case Braces(pairs) => [Mark(123)] + (PairTokens(pairs) + [Mark(125)])
  }

  function ItemTokens(items: seq<Syntax>): seq<Spelled>
    decreases items, 0
  {
    if items == [] then []
    else Tokens(items[0]) + if |items| == 1 then [] else [Mark(44)] + ItemTokens(items[1..])
  }

  function PairTokens(pairs: seq<Pair>): seq<Spelled>
    decreases pairs, 0
  {
    if pairs == [] then []
    else
      [Quotes(pairs[0].quote, pairs[0].forms), Mark(58)] + Tokens(pairs[0].value)
      + if |pairs| == 1 then [] else [Mark(44)] + PairTokens(pairs[1..])
  }

  // ------------------------------------------------------------------
  //  What it means
  // ------------------------------------------------------------------

  function ValueOf(x: Syntax): Value
    decreases x, 1
  {
    match x
    case Constant(word) => if word.TrueWord? then VBool(true) else if word.FalseWord? then VBool(false) else VNull
    case Numeral(sign, n) => VInt(if sign == 45 then 0 - n else n)
    case Chars(_, forms) => VStr(Meaning(forms))
    case Brackets(items) => VArr(ItemValues(items))
    case Braces(pairs) => VObj(PairValues([], pairs))
  }

  function ItemValues(items: seq<Syntax>): seq<Value>
    decreases items, 0
  {
    if items == [] then [] else [ValueOf(items[0])] + ItemValues(items[1..])
  }

  /** The members, added one after the other to those in `ms`. */
  function PairValues(ms: seq<Member>, pairs: seq<Pair>): seq<Member>
    decreases pairs, 0
  {
    if pairs == [] then ms else PairValues(AddPair(ms, pairs[0]), pairs[1..])
  }

  function AddPair(ms: seq<Member>, p: Pair): seq<Member>
    decreases p, 2
  {
    var name := Meaning(p.forms);
    if HasName(ms, name) then ms else Insert(ms, Member(name, ValueOf(p.value)))
  }

  // ------------------------------------------------------------------
  //  Its texts
  // ------------------------------------------------------------------

  /** The tokens with something before each, and `rest`. */
  function Spaced(ps: seq<Spelled>, gaps: seq<seq<Gap>>, rest: Text): Text
    requires |gaps| == |ps|
  {
    if ps == [] then rest else GapsText(gaps[0]) + TokenText(ps[0], Spaced(ps[1..], gaps[1..], rest))
  }

  predicate AllGaps(gaps: seq<seq<Gap>>) {
    forall i :: 0 <= i < |gaps| ==> LegalGaps(gaps[i])
  }

  lemma {:induction false} SpacedSplit(a: seq<Spelled>, b: seq<Spelled>, gaps: seq<seq<Gap>>, rest: Text)
    requires |gaps| == |a| + |b|
    ensures Spaced(a + b, gaps, rest) == Spaced(a, gaps[..|a|], Spaced(b, gaps[|a|..], rest))
  {
    if a == [] {
      assert a + b == b && gaps[0..] == gaps;
    } else {
      assert (a + b)[1..] == a[1..] + b && gaps[..|a|][1..] == gaps[1..][..|a| - 1] && gaps[|a|..] == gaps[1..][|a| - 1..];
      SpacedSplit(a[1..], b, gaps[1..], rest);
    }
  }

  /** One token, whatever is before it. */
  lemma {:induction false} LexSpaced(letters: Letters, ps: seq<Spelled>, gaps: seq<seq<Gap>>, rest: Text)
    requires ps != [] && |gaps| == |ps| && AllGaps(gaps) && LegalToken(ps[0])
    requires MayFollow(letters, ps[0], Spaced(ps[1..], gaps[1..], rest))
    ensures Lex(letters, Spaced(ps, gaps, rest)) == (TokenOf(ps[0]), Spaced(ps[1..], gaps[1..], rest))
  {
    hide Lex, TokenText, LegalToken, MayFollow;
    var t := Spaced(ps[1..], gaps[1..], rest);
    GapsAreSkipped(letters, gaps[0], TokenText(ps[0], t));
    LexToken(letters, ps[0], t);
  }

  /** What a gap or a token begins with is no letter, digit, point or backslash, unless the token is a number or a word. */
  predicate Separates(c: int) {
    IsBlank(c) || c in {47, 91, 93, 123, 125, 44, 58, 34, 39, 43, 45}
  }

  lemma {:induction false} SeparatesIsDelim(letters: Letters, s: Text)
    requires s != [] && Separates(s[0])
    ensures Delim(letters, s)
  {
  }

  lemma {:induction false} GapsBegin(gs: seq<Gap>)
    requires LegalGaps(gs) && gs != []
    ensures GapsText(gs) != [] && (IsBlank(GapsText(gs)[0]) || GapsText(gs)[0] == 47)
  {
    assert LegalGap(gs[0]);
    assert GapsText(gs)[0] == GapText(gs[0])[0];
  }

  /** How a text that begins with a mark or a quote begins. */
  lemma {:induction false} MarkBegins(letters: Letters, ps: seq<Spelled>, gaps: seq<seq<Gap>>, rest: Text)
    requires ps != [] && |gaps| == |ps| && AllGaps(gaps) && LegalToken(ps[0]) && (ps[0].Mark? || ps[0].Quotes?)
    ensures Delim(letters, Spaced(ps, gaps, rest))
  {
    var s := Spaced(ps, gaps, rest);
    if gaps[0] != [] {
      GapsBegin(gaps[0]);
      assert s[0] == GapsText(gaps[0])[0];
    } else {
      assert s == TokenText(ps[0], Spaced(ps[1..], gaps[1..], rest));
    }
    SeparatesIsDelim(letters, s);
  }

  /** The first token of a value may follow a colon; that of a number, its sign. */
  lemma {:induction false} ValueMayFollow(letters: Letters, ps: seq<Spelled>, gaps: seq<seq<Gap>>, rest: Text, c: int)
    requires ps != [] && |gaps| == |ps| && AllGaps(gaps) && LegalToken(ps[0])
    requires (c == 58 && ps[0] != Mark(58)) || ((c == 43 || c == 45) && ps[0].Digits?)
    ensures var s := Spaced(ps, gaps, rest); s != [] && 0 < s[0] < 0x110000 && s[0] != 61 && s[0] != c
  {
    var s := Spaced(ps, gaps, rest);
    if gaps[0] != [] {
      GapsBegin(gaps[0]);
      assert s[0] == GapsText(gaps[0])[0];
    } else {
      assert s == TokenText(ps[0], Spaced(ps[1..], gaps[1..], rest));
    }
  }

  // ------------------------------------------------------------------
  //  Reading them
  // ------------------------------------------------------------------

  lemma {:induction false} FirstToken(x: Syntax)
    requires LegalSyntax(x)
    ensures LegalToken(Tokens(x)[0]) && Tokens(x)[0] != Mark(58) && Tokens(x)[0] != Mark(93) && Tokens(x)[0] != Mark(125)
  {
  }

  lemma {:induction false} ReadNumeral(letters: Letters, x: Syntax, gaps: seq<seq<Gap>>, rest: Text)
    requires x.Numeral? && LegalSyntax(x) && |gaps| == |Tokens(x)| && AllGaps(gaps) && Delim(letters, rest)
    ensures Parse(letters, Spaced(Tokens(x), gaps, rest)) == Read(ValueOf(x), rest)
  {
    hide Lex, TokenText, Delim, AllGaps;
    var ps := Tokens(x);
    assert Spaced([], [], rest) == rest;
    if x.sign == 0 {
      assert ps[1..] == [] && gaps[1..] == [];
      LexSpaced(letters, ps, gaps, rest);
      ReadToken(letters, Spaced(ps, gaps, rest), Int(Wrap64(x.n)), rest);
    } else {
      var t := Spaced(ps[1..], gaps[1..], rest);
      assert ps[1..] == [Digits(x.n)] && ps[1..][1..] == [] && gaps[1..][1..] == [];
      GapsFrom(gaps, 1);
      ValueMayFollow(letters, ps[1..], gaps[1..], rest, x.sign);
      LexSpaced(letters, ps[1..], gaps[1..], rest);
      LexSpaced(letters, ps, gaps, rest);
      SignedIs(letters, Spaced(ps, gaps, rest), t, x.sign, x.n, rest);
    }
  }

  lemma {:induction false} GapsFrom(gaps: seq<seq<Gap>>, i: nat)
    requires AllGaps(gaps) && i <= |gaps|
    ensures AllGaps(gaps[i..]) && AllGaps(gaps[..i])
  {
  }

  lemma {:induction false} SignedIs(letters: Letters, s: Text, t: Text, sign: int, n: nat, rest: Text)
    requires (sign == 43 && n < 0x8000_0000_0000_0000) || (sign == 45 && n <= 0x8000_0000_0000_0000)
    requires Lex(letters, s) == (TokenOf(Sign(sign)), t) && Lex(letters, t) == (Int(Wrap64(n)), rest)
    ensures Parse(letters, s) == Read(VInt(if sign == 45 then 0 - n else n), rest)
  {
    hide Lex;
    if sign == 45 {
      ReadNegative(letters, s, t, Wrap64(n), rest);
      NegateTwice(0 - n);
    }
  }

  lemma {:induction false} ReadAtom(letters: Letters, x: Syntax, gaps: seq<seq<Gap>>, rest: Text)
    requires (x.Constant? || x.Chars?) && LegalSyntax(x) && |gaps| == |Tokens(x)| && AllGaps(gaps) && Delim(letters, rest)
    ensures Parse(letters, Spaced(Tokens(x), gaps, rest)) == Read(ValueOf(x), rest)
  {
    hide Lex, TokenText, Delim, AllGaps;
    var ps := Tokens(x);
    assert Spaced([], [], rest) == rest;
    assert ps[1..] == [] && gaps[1..] == [];
    LexSpaced(letters, ps, gaps, rest);
    ReadToken(letters, Spaced(ps, gaps, rest), TokenOf(ps[0]), rest);
  }

  /** The items up to the bracket. */
  lemma {:induction false} ReadItemsBack(letters: Letters, items: seq<Syntax>, gaps: seq<seq<Gap>>, acc: seq<Value>, rest: Text)
    requires items != [] && (forall i :: 0 <= i < |items| ==> LegalSyntax(items[i]))
    requires |gaps| == |ItemTokens(items)| + 1 && AllGaps(gaps) && Delim(letters, rest)
    ensures ItemsAt(letters, Spaced(ItemTokens(items) + [Mark(93)], gaps, rest), acc) == Read(VArr(acc + ItemValues(items)), rest)
    decreases items, 0
  {
    hide Lex, Parse, ItemsAt, LegalSyntax, Tokens, ValueOf, Delim, AllGaps, TokenText;
    var first, n := Tokens(items[0]), |Tokens(items[0])|;
    var more := if |items| == 1 then [Mark(93)] else [Mark(44)] + (ItemTokens(items[1..]) + [Mark(93)]);
    assert ItemTokens(items) + [Mark(93)] == first + more;
    SpacedSplit(first, more, gaps, rest);
    GapsFrom(gaps, n);
    var g := gaps[n..];
    var after := Spaced(more, g, rest);
    MarkBegins(letters, more, g, rest);
    ReadSyntax(letters, items[0], gaps[..n], after);
    var s := Spaced(first, gaps[..n], after);
    GapsFrom(g, 1);
    LexSpaced(letters, more, g, rest);
    var v := ValueOf(items[0]);
    if |items| == 1 {
      assert more[1..] == [] && g[1..] == [] && Spaced([], [], rest) == rest;
      LastItem(letters, s, acc, v, after, rest);
      assert ItemValues(items) == [v] by { assert items[1..] == []; }
    } else {
      assert more[1..] == ItemTokens(items[1..]) + [Mark(93)];
      var x := Spaced(more[1..], g[1..], rest);
      OneItem(letters, s, acc, v, after, x);
      ReadItemsBack(letters, items[1..], g[1..], acc + [v], rest);
      assert acc + [v] + ItemValues(items[1..]) == acc + ItemValues(items);
    }
  }

  lemma {:induction false} OneMorePair(letters: Letters, s: Text, acc: seq<Member>, name: Text, v: Value, after: Text, last: bool, x: Text)
    requires IsMember(letters, s, Member(name, v), after) && Lex(letters, after) == (if last then CloseCurly else Comma, x)
    ensures var ms := if HasName(acc, name) then acc else Insert(acc, Member(name, v));
      MembersAt(letters, s, acc) == if last then Read(VObj(ms), x) else MembersAt(letters, x, ms)
  {
    hide Lex, Insert, HasName;
  }

  function AfterPair(pairs: seq<Pair>): seq<Spelled>
    requires pairs != []
  {
    if |pairs| == 1 then [Mark(125)] else [Mark(44)] + (PairTokens(pairs[1..]) + [Mark(125)])
  }

  lemma {:induction false} PairsSplit(pairs: seq<Pair>)
    requires pairs != []
    ensures var p := pairs[0];
      PairTokens(pairs) + [Mark(125)] == [Quotes(p.quote, p.forms), Mark(58)] + (Tokens(p.value) + AfterPair(pairs))
    ensures var more := AfterPair(pairs);
      more != [] && LegalToken(more[0]) && more[0] == (if |pairs| == 1 then Mark(125) else Mark(44))
      && more[1..] == if |pairs| == 1 then [] else PairTokens(pairs[1..]) + [Mark(125)]
    ensures |pairs| == 1 ==> forall acc :: PairValues(acc, pairs) == AddPair(acc, pairs[0])
  {
    hide Tokens;
  }

  /** The members up to the brace. */
  lemma {:induction false} ReadPairsBack(letters: Letters, pairs: seq<Pair>, gaps: seq<seq<Gap>>, acc: seq<Member>, rest: Text)
    requires pairs != [] && (forall i :: 0 <= i < |pairs| ==> LegalPair(pairs[i]))
    requires |gaps| == |PairTokens(pairs)| + 1 && AllGaps(gaps) && Delim(letters, rest)
    ensures MembersAt(letters, Spaced(PairTokens(pairs) + [Mark(125)], gaps, rest), acc) == Read(VObj(PairValues(acc, pairs)), rest)
    decreases pairs, 0
  {
    hide Lex, Parse, MembersAt, LegalSyntax, Tokens, ValueOf, Delim, AllGaps, TokenText, Insert, HasName, Meaning, IsMember, AfterPair, Spaced, PairTokens;
    var p := pairs[0];
    assert LegalPair(p);
    var value, n := Tokens(p.value), |Tokens(p.value)|;
    var head := [Quotes(p.quote, p.forms), Mark(58)];
    var more := AfterPair(pairs);
    PairsSplit(pairs);
    var g := gaps[2 + n..];
    var after := Spaced(more, g, rest);
    SpacedPair(letters, p, more, gaps, rest);
    GapsFrom(gaps, 2 + n);
    LexAfterPair(letters, pairs, g, rest);
    var s := Spaced(head + (value + more), gaps, rest);
    var x := Spaced(more[1..], g[1..], rest);
    OneMorePair(letters, s, acc, Meaning(p.forms), ValueOf(p.value), after, |pairs| == 1, x);
    if |pairs| > 1 {
      GapsFrom(g, 1);
      ReadPairsBack(letters, pairs[1..], g[1..], AddPair(acc, p), rest);
    }
  }

  lemma {:induction false} LexAfterPair(letters: Letters, pairs: seq<Pair>, g: seq<seq<Gap>>, rest: Text)
    requires pairs != [] && |g| == |AfterPair(pairs)| > 0 && AllGaps(g)
    ensures var x := Spaced(AfterPair(pairs)[1..], g[1..], rest);
      && Lex(letters, Spaced(AfterPair(pairs), g, rest)) == (if |pairs| == 1 then CloseCurly else Comma, x)
      && (|pairs| == 1 ==> x == rest)
  {
    hide Lex, TokenText, AllGaps, AfterPair;
    PairsSplit(pairs);
    LexSpaced(letters, AfterPair(pairs), g, rest);
  }

  /** The name, the colon and the value of one member. */
  lemma {:induction false} SpacedPair(letters: Letters, p: Pair, more: seq<Spelled>, gaps: seq<seq<Gap>>, rest: Text)
    requires LegalPair(p) && more != [] && LegalToken(more[0]) && more[0].Mark?
    requires |gaps| == 2 + |Tokens(p.value)| + |more| && AllGaps(gaps)
    ensures var head := [Quotes(p.quote, p.forms), Mark(58)];
      IsMember(letters, Spaced(head + (Tokens(p.value) + more), gaps, rest), Member(Meaning(p.forms), ValueOf(p.value)),
               Spaced(more, gaps[2 + |Tokens(p.value)|..], rest))
    decreases p, 2
  {
    hide Lex, Parse, LegalSyntax, Tokens, ValueOf, Delim, AllGaps, TokenText, Meaning;
    var value, n := Tokens(p.value), |Tokens(p.value)|;
    var all := [Quotes(p.quote, p.forms), Mark(58)] + (value + more);
    var after := Spaced(more, gaps[2 + n..], rest);
    GapsFrom(gaps, 1);
    GapsFrom(gaps, 2);
    GapsFrom(gaps[2..], n);
    assert gaps[1..][1..] == gaps[2..] && gaps[2..][n..] == gaps[2 + n..];
    assert all[1..] == [Mark(58)] + (value + more) && all[1..][1..] == value + more;
    var t := Spaced(all[1..], gaps[1..], rest);
    var u := Spaced(value + more, gaps[2..], rest);
    SpacedSplit(value, more, gaps[2..], rest);
    MarkBegins(letters, more, gaps[2 + n..], rest);
    ReadSyntax(letters, p.value, gaps[2..][..n], after);
    FirstToken(p.value);
    assert (value + more)[0] == value[0];
    ValueMayFollow(letters, value + more, gaps[2..], rest, 58);
    LexSpaced(letters, all[1..], gaps[1..], rest);
    LexSpaced(letters, all, gaps, rest);
    IsAMember(letters, Spaced(all, gaps, rest), t, u, Member(Meaning(p.forms), ValueOf(p.value)), after);
  }

  lemma {:induction false} ReadBrackets(letters: Letters, x: Syntax, gaps: seq<seq<Gap>>, rest: Text)
    requires x.Brackets? && LegalSyntax(x) && |gaps| == |Tokens(x)| && AllGaps(gaps) && Delim(letters, rest)
    ensures Parse(letters, Spaced(Tokens(x), gaps, rest)) == Read(ValueOf(x), rest)
    decreases x, 0
  {
    hide Lex, Parse, ItemsAt, Delim, AllGaps, TokenText;
    var ps, items := Tokens(x), x.items;
    var s, t := Spaced(ps, gaps, rest), Spaced(ps[1..], gaps[1..], rest);
    assert ps[1..] == ItemTokens(items) + [Mark(93)];
    GapsFrom(gaps, 1);
    LexSpaced(letters, ps, gaps, rest);
    OpenArray(letters, s, t);
    if items == [] {
      assert ps[1..] == [Mark(93)] && ps[1..][1..] == [] && gaps[1..][1..] == [] && Spaced([], [], rest) == rest;
      LexSpaced(letters, ps[1..], gaps[1..], rest);
    } else {
      ReadItemsBack(letters, items, gaps[1..], [], rest);
      assert [] + ItemValues(items) == ItemValues(items);
    }
  }

  lemma {:induction false} ReadBraces(letters: Letters, x: Syntax, gaps: seq<seq<Gap>>, rest: Text)
    requires x.Braces? && LegalSyntax(x) && |gaps| == |Tokens(x)| && AllGaps(gaps) && Delim(letters, rest)
    ensures Parse(letters, Spaced(Tokens(x), gaps, rest)) == Read(ValueOf(x), rest)
    decreases x, 0
  {
    hide Lex, Parse, MembersAt, Delim, AllGaps, TokenText;
    var ps, pairs := Tokens(x), x.pairs;
    var s, t := Spaced(ps, gaps, rest), Spaced(ps[1..], gaps[1..], rest);
    assert ps[1..] == PairTokens(pairs) + [Mark(125)];
    GapsFrom(gaps, 1);
    LexSpaced(letters, ps, gaps, rest);
    OpenObject(letters, s, t);
    if pairs == [] {
      assert ps[1..] == [Mark(125)] && ps[1..][1..] == [] && gaps[1..][1..] == [] && Spaced([], [], rest) == rest;
      LexSpaced(letters, ps[1..], gaps[1..], rest);
    } else {
      ReadPairsBack(letters, pairs, gaps[1..], [], rest);
    }
  }

  /** A value is read from any of its texts, and exactly what followed it is left. */
  lemma {:induction false} ReadSyntax(letters: Letters, x: Syntax, gaps: seq<seq<Gap>>, rest: Text)
    requires LegalSyntax(x) && |gaps| == |Tokens(x)| && AllGaps(gaps) && Delim(letters, rest)
    ensures Parse(letters, Spaced(Tokens(x), gaps, rest)) == Read(ValueOf(x), rest)
    decreases x, 1
  {
    hide Lex, Parse, Tokens, ValueOf, LegalSyntax, AllGaps, Delim;
    match x
    case Brackets(_) => ReadBrackets(letters, x, gaps, rest);
    case Braces(_) => ReadBraces(letters, x, gaps, rest);
    case Numeral(_, _) => ReadNumeral(letters, x, gaps, rest);
    case _ => ReadAtom(letters, x, gaps, rest);
  }

  // ------------------------------------------------------------------
  //  The members of an object
  // ------------------------------------------------------------------

  /** The member that pair `i` makes: no pair before it has its name. */
  ghost predicate Made(pairs: seq<Pair>, m: Member) {
    exists i :: 0 <= i < |pairs| && Meaning(pairs[i].forms) == m.name && ValueOf(pairs[i].value) == m.value
                && forall j :: 0 <= j < i ==> Meaning(pairs[j].forms) != m.name
  }

  lemma {:induction false} InsertMembers(ms: seq<Member>, m: Member, x: Member)
    ensures x in Insert(ms, m) <==> x in ms || x == m
  {
    if ms != [] && !Less(m.name, ms[0].name) {
      InsertMembers(ms[1..], m, x);
    }
  }

  lemma {:induction false} InsertSorted(ms: seq<Member>, m: Member)
    requires Sorted(ms) && !HasName(ms, m.name)
    ensures Sorted(Insert(ms, m))
  {
    if ms == [] {
    } else if Less(m.name, ms[0].name) {
      forall i | 0 < i < |ms| ensures Less(m.name, ms[i].name) {
        LessTransitive(m.name, ms[0].name, ms[i].name);
      }
    } else {
      var more := Insert(ms[1..], m);
      assert forall i :: 0 <= i < |ms[1..]| ==> ms[1..][i] == ms[i + 1];
      InsertSorted(ms[1..], m);
      LessTotal(ms[0].name, m.name);
      forall i | 0 <= i < |more| ensures Less(ms[0].name, more[i].name) {
        InsertMembers(ms[1..], m, more[i]);
        if more[i] in ms[1..] {
          var j :| 0 <= j < |ms[1..]| && ms[1..][j] == more[i];
          assert ms[j + 1] == more[i];
        }
      }
    }
  }

  lemma {:induction false} MadeMore(pairs: seq<Pair>, m: Member)
    requires pairs != []
    ensures Made(pairs, m) <==>
      if Meaning(pairs[0].forms) == m.name then ValueOf(pairs[0].value) == m.value else Made(pairs[1..], m)
  {
    hide Meaning, ValueOf;
    assert forall i :: 0 <= i < |pairs[1..]| ==> pairs[1..][i] == pairs[i + 1];
    if Meaning(pairs[0].forms) != m.name {
      if Made(pairs, m) {
        var i :| 0 <= i < |pairs| && Meaning(pairs[i].forms) == m.name && ValueOf(pairs[i].value) == m.value
                 && forall j :: 0 <= j < i ==> Meaning(pairs[j].forms) != m.name;
        assert pairs[1..][i - 1] == pairs[i];
      }
      if Made(pairs[1..], m) {
        var i :| 0 <= i < |pairs[1..]| && Meaning(pairs[1..][i].forms) == m.name && ValueOf(pairs[1..][i].value) == m.value
                 && forall j :: 0 <= j < i ==> Meaning(pairs[1..][j].forms) != m.name;
        assert pairs[i + 1] == pairs[1..][i];
        forall j | 0 <= j < i + 1 ensures Meaning(pairs[j].forms) != m.name {
          assert j > 0 ==> pairs[j] == pairs[1..][j - 1];
        }
      }
    }
  }

  lemma {:induction false} AddedTo(ms: seq<Member>, pairs: seq<Pair>, m: Member)
    requires Sorted(ms)
    ensures Sorted(PairValues(ms, pairs))
    ensures m in PairValues(ms, pairs) <==> m in ms || (!HasName(ms, m.name) && Made(pairs, m))
    decreases |pairs|
  {
    hide Made, Sorted, Insert, Meaning, ValueOf, Less;
    if pairs == [] {
      NothingMade(m);
    } else {
      MadeMore(pairs, m);
      var x := Member(Meaning(pairs[0].forms), ValueOf(pairs[0].value));
      if !HasName(ms, x.name) {
        InsertSorted(ms, x);
        InsertMembers(ms, x, m);
        NamesAfter(ms, x, m.name);
      }
      AddedTo(AddPair(ms, pairs[0]), pairs[1..], m);
    }
  }

  lemma {:induction false} NothingMade(m: Member)
    ensures !Made([], m)
  {
  }

  lemma {:induction false} NamesAfter(ms: seq<Member>, x: Member, name: Text)
    ensures HasName(Insert(ms, x), name) <==> HasName(ms, name) || name == x.name
  {
    hide Insert;
    var r := Insert(ms, x);
    if i :| 0 <= i < |r| && r[i].name == name {
      InsertMembers(ms, x, r[i]);
      if r[i] in ms {
        var j :| 0 <= j < |ms| && ms[j] == r[i];
      }
    }
    InsertMembers(ms, x, x);
    if i :| 0 <= i < |ms| && ms[i].name == name {
      InsertMembers(ms, x, ms[i]);
      var j :| 0 <= j < |r| && r[j] == ms[i];
    } else if name == x.name {
      var j :| 0 <= j < |r| && r[j] == x;
    }
  }

  /** An object holds its members in the order of their names; of those with one name the first is kept. */
  lemma {:induction false} ObjectMeans(pairs: seq<Pair>, m: Member)
    ensures Sorted(PairValues([], pairs))
    ensures m in PairValues([], pairs) <==> Made(pairs, m)
  {
    AddedTo([], pairs, m);
  }
}
