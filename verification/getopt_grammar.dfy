/** The command lines that are accepted, and what they mean, without the parser. */
module GetoptGrammar {
  import opened OrderedMaps
  import opened Getopt

  /** A letter of a word, with the words it takes as values. */
  datatype LetterUse = LetterUse(letter: char, values: seq<string>)

  /** A part of a command line. */
  datatype Piece =
    | Long(name: string, values: seq<string>)  // --name, and its values
    | Short(uses: seq<LetterUse>)              // -abc, then the values of a, those of b and those of c
    | Alone(word: string)                      // a word that is no option and no value
    | Dashes(values: seq<string>)              // -- and everything after it

  predicate LooksLikeOption(w: string) {
    |w| >= 2 && w[0] == '-'
  }

  function LettersOf(uses: seq<LetterUse>): string {
    if uses == [] then [] else [uses[0].letter] + LettersOf(uses[1..])
  }

  function ValuesOfUses(uses: seq<LetterUse>): seq<string> {
    if uses == [] then [] else uses[0].values + ValuesOfUses(uses[1..])
  }

  function WordsOf(p: Piece): seq<string> {
    match p
    case Long(name, values) => ["--" + name] + values
    case Short(uses) => ["-" + LettersOf(uses)] + ValuesOfUses(uses)
    case Alone(word) => [word]
    case Dashes(values) => ["--"] + values
  }

  function Sentence(ps: seq<Piece>): seq<string> {
    if ps == [] then [] else WordsOf(ps[0]) + Sentence(ps[1..])
  }

  // ------------------------------------------------------------------
  //  What is accepted
  // ------------------------------------------------------------------

  /** No value can follow. */
  predicate Stop(rest: seq<string>) {
    rest == [] || LooksLikeOption(rest[0])
  }

  /** The option takes exactly these words, when `rest` follows. */
  predicate Takes(opt: Opt, values: seq<string>, rest: seq<string>) {
    && (forall i :: 0 <= i < |values| ==> !LooksLikeOption(values[i]))
    && match opt.mode
       case NoArgument => |values| == 0
       case Required => |values| == 1
       case Optional | Default => |values| == 1 || (|values| == 0 && Stop(rest))
       case RequiredMultiple => |values| >= 1 && Stop(rest)
       case OptionalMultiple | DefaultMultiple => Stop(rest)
       case Help => false
  }

  predicate LegalUses(t: Table, environment: bool, uses: seq<LetterUse>, rest: seq<string>) {
    uses == [] ||
    (&& uses[0].letter in t.letters
     && (environment ==> t.letters[uses[0].letter].inEnvironment)
     && Takes(t.letters[uses[0].letter], uses[0].values, ValuesOfUses(uses[1..]) + rest)
     && LegalUses(t, environment, uses[1..], rest))
  }

  predicate HasDefault(t: Table, environment: bool) {
    t.standalone != [] && (environment ==> t.standalone[0].inEnvironment)
  }

  predicate LegalPiece(t: Table, environment: bool, p: Piece, rest: seq<string>) {
    match p
    case Long(name, values) =>
      name != [] && name in t.names && (environment ==> t.names[name].inEnvironment) && Takes(t.names[name], values, rest)
    case Short(uses) => uses != [] && uses[0].letter != '-' && LegalUses(t, environment, uses, rest)
    case Alone(word) => !LooksLikeOption(word) && HasDefault(t, environment)
    case Dashes(values) => rest == [] && HasDefault(t, environment)
  }

  predicate Legal(t: Table, environment: bool, ps: seq<Piece>) {
    ps == [] || (LegalPiece(t, environment, ps[0], Sentence(ps[1..])) && Legal(t, environment, ps[1..]))
  }

  // ------------------------------------------------------------------
  //  What it means
  // ------------------------------------------------------------------

  /** Every value is one of the option; without any there is its default value. */
  function Given(opt: Opt, values: seq<string>): seq<Token> {
    if values == [] then [Implied(opt)] else Each(opt, values)
  }

  function Each(opt: Opt, values: seq<string>): (r: seq<Token>)
    ensures |r| == |values| && forall i :: 0 <= i < |values| ==> r[i] == Value(opt, values[i])
  {
    if values == [] then [] else [Value(opt, values[0])] + Each(opt, values[1..])
  }

  function UsesMean(t: Table, uses: seq<LetterUse>): seq<Token> {
    if uses == [] then []
    else (if uses[0].letter in t.letters then Given(t.letters[uses[0].letter], uses[0].values) else []) + UsesMean(t, uses[1..])
  }

  function PieceMeans(t: Table, p: Piece): seq<Token> {
    match p
    case Long(name, values) => [OptionWord("--" + name)] + if name in t.names then Given(t.names[name], values) else []
    case Short(uses) => [OptionWord("-" + LettersOf(uses))] + UsesMean(t, uses)
    case Alone(word) => if t.standalone == [] then [] else [Value(t.standalone[0], word)]
    case Dashes(values) => [OptionWord("--")] + if t.standalone == [] then [] else Each(t.standalone[0], values)
  }

  function Means(t: Table, ps: seq<Piece>): seq<Token> {
    if ps == [] then [] else PieceMeans(t, ps[0]) + Means(t, ps[1..])
  }

  // ------------------------------------------------------------------
  //  The parser accepts these, and understands them so
  // ------------------------------------------------------------------

  lemma {:induction false} EachIsValues(opt: Opt, values: seq<string>)
    ensures Values(opt, values) == Each(opt, values)
  {
    if values != [] {
      EachIsValues(opt, values[1..]);
    }
  }

  lemma {:induction false} PlainMeans(values: seq<string>, rest: seq<string>)
    requires forall i :: 0 <= i < |values| ==> !LooksLikeOption(values[i])
    ensures Plain(values + rest) == |values| + Plain(rest)
    ensures Plain(rest) == 0 <==> Stop(rest)
  {
    if values == [] {
      assert values + rest == rest;
    } else {
      assert (values + rest)[1..] == values[1..] + rest;
      PlainMeans(values[1..], rest);
    }
  }

  lemma {:induction false} UseIs(opt: Opt, values: seq<string>, rest: seq<string>)
    requires Takes(opt, values, rest)
    ensures Use(opt, values + rest) == Used(Given(opt, values), |values|, Finished)
  {
    PlainMeans(values, rest);
    EachIsValues(opt, values);
    var all := values + rest;
    assert all[..|values|] == values;
    if |values| == 1 {
      assert all[..1] == values;
    }
    if Stop(rest) {
      assert all[..Plain(all)] == values;
    }
  }

  lemma {:induction false} UsesAre(t: Table, environment: bool, uses: seq<LetterUse>, rest: seq<string>)
    requires LegalUses(t, environment, uses, rest)
    ensures Cluster(t, environment, LettersOf(uses), ValuesOfUses(uses) + rest)
      == Used(UsesMean(t, uses), |ValuesOfUses(uses)|, Finished)
    decreases |uses|
  {
    hide Use, Takes;
    if uses != [] {
      var letters := LettersOf(uses);
      var after := ValuesOfUses(uses[1..]) + rest;
      var all := uses[0].values + after;
      assert ValuesOfUses(uses) + rest == all;
      assert letters[0] == uses[0].letter && letters[1..] == LettersOf(uses[1..]);
      UseIs(t.letters[uses[0].letter], uses[0].values, after);
      assert all[|uses[0].values|..] == after;
      UsesAre(t, environment, uses[1..], rest);
    }
  }

  lemma {:induction false} PieceIs(t: Table, environment: bool, p: Piece, rest: seq<string>)
    requires LegalPiece(t, environment, p, rest)
    ensures WordsOf(p) != []
    ensures Word(t, environment, WordsOf(p)[0], WordsOf(p)[1..] + rest) == Used(PieceMeans(t, p), |WordsOf(p)| - 1, Finished)
  {
    hide Use, Takes, Cluster;
    var w, more := WordsOf(p)[0], WordsOf(p)[1..];
    match p {
      case Long(name, values) =>
        assert w == "--" + name && w[2..] == name && w[1] == '-' && more == values;
        UseIs(t.names[name], values, rest);
      case Short(uses) =>
        assert w == "-" + LettersOf(uses) && w[1..] == LettersOf(uses) && w[1] == uses[0].letter && more == ValuesOfUses(uses);
        UsesAre(t, environment, uses, rest);
      case Alone(word) =>
        assert more + rest == rest;
      case Dashes(values) =>
        assert w == "--" && w[1] == '-' && more == values && values + rest == values;
        EachIsValues(t.standalone[0], values);
    }
  }

  /** A legal command line is parsed to the end, and means what its parts mean. */
  lemma {:induction false} LegalIsParsed(t: Table, environment: bool, ps: seq<Piece>)
    requires Legal(t, environment, ps)
    ensures Parse(t, environment, Sentence(ps)) == Used(Means(t, ps), |Sentence(ps)|, Finished)
    decreases |ps|
  {
    hide Word, PieceMeans, LegalPiece, WordsOf;
    if ps != [] {
      var ws, rest := WordsOf(ps[0]), Sentence(ps[1..]);
      PieceIs(t, environment, ps[0], rest);
      var all := ws + rest;
      assert all[0] == ws[0] && all[1..] == ws[1..] + rest && all[|ws|..] == rest;
      LegalIsParsed(t, environment, ps[1..]);
    }
  }

  // ------------------------------------------------------------------
  //  And nothing else
  // ------------------------------------------------------------------

  lemma {:induction false} UseTakes(opt: Opt, rest: seq<string>)
    requires Use(opt, rest).ending == Finished
    ensures var n := Use(opt, rest).count; Takes(opt, rest[..n], rest[n..])
  {
    PlainMeans([], rest);
    var n := Plain(rest);
    assert n < |rest| ==> rest[n..][0] == rest[n];
  }

  lemma {:induction false} CutTwice(rest: seq<string>, n: nat, m: nat)
    requires n + m <= |rest|
    ensures rest[..n] + rest[n..][..m] == rest[..n + m] && rest[n..][m..] == rest[n + m..]
    ensures rest[n..][..m] + rest[n + m..] == rest[n..]
  {
  }

  lemma {:induction false} UsesFrom(t: Table, environment: bool, letters: string, rest: seq<string>) returns (uses: seq<LetterUse>)
    requires Cluster(t, environment, letters, rest).ending == Finished
    ensures var n := Cluster(t, environment, letters, rest).count;
      LettersOf(uses) == letters && ValuesOfUses(uses) == rest[..n] && LegalUses(t, environment, uses, rest[n..])
    decreases |letters|
  {
    hide Use, Takes;
    if letters == [] {
      uses := [];
    } else {
      var opt := t.letters[letters[0]];
      var n := Use(opt, rest).count;
      UseTakes(opt, rest);
      var more := UsesFrom(t, environment, letters[1..], rest[n..]);
      var m := Cluster(t, environment, letters[1..], rest[n..]).count;
      uses := [LetterUse(letters[0], rest[..n])] + more;
      assert uses[1..] == more;
      CutTwice(rest, n, m);
    }
  }

  lemma {:induction false} PieceFrom(t: Table, environment: bool, w: string, rest: seq<string>) returns (p: Piece)
    requires Word(t, environment, w, rest).ending == Finished
    ensures var n := Word(t, environment, w, rest).count;
      WordsOf(p) == [w] + rest[..n] && LegalPiece(t, environment, p, rest[n..])
  {
    hide Use, Cluster, Takes;
    var n := Word(t, environment, w, rest).count;
    if !IsArg(w) {
      p := Alone(w);
    } else if w[1] != '-' {
      var uses := UsesFrom(t, environment, w[1..], rest);
      p := Short(uses);
      assert w == "-" + w[1..];
      assert LettersOf(uses)[0] == uses[0].letter;
    } else if |w| == 2 {
      p := Dashes(rest);
      assert w == "--" && rest[..n] == rest;
    } else {
      UseTakes(t.names[w[2..]], rest);
      p := Long(w[2..], rest[..n]);
      assert w == "--" + w[2..];
    }
  }

  /** A command line that is parsed to the end is legal. */
  lemma {:induction false} ParsedIsLegal(t: Table, environment: bool, words: seq<string>) returns (ps: seq<Piece>)
    requires Parse(t, environment, words).ending == Finished
    ensures Legal(t, environment, ps) && Sentence(ps) == words
    decreases |words|
  {
    hide Word, LegalPiece, WordsOf;
    if words == [] {
      ps := [];
    } else {
      var n := Word(t, environment, words[0], words[1..]).count;
      var p := PieceFrom(t, environment, words[0], words[1..]);
      var more := ParsedIsLegal(t, environment, words[1 + n..]);
      ps := [p] + more;
      assert ps[1..] == more;
      assert words[1..][n..] == words[1 + n..];
      assert [words[0]] + words[1..][..n] + words[1 + n..] == words;
    }
  }

  /** The command lines that are accepted are the legal ones, and there is one way to read each. */
  lemma {:induction false} AcceptedIffLegal(t: Table, environment: bool, words: seq<string>)
    ensures Parse(t, environment, words).ending == Finished <==> exists ps :: Legal(t, environment, ps) && Sentence(ps) == words
    ensures forall ps :: Legal(t, environment, ps) && Sentence(ps) == words ==> Parse(t, environment, words).tokens == Means(t, ps)
  {
    hide Parse, Legal, Sentence, Means;
    forall ps | Legal(t, environment, ps) && Sentence(ps) == words
      ensures Parse(t, environment, words) == Used(Means(t, ps), |words|, Finished)
    {
      LegalIsParsed(t, environment, ps);
    }
    if Parse(t, environment, words).ending == Finished {
      var ps := ParsedIsLegal(t, environment, words);
    }
  }

  /** Values given to an alias are values of the option it stands for. */
  lemma {:induction false} AliasIsTheSame(t: Table, name: string, other: string, v: string, w: string)
    requires name != [] && other != [] && name in t.names && other in t.names
    requires var a, o := t.names[name], t.names[other];
      && a.alias && a.help == other && !o.alias && o.name.Some? && o.name.value == other
      && a.mode == o.mode == RequiredMultiple
    requires !LooksLikeOption(v) && !LooksLikeOption(w)
    ensures var u := Parse(t, false, ["--" + name, v, "--" + other, w]);
      u.ending == Finished && other in Keep(map[], u.tokens) && Keep(map[], u.tokens)[other] == [v, w]
  {
    var a, o := t.names[name], t.names[other];
    var ps := [Long(name, [v]), Long(other, [w])];
    assert ps[1..] == [Long(other, [w])] && ps[1..][1..] == [];
    assert Sentence(ps[1..][1..]) == [] && Means(t, ps[1..][1..]) == [];
    assert WordsOf(ps[0]) == ["--" + name, v] && WordsOf(ps[1]) == ["--" + other, w];
    assert Sentence(ps[1..]) == ["--" + other, w] && Sentence(ps) == ["--" + name, v, "--" + other, w];
    assert LooksLikeOption("--" + other);
    assert Legal(t, false, ps[1..][1..]) && Legal(t, false, ps[1..]);
    LegalIsParsed(t, false, ps);
    assert [v][1..] == [] && [w][1..] == [];
    var x := [OptionWord("--" + name), Value(a, v), OptionWord("--" + other), Value(o, w)];
    assert Means(t, ps) == x;
    TwoValuesKept(a, o, "--" + name, "--" + other, v, w);
  }

  lemma {:induction false} TwoValuesKept(a: Opt, o: Opt, n: string, m: string, v: string, w: string)
    requires a.alias && !o.alias && o.name == Some(a.help) && a.mode == o.mode == RequiredMultiple
    ensures var kept := Keep(map[], [OptionWord(n), Value(a, v), OptionWord(m), Value(o, w)]);
      a.help in kept && kept[a.help] == [v, w]
  {
    hide Keep;
    KeepNothing(map[]);
    KeepToken(map[], [], a, n);
    KeepToken(map[], [OptionWord(n)], a, v);
    KeepToken(map[], [OptionWord(n), Value(a, v)], a, m);
    KeepToken(map[], [OptionWord(n), Value(a, v), OptionWord(m)], o, w);
    assert [] + [OptionWord(n)] == [OptionWord(n)];
    assert [OptionWord(n)] + [Value(a, v)] == [OptionWord(n), Value(a, v)];
    assert [OptionWord(n), Value(a, v)] + [OptionWord(m)] == [OptionWord(n), Value(a, v), OptionWord(m)];
    assert [OptionWord(n), Value(a, v), OptionWord(m)] + [Value(o, w)] == [OptionWord(n), Value(a, v), OptionWord(m), Value(o, w)];
  }

  /** A flag and a word: the word is for the default option. */
  lemma {:induction false} FlagTakesNoWord(t: Table, name: string, word: string)
    requires name != [] && name in t.names && t.names[name].mode == NoArgument && HasDefault(t, false) && !LooksLikeOption(word)
    ensures Parse(t, false, ["--" + name, word]).tokens
      == [OptionWord("--" + name), Implied(t.names[name]), Value(t.standalone[0], word)]
  {
    var ps := [Long(name, []), Alone(word)];
    assert ps[1..] == [Alone(word)] && ps[1..][1..] == [];
    assert Sentence(ps[1..][1..]) == [] && Means(t, ps[1..][1..]) == [];
    assert Sentence(ps[1..]) == [word] && Sentence(ps) == ["--" + name, word];
    assert Legal(t, false, ps[1..]);
    LegalIsParsed(t, false, ps);
  }
}
