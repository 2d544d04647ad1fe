/** What a command line leaves behind. */
module GetoptLaws {
  import opened OrderedMaps
  import opened Getopt

  // ------------------------------------------------------------------
  //  Every word is read once
  // ------------------------------------------------------------------

  /** The words the tokens were made of, in order. */
  function WordsOf(tokens: seq<Token>): seq<string> {
    if tokens == [] then []
    else
      (match tokens[0]
       case OptionWord(w) => [w]
       case Value(_, v) => [v]
       case Implied(_) => [])
      + WordsOf(tokens[1..])
  }

  lemma {:induction false} Nothing()
    ensures WordsOf([]) == []
  {
  }

  lemma {:induction false} WordsSplit(a: seq<Token>, b: seq<Token>)
    ensures WordsOf(a + b) == WordsOf(a) + WordsOf(b)
  {
    if a == [] {
      assert a + b == b;
    } else {
      assert (a + b)[1..] == a[1..] + b;
      WordsSplit(a[1..], b);
      var first := WordsOf([a[0]]);
      assert [a[0]][1..] == [];
      assert first + (WordsOf(a[1..]) + WordsOf(b)) == first + WordsOf(a[1..]) + WordsOf(b);
    }
  }

  lemma {:induction false} WordsOfValues(opt: Opt, words: seq<string>)
    ensures WordsOf(Values(opt, words)) == words
  {
    if words != [] {
      WordsOfValues(opt, words[1..]);
      assert Values(opt, words)[1..] == Values(opt, words[1..]);
      assert [words[0]] + words[1..] == words;
    }
  }

  lemma {:induction false} WordsOfUse(opt: Opt, rest: seq<string>)
    ensures WordsOf(Use(opt, rest).tokens) == rest[..Use(opt, rest).count]
  {
    var n := Plain(rest);
    WordsOfValues(opt, rest[..n]);
    if n > 0 {
      WordsOfValues(opt, rest[..1]);
    }
    assert [Implied(opt)][1..] == [];
  }

  lemma {:induction false} WordsOfCluster(t: Table, environment: bool, letters: string, rest: seq<string>)
    ensures var u := Cluster(t, environment, letters, rest); WordsOf(u.tokens) == rest[..u.count]
  {
    hide Use;
    if letters != [] && letters[0] in t.letters && Allowed(t.letters[letters[0]], environment) {
      var u := Use(t.letters[letters[0]], rest);
      WordsOfUse(t.letters[letters[0]], rest);
      WordsOfCluster(t, environment, letters[1..], rest[u.count..]);
      var v := Cluster(t, environment, letters[1..], rest[u.count..]);
      WordsSplit(u.tokens, v.tokens);
      assert rest[..u.count] + rest[u.count..][..v.count] == rest[..u.count + v.count];
    }
  }

  lemma {:induction false} WordsOfWord(t: Table, environment: bool, w: string, rest: seq<string>)
    ensures var u := Word(t, environment, w, rest);
      u.ending == Finished ==> WordsOf(u.tokens) == [w] + rest[..u.count]
  {
    hide Use, Cluster;
    var none: seq<Token> := [];
    if t.standalone != [] {
      assert WordsOf([Value(t.standalone[0], w)]) == [w] + [] by { assert [Value(t.standalone[0], w)][1..] == none; }
      WordsOfValues(t.standalone[0], rest);
      WordsSplit([OptionWord(w)], Values(t.standalone[0], rest));
      assert rest[..|rest|] == rest;
    }
    assert WordsOf([OptionWord(w)]) == [w] by { assert [OptionWord(w)][1..] == none; }
    if IsArg(w) {
      WordsOfCluster(t, environment, w[1..], rest);
      WordsSplit([OptionWord(w)], Cluster(t, environment, w[1..], rest).tokens);
      if w[2..] in t.names {
        WordsOfUse(t.names[w[2..]], rest);
        WordsSplit([OptionWord(w)], Use(t.names[w[2..]], rest).tokens);
      }
    }
  }

  lemma {:induction false} Rejoin(words: seq<string>, n: nat)
    requires n < |words|
    ensures [words[0]] + words[1..][..n] + words[1 + n..] == words
  {
  }

  /** A parsing that comes to the end read each word exactly once, in order, as the word of an
      option or as a value. */
  lemma {:induction false} EveryWordOnce(t: Table, environment: bool, words: seq<string>)
    ensures var u := Parse(t, environment, words);
      u.ending == Finished ==> WordsOf(u.tokens) == words
    decreases |words|
  {
    hide Word, WordsOf;
    assert WordsOf([]) == [] by { Nothing(); }
    if words != [] {
      var u := Word(t, environment, words[0], words[1..]);
      WordsOfWord(t, environment, words[0], words[1..]);
      if u.ending == Finished {
        var more := words[1 + u.count..];
        EveryWordOnce(t, environment, more);
        WordsSplit(u.tokens, Parse(t, environment, more).tokens);
        Rejoin(words, u.count);
      }
    }
  }

  // ------------------------------------------------------------------
  //  Only options of the table
  // ------------------------------------------------------------------

  predicate InTable(t: Table, environment: bool, opt: Opt) {
    && Allowed(opt, environment)
    && (opt in t.letters.Values || opt in t.names.Values || (t.standalone != [] && opt == t.standalone[0]))
  }

  predicate TokensFrom(t: Table, environment: bool, tokens: seq<Token>) {
    forall i :: 0 <= i < |tokens| && !tokens[i].OptionWord? ==> InTable(t, environment, tokens[i].opt)
  }

  lemma {:induction false} ValuesOf(opt: Opt, words: seq<string>)
    ensures forall i :: 0 <= i < |words| ==> Values(opt, words)[i] == Value(opt, words[i])
  {
    if words != [] {
      ValuesOf(opt, words[1..]);
    }
  }

  lemma {:induction false} UseOf(opt: Opt, rest: seq<string>)
    ensures forall i :: 0 <= i < |Use(opt, rest).tokens| ==> !Use(opt, rest).tokens[i].OptionWord? && Use(opt, rest).tokens[i].opt == opt
  {
    var n := Plain(rest);
    ValuesOf(opt, rest[..n]);
    if n > 0 {
      ValuesOf(opt, rest[..1]);
    }
  }

  lemma {:induction false} ClusterFrom(t: Table, environment: bool, letters: string, rest: seq<string>)
    ensures TokensFrom(t, environment, Cluster(t, environment, letters, rest).tokens)
  {
    hide Use;
    if letters != [] && letters[0] in t.letters && Allowed(t.letters[letters[0]], environment) {
      UseOf(t.letters[letters[0]], rest);
      assert t.letters[letters[0]] in t.letters.Values;
      ClusterFrom(t, environment, letters[1..], rest[Use(t.letters[letters[0]], rest).count..]);
    }
  }

  lemma {:induction false} WordFrom(t: Table, environment: bool, w: string, rest: seq<string>)
    ensures TokensFrom(t, environment, Word(t, environment, w, rest).tokens)
  {
    hide Use, Cluster;
    if t.standalone != [] {
      ValuesOf(t.standalone[0], rest);
    }
    if IsArg(w) {
      ClusterFrom(t, environment, w[1..], rest);
      if w[2..] in t.names {
        UseOf(t.names[w[2..]], rest);
        assert t.names[w[2..]] in t.names.Values;
      }
    }
  }

  /** Values are only given to options of the table and, in the environment variable, to the
      ones that are allowed there. */
  lemma {:induction false} ParseFrom(t: Table, environment: bool, words: seq<string>)
    ensures TokensFrom(t, environment, Parse(t, environment, words).tokens)
    decreases |words|
  {
    hide Word, InTable;
    if words != [] {
      WordFrom(t, environment, words[0], words[1..]);
      ParseFrom(t, environment, words[1 + Word(t, environment, words[0], words[1..]).count..]);
    }
  }

  // ------------------------------------------------------------------
  //  The values that are kept
  // ------------------------------------------------------------------

  /** The values given under a name, in order. */
  function Given(tokens: seq<Token>, key: string): seq<string> {
    if tokens == [] then []
    else
      Given(tokens[..|tokens| - 1], key)
      + match tokens[|tokens| - 1]
        case OptionWord(_) => []
        case Value(opt, v) => if Key(opt) == key then [v] else []
        case Implied(opt) => if Key(opt) == key then [OrEmpty(opt.defaultValue)] else []
  }

  predicate IsMultiple(mode: Mode) {
    mode.RequiredMultiple? || mode.OptionalMultiple? || mode.DefaultMultiple?
  }

  /** What is left of them: all, the last one, or the first one of an option without value. */
  function Left(mode: Mode, values: seq<string>): seq<string>
    requires values != []
  {
    if IsMultiple(mode) then values else if mode.NoArgument? || mode.Help? then [values[0]] else [values[|values| - 1]]
  }

  /** The options kept under a name all have that mode. */
  predicate OneMode(tokens: seq<Token>, key: string, mode: Mode) {
    forall i :: 0 <= i < |tokens| && !tokens[i].OptionWord? && Key(tokens[i].opt) == key ==> tokens[i].opt.mode == mode
  }

  lemma {:induction false} KeepMeans(tokens: seq<Token>, key: string, mode: Mode)
    requires OneMode(tokens, key, mode)
    ensures var values, kept := Given(tokens, key), Keep(map[], tokens);
      && (key in kept <==> values != [])
      && (values != [] ==> kept[key] == Left(mode, values))
  {
    if tokens != [] {
      KeepMeans(tokens[..|tokens| - 1], key, mode);
      var token := tokens[|tokens| - 1];
      if !token.OptionWord? {
        OneMoreKept(Keep(map[], tokens[..|tokens| - 1]), Given(tokens[..|tokens| - 1], key), token.opt, key, mode,
          if token.Value? then token.value else OrEmpty(token.opt.defaultValue));
      }
    }
  }

  lemma {:induction false} OneMoreKept(m: Kept, values: seq<string>, opt: Opt, key: string, mode: Mode, v: string)
    requires key in m <==> values != []
    requires values != [] ==> m[key] == Left(mode, values)
    requires Key(opt) == key ==> opt.mode == mode
    ensures var m' := KeepOne(m, opt, v);
      if Key(opt) == key then key in m' && m'[key] == Left(mode, values + [v])
      else (key in m' <==> key in m) && (key in m ==> m'[key] == m[key])
  {
  }

  lemma {:induction false} GivenSplit(a: seq<Token>, b: seq<Token>, key: string)
    ensures Given(a + b, key) == Given(a, key) + Given(b, key)
  {
    if b == [] {
      assert a + b == a;
    } else {
      var b' := b[..|b| - 1];
      assert (a + b)[..|a + b| - 1] == a + b';
      GivenSplit(a, b', key);
      var last := Given([b[|b| - 1]], key);
      assert [b[|b| - 1]][..0] == [];
      assert Given(a, key) + (Given(b', key) + last) == Given(a, key) + Given(b', key) + last;
    }
  }

  ghost predicate TableHasOneMode(t: Table, key: string, mode: Mode) {
    forall opt :: InTable(t, false, opt) && Key(opt) == key ==> opt.mode == mode
  }

  /** The environment variable, then the command line: under a name whose options share a mode,
      every value is kept in order, or the last one, or the first one, whatever the options are
      called on the way. */
  lemma {:induction false} TwoPasses(t: Table, env: seq<string>, argv: seq<string>, key: string, mode: Mode)
    requires TableHasOneMode(t, key, mode)
    ensures var a, b := Parse(t, true, env).tokens, Parse(t, false, argv).tokens;
      var values, kept := Given(a, key) + Given(b, key), Keep(Keep(map[], a), b);
      && (key in kept <==> values != [])
      && (values != [] ==> kept[key] == Left(mode, values))
  {
    hide Parse;
    var a, b := Parse(t, true, env).tokens, Parse(t, false, argv).tokens;
    ParseFrom(t, true, env);
    ParseFrom(t, false, argv);
    forall i | 0 <= i < |a| && !a[i].OptionWord? ensures InTable(t, false, a[i].opt) {
      assert InTable(t, true, a[i].opt);
    }
    assert OneMode(a + b, key, mode);
    KeepMeans(a + b, key, mode);
    KeepSplit(map[], a, b);
    GivenSplit(a, b, key);
  }
}
