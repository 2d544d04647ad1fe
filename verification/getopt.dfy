/** Command line and environment options. */
module Getopt {
  import opened OrderedMaps

  /** The "long" modes behave like the others and are left out. */
  datatype Mode =
    | NoArgument | Required | Optional | RequiredMultiple | OptionalMultiple | Default | DefaultMultiple | Help

  /** An option. An alias keeps its values under the name in its help text. */
  datatype Opt = Opt(mode: Mode, letter: Option<char>, name: Option<string>, alias: bool, help: string,
                     defaultValue: Option<string>, inEnvironment: bool, inConfiguration: bool)

  /** The name its values are kept under. */
  function Key(opt: Opt): string {
    if opt.alias then opt.help
    else match opt.name
      case Some(name) => name
      case None => if opt.letter.Some? then [opt.letter.value] else "--"
  }

  /** A null value is the empty string. */
  function OrEmpty(value: Option<string>): string {
    if value.Some? then value.value else ""
  }

  predicate IsDefault(opt: Opt) {
    opt.mode.Default? || opt.mode.DefaultMultiple?
  }

  /** The options by letter and by long name, and the default option, if any. */
  datatype Options = Options(letters: map<char, Opt>, names: map<string, Opt>, standalone: seq<Opt>)

  /** Only an option of a default mode is ever taken as the default option: see `ReadOptions`. */
  type Table = t: Options | forall i :: 0 <= i < |t.standalone| ==> IsDefault(t.standalone[i])
    witness Options(map[], map[], [])

  /** A word as it was understood. */
  datatype Token =
    | OptionWord(word: string)       // dashes and what names the options
    | Value(opt: Opt, value: string) // a word that is a value
    | Implied(opt: Opt)              // no word: the default value of an option

  /** The end of the parsing: normal, the exit after a usage message, or an exception. */
  datatype Ending = Finished | UsageError | Invalid

  datatype Used = Used(tokens: seq<Token>, count: nat, ending: Ending)

  predicate IsArg(word: string) {
    |word| >= 2 && word[0] == '-'
  }

  // ------------------------------------------------------------------
  //  What the words mean
  // ------------------------------------------------------------------

  /** How many words may follow as values. */
  function Plain(words: seq<string>): (n: nat)
    ensures n <= |words| && forall i :: 0 <= i < n ==> !IsArg(words[i])
    ensures n < |words| ==> IsArg(words[n])
  {
    if words == [] || IsArg(words[0]) then 0 else 1 + Plain(words[1..])
  }

  function Values(opt: Opt, words: seq<string>): (r: seq<Token>)
    ensures |r| == |words|
  {
    if words == [] then [] else [Value(opt, words[0])] + Values(opt, words[1..])
  }

  /** The values one use of an option takes from the words after it. */
  function Use(opt: Opt, rest: seq<string>): (u: Used)
    ensures u.count <= |rest|
  {
    var n := Plain(rest);
    match opt.mode
    case NoArgument => Used([Implied(opt)], 0, Finished)
    case Required => if n == 0 then Used([], 0, UsageError) else Used(Values(opt, rest[..1]), 1, Finished)
    case Optional | Default => if n == 0 then Used([Implied(opt)], 0, Finished) else Used(Values(opt, rest[..1]), 1, Finished)
    case RequiredMultiple => if n == 0 then Used([], 0, UsageError) else Used(Values(opt, rest[..n]), n, Finished)
    case OptionalMultiple | DefaultMultiple => if n == 0 then Used([Implied(opt)], 0, Finished) else Used(Values(opt, rest[..n]), n, Finished)
    case Help => Used([], 0, Invalid)
  }

  predicate Allowed(opt: Opt, environment: bool) {
    environment ==> opt.inEnvironment
  }

  /** Letters after one dash, which take their values one after the other. */
  function Cluster(t: Table, environment: bool, letters: string, rest: seq<string>): (u: Used)
    ensures u.count <= |rest|
    decreases |letters|, 0
  {
    if letters == [] then Used([], 0, Finished)
    else if letters[0] !in t.letters || !Allowed(t.letters[letters[0]], environment) then Used([], 0, UsageError)
    else Chain(Use(t.letters[letters[0]], rest), t, environment, letters[1..], rest)
  }

  function Chain(u: Used, t: Table, environment: bool, letters: string, rest: seq<string>): (r: Used)
    requires u.count <= |rest|
    ensures r.count <= |rest|
    decreases |letters|, 1
  {
    if u.ending != Finished then u
    else
      var v := Cluster(t, environment, letters, rest[u.count..]);
      Used(u.tokens + v.tokens, u.count + v.count, v.ending)
  }

  /** What one word, with the words after it that it takes, means. */
  function Word(t: Table, environment: bool, w: string, rest: seq<string>): (u: Used)
    ensures u.count <= |rest|
  {
    var usable := t.standalone != [] && Allowed(t.standalone[0], environment);
    if !IsArg(w) then
      if usable then Used([Value(t.standalone[0], w)], 0, Finished) else Used([], 0, UsageError)
    else if w[1] != '-' then
      var u := Cluster(t, environment, w[1..], rest);
      Used([OptionWord(w)] + u.tokens, u.count, u.ending)
    else if |w| == 2 then
      if usable then Used([OptionWord(w)] + Values(t.standalone[0], rest), |rest|, Finished) else Used([], 0, UsageError)
    else if w[2..] !in t.names || !Allowed(t.names[w[2..]], environment) then Used([], 0, UsageError)
    else
      var u := Use(t.names[w[2..]], rest);
      Used([OptionWord(w)] + u.tokens, u.count, u.ending)
  }

  function Parse(t: Table, environment: bool, words: seq<string>): (u: Used)
    ensures u.count <= |words|
    decreases |words|
  {
    if words == [] then Used([], 0, Finished)
    else
      var u := Word(t, environment, words[0], words[1..]);
      if u.ending != Finished then Used(u.tokens, 0, u.ending)
      else
        var v := Parse(t, environment, words[1 + u.count..]);
        Used(u.tokens + v.tokens, 1 + u.count + v.count, v.ending)
  }

  // ------------------------------------------------------------------
  //  What is kept
  // ------------------------------------------------------------------

  /** The values of one option: at least one. */
  type Texts = s: seq<string> | s != [] witness [""]

  type Kept = map<string, Texts>

  function KeepOne(m: Kept, opt: Opt, value: string): Kept {
    var key := Key(opt);
    if key !in m then m[key := [value]]
    else
      match opt.mode
      case NoArgument => m
      case Required | Optional | Default => m[key := m[key][0 := value]]
      case RequiredMultiple | OptionalMultiple | DefaultMultiple => m[key := m[key] + [value]]
      case Help => m
  }

  function Keep(m: Kept, tokens: seq<Token>): Kept {
    if tokens == [] then m
    else
      var n := Keep(m, tokens[..|tokens| - 1]);
      match tokens[|tokens| - 1]
      case OptionWord(_) => n
      case Value(opt, v) => KeepOne(n, opt, v)
      case Implied(opt) => KeepOne(n, opt, OrEmpty(opt.defaultValue))
  }

  lemma {:induction false} KeepSplit(m: Kept, a: seq<Token>, b: seq<Token>)
    ensures Keep(m, a + b) == Keep(Keep(m, a), b)
  {
    if b == [] {
      assert a + b == a;
    } else {
      assert (a + b)[..|a + b| - 1] == a + b[..|b| - 1];
      KeepSplit(m, a, b[..|b| - 1]);
    }
  }

  lemma {:induction false} KeepToken(m: Kept, a: seq<Token>, opt: Opt, value: string)
    ensures Keep(m, a + [Value(opt, value)]) == KeepOne(Keep(m, a), opt, value)
    ensures Keep(m, a + [Implied(opt)]) == KeepOne(Keep(m, a), opt, OrEmpty(opt.defaultValue))
    ensures Keep(m, a + [OptionWord(value)]) == Keep(m, a)
  {
    assert (a + [Value(opt, value)])[..|a|] == a && (a + [Implied(opt)])[..|a|] == a && (a + [OptionWord(value)])[..|a|] == a;
  }

  // ------------------------------------------------------------------
  //  The parser
  // ------------------------------------------------------------------

  lemma {:induction false} ValuesGrow(opt: Opt, words: seq<string>, n: nat)
    requires n < |words|
    ensures Values(opt, words[..n + 1]) == Values(opt, words[..n]) + [Value(opt, words[n])]
    decreases n
  {
    if n == 0 {
      assert words[..1] == [words[0]] && words[..0] == [];
      assert [words[0]][1..] == [];
    } else {
      assert words[..n + 1][1..] == words[1..][..n] && words[..n][1..] == words[1..][..n - 1];
      ValuesGrow(opt, words[1..], n - 1);
    }
  }

  lemma {:induction false} PlainAt(words: seq<string>, n: nat)
    requires n <= Plain(words)
    ensures Plain(words) == n <==> n == |words| || IsArg(words[n])
  {
  }

  class GetOpt {
    var kept: Kept

    constructor ()
      ensures kept == map[]
    {
      kept := map[];
    }

    /** A second value for an option without a proper mode is an exception. */
    method AddOption(opt: Opt, value: Option<string>) returns (ok: bool)
      modifies this
      ensures kept == KeepOne(old(kept), opt, OrEmpty(value))
      ensures ok <==> !(Key(opt) in old(kept) && opt.mode.Help?)
    {
      ok := true;
      var name;
      if opt.alias {
        name := opt.help;
      } else if opt.name == None {
        if opt.letter == None {
          name := "--";
        } else {
          name := [opt.letter.value];
        }
      } else {
        name := opt.name.value;
      }
      var v := if value == None then "" else value.value;
      if name !in kept {
        kept := kept[name := [v]];
      } else {
        match opt.mode
        case NoArgument =>
        case Required | Optional | Default => kept := kept[name := kept[name][0 := v]];
        case RequiredMultiple | OptionalMultiple | DefaultMultiple => kept := kept[name := kept[name] + [v]];
        case Help => ok := false;
      }
    }

    /** The words after index `i0` that are values, up to the first one that is not. */
    method AddValues(opt: Opt, i0: nat, argv: seq<string>) returns (i: nat)
      requires i0 < |argv| && !opt.mode.Help?
      modifies this
      ensures var rest := argv[i0 + 1..];
        i == i0 + Plain(rest) < |argv| && kept == Keep(old(kept), Values(opt, rest[..Plain(rest)]))
    {
      hide Keep;
      KeepNothing(kept);
      ghost var rest := argv[i0 + 1..];
      i := i0;
      assert rest[..0] == [];
      while i + 1 < |argv| && !IsArg(argv[i + 1])
        invariant i0 <= i < |argv| && i - i0 <= Plain(rest)
        invariant kept == Keep(old(kept), Values(opt, rest[..i - i0]))
      {
        i := i + 1;
        ghost var n := i - i0 - 1;
        assert rest[n] == argv[i];
        PlainAt(rest, n);
        ValuesGrow(opt, rest, n);
        KeepToken(old(kept), Values(opt, rest[..n]), opt, argv[i]);
        var ok := AddOption(opt, Some(argv[i]));
        assert ok;
      }
      assert i + 1 < |argv| ==> rest[i - i0] == argv[i + 1];
      PlainAt(rest, i - i0);
    }

    /** The values of the option at index `i0`; `i` is the last word taken. */
    method AddOptions(opt: Opt, i0: nat, argv: seq<string>) returns (i: nat, ending: Ending)
      requires i0 < |argv|
      modifies this
      ensures var u := Use(opt, argv[i0 + 1..]);
        i == i0 + u.count < |argv| && ending == u.ending && kept == Keep(old(kept), u.tokens)
    {
      ghost var rest := argv[i0 + 1..];
      PlainAt(rest, 0);
      KeepToken(kept, [], opt, "");
      assert [] + [Implied(opt)] == [Implied(opt)];
      assert rest != [] ==> Values(opt, rest[..1]) == [Value(opt, rest[0])] by {
        if rest != [] { ValuesGrow(opt, rest, 0); }
      }
      i, ending := i0, Finished;
      var given := i + 1 < |argv| && !IsArg(argv[i + 1]);
      assert given <==> Plain(rest) > 0;
      match opt.mode
      case NoArgument =>
        var ok := AddOption(opt, opt.defaultValue);
        assert ok;
      case Required =>
        if !given {
          return i, UsageError;
        }
        i := i + 1;
        var ok := AddOption(opt, Some(argv[i]));
        assert ok;
      case Optional | Default =>
        if given {
          i := i + 1;
          var ok := AddOption(opt, Some(argv[i]));
          assert ok;
        } else {
          var ok := AddOption(opt, opt.defaultValue);
          assert ok;
        }
      case RequiredMultiple =>
        if !given {
          return i, UsageError;
        }
        i := AddValues(opt, i0, argv);
      case OptionalMultiple | DefaultMultiple =>
        i := AddValues(opt, i0, argv);
        if i == i0 {
          var ok := AddOption(opt, opt.defaultValue);
          assert ok;
        }
      case Help => ending := Invalid;
    }

    /** The letters of the word at index `k`. Each option moves the index on. */
    method ParseLetters(t: Table, environment: bool, k: nat, argv: seq<string>) returns (i: nat, ending: Ending)
      requires k < |argv| && argv[k] != []
      modifies this
      ensures var u := Cluster(t, environment, argv[k][1..], argv[k + 1..]);
        i == k + u.count < |argv| && ending == u.ending && kept == Keep(old(kept), u.tokens)
    {
      hide Use, Keep;
      ghost var all := Cluster(t, environment, argv[k][1..], argv[k + 1..]);
      ghost var done: seq<Token> := [];
      KeepNothing(kept);
      assert [] + all.tokens == all.tokens;
      i, ending := k, Finished;
      var j := 1;
      while j < |argv[k]|
        invariant 1 <= j <= |argv[k]| && k <= i < |argv|
        invariant ending == Finished && kept == Keep(old(kept), done)
        invariant Follows(all, done, i - k, Cluster(t, environment, argv[k][j..], argv[i + 1..]))
      {
        var c := argv[k][j];
        assert argv[k][j..][0] == c && argv[k][j..][1..] == argv[k][j + 1..];
        if c !in t.letters {
          FollowsEnd(all, done, i - k, UsageError);
          return i, UsageError;
        }
        if environment && !t.letters[c].inEnvironment {
          FollowsEnd(all, done, i - k, UsageError);
          return i, UsageError;
        }
        ghost var rest := argv[i + 1..];
        ghost var u := Use(t.letters[c], rest);
        ghost var before := i;
        KeepSplit(old(kept), done, u.tokens);
        i, ending := AddOptions(t.letters[c], i, argv);
        if ending != Finished {
          return;
        }
        assert rest[u.count..] == argv[i + 1..];
        FollowsNext(all, done, before - k, u, Cluster(t, environment, argv[k][j + 1..], argv[i + 1..]));
        done := done + u.tokens;
        j := j + 1;
      }
      FollowsEnd(all, done, i - k, Finished);
    }

    /** Options from index 1 on; the callees move the index. */
    method ParseArguments(argv: seq<string>, t: Table, environment: bool) returns (ending: Ending)
      requires argv != []
      modifies this
      ensures var u := Parse(t, environment, argv[1..]);
        ending == u.ending && kept == Keep(old(kept), u.tokens)
    {
      hide Keep, Word;
      ghost var all := Parse(t, environment, argv[1..]);
      ghost var done: seq<Token> := [];
      KeepNothing(kept);
      assert [] + all.tokens == all.tokens;
      ending := Finished;
      var i := 1;
      while i < |argv|
        invariant 1 <= i <= |argv|
        invariant ending == Finished && kept == Keep(old(kept), done)
        invariant Remains(all, done, t, environment, argv[i..])
      {
        RemainsNext(all, done, t, environment, argv, i);
        ghost var u := Word(t, environment, argv[i], argv[i + 1..]);
        KeepSplit(old(kept), done, u.tokens);
        i, ending := ParseWord(t, environment, i, argv);
        if ending != Finished {
          return;
        }
        done := done + u.tokens;
        i := i + 1;
      }
      assert argv[i..] == [] && done + [] == done;
    }

    /** The body of the loop: the word at index `k` and its values. */
    method ParseWord(t: Table, environment: bool, k: nat, argv: seq<string>) returns (i: nat, ending: Ending)
      requires k < |argv|
      modifies this
      ensures var u := Word(t, environment, argv[k], argv[k + 1..]);
        i == k + u.count < |argv| && ending == u.ending && kept == Keep(old(kept), u.tokens)
    {
      hide Use, Cluster, Keep;
      var w := argv[k];
      i, ending := k, Finished;
      KeepNothing(kept);
      KeepWord(kept, w, t, argv[k + 1..]);
      if IsArg(w) {
        if w[1] == '-' {
          if |w| == 2 {
            if t.standalone == [] || (environment && !t.standalone[0].inEnvironment) {
              return i, UsageError;
            }
            i := AddRest(t.standalone[0], k, argv);
          } else {
            if w[2..] !in t.names || (environment && !t.names[w[2..]].inEnvironment) {
              return i, UsageError;
            }
            KeepSplit(kept, [OptionWord(w)], Use(t.names[w[2..]], argv[k + 1..]).tokens);
            i, ending := AddOptions(t.names[w[2..]], k, argv);
          }
        } else {
          KeepSplit(kept, [OptionWord(w)], Cluster(t, environment, w[1..], argv[k + 1..]).tokens);
          i, ending := ParseLetters(t, environment, k, argv);
        }
      } else {
        if t.standalone == [] || (environment && !t.standalone[0].inEnvironment) {
          return i, UsageError;
        }
        var ok := AddOption(t.standalone[0], Some(w));
        assert ok;
      }
    }

    /** After two dashes, dashes mean nothing. */
    method AddRest(opt: Opt, k: nat, argv: seq<string>) returns (i: nat)
      requires k < |argv| && IsDefault(opt)
      modifies this
      ensures i == |argv| - 1 && kept == Keep(old(kept), Values(opt, argv[k + 1..]))
    {
      hide Keep;
      ghost var rest := argv[k + 1..];
      i := k;
      KeepNothing(kept);
      assert rest[..0] == [];
      while i + 1 < |argv|
        invariant k <= i < |argv|
        invariant kept == Keep(old(kept), Values(opt, rest[..i - k]))
      {
        i := i + 1;
        ghost var n := i - k - 1;
        assert rest[n] == argv[i];
        ValuesGrow(opt, rest, n);
        KeepToken(old(kept), Values(opt, rest[..n]), opt, argv[i]);
        var ok := AddOption(opt, Some(argv[i]));
        assert ok;
      }
      assert rest[..i - k] == rest;
    }
  }

  /** `all` is what was done, then what the words left mean. */
  predicate Remains(all: Used, done: seq<Token>, t: Table, environment: bool, words: seq<string>) {
    var u := Parse(t, environment, words);
    all.tokens == done + u.tokens && all.ending == u.ending
  }

  lemma {:induction false} RemainsNext(all: Used, done: seq<Token>, t: Table, environment: bool, argv: seq<string>, i: nat)
    requires i < |argv| && Remains(all, done, t, environment, argv[i..])
    ensures var u := Word(t, environment, argv[i], argv[i + 1..]);
      if u.ending == Finished then Remains(all, done + u.tokens, t, environment, argv[i + 1 + u.count..])
      else all.tokens == done + u.tokens && all.ending == u.ending
  {
    hide Word;
    assert argv[i..][0] == argv[i] && argv[i..][1..] == argv[i + 1..];
    var u := Word(t, environment, argv[i], argv[i + 1..]);
    assert argv[i..][1 + u.count..] == argv[i + 1 + u.count..];
    var v := Parse(t, environment, argv[i + 1 + u.count..]);
    assert done + (u.tokens + v.tokens) == done + u.tokens + v.tokens;
  }

  lemma {:induction false} KeepWord(m: Kept, w: string, t: Table, rest: seq<string>)
    ensures Keep(m, [OptionWord(w)]) == m
    ensures t.standalone != [] ==> Keep(m, [Value(t.standalone[0], w)]) == KeepOne(m, t.standalone[0], w)
    ensures t.standalone != [] ==> Keep(m, [OptionWord(w)] + Values(t.standalone[0], rest)) == Keep(m, Values(t.standalone[0], rest))
  {
    if t.standalone != [] {
      KeepToken(m, [], t.standalone[0], w);
      KeepSplit(m, [OptionWord(w)], Values(t.standalone[0], rest));
    }
    assert [OptionWord(w)][..0] == [] && (t.standalone != [] ==> [Value(t.standalone[0], w)][..0] == []);
  }

  /** `all` is what was done, then `more`. */
  predicate Follows(all: Used, done: seq<Token>, count: int, more: Used) {
    all.tokens == done + more.tokens && all.count == count + more.count && all.ending == more.ending
  }

  lemma {:induction false} FollowsEnd(all: Used, done: seq<Token>, count: int, ending: Ending)
    requires Follows(all, done, count, Used([], 0, ending))
    ensures all.tokens == done && all.count == count && all.ending == ending
  {
  }

  lemma {:induction false} FollowsNext(all: Used, done: seq<Token>, count: int, u: Used, v: Used)
    requires Follows(all, done, count, Used(u.tokens + v.tokens, u.count + v.count, v.ending))
    ensures Follows(all, done + u.tokens, count + u.count, v)
  {
    assert done + (u.tokens + v.tokens) == done + u.tokens + v.tokens;
  }

  lemma {:induction false} KeepNothing(m: Kept)
    ensures Keep(m, []) == m
  {
  }
}
