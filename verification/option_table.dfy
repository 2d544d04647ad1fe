/** The first loop of `reset()`: the options by letter and by name, and the default option. */
module OptionTable {
  import opened OrderedMaps
  import opened Getopt

  /** Without a letter and a name; such an option is used under two dashes. */
  predicate IsUnnamed(o: Opt) {
    o.letter.None? && o.name.None? && (o.mode.NoArgument? || IsDefault(o))
  }

  /** The name an option is found by, if any. */
  function LongName(o: Opt): Option<string> {
    if o.name.Some? then o.name else if IsUnnamed(o) then Some("--") else None
  }

  predicate IsCounted(o: Opt) {
    o.letter.Some? || LongName(o).Some?
  }

  predicate HasLetter(opts: seq<Opt>, k: nat, c: char)
    requires k <= |opts|
  {
    exists j :: 0 <= j < k && opts[j].letter == Some(c)
  }

  predicate HasName(opts: seq<Opt>, k: nat, name: string)
    requires k <= |opts|
  {
    exists j :: 0 <= j < k && LongName(opts[j]) == Some(name)
  }

  predicate HasDefault(opts: seq<Opt>, k: nat)
    requires k <= |opts|
  {
    exists j :: 0 <= j < k && IsDefault(opts[j])
  }

  /** Why an option is refused: its letter or name was seen before, its name is too short, it needs one,
      or it is the second default option. */
  predicate Refused(opts: seq<Opt>, i: nat)
    requires i < |opts|
  {
    var o := opts[i];
    || (o.letter.Some? && HasLetter(opts, i, o.letter.value))
    || (o.letter.None? && o.name.None? && (o.mode.Required? || o.mode.Optional? || o.mode.RequiredMultiple? || o.mode.OptionalMultiple?))
    || (o.name.Some? && (|o.name.value| < 2 || HasName(opts, i, o.name.value)))
    || (o.name.None? && o.inConfiguration)
    || (IsDefault(o) && HasDefault(opts, i))
  }

  /** What the tables hold after the first `k` options. */
  predicate Holds(opts: seq<Opt>, k: nat, letters: map<char, Opt>, names: map<string, Opt>, standalone: seq<Opt>)
    requires k <= |opts|
  {
    && (forall c :: c in letters ==> exists j :: 0 <= j < k && opts[j].letter == Some(c) && letters[c] == opts[j])
    && (forall j :: 0 <= j < k && opts[j].letter.Some? ==> opts[j].letter.value in letters)
    && (forall n :: n in names ==> exists j :: 0 <= j < k && LongName(opts[j]) == Some(n) && names[n] == opts[j])
    && (forall j :: 0 <= j < k && LongName(opts[j]).Some? ==> LongName(opts[j]).value in names)
    && |standalone| <= 1 && (standalone == [] <==> !HasDefault(opts, k))
    && (standalone != [] ==> IsDefault(standalone[0]) && standalone[0] in opts[..k])
  }

  lemma {:induction false} HoldsLetters(opts: seq<Opt>, k: nat, letters: map<char, Opt>, names: map<string, Opt>, standalone: seq<Opt>, c: char)
    requires k <= |opts| && Holds(opts, k, letters, names, standalone)
    ensures c in letters <==> HasLetter(opts, k, c)
  {
  }

  lemma {:induction false} HoldsNames(opts: seq<Opt>, k: nat, letters: map<char, Opt>, names: map<string, Opt>, standalone: seq<Opt>, n: string)
    requires k <= |opts| && Holds(opts, k, letters, names, standalone)
    ensures n in names <==> HasName(opts, k, n)
  {
  }

  /** One more option. */
  lemma {:induction false} HoldsMore(opts: seq<Opt>, k: nat, letters: map<char, Opt>, names: map<string, Opt>, standalone: seq<Opt>)
    requires k < |opts| && Holds(opts, k, letters, names, standalone) && !Refused(opts, k)
    ensures var o := opts[k];
      Holds(opts, k + 1,
            if o.letter.Some? then letters[o.letter.value := o] else letters,
            if LongName(o).Some? then names[LongName(o).value := o] else names,
            if IsDefault(o) then [o] else standalone)
  {
    hide LongName, IsDefault;
    assert opts[..k + 1] == opts[..k] + [opts[k]];
    if HasDefault(opts, k) {
      assert HasDefault(opts, k + 1);
    }
  }

  /** Reads the options into the tables, or raises an exception. */
  method ReadOptions(opts: seq<Opt>) returns (r: Option<Table>)
    ensures r.Some? <==> (exists i :: 0 <= i < |opts| && IsCounted(opts[i])) && forall i :: 0 <= i < |opts| ==> !Refused(opts, i)
    ensures r.Some? ==> Holds(opts, |opts|, r.value.letters, r.value.names, r.value.standalone)
  {
    hide Holds;
    var letters: map<char, Opt>, names: map<string, Opt>, standalone: seq<Opt> := map[], map[], [];
    var count := 0;
    var i := 0;
    HoldsNothing(opts);
    while i < |opts|
      invariant 0 <= i <= |opts| && Holds(opts, i, letters, names, standalone) && count >= 0
      invariant count > 0 <==> exists j :: 0 <= j < i && IsCounted(opts[j])
      invariant forall j :: 0 <= j < i ==> !Refused(opts, j)
      invariant forall j :: 0 <= j < |standalone| ==> IsDefault(standalone[j])
      invariant standalone == [] <==> !HasDefault(opts, i)
    {
      var o := opts[i];
      ghost var letters0, names0, standalone0 := letters, names, standalone;
      if o.letter.Some? {
        HoldsLetters(opts, i, letters, names, standalone, o.letter.value);
        if o.letter.value in letters {
          assert Refused(opts, i);
          return None;
        }
        letters := letters[o.letter.value := o];
        count := count + 1;
      } else if o.name.None? {
        match o.mode
        case Required | Optional | RequiredMultiple | OptionalMultiple =>
          assert Refused(opts, i);
          return None;
        case NoArgument | Default | DefaultMultiple =>
          names := names["--" := o];
          count := count + 1;
        case Help =>
      }
      if o.name.Some? {
        HoldsNames(opts, i, letters0, names, standalone, o.name.value);
        if |o.name.value| < 2 || o.name.value in names {
          assert Refused(opts, i);
          return None;
        }
        names := names[o.name.value := o];
        count := count + 1;
      } else if o.inConfiguration {
        assert Refused(opts, i);
        return None;
      }
      if IsDefault(o) {
        if standalone != [] {
          assert Refused(opts, i);
          return None;
        }
        standalone := [o];
      }
      HoldsMore(opts, i, letters0, names0, standalone0);
      i := i + 1;
    }
    if count == 0 {
      return None;
    }
    r := Some(Options(letters, names, standalone));
  }

  lemma {:induction false} HoldsNothing(opts: seq<Opt>)
    ensures Holds(opts, 0, map[], map[], [])
  {
  }
}
